/**
 * What the application derives from its inputs on every change: the horizon
 * from the two ages, the projection, the final-year summary and the two
 * slices of the donut chart.
 */
module Summary {
  import opened Engine

  /** The values the controls hold; the ages are whole years. */
  datatype Inputs = Inputs(
    capitalInicial: real,
    aportacionMensual: real,
    tasaAnual: real,
    tasaInflacion: real,
    edadActual: int,
    edadRetiro: int)

  /** The final-year figures. */
  datatype Resultado = Resultado(nominal: int, valorReal: int, capitalInvertido: int, intereses: int)

  datatype Slice = Slice(name: string, value: int)

  datatype Projection = Projection(anios: int, timeline: seq<Row>, resultado: Resultado, donut: seq<Slice>)

  /** `Math.max(edadRetiro - edadActual, 1)`: the years to retirement, but never fewer than one. */
  function Horizon(edadActual: int, edadRetiro: int): (anios: int)
    ensures anios >= 1 && anios >= edadRetiro - edadActual
    ensures anios == edadRetiro - edadActual || anios == 1
  {
    if edadRetiro - edadActual > 1 then edadRetiro - edadActual else 1
  }

  /** The summary is read off the last row. */
  function Summarize(timeline: seq<Row>): Resultado
    requires |timeline| > 0
  {
    var finalRow := timeline[|timeline| - 1];
    Resultado(finalRow.valorNominal, finalRow.valorReal, finalRow.capitalInvertido,
              finalRow.valorNominal - finalRow.capitalInvertido)
  }

  /** The contributed capital and the interest earned, the latter shown as zero when negative. */
  function DonutData(s: Resultado): (d: seq<Slice>)
    ensures |d| == 2 && d[0].value == s.capitalInvertido
    ensures d[1].value >= 0 && d[1].value >= s.intereses
    ensures d[1].value == s.intereses || d[1].value == 0
  {
    [Slice("Capital Aportado", s.capitalInvertido),
     Slice("Intereses Generados", if s.intereses > 0 then s.intereses else 0)]
  }

  function ParamsOf(inp: Inputs): Params
  {
    Params(inp.capitalInicial, inp.aportacionMensual, inp.tasaAnual, inp.tasaInflacion,
           Horizon(inp.edadActual, inp.edadRetiro))
  }

  /** The whole derivation, from the inputs to the figures on screen. */
  function Project(inp: Inputs): (pr: Projection)
    requires inp.tasaInflacion != -100.0
    ensures pr.anios >= 1 && |pr.timeline| == pr.anios + 1
  {
    var p := ParamsOf(inp);
    TimelineShape(p);
    var timeline := Timeline(p);
    var resultado := Summarize(timeline);
    Projection(p.anios, timeline, resultado, DonutData(resultado))
  }

  /**
   * The summary comes from the final year, the horizon itself, and its interest
   * is the nominal value minus what was paid in.
   */
  lemma SummaryIsFinalYear(inp: Inputs)
    requires inp.tasaInflacion != -100.0
    ensures var pr := Project(inp); var p := ParamsOf(inp);
      pr.resultado.nominal == YearRow(p, pr.anios).valorNominal &&
      pr.resultado.valorReal == YearRow(p, pr.anios).valorReal &&
      pr.resultado.capitalInvertido == YearRow(p, pr.anios).capitalInvertido &&
      pr.resultado.intereses == pr.resultado.nominal - pr.resultado.capitalInvertido
  {
    TimelineShape(ParamsOf(inp));
  }

  /**
   * With non-negative amounts and rate the interest is never negative, so the
   * donut shows it unclamped and its two slices add up to the nominal value.
   */
  lemma InterestNonNegative(inp: Inputs)
    requires inp.tasaInflacion != -100.0
    requires inp.capitalInicial >= 0.0 && inp.aportacionMensual >= 0.0 && inp.tasaAnual >= 0.0
    ensures var pr := Project(inp);
      pr.resultado.intereses >= 0 &&
      pr.donut[1].value == pr.resultado.intereses &&
      pr.donut[0].value + pr.donut[1].value == pr.resultado.nominal
  {
    var p := ParamsOf(inp);
    SummaryIsFinalYear(inp);
    NominalAtLeastInvested(p, p.anios);
  }

  /** Without interest nothing is earned. */
  lemma ZeroRateEarnsNothing(inp: Inputs)
    requires inp.tasaInflacion != -100.0 && inp.tasaAnual == 0.0
    ensures Project(inp).resultado.intereses == 0
  {
    var p := ParamsOf(inp);
    SummaryIsFinalYear(inp);
    ZeroRateIsInvestedCapital(p, p.anios);
  }

  /** With non-negative inputs the money is never worth more in real terms than nominally. */
  lemma RealAtMostNominalAtHorizon(inp: Inputs)
    requires inp.tasaInflacion >= 0.0
    requires inp.capitalInicial >= 0.0 && inp.aportacionMensual >= 0.0 && inp.tasaAnual >= 0.0
    ensures Project(inp).resultado.valorReal <= Project(inp).resultado.nominal
  {
    var p := ParamsOf(inp);
    SummaryIsFinalYear(inp);
    NominalValueMonotone(p, 0, p.anios);
    assert NominalValue(p, 0) == inp.capitalInicial;
    RealAtMostNominal(p, p.anios);
  }

  /** The default controls: 10000, 500 a month, 8 %, 3 % inflation, from age 30 to 65. */
  lemma HorizonExamples()
    ensures Horizon(30, 65) == 35 && Horizon(40, 40) == 1 && Horizon(50, 45) == 1
  {
  }
}
