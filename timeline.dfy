/**
 * The savings projection: one row per year `0..anios`, each holding the
 * invested capital, the nominal value under monthly compounding (initial
 * capital plus an ordinary annuity of monthly deposits) and the real value
 * (nominal deflated by cumulative inflation), all rounded with `Math.round`.
 */
module Engine {
  import opened Numeric
  import opened Text

  /** The engine's inputs; both rates are percentages (`8.0` means 8 %). */
  datatype Params = Params(
    capitalInicial: real,
    aportacionMensual: real,
    tasaAnual: real,
    tasaInflacion: real,
    anios: int)

  /** One year of the projection; the money fields are already rounded. */
  datatype Row = Row(anio: int, yearLabel: string, capitalInvertido: int, valorNominal: int, valorReal: int)

  /** Compounding periods per year. */
  const N: nat := 12

  function AnnualRate(p: Params): real { p.tasaAnual / 100.0 }

  function InflationRate(p: Params): real { p.tasaInflacion / 100.0 }

  /** Growth of one unit over `t` years: `(1 + r/12)^(12 t)`. */
  function Factor(p: Params, t: nat): real
  {
    Pow(1.0 + AnnualRate(p) / N as real, N * t)
  }

  /**
   * Nominal value after `t` years. The annuity formula divides by the monthly
   * rate, so a rate that is not positive takes the linear branch instead.
   */
  function NominalValue(p: Params, t: nat): real
  {
    var factor := Factor(p, t);
    var r := AnnualRate(p);
    p.capitalInicial * factor
      + (if r > 0.0 then p.aportacionMensual * ((factor - 1.0) / (r / N as real))
         else p.aportacionMensual * N as real * t as real)
  }

  /** Sum of all contributions after `t` years, without growth. */
  function InvestedCapital(p: Params, t: nat): real
  {
    p.capitalInicial + p.aportacionMensual * 12.0 * t as real
  }

  /** Cumulative inflation over `t` years: `(1 + inf)^t`. */
  function InflationFactor(p: Params, t: nat): real
  {
    Pow(1.0 + InflationRate(p), t)
  }

  /** A rate of -100 % inflation deflates by zero from the first year on; the engine excludes it. */
  predicate Deflatable(p: Params)
  {
    p.tasaInflacion != -100.0
  }

  function RealValue(p: Params, t: nat): real
    requires Deflatable(p)
  {
    PowNonzero(1.0 + InflationRate(p), t);
    NominalValue(p, t) / InflationFactor(p, t)
  }

  function Label(y: int): string
  {
    "Año " + IntToString(y)
  }

  /** The row the loop pushes for year `y`. */
  function YearRow(p: Params, y: nat): Row
    requires Deflatable(p)
  {
    Row(y, Label(y), Round(InvestedCapital(p, y)), Round(NominalValue(p, y)), Round(RealValue(p, y)))
  }

  /** How many times `for (let y = 0; y <= anios; y++)` runs. */
  function RowCount(anios: int): nat
  {
    if anios >= 0 then anios + 1 else 0
  }

  /** The whole projection, as a value. */
  function Timeline(p: Params): seq<Row>
    requires Deflatable(p)
  {
    seq(RowCount(p.anios), (y: int) requires 0 <= y => YearRow(p, y))
  }

  /** The loop itself: appends the row of every year `0..anios` in order. */
  method CalcTimeline(p: Params) returns (rows: seq<Row>)
    requires Deflatable(p)
    ensures rows == Timeline(p)
  {
    rows := [];
    var y := 0;
    while y <= p.anios
      invariant 0 <= y <= RowCount(p.anios)
      invariant rows == Timeline(p)[..y]
    {
      rows := rows + [YearRow(p, y)];
      y := y + 1;
    }
  }

  /** Exactly `anios + 1` rows, and row `i` is the row of year `i`. */
  lemma TimelineShape(p: Params)
    requires Deflatable(p) && p.anios >= 0
    ensures |Timeline(p)| == p.anios + 1
    ensures forall i :: 0 <= i < |Timeline(p)| ==> Timeline(p)[i].anio == i
    ensures forall i :: 0 <= i < |Timeline(p)| ==>
      var tag := Timeline(p)[i].yearLabel;
      |tag| > 4 && tag[..4] == "Año " && ParseInt(tag[4..]) == Some(i)
  {
    forall i | 0 <= i < |Timeline(p)|
      ensures var tag := Timeline(p)[i].yearLabel;
        |tag| > 4 && tag[..4] == "Año " && ParseInt(tag[4..]) == Some(i)
    {
      var tag := Timeline(p)[i].yearLabel;
      assert tag[4..] == IntToString(i);
      IntToStringRoundTrip(i);
    }
  }

  /** Year 0 is the starting point: no growth, no contributions, no deflation. */
  lemma FirstRow(p: Params)
    requires Deflatable(p)
    ensures var row := YearRow(p, 0);
      row.anio == 0 &&
      row.capitalInvertido == Round(p.capitalInicial) &&
      row.valorNominal == Round(p.capitalInicial) &&
      row.valorReal == Round(p.capitalInicial)
  {
  }

  /** The invested capital depends on neither the interest rate nor the inflation rate. */
  lemma InvestedIgnoresRates(p: Params, q: Params, t: nat)
    requires Deflatable(p) && Deflatable(q)
    requires p.capitalInicial == q.capitalInicial && p.aportacionMensual == q.aportacionMensual
    ensures YearRow(p, t).capitalInvertido == YearRow(q, t).capitalInvertido
  {
    assert InvestedCapital(p, t) == InvestedCapital(q, t);
  }

  /** With a zero rate the nominal value is the plain sum of contributions. */
  lemma ZeroRateIsInvestedCapital(p: Params, t: nat)
    requires Deflatable(p) && p.tasaAnual == 0.0
    ensures NominalValue(p, t) == InvestedCapital(p, t)
    ensures YearRow(p, t).valorNominal == YearRow(p, t).capitalInvertido
  {
    PowOne(N * t);
  }

  /** The annuity term grows at least linearly: `(factor - 1) / (r/12) >= 12 t`. */
  lemma AnnuityAtLeastContributions(p: Params, t: nat)
    requires p.tasaAnual > 0.0
    ensures (Factor(p, t) - 1.0) / (AnnualRate(p) / N as real) >= (N * t) as real
  {
    var x := AnnualRate(p) / N as real;
    Bernoulli(x, N * t);
    DivLowerBound(Factor(p, t) - 1.0, (N * t) as real, x);
  }

  /** Interest never destroys principal, before and after rounding. */
  lemma NominalAtLeastInvested(p: Params, t: nat)
    requires Deflatable(p)
    requires p.capitalInicial >= 0.0 && p.aportacionMensual >= 0.0 && p.tasaAnual >= 0.0
    ensures NominalValue(p, t) >= InvestedCapital(p, t)
    ensures YearRow(p, t).valorNominal >= YearRow(p, t).capitalInvertido
  {
    if p.tasaAnual == 0.0 {
      ZeroRateIsInvestedCapital(p, t);
    } else {
      var x := AnnualRate(p) / N as real;
      var factor := Factor(p, t);
      PowAtLeastOne(1.0 + x, N * t);
      MulRightMonotone(p.capitalInicial, 1.0, factor);
      AnnuityAtLeastContributions(p, t);
      MulRightMonotone(p.aportacionMensual, (N * t) as real, (factor - 1.0) / x);
      assert p.aportacionMensual * (N * t) as real == p.aportacionMensual * 12.0 * t as real;
      RoundMonotone(InvestedCapital(p, t), NominalValue(p, t));
    }
  }

  /** With a non-negative rate the growth factor never shrinks from one year to a later one. */
  lemma FactorMonotone(p: Params, s: nat, t: nat)
    requires s <= t && p.tasaAnual >= 0.0
    ensures 1.0 <= Factor(p, s) <= Factor(p, t)
  {
    var g := 1.0 + AnnualRate(p) / N as real;
    PowAtLeastOne(g, N * s);
    PowMonotoneInExponent(g, N * s, N * t);
  }

  /** Later years are worth at least as much, before rounding. */
  lemma NominalValueMonotone(p: Params, s: nat, t: nat)
    requires s <= t
    requires p.capitalInicial >= 0.0 && p.aportacionMensual >= 0.0 && p.tasaAnual >= 0.0
    ensures NominalValue(p, s) <= NominalValue(p, t)
  {
    var a := p.aportacionMensual;
    var x := AnnualRate(p) / N as real;
    var fs, ft := Factor(p, s), Factor(p, t);
    FactorMonotone(p, s, t);
    MulRightMonotone(p.capitalInicial, fs, ft);
    if AnnualRate(p) > 0.0 {
      DivMonotone(fs - 1.0, ft - 1.0, x);
      MulRightMonotone(a, (fs - 1.0) / x, (ft - 1.0) / x);
    } else {
      MulRightMonotone(a * N as real, s as real, t as real);
    }
  }

  /** Later years are worth at least as much, in nominal terms and in contributions. */
  lemma NominalMonotone(p: Params, s: nat, t: nat)
    requires Deflatable(p) && s <= t
    requires p.capitalInicial >= 0.0 && p.aportacionMensual >= 0.0 && p.tasaAnual >= 0.0
    ensures YearRow(p, s).valorNominal <= YearRow(p, t).valorNominal
    ensures YearRow(p, s).capitalInvertido <= YearRow(p, t).capitalInvertido
  {
    NominalValueMonotone(p, s, t);
    RoundMonotone(NominalValue(p, s), NominalValue(p, t));
    InvestedCapitalMonotone(p, s, t);
    RoundMonotone(InvestedCapital(p, s), InvestedCapital(p, t));
  }

  lemma InvestedCapitalMonotone(p: Params, s: nat, t: nat)
    requires s <= t && p.aportacionMensual >= 0.0
    ensures InvestedCapital(p, s) <= InvestedCapital(p, t)
  {
    MulRightMonotone(p.aportacionMensual * 12.0, s as real, t as real);
  }

  /** Deflating by a non-negative inflation rate never raises a non-negative value. */
  lemma RealAtMostNominal(p: Params, t: nat)
    requires Deflatable(p) && p.tasaInflacion >= 0.0 && NominalValue(p, t) >= 0.0
    ensures RealValue(p, t) <= NominalValue(p, t)
    ensures YearRow(p, t).valorReal <= YearRow(p, t).valorNominal
  {
    PowAtLeastOne(1.0 + InflationRate(p), t);
    DivByAtLeastOne(NominalValue(p, t), InflationFactor(p, t));
    RoundMonotone(RealValue(p, t), NominalValue(p, t));
  }

  /** Without inflation the real value is the nominal value. */
  lemma ZeroInflationIsNominal(p: Params, t: nat)
    requires p.tasaInflacion == 0.0
    ensures RealValue(p, t) == NominalValue(p, t)
    ensures YearRow(p, t).valorReal == YearRow(p, t).valorNominal
  {
    PowOne(t);
  }

  /** The row-to-row consequences of the lemmas above, over the whole projection. */
  lemma TimelineOrdered(p: Params, i: nat, j: nat)
    requires Deflatable(p) && i <= j < |Timeline(p)|
    requires p.capitalInicial >= 0.0 && p.aportacionMensual >= 0.0 && p.tasaAnual >= 0.0
    ensures Timeline(p)[i].valorNominal <= Timeline(p)[j].valorNominal
    ensures Timeline(p)[i].capitalInvertido <= Timeline(p)[j].capitalInvertido
    ensures Timeline(p)[j].capitalInvertido <= Timeline(p)[j].valorNominal
    ensures p.tasaInflacion >= 0.0 ==> Timeline(p)[j].valorReal <= Timeline(p)[j].valorNominal
  {
    NominalMonotone(p, i, j);
    NominalAtLeastInvested(p, j);
    RealAtMostNominalForInputs(p, j);
  }

  /** With non-negative inputs and inflation, no year is worth more in real terms than nominally. */
  lemma RealAtMostNominalForInputs(p: Params, t: nat)
    requires Deflatable(p)
    requires p.capitalInicial >= 0.0 && p.aportacionMensual >= 0.0 && p.tasaAnual >= 0.0
    ensures p.tasaInflacion >= 0.0 ==> YearRow(p, t).valorReal <= YearRow(p, t).valorNominal
  {
    if p.tasaInflacion >= 0.0 {
      NominalAtLeastInvested(p, t);
      MulNonnegative(p.aportacionMensual * 12.0, t as real);
      RealAtMostNominal(p, t);
    }
  }

  /** Ten thousand at the start, 500 a month, 8 % interest, 3 % inflation, one year. */
  lemma OneYearExample()
    ensures Timeline(Params(10000.0, 500.0, 8.0, 3.0, 1)) ==
      [Row(0, "Año 0", 10000, 10000, 10000), Row(1, "Año 1", 16000, 17055, 16558)]
  {
    var p := Params(10000.0, 500.0, 8.0, 3.0, 1);
    var g := Pow(1.0 + 0.08 / 12.0, 12);
    assert Factor(p, 1) == g;
    assert NominalValue(p, 1) == 10000.0 * g + 500.0 * ((g - 1.0) / (0.08 / 12.0));
    assert Round(NominalValue(p, 1)) == 17055;
    assert InflationFactor(p, 1) == 1.03;
    assert Round(RealValue(p, 1)) == 16558;
    assert Label(0) == "Año 0" && Label(1) == "Año 1";
    assert Timeline(p)[0] == Row(0, "Año 0", 10000, 10000, 10000);
    assert Timeline(p)[1] == Row(1, "Año 1", 16000, 17055, 16558);
  }

  /** Nothing at the start, 100 a month, no interest, no inflation, two years. */
  lemma ZeroRateExample()
    ensures Timeline(Params(0.0, 100.0, 0.0, 0.0, 2))[2] == Row(2, "Año 2", 2400, 2400, 2400)
  {
    var p := Params(0.0, 100.0, 0.0, 0.0, 2);
    ZeroRateIsInvestedCapital(p, 2);
    ZeroInflationIsNominal(p, 2);
    assert InvestedCapital(p, 2) == 2400.0;
    assert Label(2) == "Año 2";
  }
}
