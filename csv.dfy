/**
 * The text of the CSV export: a header line, then one line per row with the
 * year and the three rounded amounts, fields joined by ',' and lines by '\n'.
 * `DecodeCsv` reads such a text back; it is the specification of what the text
 * holds, not part of the application.
 */
module Csv {
  import opened Text
  import opened Engine

  const HeaderFields: seq<string> := ["Año", "Capital Invertido", "Valor Nominal", "Valor Real"]

  /** The four exported numbers of one row, as the reader recovers them. */
  datatype Record = Record(anio: int, capitalInvertido: int, valorNominal: int, valorReal: int)

  function RowFields(r: Row): seq<string>
  {
    [IntToString(r.anio), IntToString(r.capitalInvertido), IntToString(r.valorNominal), IntToString(r.valorReal)]
  }

  function RowLine(r: Row): string
  {
    Join(RowFields(r), ',')
  }

  function HeaderLine(): (h: string)
    ensures |h| > 0 && '\n' !in h
  {
    JoinAvoids(HeaderFields, ',', '\n');
    JoinEndsWithLast(HeaderFields, ',');
    Join(HeaderFields, ',')
  }

  /** `timeline.map(...).map(r => r.join(','))`: one line per row, in order. */
  function RowLines(timeline: seq<Row>): (lines: seq<string>)
    ensures |lines| == |timeline|
    ensures forall i :: 0 <= i < |timeline| ==> lines[i] == RowLine(timeline[i])
  {
    if |timeline| == 0 then [] else [RowLine(timeline[0])] + RowLines(timeline[1..])
  }

  /** `[headers, ...rows].map(r => r.join(',')).join('\n')`. */
  function CsvText(timeline: seq<Row>): string
  {
    Join([HeaderLine()] + RowLines(timeline), '\n')
  }

  function DecodeLine(line: string): Option<Record>
  {
    var f := Split(line, ',');
    if |f| != 4 then None
    else match (ParseInt(f[0]), ParseInt(f[1]), ParseInt(f[2]), ParseInt(f[3]))
      case (Some(y), Some(c), Some(n), Some(v)) => Some(Record(y, c, n, v))
      case _ => None
  }

  function DecodeLines(lines: seq<string>): Option<seq<Record>>
  {
    if |lines| == 0 then Some([])
    else match (DecodeLine(lines[0]), DecodeLines(lines[1..]))
      case (Some(r), Some(rs)) => Some([r] + rs)
      case _ => None
  }

  /** Reads an exported text: the header line, then the records in order. */
  function DecodeCsv(text: string): Option<seq<Record>>
  {
    var lines := Split(text, '\n');
    if lines[0] != HeaderLine() then None else DecodeLines(lines[1..])
  }

  function RecordOf(r: Row): Record
  {
    Record(r.anio, r.capitalInvertido, r.valorNominal, r.valorReal)
  }

  /** The numbers of every row, in order. */
  function Records(timeline: seq<Row>): (rs: seq<Record>)
    ensures |rs| == |timeline|
    ensures forall i :: 0 <= i < |timeline| ==> rs[i] == RecordOf(timeline[i])
  {
    if |timeline| == 0 then [] else [RecordOf(timeline[0])] + Records(timeline[1..])
  }

  lemma IntToStringHasNo(i: int, c: char)
    requires c == ',' || c == '\n'
    ensures c !in IntToString(i)
  {
    var s := IntToString(i);
    forall k | 0 <= k < |s|
      ensures s[k] != c
    {
    }
  }

  /** A row's line holds no line break, and reading it back gives the row's four numbers. */
  lemma RowLineRoundTrip(r: Row)
    ensures '\n' !in RowLine(r)
    ensures DecodeLine(RowLine(r)) == Some(RecordOf(r))
  {
    var f := RowFields(r);
    forall i | 0 <= i < 4
      ensures ',' !in f[i] && '\n' !in f[i]
    {
      var x := [r.anio, r.capitalInvertido, r.valorNominal, r.valorReal][i];
      assert f[i] == IntToString(x);
      IntToStringHasNo(x, ',');
      IntToStringHasNo(x, '\n');
    }
    JoinAvoids(f, ',', '\n');
    SplitJoin(f, ',');
    IntToStringRoundTrip(r.anio);
    IntToStringRoundTrip(r.capitalInvertido);
    IntToStringRoundTrip(r.valorNominal);
    IntToStringRoundTrip(r.valorReal);
  }

  /** The text has one line more than there are rows: the header, then every row in order. */
  lemma CsvLines(timeline: seq<Row>)
    ensures Split(CsvText(timeline), '\n') == [HeaderLine()] + RowLines(timeline)
    ensures |Split(CsvText(timeline), '\n')| == |timeline| + 1
  {
    var lines := [HeaderLine()] + RowLines(timeline);
    forall i | 0 <= i < |lines|
      ensures '\n' !in lines[i]
    {
      if i > 0 {
        RowLineRoundTrip(timeline[i - 1]);
      }
    }
    SplitJoin(lines, '\n');
  }

  lemma {:induction false} DecodeRowLines(timeline: seq<Row>)
    ensures DecodeLines(RowLines(timeline)) == Some(Records(timeline))
  {
    if |timeline| > 0 {
      DecodeRowLines(timeline[1..]);
      RowLineRoundTrip(timeline[0]);
    }
  }

  /** Reading an exported text back gives every row's numbers, in order and unchanged. */
  lemma CsvRoundTrip(timeline: seq<Row>)
    ensures DecodeCsv(CsvText(timeline)) == Some(Records(timeline))
  {
    CsvLines(timeline);
    assert ([HeaderLine()] + RowLines(timeline))[1..] == RowLines(timeline);
    DecodeRowLines(timeline);
  }

  /** The text does not end with a line break: its last line is a row's, or the header. */
  lemma NoTrailingNewline(timeline: seq<Row>)
    ensures var text := CsvText(timeline); |text| > 0 && text[|text| - 1] != '\n'
  {
    var lines := [HeaderLine()] + RowLines(timeline);
    var last := lines[|lines| - 1];
    JoinEndsWithLast(lines, '\n');
    if |timeline| > 0 {
      var r := timeline[|timeline| - 1];
      assert last == RowLine(r);
      RowLineRoundTrip(r);
      JoinEndsWithLast(RowFields(r), ',');
    }
    assert |last| > 0 && '\n' !in last;
    var text := CsvText(timeline);
    assert text[|text| - |last|..] == last;
    assert text[|text| - 1] == last[|last| - 1];
  }

  /** The header line, as the export writes it. */
  lemma HeaderText()
    ensures HeaderLine() == "Año,Capital Invertido,Valor Nominal,Valor Real"
  {
    assert HeaderFields[1..][1..][1..] == ["Valor Real"];
  }
}
