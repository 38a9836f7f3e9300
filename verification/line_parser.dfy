/** The backend's line parser (`parseReadingFromLine`): one line from the
    device becomes a structured reading or nothing. The formats are tried in a
    fixed order on the trimmed line — any JSON text, then six, four and two
    comma-separated digit fields — and the first match wins.

    `JSON.parse` is not modelled: it is the oracle `decode`, which yields the
    parsed value or `None` where `JSON.parse` throws. */
module LineParser {
  import opened Base
  import opened Text
  import Csv

  /** The keys the comma-separated formats fill, in field order. */
  const FieldNames: seq<string> := ["heart_rate", "spo", "TempC", "TempF", "alcohol_detected", "alcohol_level"]

  /** A parsed line. A JSON line keeps the whole parsed value (`{ ...obj, t, raw }`);
      a comma-separated line becomes a record of named natural numbers. Both carry
      the time of parsing `t` and the trimmed line `raw`. */
  datatype Reading<J> =
    | JsonReading(payload: J, t: int, raw: string)
    | CsvReading(fields: map<string, nat>, t: int, raw: string)

  lemma NamesDistinct()
    ensures forall i, j :: 0 <= i < j < |FieldNames| ==> FieldNames[i] != FieldNames[j]
  {
    assert FieldNames[0][0] == 'h' && FieldNames[1][0] == 's' && FieldNames[4][0] == 'a';
    assert FieldNames[2][4] == 'C' && FieldNames[3][4] == 'F' && FieldNames[5][8] == 'l' && FieldNames[4][8] == 'd';
  }

  /** The record of the first `|vs|` field names bound to the values in order. */
  function Record(vs: seq<nat>): (m: map<string, nat>)
    requires |vs| <= |FieldNames|
    ensures m.Keys == set i | 0 <= i < |vs| :: FieldNames[i]
    ensures forall i :: 0 <= i < |vs| ==> FieldNames[i] in m && m[FieldNames[i]] == vs[i]
  {
    NamesDistinct();
    map i | 0 <= i < |vs| :: FieldNames[i] := vs[i]
  }

  /** `parseReadingFromLine(line)` at time `now`. */
  function Parse<J>(line: string, now: int, decode: string -> Option<J>): (r: Option<Reading<J>>)
    ensures r.Some? ==> r.value.raw == Trim(line) && r.value.t == now
  {
    var s := Trim(line);
    match decode(s)
    case Some(obj) => Some(JsonReading(obj, now, s))
    case None =>
      match Csv.Fields(s, 6)
      case Some(vs) => Some(CsvReading(Record(vs), now, s))
      case None =>
        match Csv.Fields(s, 4)
        case Some(vs) => Some(CsvReading(Record(vs), now, s))
        case None =>
          match Csv.Fields(s, 2)
          case Some(vs) => Some(CsvReading(Record(vs), now, s))
          case None => None
  }

  /** What `JSON.parse` does with the device's comma-separated lines: a list of
      two or more comma-separated numbers is not JSON text. */
  ghost predicate RejectsDigitLists<J>(decode: string -> Option<J>) {
    forall s, k :: k >= 2 && Csv.Fields(s, k).Some? ==> decode(s).None?
  }

  /** JSON is tried first: any line whose trimmed text decodes is accepted with
      the decoded value, whatever its shape. */
  lemma JsonFirst<J>(line: string, now: int, decode: string -> Option<J>)
    requires decode(Trim(line)).Some?
    ensures Parse(line, now, decode) == Some(JsonReading(decode(Trim(line)).value, now, Trim(line)))
  {
  }

  /** A line of exactly `k` digit fields, `k` one of 6, 4 and 2, is read as the
      first `k` named fields with the fields' values in order. */
  lemma CsvLine<J>(line: string, now: int, decode: string -> Option<J>, k: nat)
    requires RejectsDigitLists(decode)
    requires k in {6, 4, 2} && Csv.Fields(Trim(line), k).Some?
    ensures var r := Parse(line, now, decode);
      && r.Some? && r.value.CsvReading? && r.value.raw == Trim(line)
      && r.value.fields.Keys == (set i | 0 <= i < k :: FieldNames[i])
      && forall i :: 0 <= i < k ==> r.value.fields[FieldNames[i]] == Csv.Fields(Trim(line), k).value[i]
  {
    var s := Trim(line);
    assert decode(s).None?;
    var vs := Csv.Fields(s, k).value;
    if k != 6 {
      assert Csv.Fields(s, 6).None?;
    }
    if k == 2 {
      assert Csv.Fields(s, 4).None?;
    }
  }

  /** End to end: a device printing six numbers, padded with white space, gives
      the six named natural numbers back, with the trimmed line as `raw`. */
  lemma SixNumberLine<J>(vs: seq<nat>, a: string, b: string, now: int, decode: string -> Option<J>)
    requires |vs| == 6 && AllSpace(a) && AllSpace(b)
    requires RejectsDigitLists(decode)
    ensures Parse(a + Csv.Render(vs) + b, now, decode) == Some(CsvReading(Record(vs), now, Csv.Render(vs)))
  {
    Csv.RenderTrimmed(vs);
    TrimPadded(a, Csv.Render(vs), b);
    Csv.FieldsOfRender(vs);
    assert decode(Csv.Render(vs)).None?;
  }

  /** Field counts other than 6, 4 and 2 give no reading unless the line is JSON. */
  lemma OtherCountsRejected<J>(line: string, now: int, decode: string -> Option<J>)
    requires decode(Trim(line)).None?
    requires |Split(Trim(line), ',')| !in {6, 4, 2}
    ensures Parse(line, now, decode).None?
  {
  }

  /** Signed or fractional numbers give no reading unless the line is JSON. */
  lemma SignedOrFractionalRejected<J>(line: string, now: int, decode: string -> Option<J>)
    requires decode(Trim(line)).None?
    requires '-' in Trim(line) || '+' in Trim(line) || '.' in Trim(line)
    ensures Parse(line, now, decode).None?
  {
    Csv.NoSignsOrDecimals(Trim(line), 6);
    Csv.NoSignsOrDecimals(Trim(line), 4);
    Csv.NoSignsOrDecimals(Trim(line), 2);
  }
}
