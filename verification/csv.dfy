/** The comma-separated digit formats the devices print, as the anchored
    regular expressions of the servers match them: exactly `k` fields
    `\s*(\d+)\s*` separated by commas, `^\s*(\d+)\s*,\s*(\d+)\s*…$`.
    Because `\s`, `\d` and `,` are disjoint character classes, a text matches
    exactly when its comma-separated pieces number `k` and each piece is white
    space, a non-empty run of digits, white space — which is how `Fields`
    decides it. */
module Csv {
  import opened Base
  import opened Text

  /** One field `\s*(\d+)\s*`: its trimmed content is a non-empty digit run. */
  predicate IsDigitField(p: string) {
    var core := Trim(p);
    |core| > 0 && AllDigits(core)
  }

  /** The number `+m[i]` a matched field yields. */
  function FieldValue(p: string): nat
    requires IsDigitField(p)
  {
    DecimalValue(Trim(p))
  }

  /** Matches `s` against the pattern of exactly `k` digit fields and yields the
      field values in order, or `None` when `s` does not match. */
  function Fields(s: string, k: nat): (r: Option<seq<nat>>)
    ensures r.Some? ==> k >= 1 && |r.value| == k
    ensures r.Some? ==> |Split(s, ',')| == k
  {
    var pieces := Split(s, ',');
    if |pieces| == k && AllFields(pieces) then Some(Values(pieces)) else None
  }

  predicate AllFields(pieces: seq<string>) {
    forall i :: 0 <= i < |pieces| ==> IsDigitField(pieces[i])
  }

  /** The values of the fields, in order. */
  function Values(pieces: seq<string>): (r: seq<nat>)
    requires AllFields(pieces)
    ensures |r| == |pieces|
    ensures forall i :: 0 <= i < |pieces| ==> r[i] == FieldValue(pieces[i])
  {
    seq(|pieces|, i requires 0 <= i < |pieces| && IsDigitField(pieces[i]) => FieldValue(pieces[i]))
  }

  /** White space, a digit run, white space: a field denoting the digits' value. */
  lemma PaddedField(a: string, d: string, b: string)
    requires AllSpace(a) && AllSpace(b) && |d| > 0 && AllDigits(d)
    ensures IsDigitField(a + d + b) && FieldValue(a + d + b) == DecimalValue(d)
    ensures ',' !in a + d + b
  {
    assert !IsSpace(d[0]) && !IsSpace(d[|d| - 1]);
    TrimPadded(a, d, b);
    NoComma(a, d, b);
  }

  lemma NoComma(a: string, d: string, b: string)
    requires AllSpace(a) && AllSpace(b) && AllDigits(d)
    ensures ',' !in a + d + b
  {
    var p := a + d + b;
    forall i | 0 <= i < |p|
      ensures p[i] != ','
    {
      if i < |a| {
        assert p[i] == a[i];
      } else if i < |a| + |d| {
        assert p[i] == d[i - |a|];
      } else {
        assert p[i] == b[i - |a| - |d|];
      }
    }
  }

  /** Completeness of the matcher: comma-free digit fields joined by commas
      match with their own count and yield their values in order. */
  lemma FieldsOfJoin(pieces: seq<string>)
    requires |pieces| >= 1
    requires forall i :: 0 <= i < |pieces| ==> ',' !in pieces[i] && IsDigitField(pieces[i])
    ensures Fields(Join(pieces, ','), |pieces|).Some?
    ensures forall i :: 0 <= i < |pieces| ==> Fields(Join(pieces, ','), |pieces|).value[i] == FieldValue(pieces[i])
  {
    SplitJoin(pieces, ',');
  }

  /** The decimal numerals of the values, in order. */
  function Numerals(vs: seq<nat>): (r: seq<string>)
    ensures |r| == |vs|
    ensures forall i :: 0 <= i < |vs| ==> r[i] == Decimal(vs[i])
  {
    seq(|vs|, i requires 0 <= i < |vs| => Decimal(vs[i]))
  }

  /** The canonical line a device prints for the values: decimal numerals joined by commas. */
  function Render(vs: seq<nat>): string
    requires |vs| >= 1
  {
    Join(Numerals(vs), ',')
  }

  /** Round trip: matching a rendered line with its own field count gives the values back. */
  lemma FieldsOfRender(vs: seq<nat>)
    requires |vs| >= 1
    ensures Fields(Render(vs), |vs|) == Some(vs)
  {
    var pieces := Numerals(vs);
    forall i | 0 <= i < |vs|
      ensures ',' !in pieces[i] && IsDigitField(pieces[i]) && FieldValue(pieces[i]) == vs[i]
    {
      NumeralField(pieces[i]);
    }
    FieldsOfJoin(pieces);
    var f := Fields(Join(pieces, ','), |vs|);
    assert f.value == vs;
    assert Render(vs) == Join(pieces, ',');
  }

  /** A rendered line begins and ends with a digit. */
  lemma RenderTrimmed(vs: seq<nat>)
    requires |vs| >= 1
    ensures IsTrimmed(Render(vs))
  {
    var ps := Numerals(vs);
    JoinEnds(ps, ',');
  }

  lemma {:induction false} JoinEnds(ps: seq<string>, sep: char)
    requires |ps| >= 1 && forall i :: 0 <= i < |ps| ==> |ps[i]| > 0
    ensures |Join(ps, sep)| > 0
    ensures Join(ps, sep)[0] == ps[0][0]
    ensures Join(ps, sep)[|Join(ps, sep)| - 1] == ps[|ps| - 1][|ps[|ps| - 1]| - 1]
    decreases |ps|
  {
    if |ps| > 1 {
      JoinEnds(ps[1..], sep);
    }
  }

  lemma NumeralField(d: string)
    requires |d| > 0 && AllDigits(d)
    ensures ',' !in d && IsDigitField(d) && FieldValue(d) == DecimalValue(d)
  {
    assert !IsSpace(d[0]) && !IsSpace(d[|d| - 1]);
    TrimmedFixed(d);
    assert forall i :: 0 <= i < |d| ==> d[i] != ',';
  }

  /** A field holds nothing but white space and digits. */
  lemma FieldAlphabet(p: string, c: char)
    requires IsDigitField(p) && c in p
    ensures IsSpace(c) || IsDigit(c)
  {
    if !IsSpace(c) {
      TrimKeeps(p, c);
    }
  }

  /** Soundness of the matcher: a matching text holds nothing but digits, white
      space and commas. */
  lemma FieldsAlphabet(s: string, k: nat, c: char)
    requires Fields(s, k).Some? && c in s
    ensures c == ',' || IsSpace(c) || IsDigit(c)
  {
    if c != ',' {
      var pieces := Split(s, ',');
      assert AllFields(pieces);
      InJoin(pieces, ',', c);
      var i :| 0 <= i < |pieces| && c in pieces[i];
      FieldAlphabet(pieces[i], c);
    }
  }

  /** Signed or fractional numbers never match: a sign or a decimal point
      anywhere in the text makes every field count fail. */
  lemma NoSignsOrDecimals(s: string, k: nat)
    requires '-' in s || '+' in s || '.' in s
    ensures Fields(s, k).None?
  {
    if Fields(s, k).Some? {
      if '-' in s {
        FieldsAlphabet(s, k, '-');
      } else if '+' in s {
        FieldsAlphabet(s, k, '+');
      } else {
        FieldsAlphabet(s, k, '.');
      }
    }
  }
}
