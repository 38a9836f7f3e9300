/** Download file names (`generateFilename` in `lib/download.ts`): the prefix,
    a dash, the current time as an ISO 8601 string with `:` and `.` turned
    into `-` and the last five characters (milliseconds and `Z`) cut off, and
    `.json`. The clock is a parameter: the ISO string itself, or the instant
    it spells. */
module Download {
  import opened Base
  import opened Text

  const DefaultPrefix: string := "vitals"

  /** One character of `replace(/[:.]/g, '-')`. */
  function Clean(c: char): char {
    if c == ':' || c == '.' then '-' else c
  }

  /** `s.replace(/[:.]/g, '-')`: every colon and full stop becomes a dash, nothing else changes. */
  function Sanitize(s: string): (r: string)
    ensures |r| == |s|
    ensures forall i :: 0 <= i < |s| ==> r[i] == Clean(s[i])
    ensures ':' !in r && '.' !in r
  {
    seq(|s|, i requires 0 <= i < |s| => Clean(s[i]))
  }

  /** `s.slice(0, -k)`: all but the last `k` characters, or nothing when `s` is shorter. */
  function DropLast(s: string, k: nat): (r: string)
    ensures |r| == if |s| >= k then |s| - k else 0
    ensures r == s[..|r|]
  {
    if |s| >= k then s[..|s| - k] else []
  }

  /** `generateFilename(prefix)` for a clock reading whose `toISOString()` is `iso`. */
  function GenerateFilename(prefix: Option<string>, iso: string): (r: string)
    ensures var p := prefix.GetOr(DefaultPrefix);
      && |r| == |p| + 1 + |DropLast(iso, 5)| + 5
      && r[..|p|] == p && r[|p|] == '-'
      && r[|r| - 5..] == ".json"
      && forall i :: 0 <= i < |DropLast(iso, 5)| ==> r[|p| + 1 + i] == Clean(iso[i])
  {
    var p := prefix.GetOr(DefaultPrefix);
    p + "-" + DropLast(Sanitize(iso), 5) + ".json"
  }

  /** The part of a file name the time contributes holds no colon and no full
      stop, whatever the ISO string. */
  lemma StampIsClean(prefix: Option<string>, iso: string)
    ensures var p := prefix.GetOr(DefaultPrefix); var r := GenerateFilename(prefix, iso);
      ':' !in r[|p| + 1..|r| - 5] && '.' !in r[|p| + 1..|r| - 5]
  {
    var p := prefix.GetOr(DefaultPrefix);
    var d := DropLast(Sanitize(iso), 5);
    var r := GenerateFilename(prefix, iso);
    assert r == p + "-" + d + ".json";
    assert r[|p| + 1..|r| - 5] == d;
    assert d == Sanitize(iso)[..|d|];
  }

  /** For a 24-character ISO string the time part is its first 19 characters
      with colons and full stops turned into dashes: milliseconds and `Z` are gone. */
  lemma TwentyFourChars(prefix: Option<string>, iso: string)
    requires |iso| == 24
    ensures GenerateFilename(prefix, iso) == prefix.GetOr(DefaultPrefix) + "-" + Sanitize(iso[..19]) + ".json"
  {
    var c := Sanitize(iso);
    var d := Sanitize(iso[..19]);
    assert DropLast(c, 5) == d by {
      assert |DropLast(c, 5)| == 19;
      forall i | 0 <= i < 19
        ensures DropLast(c, 5)[i] == d[i]
      {
        assert iso[..19][i] == iso[i];
      }
    }
  }

  /** `n` written with exactly `w` digits, zeros in front (`n` below `10^w`). */
  function Pad(n: nat, w: nat): (r: string)
    ensures |r| == w && AllDigits(r)
  {
    if w == 0 then "" else Pad(n / 10, w - 1) + [DigitChar(n % 10)]
  }

  function Pow10(w: nat): (p: nat)
    ensures p >= 1
  {
    if w == 0 then 1 else 10 * Pow10(w - 1)
  }

  /** `Pad` keeps the value of a number below `10^w`, so it is one-to-one there. */
  lemma {:induction false} PadValue(n: nat, w: nat)
    requires n < Pow10(w)
    ensures DecimalValue(Pad(n, w)) == n
    decreases w
  {
    if w > 0 {
      var r := Pad(n, w);
      assert r[..|r| - 1] == Pad(n / 10, w - 1);
      PadValue(n / 10, w - 1);
    }
  }

  lemma PadInjective(m: nat, n: nat, w: nat)
    requires m < Pow10(w) && n < Pow10(w) && Pad(m, w) == Pad(n, w)
    ensures m == n
  {
    PadValue(m, w);
    PadValue(n, w);
  }

  /** A moment in UTC, as `toISOString()` spells it for the years 0 to 9999. */
  datatype Instant = Instant(year: nat, month: nat, day: nat, hour: nat, minute: nat, second: nat, milli: nat)

  predicate Valid(t: Instant) {
    && t.year <= 9999 && 1 <= t.month <= 12 && 1 <= t.day <= 31
    && t.hour < 24 && t.minute < 60 && t.second < 60 && t.milli < 1000
  }

  /** `YYYY-MM-DDTHH<sep>MM<sep>SS`. */
  function Layout(t: Instant, sep: char): string {
    Pad(t.year, 4) + "-" + Pad(t.month, 2) + "-" + Pad(t.day, 2) + "T"
      + Pad(t.hour, 2) + [sep] + Pad(t.minute, 2) + [sep] + Pad(t.second, 2)
  }

  /** `Date.prototype.toISOString`: `YYYY-MM-DDTHH:MM:SS.mmmZ`. */
  function Iso(t: Instant): (r: string)
    requires Valid(t)
    ensures |r| == 24 && r[19] == '.' && r[23] == 'Z'
  {
    Layout(t, ':') + "." + Pad(t.milli, 3) + "Z"
  }

  lemma SanitizeAppend(a: string, b: string)
    ensures Sanitize(a + b) == Sanitize(a) + Sanitize(b)
  {
    assert |Sanitize(a + b)| == |Sanitize(a) + Sanitize(b)|;
    forall i | 0 <= i < |a + b|
      ensures Sanitize(a + b)[i] == (Sanitize(a) + Sanitize(b))[i]
    {
      if i >= |a| {
        assert (a + b)[i] == b[i - |a|];
      }
    }
  }

  lemma SanitizeDigits(d: string)
    requires AllDigits(d)
    ensures Sanitize(d) == d
  {
  }

  lemma SanitizeLayout(t: Instant)
    ensures Sanitize(Layout(t, ':')) == Layout(t, '-')
  {
    var y, mo, d, h, mi, s := Pad(t.year, 4), Pad(t.month, 2), Pad(t.day, 2), Pad(t.hour, 2), Pad(t.minute, 2), Pad(t.second, 2);
    SanitizeDigits(y); SanitizeDigits(mo); SanitizeDigits(d);
    SanitizeDigits(h); SanitizeDigits(mi); SanitizeDigits(s);
    SanitizeAppend(y + "-" + mo + "-" + d + "T" + h + ":" + mi + ":", s);
    SanitizeAppend(y + "-" + mo + "-" + d + "T" + h + ":" + mi, ":");
    SanitizeAppend(y + "-" + mo + "-" + d + "T" + h + ":", mi);
    SanitizeAppend(y + "-" + mo + "-" + d + "T" + h, ":");
    SanitizeAppend(y + "-" + mo + "-" + d + "T", h);
    SanitizeAppend(y + "-" + mo + "-" + d, "T");
    SanitizeAppend(y + "-" + mo + "-", d);
    SanitizeAppend(y + "-" + mo, "-");
    SanitizeAppend(y + "-", mo);
    SanitizeAppend(y, "-");
  }

  /** For a real clock reading the time part is `YYYY-MM-DDTHH-MM-SS`: the
      milliseconds and the `Z` are cut off and the colons become dashes. */
  lemma FilenameOfInstant(prefix: Option<string>, t: Instant)
    requires Valid(t)
    ensures GenerateFilename(prefix, Iso(t)) == prefix.GetOr(DefaultPrefix) + "-" + Layout(t, '-') + ".json"
  {
    var l := Layout(t, ':');
    var tail := "." + Pad(t.milli, 3) + "Z";
    assert Iso(t) == l + tail;
    SanitizeAppend(l, tail);
    SanitizeLayout(t);
    var c := Sanitize(Iso(t));
    assert |tail| == 5;
    assert c == Layout(t, '-') + Sanitize(tail);
    assert DropLast(c, 5) == Layout(t, '-');
  }

  /** Two downloads within the same second get the same file name. */
  lemma SameSecondSameName(prefix: Option<string>, t: Instant, u: Instant)
    requires Valid(t) && Valid(u) && t.(milli := 0) == u.(milli := 0)
    ensures GenerateFilename(prefix, Iso(t)) == GenerateFilename(prefix, Iso(u))
  {
    FilenameOfInstant(prefix, t);
    FilenameOfInstant(prefix, u);
    assert Layout(t, '-') == Layout(u, '-');
  }

  /** Instants in different seconds get different file names. */
  lemma DifferentSecondsDifferentNames(prefix: Option<string>, t: Instant, u: Instant)
    requires Valid(t) && Valid(u) && t.(milli := 0) != u.(milli := 0)
    ensures GenerateFilename(prefix, Iso(t)) != GenerateFilename(prefix, Iso(u))
  {
    FilenameOfInstant(prefix, t);
    FilenameOfInstant(prefix, u);
    var p := prefix.GetOr(DefaultPrefix);
    if GenerateFilename(prefix, Iso(t)) == GenerateFilename(prefix, Iso(u)) {
      var a, b := Layout(t, '-'), Layout(u, '-');
      assert (p + "-" + a + ".json")[|p| + 1..|p| + 20] == a;
      assert (p + "-" + b + ".json")[|p| + 1..|p| + 20] == b;
      LayoutInjective(t, u);
    }
  }

  lemma LayoutInjective(t: Instant, u: Instant)
    requires Valid(t) && Valid(u) && Layout(t, '-') == Layout(u, '-')
    ensures t.(milli := 0) == u.(milli := 0)
  {
    var y, mo, d, h, mi, s := Pad(t.year, 4), Pad(t.month, 2), Pad(t.day, 2), Pad(t.hour, 2), Pad(t.minute, 2), Pad(t.second, 2);
    var y', mo', d', h', mi', s' := Pad(u.year, 4), Pad(u.month, 2), Pad(u.day, 2), Pad(u.hour, 2), Pad(u.minute, 2), Pad(u.second, 2);
    PeelLast(y + "-" + mo + "-" + d + "T" + h + "-" + mi + "-", s, y' + "-" + mo' + "-" + d' + "T" + h' + "-" + mi' + "-", s');
    PeelLast(y + "-" + mo + "-" + d + "T" + h + "-" + mi, "-", y' + "-" + mo' + "-" + d' + "T" + h' + "-" + mi', "-");
    PeelLast(y + "-" + mo + "-" + d + "T" + h + "-", mi, y' + "-" + mo' + "-" + d' + "T" + h' + "-", mi');
    PeelLast(y + "-" + mo + "-" + d + "T" + h, "-", y' + "-" + mo' + "-" + d' + "T" + h', "-");
    PeelLast(y + "-" + mo + "-" + d + "T", h, y' + "-" + mo' + "-" + d' + "T", h');
    PeelLast(y + "-" + mo + "-" + d, "T", y' + "-" + mo' + "-" + d', "T");
    PeelLast(y + "-" + mo + "-", d, y' + "-" + mo' + "-", d');
    PeelLast(y + "-" + mo, "-", y' + "-" + mo', "-");
    PeelLast(y + "-", mo, y' + "-", mo');
    PeelLast(y, "-", y', "-");
    assert Pow10(2) == 100 && Pow10(4) == 10000;
    PadInjective(t.year, u.year, 4);
    PadInjective(t.month, u.month, 2);
    PadInjective(t.day, u.day, 2);
    PadInjective(t.hour, u.hour, 2);
    PadInjective(t.minute, u.minute, 2);
    PadInjective(t.second, u.second, 2);
  }

  /** Two joins whose last parts have the same length are equal only part by part. */
  lemma PeelLast<T>(a: seq<T>, b: seq<T>, c: seq<T>, e: seq<T>)
    requires a + b == c + e && |b| == |e|
    ensures a == c && b == e
  {
    assert a == (a + b)[..|a|];
    assert c == (c + e)[..|c|];
    assert b == (a + b)[|a|..];
    assert e == (c + e)[|c|..];
  }
}
