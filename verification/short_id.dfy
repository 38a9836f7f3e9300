/** Patient short ids (`lib/shortId.ts`): a counter kept in the browser's
    `localStorage` under `patientCounter`, incremented on every call and
    formatted as `patient` followed by the counter zero-padded to four digits.
    `localStorage` is a map from keys to strings; whether the code runs in a
    browser is the flag `inBrowser`. */
module ShortId {
  import opened Text

  type Storage = map<string, string>

  const CounterKey: string := "patientCounter"
  const Prefix: string := "patient"

  /** The numbers `Number(text)` can produce here: a natural number, or NaN. */
  datatype JsNumber = Num(n: nat) | NaN

  /** `Number(text)`: blank text is 0, a run of digits with optional white
      space around it is its value, anything else is NaN. */
  function Number(text: string): (r: JsNumber)
    ensures r.Num? <==> |Trim(text)| == 0 || AllDigits(Trim(text))
  {
    var t := Trim(text);
    if |t| == 0 then Num(0)
    else if AllDigits(t) then Num(DecimalValue(t))
    else NaN
  }

  /** `String(x)` for the values the counter takes. */
  function Show(x: JsNumber): string {
    match x
    case Num(n) => Decimal(n)
    case NaN => "NaN"
  }

  /** `k` copies of `c`. */
  function Repeat(c: char, k: nat): (r: string)
    ensures |r| == k && forall i :: 0 <= i < k ==> r[i] == c
  {
    if k == 0 then "" else [c] + Repeat(c, k - 1)
  }

  /** `s.padStart(width, c)`: `c` repeated in front up to `width` characters;
      a longer string is returned whole. */
  function PadStart(s: string, width: nat, c: char): (r: string)
    ensures |r| == if |s| >= width then |s| else width
    ensures r[|r| - |s|..] == s
    ensures forall i :: 0 <= i < |r| - |s| ==> r[i] == c
  {
    Repeat(c, if |s| >= width then 0 else width - |s|) + s
  }

  /** `Number(localStorage.getItem('patientCounter') ?? '0')`: a missing
      counter reads as 0, the value of the text `0` (`MissingReadsZero`). */
  function Counter(storage: Storage): JsNumber {
    if CounterKey in storage then Number(storage[CounterKey]) else Num(0)
  }

  /** `x + 1`: NaN stays NaN. */
  function Bump(x: JsNumber): (r: JsNumber)
    ensures r.Num? <==> x.Num?
    ensures r.Num? ==> r.n == x.n + 1
  {
    match x
    case Num(n) => Num(n + 1)
    case NaN => NaN
  }

  /** `patient${String(x).padStart(4, '0')}`. */
  function FormatId(x: JsNumber): (id: string)
    ensures |id| >= 11 && id[..7] == Prefix
  {
    Prefix + PadStart(Show(x), 4, '0')
  }

  /** What `getNextShortId()` returns, with the storage it leaves. */
  datatype Issued = Issued(id: string, storage: Storage)

  /** `getNextShortId()`. Outside a browser it answers `patient0001` and
      touches nothing; in a browser it reads the counter, stores the counter
      plus one and formats that. */
  function NextShortId(inBrowser: bool, storage: Storage): (r: Issued)
    ensures !inBrowser ==> r == Issued("patient0001", storage)
    ensures inBrowser ==> r.storage.Keys == storage.Keys + {CounterKey}
    ensures inBrowser ==> forall k :: k in storage && k != CounterKey ==> r.storage[k] == storage[k]
  {
    if !inBrowser then Issued("patient0001", storage)
    else
      var next := Bump(Counter(storage));
      Issued(FormatId(next), storage[CounterKey := Show(next)])
  }

  /** `resetPatientCounter()`: in a browser the counter is set back to `0`. */
  function ResetPatientCounter(inBrowser: bool, storage: Storage): (r: Storage)
    ensures inBrowser ==> CounterKey in r && r[CounterKey] == "0"
    ensures !inBrowser ==> r == storage
  {
    if inBrowser then storage[CounterKey := "0"] else storage
  }

  /** A decimal numeral reads back as its own value. */
  lemma NumberOfDecimal(n: nat)
    ensures Number(Decimal(n)) == Num(n)
  {
    var d := Decimal(n);
    assert !IsSpace(d[0]) && !IsSpace(d[|d| - 1]);
    TrimmedFixed(d);
  }

  /** In a browser with a counter `n`, the call stores `n + 1` and answers
      `patient` followed by `n + 1` padded with zeros to four digits. */
  lemma IssueFromCounter(storage: Storage, n: nat)
    requires Counter(storage) == Num(n)
    ensures var r := NextShortId(true, storage);
      && Counter(r.storage) == Num(n + 1)
      && r.id == FormatId(Num(n + 1))
  {
    var r := NextShortId(true, storage);
    assert r.storage[CounterKey] == Decimal(n + 1);
    assert Counter(r.storage) == Num(n + 1) by {
      NumberOfDecimal(n + 1);
    }
  }

  /** The id's length: 11 characters for counters 1 to 9999, longer for larger
      counters, whose digits are kept whole. */
  lemma IdLength(n: nat)
    requires n >= 1
    ensures var id := FormatId(Num(n));
      && (n <= 9999 ==> |id| == 11)
      && (n > 9999 ==> |id| == 7 + |Decimal(n)| && id[7..] == Decimal(n))
  {
    DecimalLength(n);
    var p := PadStart(Decimal(n), 4, '0');
    assert (Prefix + p)[7..] == p;
  }

  /** The digits after `patient` give the counter back, so different counters
      give different ids. */
  lemma IdRoundTrip(n: nat)
    ensures var id := FormatId(Num(n));
      && AllDigits(id[7..]) && DecimalValue(id[7..]) == n
  {
    var d := Decimal(n);
    var p := PadStart(d, 4, '0');
    var z := p[..|p| - |d|];
    assert AllDigits(p) && DecimalValue(p) == n by {
      assert p == z + d;
      LeadingZeros(z, d);
    }
    assert (Prefix + p)[7..] == p;
  }

  lemma IdsDistinct(m: nat, n: nat)
    requires m != n
    ensures FormatId(Num(m)) != FormatId(Num(n))
  {
    IdRoundTrip(m);
    IdRoundTrip(n);
  }

  /** A single digit is padded with three zeros. */
  lemma FormatSmall(d: nat)
    requires d < 10
    ensures FormatId(Num(d)) == Prefix + ['0', '0', '0', DigitChar(d)]
  {
    var c := DigitChar(d);
    assert Decimal(d) == [c];
    var p := PadStart([c], 4, '0');
    assert p == ['0', '0', '0', c] by {
      assert p[3..] == [c];
    }
  }

  /** The three ids spelled out. */
  lemma Spelled()
    ensures Prefix + ['0', '0', '0', '1'] == "patient0001"
    ensures Prefix + ['0', '0', '0', '2'] == "patient0002"
    ensures Prefix + "0NaN" == "patient0NaN"
  {
  }

  /** After a reset the next id is `patient0001`. */
  lemma ResetThenNext(storage: Storage)
    ensures NextShortId(true, ResetPatientCounter(true, storage)).id == "patient0001"
  {
    var st := ResetPatientCounter(true, storage);
    assert Counter(st) == Num(0) by {
      NumberOfDecimal(0);
    }
    IssueFromCounter(st, 0);
    FormatSmall(1);
    assert DigitChar(1) == '1';
    Spelled();
  }

  /** The default `'0'` that stands in for a missing counter reads as 0. */
  lemma MissingReadsZero()
    ensures Number("0") == Num(0)
  {
    NumberOfDecimal(0);
  }

  /** A fresh browser (no counter stored) issues `patient0001`, then `patient0002`. */
  lemma FirstTwoIds(storage: Storage)
    requires CounterKey !in storage
    ensures NextShortId(true, storage).id == "patient0001"
    ensures NextShortId(true, NextShortId(true, storage).storage).id == "patient0002"
  {
    var st := NextShortId(true, storage).storage;
    assert NextShortId(true, storage).id == "patient0001" && Counter(st) == Num(1) by {
      IssueFromCounter(storage, 0);
      FormatSmall(1);
      assert DigitChar(1) == '1';
      Spelled();
    }
    assert NextShortId(true, st).id == "patient0002" by {
      IssueFromCounter(st, 1);
      FormatSmall(2);
      assert DigitChar(2) == '2';
      Spelled();
    }
  }

  /** Text that is not a number reads as NaN. */
  lemma NaNText()
    ensures Number("NaN") == NaN
  {
    assert !IsSpace('N') && !IsDigit('N');
    TrimmedFixed("NaN");
  }

  /** A counter that is not a number stays NaN: the call stores `NaN` and answers `patient0NaN`. */
  lemma GarbledCounter(storage: Storage)
    requires Counter(storage) == NaN
    ensures NextShortId(true, storage).id == "patient0NaN"
    ensures Counter(NextShortId(true, storage).storage) == NaN
  {
    var st := NextShortId(true, storage).storage;
    assert NextShortId(true, storage).id == "patient0NaN" by {
      var p := PadStart("NaN", 4, '0');
      assert p == "0NaN" by {
        assert p[1..] == "NaN" && p[0] == '0';
      }
      Spelled();
    }
    assert Counter(st) == NaN by {
      assert st[CounterKey] == "NaN";
      NaNText();
    }
  }
}
