/** The browser-side device sources (`lib/serial/SerialReader.ts`): the
    `SerialReader`'s chunk-to-lines decoding, its read loop and its
    connect/close flag lifecycle, and the `SerialSimulator`'s run flag.
    The Web Serial API is replaced by the outcome it reports (`PortResponse`,
    `ReadResult`); `JSON.parse` is the oracle `decode`, which yields a reading
    or `None` where `JSON.parse` throws. */
module SerialSource {
  import opened Base
  import opened Text

  /** One reading as the devices send it, `{ ts, bp: { sys, dia }, hr, spo2, tempC, weightKg? }`. */
  datatype SerialData = SerialData(ts: real, bpSys: real, bpDia: real, hr: real, spo2: real, tempC: real,
                                   weightKg: Option<real>)

  /** What one piece of a chunk yields: nothing for a blank piece or one that
      does not decode, else the decoded value of the trimmed piece. */
  function Outcome(piece: string, decode: string -> Option<SerialData>): (o: Option<SerialData>)
    ensures o.Some? <==> |Trim(piece)| > 0 && decode(Trim(piece)).Some?
    ensures o.Some? ==> o == decode(Trim(piece))
  {
    var t := Trim(piece);
    if |t| == 0 then None else decode(t)
  }

  /** The outcomes of the pieces, one per piece. */
  function Outcomes(pieces: seq<string>, decode: string -> Option<SerialData>): (os: seq<Option<SerialData>>)
    ensures |os| == |pieces|
  {
    if |pieces| == 0 then [] else [Outcome(pieces[0], decode)] + Outcomes(pieces[1..], decode)
  }

  lemma {:induction false} OutcomesAppend(a: seq<string>, b: seq<string>, decode: string -> Option<SerialData>)
    ensures Outcomes(a + b, decode) == Outcomes(a, decode) + Outcomes(b, decode)
    decreases |a|
  {
    if |a| == 0 {
      assert a + b == b;
    } else {
      assert (a + b)[0] == a[0] && (a + b)[1..] == a[1..] + b;
      OutcomesAppend(a[1..], b, decode);
    }
  }

  /** The values present among the outcomes, in order. */
  function Present(os: seq<Option<SerialData>>): (r: seq<SerialData>)
    ensures |r| <= |os|
  {
    if |os| == 0 then []
    else (if os[0].Some? then [os[0].value] else []) + Present(os[1..])
  }

  /** The readings one chunk delivers to the data callback: the chunk split on
      `\n`, each piece trimmed, blank pieces skipped, the rest decoded and the
      failures dropped. */
  function DecodeChunk(chunk: string, decode: string -> Option<SerialData>): seq<SerialData> {
    Present(Outcomes(Split(chunk, '\n'), decode))
  }

  lemma {:induction false} PresentAppend(a: seq<Option<SerialData>>, b: seq<Option<SerialData>>)
    ensures Present(a + b) == Present(a) + Present(b)
    decreases |a|
  {
    if |a| == 0 {
      assert a + b == b;
    } else {
      assert (a + b)[0] == a[0] && (a + b)[1..] == a[1..] + b;
      PresentAppend(a[1..], b);
    }
  }

  /** The chunk handler of `startReading` as the loop it is, over the chunk's
      pieces: each blank piece skipped, each other piece decoded and delivered
      or dropped. */
  method DeliverPieces(lines: seq<string>, decode: string -> Option<SerialData>) returns (out: seq<SerialData>)
    ensures out == Present(Outcomes(lines, decode))
  {
    out := [];
    var i := 0;
    while i < |lines|
      invariant 0 <= i <= |lines|
      invariant out == Present(Outcomes(lines[..i], decode))
    {
      var o := Outcome(lines[i], decode);
      if o.Some? {
        out := out + [o.value];
      }
      DeliverStep(lines, i, decode);
      i := i + 1;
    }
    assert lines[..i] == lines;
  }

  lemma DeliverStep(lines: seq<string>, i: nat, decode: string -> Option<SerialData>)
    requires i < |lines|
    ensures var o := Outcome(lines[i], decode);
      Present(Outcomes(lines[..i + 1], decode))
        == Present(Outcomes(lines[..i], decode)) + (if o.Some? then [o.value] else [])
  {
    var o := Outcome(lines[i], decode);
    assert lines[..i + 1] == lines[..i] + [lines[i]];
    OutcomesAppend(lines[..i], [lines[i]], decode);
    assert [lines[i]][1..] == [];
    assert Outcomes([lines[i]], decode) == [o];
    PresentAppend(Outcomes(lines[..i], decode), [o]);
  }

  /** A chunk of complete records, one per line, delivers each record's
      decoded value, in the order of the lines. */
  lemma ChunkOfRecords(records: seq<string>, decode: string -> Option<SerialData>)
    requires |records| >= 1
    requires forall i :: 0 <= i < |records| ==> '\n' !in records[i] && decode(Trim(records[i])).Some?
    requires forall i :: 0 <= i < |records| ==> |Trim(records[i])| > 0
    ensures var out := DecodeChunk(Join(records, '\n'), decode);
      && |out| == |records|
      && forall i :: 0 <= i < |records| ==> out[i] == decode(Trim(records[i])).value
  {
    SplitJoin(records, '\n');
    var os := Outcomes(records, decode);
    forall i | 0 <= i < |records|
      ensures os[i].Some? && os[i].value == decode(Trim(records[i])).value
    {
      OutcomeAt(records, i, decode);
    }
    AllPresent(os);
  }

  lemma {:induction false} OutcomeAt(pieces: seq<string>, i: nat, decode: string -> Option<SerialData>)
    requires i < |pieces|
    ensures Outcomes(pieces, decode)[i] == Outcome(pieces[i], decode)
    decreases i
  {
    if i > 0 {
      OutcomeAt(pieces[1..], i - 1, decode);
    }
  }

  lemma {:induction false} AllPresent(os: seq<Option<SerialData>>)
    requires forall i :: 0 <= i < |os| ==> os[i].Some?
    ensures |Present(os)| == |os|
    ensures forall i :: 0 <= i < |os| ==> Present(os)[i] == os[i].value
    decreases |os|
  {
    if |os| > 0 {
      AllPresent(os[1..]);
    }
  }

  /** Blank pieces and pieces that do not decode contribute nothing: removing
      one from the chunk's pieces leaves the delivered readings unchanged. */
  lemma DroppedPiece(before: seq<string>, piece: string, after: seq<string>, decode: string -> Option<SerialData>)
    requires |Trim(piece)| == 0 || decode(Trim(piece)).None?
    ensures Present(Outcomes(before + [piece] + after, decode)) == Present(Outcomes(before + after, decode))
  {
    var ob, oa := Outcomes(before, decode), Outcomes(after, decode);
    OutcomesAppend(before + [piece], after, decode);
    OutcomesAppend(before, [piece], decode);
    OutcomesAppend(before, after, decode);
    assert [piece][1..] == [];
    assert Outcomes([piece], decode) == [None];
    PresentSkipsNone(ob, oa);
  }

  lemma PresentSkipsNone(ob: seq<Option<SerialData>>, oa: seq<Option<SerialData>>)
    ensures Present(ob + [None] + oa) == Present(ob + oa)
  {
    var none: Option<SerialData> := None;
    PresentAppend(ob + [none], oa);
    PresentAppend(ob, [none]);
    PresentAppend(ob, oa);
    assert [none][1..] == [];
  }

  /** What one `reader.read()` produces. */
  datatype ReadResult = Chunk(text: string) | Done | Fault

  /** What the read loop hands to the callbacks. */
  datatype Delivery = Data(reading: SerialData) | ReadError

  /** The read loop over the successive results of `reader.read()`: each chunk's
      readings are delivered; `done` ends the loop silently; a read exception
      reports one error and ends the loop. */
  function ReadLoop(results: seq<ReadResult>, decode: string -> Option<SerialData>): (out: seq<Delivery>)
    ensures forall i :: 0 <= i < |out| - 1 ==> out[i].Data?
  {
    if |results| == 0 then []
    else
      match results[0]
      case Done => []
      case Fault => [ReadError]
      case Chunk(text) => Wrap(DecodeChunk(text, decode)) + ReadLoop(results[1..], decode)
  }

  function Wrap(ds: seq<SerialData>): (out: seq<Delivery>)
    ensures |out| == |ds| && forall i :: 0 <= i < |ds| ==> out[i] == Data(ds[i])
  {
    seq(|ds|, i requires 0 <= i < |ds| => Data(ds[i]))
  }

  /** The read loop as the method it is, one `read()` result per iteration. */
  method RunReadLoop(results: seq<ReadResult>, decode: string -> Option<SerialData>) returns (out: seq<Delivery>)
    ensures out == ReadLoop(results, decode)
  {
    out := [];
    var i := 0;
    while i < |results|
      invariant 0 <= i <= |results|
      invariant out + ReadLoop(results[i..], decode) == ReadLoop(results, decode)
    {
      match results[i] {
        case Done =>
          return;
        case Fault =>
          out := out + [ReadError];
          return;
        case Chunk(text) =>
          var ds := DeliverPieces(Split(text, '\n'), decode);
          ReadStep(results, i, decode);
          assert out + Wrap(ds) + ReadLoop(results[i + 1..], decode)
              == out + (Wrap(ds) + ReadLoop(results[i + 1..], decode));
          out := out + Wrap(ds);
      }
      i := i + 1;
    }
  }

  lemma ReadStep(results: seq<ReadResult>, i: nat, decode: string -> Option<SerialData>)
    requires i < |results| && results[i].Chunk?
    ensures ReadLoop(results[i..], decode)
         == Wrap(DecodeChunk(results[i].text, decode)) + ReadLoop(results[i + 1..], decode)
  {
    assert results[i..][0] == results[i] && results[i..][1..] == results[i + 1..];
  }

  /** The number of errors a read loop reports. */
  function Errors(out: seq<Delivery>): nat {
    if |out| == 0 then 0 else (if out[0].ReadError? then 1 else 0) + Errors(out[1..])
  }

  lemma {:induction false} DataHasNoErrors(out: seq<Delivery>)
    requires forall i :: 0 <= i < |out| ==> out[i].Data?
    ensures Errors(out) == 0
    decreases |out|
  {
    if |out| > 0 {
      DataHasNoErrors(out[1..]);
    }
  }

  /** The error callback fires at most once per read loop, and only as its last delivery. */
  lemma AtMostOneError(results: seq<ReadResult>, decode: string -> Option<SerialData>)
    ensures var out := ReadLoop(results, decode);
      && Errors(out) <= 1
      && (Errors(out) == 1 <==> |out| > 0 && out[|out| - 1].ReadError?)
  {
    var out := ReadLoop(results, decode);
    if |out| > 0 {
      DataHasNoErrors(out[..|out| - 1]);
      ErrorsAppend(out[..|out| - 1], [out[|out| - 1]]);
      assert out == out[..|out| - 1] + [out[|out| - 1]];
    } else {
      DataHasNoErrors(out);
    }
  }

  lemma {:induction false} ErrorsAppend(a: seq<Delivery>, b: seq<Delivery>)
    ensures Errors(a + b) == Errors(a) + Errors(b)
    decreases |a|
  {
    if |a| == 0 {
      assert a + b == b;
    } else {
      assert (a + b)[1..] == a[1..] + b;
      ErrorsAppend(a[1..], b);
    }
  }

  /** One chunk's readings come first, then whatever the rest of the reads deliver. */
  lemma ChunkStep(a: string, rest: seq<ReadResult>, decode: string -> Option<SerialData>)
    ensures ReadLoop([Chunk(a)] + rest, decode) == Wrap(DecodeChunk(a, decode)) + ReadLoop(rest, decode)
  {
    var rs := [Chunk(a)] + rest;
    assert rs[0] == Chunk(a) && rs[1..] == rest;
  }

  /** No buffering across reads: two chunks are decoded independently, each on its own. */
  lemma ChunksIndependent(a: string, b: string, rest: seq<ReadResult>, decode: string -> Option<SerialData>)
    ensures ReadLoop([Chunk(a), Chunk(b)] + rest, decode)
         == Wrap(DecodeChunk(a, decode)) + (Wrap(DecodeChunk(b, decode)) + ReadLoop(rest, decode))
  {
    assert [Chunk(a), Chunk(b)] + rest == [Chunk(a)] + ([Chunk(b)] + rest);
    ChunkStep(a, [Chunk(b)] + rest, decode);
    ChunkStep(b, rest, decode);
  }

  /** A chunk holding one line without white space at its ends delivers that
      line's decoded value, if it has one. */
  lemma OneLineChunk(line: string, decode: string -> Option<SerialData>)
    requires '\n' !in line && |line| > 0 && IsTrimmed(line)
    ensures DecodeChunk(line, decode) == if decode(line).Some? then [decode(line).value] else []
  {
    SplitPiece(line, '\n');
    TrimmedFixed(line);
    assert [line][1..] == [];
    var o := Outcome(line, decode);
    assert Outcomes([line], decode) == [o];
    assert [o][1..] == [];
  }

  /** A record split over two reads is lost: for any decoder that accepts the
      text `{}` but neither of its halves, the line `{}` delivers its reading,
      while the same text arriving as `{` and then `}` delivers nothing. */
  lemma SplitRecordLost(decode: string -> Option<SerialData>)
    requires decode("{}").Some? && decode("{").None? && decode("}").None?
    ensures DecodeChunk("{}", decode) == [decode("{}").value]
    ensures ReadLoop([Chunk("{"), Chunk("}"), Done], decode) == []
  {
    OneLineChunk("{}", decode);
    HalvesLost("{", "}", decode);
  }

  /** Two one-line chunks neither of which decodes deliver nothing. */
  lemma HalvesLost(a: string, b: string, decode: string -> Option<SerialData>)
    requires '\n' !in a && |a| > 0 && IsTrimmed(a) && decode(a).None?
    requires '\n' !in b && |b| > 0 && IsTrimmed(b) && decode(b).None?
    ensures ReadLoop([Chunk(a), Chunk(b), Done], decode) == []
  {
    OneLineChunk(a, decode);
    OneLineChunk(b, decode);
    ChunksIndependent(a, b, [Done], decode);
    assert [Chunk(a), Chunk(b)] + [Done] == [Chunk(a), Chunk(b), Done];
    assert ReadLoop([Done], decode) == [];
    assert Wrap([]) == [];
  }

  /** The reader's flags: a port and a stream reader held, and `isConnected`. */
  datatype Reader = Reader(hasPort: bool, hasReader: bool, connected: bool)

  /** A reader as constructed, and as `close` leaves it. */
  const Fresh: Reader := Reader(false, false, false)

  /** What the browser does with `connect()`. */
  datatype PortResponse =
    | Unsupported              // no Web Serial API
    | RequestRejected          // `requestPort()` rejects, e.g. the chooser is dismissed
    | NoPortSelected           // `requestPort()` resolves without a port
    | OpenRejected             // `port.open()` rejects
    | Opened(readable: bool)   // the port opens; `readable` tells whether it has a stream to read

  /** The reader after `connect()`, whether `connect()` threw, and whether the
      reading that `connect()` starts reports an error at once. */
  datatype ConnectStep = ConnectStep(next: Reader, threw: bool, readError: bool)

  /** `connect()`. */
  function Connect(r: Reader, resp: PortResponse): (c: ConnectStep)
    ensures c.threw <==> !resp.Opened?
    ensures c.threw ==> !c.readError && (resp.Unsupported? ==> c.next == r) && (!resp.Unsupported? ==> !c.next.connected)
    ensures !c.threw ==> c.next.connected && c.next.hasPort && (c.readError <==> !c.next.hasReader)
  {
    match resp
    case Unsupported => ConnectStep(r, true, false)
    case RequestRejected => ConnectStep(r.(connected := false), true, false)
    case NoPortSelected => ConnectStep(r.(hasPort := false, connected := false), true, false)
    case OpenRejected => ConnectStep(r.(hasPort := true, connected := false), true, false)
    case Opened(readable) => ConnectStep(Reader(true, readable, true), false, !readable)
  }

  /** `close()`: not connected, no reader, no port — from any state. */
  function Close(r: Reader): (c: Reader)
    ensures !c.connected && !c.hasReader && !c.hasPort
  {
    Fresh
  }

  /** `close()` is safe on a reader never opened, idempotent, and undoes any `connect()`. */
  lemma CloseLifecycle(r: Reader, resp: PortResponse)
    ensures Close(Fresh) == Fresh
    ensures Close(Close(r)) == Close(r)
    ensures Close(Connect(r, resp).next) == Close(r)
  {
  }

  /** A failed `connect()` leaves a fresh reader disconnected, so a later
      `close()` has nothing to undo but the port a rejected `open()` kept. */
  lemma FailedConnectFromFresh(resp: PortResponse)
    requires !resp.Opened?
    ensures !Connect(Fresh, resp).next.connected && !Connect(Fresh, resp).next.hasReader
  {
  }

  /** The simulator: the run flag and the tick period of its interval, if one is set. */
  datatype Simulator = Simulator(running: bool, period: Option<real>)

  const Stopped: Simulator := Simulator(false, None)

  /** The simulator's own invariant: an interval is set exactly while it runs,
      and its period lies in [100, 200) milliseconds. */
  predicate SimValid(s: Simulator) {
    s.running <==> s.period.Some? && (s.period.Some? ==> 100.0 <= s.period.value < 200.0)
  }

  /** `startSimulation()` with `u` the value `Math.random()` returns: a no-op
      while running, else running with an interval of `100 + 100u` ms. */
  function StartSimulation(s: Simulator, u: real): (r: Simulator)
    requires 0.0 <= u < 1.0
    ensures r.running
    ensures s.running ==> r == s
    ensures !s.running ==> r.period.Some? && 100.0 <= r.period.value < 200.0
  {
    if s.running then s else Simulator(true, Some(100.0 + u * 100.0))
  }

  /** `stopSimulation()`: not running and no interval, whatever the state. */
  function StopSimulation(s: Simulator): (r: Simulator)
    ensures !r.running && r.period.None?
  {
    Stopped
  }

  /** The simulator emits a reading on a tick exactly when an interval is set. */
  predicate Emits(s: Simulator) {
    s.period.Some?
  }

  /** Start and stop keep the invariant, so the simulator emits exactly while
      it runs; stopping twice is stopping once, and starting twice is starting once. */
  lemma SimulatorLifecycle(s: Simulator, u: real, v: real)
    requires SimValid(s) && 0.0 <= u < 1.0 && 0.0 <= v < 1.0
    ensures SimValid(StartSimulation(s, u)) && SimValid(StopSimulation(s))
    ensures Emits(StartSimulation(s, u)) && !Emits(StopSimulation(s))
    ensures StopSimulation(StopSimulation(s)) == StopSimulation(s)
    ensures StartSimulation(StartSimulation(s, u), v) == StartSimulation(s, u)
  {
  }
}
