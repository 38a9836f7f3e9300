/** The backend's acquisition state (`backend/src/server.js`): the cached
    `latest` reading with its `collecting` switch, the serial listener that
    feeds it, the one-shot `getNextReading` wait, the single-flight
    `/api/capture-and-save` route guarded by `captureInFlight`, and
    `/api/save-latest`.

    The server is a value and every stimulus an event: a line from the serial
    parser, a request, the clock passing a deadline, a database write settling,
    the port failing. Timers and listeners are explicit state; `Date.now()` is
    the `now` an event carries; the database write is its outcome `ok`. */
module CaptureServer {
  import opened Base
  import opened LineParser

  /** The timeout the capture route passes to `getNextReading`, in milliseconds. */
  const CaptureTimeoutMs: nat := 5000

  /** Why a request failed: no serial parser, no parseable line before the
      deadline, or the database write failed. */
  datatype Failure = NoDevice | TimedOut | SaveFailed

  /** One `getNextReading` promise. `Pending` has its data listener attached
      and its timer armed until `deadline`; once settled, both are gone. */
  datatype Wait<J> = Pending(deadline: int) | Resolved(reading: Reading<J>) | Rejected(cause: Failure)

  /** `getNextReading(timeoutMs)` called at `now`: rejected at once without a
      parser, otherwise subscribed to the parser with a timer. */
  function GetNextReading<J>(hasParser: bool, now: int, timeoutMs: int): (w: Wait<J>)
    ensures !hasParser <==> w == Rejected(NoDevice)
    ensures hasParser ==> w.Pending? && w.deadline == now + timeoutMs
  {
    if !hasParser then Rejected(NoDevice) else Pending(now + timeoutMs)
  }

  /** The wait's data listener receives a line: the first parseable line
      resolves it and removes listener and timer; other lines are ignored. */
  function WaitOnLine<J>(w: Wait<J>, line: string, now: int, decode: string -> Option<J>): (w': Wait<J>)
    ensures !w.Pending? ==> w' == w
    ensures w.Pending? && Parse(line, now, decode).None? ==> w' == w
    ensures w.Pending? && Parse(line, now, decode).Some? ==> w' == Resolved(Parse(line, now, decode).value)
  {
    match w
    case Pending(_) =>
      (match Parse(line, now, decode)
       case Some(r) => Resolved(r)
       case None => w)
    case _ => w
  }

  /** The clock reaches `now`: a pending wait whose deadline has passed is
      rejected, which also removes its listener. */
  function WaitOnClock<J>(w: Wait<J>, now: int): (w': Wait<J>)
    ensures w.Pending? && now >= w.deadline ==> w' == Rejected(TimedOut)
    ensures !(w.Pending? && now >= w.deadline) ==> w' == w
  {
    if w.Pending? && now >= w.deadline then Rejected(TimedOut) else w
  }

  /** Where `/api/capture-and-save` stands: no request, awaiting its
      `getNextReading` (deadline as in `Pending`), or awaiting the database
      write of the reading it got. */
  datatype Capture<J> = Idle | Awaiting(deadline: int) | Saving(reading: Reading<J>)

  /** The module-level state of the backend. `hasParser` is `parser !== null`;
      `saves` holds, oldest first, the reading each `/api/save-latest` request
      handed to its database write that has not settled yet. */
  datatype Server<J> = Server(
    latest: Option<Reading<J>>,
    collecting: bool,
    captureInFlight: bool,
    hasParser: bool,
    capture: Capture<J>,
    saves: seq<Reading<J>>)

  /** What a route answers: `Saved` is status 200, `Busy` and `NothingCached`
      are 409, `Failed` is 500. */
  datatype Reply = Saved | Busy | NothingCached | Failed(cause: Failure)

  function StatusCode(r: Reply): nat {
    match r
    case Saved => 200
    case Busy => 409
    case NothingCached => 409
    case Failed(_) => 500
  }

  datatype Event<J> =
    | Line(text: string, now: int)   // the serial parser emits a line
    | CaptureAndSave(now: int)       // POST /api/capture-and-save
    | Clock(now: int)                // time passes to `now`
    | CaptureSaveSettled(ok: bool)   // the capture route's database write settles
    | SaveLatest                     // POST /api/save-latest
    | SaveLatestSettled(k: nat, ok: bool) // the write of the k-th outstanding save-latest request settles
    | PortError                      // the serial port emits 'error'

  datatype Outcome<J> = Outcome(next: Server<J>, reply: Option<Reply>)

  /** The state at start-up: nothing cached, collecting, no capture, and a
      parser exactly when the port could be constructed. */
  function Start<J>(portOpened: bool): (s: Server<J>)
    ensures Valid(s) && s.collecting && s.latest.None? && s.saves == []
  {
    Server(None, true, false, portOpened, Idle, [])
  }

  /** The single-flight flag is raised exactly while a capture request is in progress. */
  ghost predicate Valid<J>(s: Server<J>) {
    s.captureInFlight <==> !s.capture.Idle?
  }

  function PauseCollecting<J>(s: Server<J>): (s': Server<J>)
    ensures !s'.collecting && s'.(collecting := s.collecting) == s
  {
    s.(collecting := false)
  }

  /** Defined by the backend but called from nowhere: no event below uses it. */
  function ResumeCollecting<J>(s: Server<J>): (s': Server<J>)
    ensures s'.collecting && s'.(collecting := s.collecting) == s
  {
    s.(collecting := true)
  }

  /** The start-up serial listener: a parseable line replaces `latest` while
      collecting; anything else leaves it. */
  function CacheOnLine<J>(s: Server<J>, line: string, now: int, decode: string -> Option<J>): (s': Server<J>)
    ensures s'.(latest := s.latest) == s
    ensures s'.latest != s.latest ==> s.collecting && s'.latest == Parse(line, now, decode)
    ensures s.collecting && Parse(line, now, decode).Some? ==> s'.latest == Parse(line, now, decode)
  {
    var r := Parse(line, now, decode);
    if r.Some? && s.collecting then s.(latest := r) else s
  }

  /** A line reaches the pending capture's listener, registered after the
      cache's: a parseable line ends the wait and hands its reading to the
      database write; anything else changes nothing. */
  function CaptureOnLine<J>(s: Server<J>, line: string, now: int, decode: string -> Option<J>): (s': Server<J>)
    ensures s'.(capture := s.capture) == s
    ensures s.capture.Awaiting? && Parse(line, now, decode).Some? ==> s'.capture == Saving(Parse(line, now, decode).value)
    ensures !(s.capture.Awaiting? && Parse(line, now, decode).Some?) ==> s' == s
  {
    match s.capture
    case Awaiting(d) =>
      (match WaitOnLine(Pending(d), line, now, decode)
       case Resolved(r) => s.(capture := Saving(r))
       case _ => s)
    case _ => s
  }

  /** The capture route's request handler up to its first suspension. */
  function OnCaptureAndSave<J>(s: Server<J>, now: int): (o: Outcome<J>)
    ensures s.captureInFlight ==> o == Outcome(s, Some(Busy))
    ensures !s.captureInFlight && !s.hasParser ==> o.reply == Some(Failed(NoDevice)) && o.next == s.(captureInFlight := false)
    ensures !s.captureInFlight && s.hasParser ==>
      o.reply.None? && o.next == s.(captureInFlight := true, capture := Awaiting(now + CaptureTimeoutMs))
  {
    if s.captureInFlight then Outcome(s, Some(Busy))
    else
      var raised := s.(captureInFlight := true);
      var w := GetNextReading<J>(s.hasParser, now, CaptureTimeoutMs);
      if w.Pending? then Outcome(raised.(capture := Awaiting(w.deadline)), None)
      else Outcome(raised.(captureInFlight := false), Some(Failed(w.cause)))
  }

  /** Time passes to `now`. Once the pending capture's deadline has passed its
      timer fires: the route answers 500 with the timeout error and its
      `finally` lowers the flag. Before the deadline, or with no wait pending,
      nothing happens. */
  function OnClock<J>(s: Server<J>, now: int): (o: Outcome<J>)
    ensures s.capture.Awaiting? && now >= s.capture.deadline ==>
      o == Outcome(s.(capture := Idle, captureInFlight := false), Some(Failed(TimedOut)))
    ensures !(s.capture.Awaiting? && now >= s.capture.deadline) ==> o == Outcome(s, None)
  {
    match s.capture
    case Awaiting(d) =>
      (match WaitOnClock<J>(Pending(d), now)
       case Rejected(cause) => Outcome(s.(capture := Idle, captureInFlight := false), Some(Failed(cause)))
       case _ => Outcome(s, None))
    case _ => Outcome(s, None)
  }

  /** The capture route's database write settles: it answers 200 on success
      and 500 with the write error on failure, and its `finally` lowers the
      flag. With no write pending nothing happens. */
  function OnCaptureSaveSettled<J>(s: Server<J>, ok: bool): (o: Outcome<J>)
    ensures s.capture.Saving? && ok ==>
      o == Outcome(s.(capture := Idle, captureInFlight := false), Some(Saved))
    ensures s.capture.Saving? && !ok ==>
      o == Outcome(s.(capture := Idle, captureInFlight := false), Some(Failed(SaveFailed)))
    ensures !s.capture.Saving? ==> o == Outcome(s, None)
  {
    if s.capture.Saving? then
      Outcome(s.(capture := Idle, captureInFlight := false), Some(if ok then Saved else Failed(SaveFailed)))
    else
      Outcome(s, None)
  }

  /** `/api/save-latest` up to its `await`: refuses with 409 when nothing is
      cached, and otherwise hands the cached reading to a database write. No
      flag guards it, and collecting stays on while the write is pending. */
  function OnSaveLatest<J>(s: Server<J>): (o: Outcome<J>)
    ensures s.latest.None? ==> o == Outcome(s, Some(NothingCached))
    ensures s.latest.Some? ==> o == Outcome(s.(saves := s.saves + [s.latest.value]), None)
  {
    if s.latest.None? then Outcome(s, Some(NothingCached))
    else Outcome(s.(saves := s.saves + [s.latest.value]), None)
  }

  /** `s` without its `k`-th element. */
  function Without<T>(s: seq<T>, k: nat): (r: seq<T>)
    requires k < |s|
    ensures |r| == |s| - 1
    ensures forall i :: 0 <= i < k ==> r[i] == s[i]
    ensures forall i :: k <= i < |r| ==> r[i] == s[i + 1]
  {
    s[..k] + s[k + 1..]
  }

  /** The write of the `k`-th outstanding save-latest request settles: on
      success the route pauses collecting and answers 200, otherwise 500 with
      collecting untouched. An index with no outstanding write is no event. */
  function OnSaveLatestSettled<J>(s: Server<J>, k: nat, ok: bool): (o: Outcome<J>)
    ensures k >= |s.saves| ==> o == Outcome(s, None)
    ensures k < |s.saves| && ok ==>
      o == Outcome(s.(collecting := false, saves := Without(s.saves, k)), Some(Saved))
    ensures k < |s.saves| && !ok ==>
      o == Outcome(s.(saves := Without(s.saves, k)), Some(Failed(SaveFailed)))
  {
    if k >= |s.saves| then Outcome(s, None)
    else
      var rest := s.(saves := Without(s.saves, k));
      if ok then Outcome(PauseCollecting(rest), Some(Saved))
      else Outcome(rest, Some(Failed(SaveFailed)))
  }

  /** A line from the serial parser. Lines come only from a live parser; both
      listeners see each line, the cache's first. Only the cache and the
      pending capture can change, and a capture that takes the line takes the
      same reading the cache stores while collecting. */
  function OnParserLine<J>(s: Server<J>, text: string, now: int, decode: string -> Option<J>): (s': Server<J>)
    ensures s'.(latest := s.latest, capture := s.capture) == s
    ensures s'.latest != s.latest ==> s.hasParser && s.collecting && s'.latest == Parse(text, now, decode)
    ensures s'.capture != s.capture ==>
      s.hasParser && s.capture.Awaiting? && Parse(text, now, decode).Some? && s'.capture == Saving(Parse(text, now, decode).value)
    ensures s.hasParser && Parse(text, now, decode).Some? ==>
      && (s.collecting ==> s'.latest == Parse(text, now, decode))
      && (s.capture.Awaiting? ==> s'.capture == Saving(Parse(text, now, decode).value))
  {
    if s.hasParser then CaptureOnLine(CacheOnLine(s, text, now, decode), text, now, decode) else s
  }

  /** One event. */
  function Next<J>(s: Server<J>, e: Event<J>, decode: string -> Option<J>): Outcome<J>
  {
    match e
    case Line(text, now) => Outcome(OnParserLine(s, text, now, decode), None)
    case CaptureAndSave(now) => OnCaptureAndSave(s, now)
    case Clock(now) => OnClock(s, now)
    case CaptureSaveSettled(ok) => OnCaptureSaveSettled(s, ok)
    case SaveLatest => OnSaveLatest(s)
    case SaveLatestSettled(k, ok) => OnSaveLatestSettled(s, k, ok)
    case PortError => Outcome(s.(hasParser := false), None)
  }

  /** The state after a sequence of events. */
  function Run<J>(s: Server<J>, events: seq<Event<J>>, decode: string -> Option<J>): Server<J>
    decreases |events|
  {
    if |events| == 0 then s else Run(Next(s, events[0], decode).next, events[1..], decode)
  }

  /** Every event keeps the single-flight flag in step with the capture in progress. */
  lemma NextValid<J>(s: Server<J>, e: Event<J>, decode: string -> Option<J>)
    requires Valid(s)
    ensures Valid(Next(s, e, decode).next)
  {
  }

  /** A second capture request while one is in progress fails at once with
      409 and changes nothing — it neither waits nor joins the first. */
  lemma BusyFailsFast<J>(s: Server<J>, now: int, decode: string -> Option<J>)
    requires s.captureInFlight
    ensures Next(s, CaptureAndSave(now), decode) == Outcome(s, Some(Busy))
  {
  }

  /** Two capture requests with no line in between: the first waits, the
      second is answered 409 at once. */
  lemma SecondCaptureIsBusy<J>(s: Server<J>, now1: int, now2: int, decode: string -> Option<J>)
    requires Valid(s) && s.capture.Idle? && s.hasParser
    ensures Next(s, CaptureAndSave(now1), decode).reply.None?
    ensures var s1 := Next(s, CaptureAndSave(now1), decode).next;
      Next(s1, CaptureAndSave(now2), decode) == Outcome(s1, Some(Busy))
  {
  }

  /** With no capture in flight, a request without a parser fails at once
      with the no-device error, and its `finally` leaves the flag lowered. */
  lemma NoDeviceFailsFast<J>(s: Server<J>, now: int, decode: string -> Option<J>)
    requires !s.captureInFlight && !s.hasParser
    ensures Next(s, CaptureAndSave(now), decode) == Outcome(s, Some(Failed(NoDevice)))
  {
  }

  /** The flag is tested before the parser: when the port fails while a
      capture waits, the parser is gone but the flag stays raised, so a new
      request gets 409 rather than the no-device error. No line can reach the
      orphaned wait, which ends only on its timeout. */
  lemma PortErrorDuringCapture<J>(s: Server<J>, text: string, now: int, decode: string -> Option<J>)
    requires Valid(s) && s.capture.Awaiting?
    ensures var s1 := Next(s, PortError, decode).next;
      && !s1.hasParser && s1.captureInFlight
      && Next(s1, CaptureAndSave(now), decode) == Outcome(s1, Some(Busy))
      && Next(s1, Line(text, now), decode) == Outcome(s1, None)
      && (now >= s.capture.deadline ==>
            Next(s1, Clock(now), decode) == Outcome(s1.(capture := Idle, captureInFlight := false), Some(Failed(TimedOut))))
  {
  }

  /** Whenever the capture route answers after waiting — timeout or settled
      write — the flag is lowered and the capture is over. */
  lemma FlagClearedOnCompletion<J>(s: Server<J>, e: Event<J>, decode: string -> Option<J>)
    requires Valid(s) && (e.Clock? || e.CaptureSaveSettled?)
    requires Next(s, e, decode).reply.Some?
    ensures !Next(s, e, decode).next.captureInFlight && Next(s, e, decode).next.capture.Idle?
  {
  }

  /** A pending capture resolves with the first parseable line — which is also
      the reading the cache would store — and stops listening; an unparseable
      line leaves it waiting. */
  lemma CaptureTakesFirstParsedLine<J>(s: Server<J>, text: string, now: int, decode: string -> Option<J>)
    requires s.hasParser && s.capture.Awaiting?
    ensures var r := Parse(text, now, decode);
      && (r.Some? ==> Next(s, Line(text, now), decode).next.capture == Saving(r.value))
      && (r.None? ==> Next(s, Line(text, now), decode).next.capture == s.capture)
  {
  }

  /** An unparseable line changes nothing at all: not the cache, not a pending capture. */
  lemma ParseMissIsSilent<J>(s: Server<J>, text: string, now: int, decode: string -> Option<J>)
    requires Parse(text, now, decode).None?
    ensures Next(s, Line(text, now), decode) == Outcome(s, None)
  {
  }

  /** While collecting is paused, lines leave `latest` unchanged. */
  lemma PausedCacheIsFrozen<J>(s: Server<J>, text: string, now: int, decode: string -> Option<J>)
    requires !s.collecting
    ensures Next(s, Line(text, now), decode).next.latest == s.latest
  {
  }

  /** A successful save-latest freezes the cache from its settling on: after
      it, no sequence of events changes `latest` or resumes collecting. */
  lemma FrozenAfterSave<J>(s: Server<J>, k: nat, events: seq<Event<J>>, decode: string -> Option<J>)
    requires k < |s.saves|
    ensures var s1 := Next(s, SaveLatestSettled(k, true), decode).next;
      && s1.latest == s.latest
      && !Run(s1, events, decode).collecting
      && Run(s1, events, decode).latest == s.latest
  {
    var s1 := Next(s, SaveLatestSettled(k, true), decode).next;
    PausedForever(s1, events, decode);
  }

  /** The write is awaited before collecting pauses, so a parseable line that
      arrives meanwhile replaces `latest`: the request saves `a`, and the cache
      then freezes on `b`, the reading of the line, which was never saved. */
  lemma SaveRace<J>(s: Server<J>, a: Reading<J>, b: Reading<J>, text: string, now: int, decode: string -> Option<J>)
    requires s.collecting && s.hasParser && s.latest == Some(a) && s.saves == []
    requires Parse(text, now, decode) == Some(b) && b != a
    ensures var s1 := Next(s, SaveLatest, decode);
      var s2 := Next(s1.next, Line(text, now), decode).next;
      var s3 := Next(s2, SaveLatestSettled(0, true), decode);
      && s1.reply.None? && s1.next.saves == [a]
      && s3.reply == Some(Saved) && !s3.next.collecting
      && s3.next.latest == Some(b) && b != a
  {
    var s1 := s.(saves := [a]);
    SaveStep(s, decode);
    LineCaches(s1, text, now, decode);
    SettleStep(Next(s1, Line(text, now), decode).next, decode);
  }

  /** A save-latest request with a cached reading queues exactly that reading. */
  lemma SaveStep<J>(s: Server<J>, decode: string -> Option<J>)
    requires s.latest.Some? && s.saves == []
    ensures Next(s, SaveLatest, decode) == Outcome(s.(saves := [s.latest.value]), None)
  {
    assert s.saves + [s.latest.value] == [s.latest.value];
  }

  /** The only pending write settling successfully answers 200 and pauses. */
  lemma SettleStep<J>(s: Server<J>, decode: string -> Option<J>)
    requires |s.saves| == 1
    ensures Next(s, SaveLatestSettled(0, true), decode) == Outcome(s.(collecting := false, saves := []), Some(Saved))
  {
    assert Without(s.saves, 0) == [];
  }

  /** While collecting, a parseable line from a live parser becomes `latest`
      and leaves the pending saves and the switch alone. */
  lemma LineCaches<J>(s: Server<J>, text: string, now: int, decode: string -> Option<J>)
    requires s.collecting && s.hasParser && Parse(text, now, decode).Some?
    ensures var n := Next(s, Line(text, now), decode).next;
      n.latest == Parse(text, now, decode) && n.saves == s.saves && n.collecting
  {
    var c := CacheOnLine(s, text, now, decode);
    assert c.latest == Parse(text, now, decode) && c.saves == s.saves && c.collecting;
  }

  /** Save-latest has no single-flight gate: a second request while the first
      write is pending is not refused, and both writes are outstanding. */
  lemma SavesOverlap<J>(s: Server<J>, decode: string -> Option<J>)
    requires s.latest.Some? && s.saves == []
    ensures var s1 := Next(s, SaveLatest, decode);
      var s2 := Next(s1.next, SaveLatest, decode);
      && s1.reply.None? && s2.reply.None?
      && s2.next.saves == [s.latest.value, s.latest.value]
  {
  }

  /** No event resumes collecting: once paused, the cache stays frozen for
      every later sequence of events. */
  lemma {:induction false} PausedForever<J>(s: Server<J>, events: seq<Event<J>>, decode: string -> Option<J>)
    requires !s.collecting
    ensures !Run(s, events, decode).collecting
    ensures Run(s, events, decode).latest == s.latest
    decreases |events|
  {
    if |events| > 0 {
      var s1 := Next(s, events[0], decode).next;
      assert !s1.collecting && s1.latest == s.latest;
      PausedForever(s1, events[1..], decode);
    }
  }

  /** The flag invariant holds after any sequence of events from start-up. */
  lemma {:induction false} RunValid<J>(s: Server<J>, events: seq<Event<J>>, decode: string -> Option<J>)
    requires Valid(s)
    ensures Valid(Run(s, events, decode))
    decreases |events|
  {
    if |events| > 0 {
      NextValid(s, events[0], decode);
      RunValid(Next(s, events[0], decode).next, events[1..], decode);
    }
  }
}
