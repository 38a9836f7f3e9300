/** The source panel (`components/SerialConnect.tsx`): it owns one
    `SerialReader` and one `SerialSimulator`, fans every reading from either
    of them out into per-channel sample updates of the store, and keeps the
    store's `isSerialConnected` / `isSimulating` flags in step with the
    buttons. React's state and effects become the `Panel` record; each handler
    is a transition of it. */
module SourceControl {
  import opened Base
  import opened VitalStore
  import opened SerialSource

  /** Why the panel shows an error. */
  datatype PanelError = ConnectFailed | ReadFailed

  /** The panel: the store, the reader and simulator it created (absent until
      its mount effect has run), and the error it shows. */
  datatype Panel = Panel(store: AppState, mounted: bool, reader: Reader, sim: Simulator, error: Option<PanelError>)

  /** The panel after mounting on a fresh store. */
  const Mounted: Panel := Panel(Initial, true, Fresh, Stopped, None)

  /** The value a reading carries for a channel; the weight may be absent. */
  function ChannelValue(d: SerialData, c: Channel): Option<real> {
    match c
    case BpSys => Some(d.bpSys)
    case BpDia => Some(d.bpDia)
    case Hr => Some(d.hr)
    case Spo2 => Some(d.spo2)
    case TempC => Some(d.tempC)
    case WeightKg => d.weightKg
  }

  /** The data callback of both the reader and the simulator: one
      `updateVitalValue` per channel, the five required ones in order, then the
      weight only when the reading has one. */
  function FanOut(s: AppState, d: SerialData): (r: AppState)
    ensures r == s.(vitals := r.vitals)
    ensures forall c :: c in Required ==> |r.vitals.Get(c).samples| == |s.vitals.Get(c).samples| + 1
    ensures d.weightKg.None? ==> r.vitals.Get(WeightKg) == s.vitals.Get(WeightKg)
  {
    var s1 := UpdateVitalValue(s, BpSys, d.bpSys);
    var s2 := UpdateVitalValue(s1, BpDia, d.bpDia);
    var s3 := UpdateVitalValue(s2, Hr, d.hr);
    var s4 := UpdateVitalValue(s3, Spo2, d.spo2);
    var s5 := UpdateVitalValue(s4, TempC, d.tempC);
    if d.weightKg.Some? then UpdateVitalValue(s5, WeightKg, d.weightKg.value) else s5
  }

  /** A reading appends exactly its own value to every channel it carries and
      nothing to any other; the current value follows, the committed value and
      the flags stay. */
  lemma FanOutAppends(s: AppState, d: SerialData, c: Channel)
    ensures var v, w := s.vitals.Get(c), FanOut(s, d).vitals.Get(c);
        && w.capturedValue == v.capturedValue
        && (ChannelValue(d, c).Some? ==>
              w.samples == v.samples + [ChannelValue(d, c).value] && w.currentValue == ChannelValue(d, c))
        && (ChannelValue(d, c).None? ==> w == v)
  {
  }

  /** `handleConnect()` with the browser answering `resp`. Success raises the
      connection flag and lowers the simulation flag; failure leaves both flags
      and shows the error. A port without a readable stream reports the error
      through the reader's error callback before `connect()` returns, so the
      flag ends raised all the same. */
  function HandleConnect(p: Panel, resp: PortResponse): (q: Panel)
    ensures !p.mounted ==> q == p
    ensures p.mounted && !resp.Opened? ==>
      q.store == p.store && q.error == Some(ConnectFailed) && q.sim == p.sim
    ensures p.mounted && resp.Opened? ==>
      && q.store == p.store.(isSerialConnected := true, isSimulating := false)
      && q.reader.connected && q.sim == p.sim
      && (q.error.Some? <==> !resp.readable)
  {
    if !p.mounted then p
    else
      var step := Connect(p.reader, resp);
      if step.threw then p.(reader := step.next, error := Some(ConnectFailed))
      else
        var afterCallback := if step.readError then OnReaderError(p.(reader := step.next, error := None))
                             else p.(reader := step.next, error := None);
        afterCallback.(store := SetSimulating(SetSerialConnected(afterCallback.store, true), false))
  }

  /** `handleDisconnect()`: the reader closed and the connection flag lowered. */
  function HandleDisconnect(p: Panel): (q: Panel)
    ensures !p.mounted ==> q == p
    ensures p.mounted ==> q == p.(reader := Fresh, store := p.store.(isSerialConnected := false))
  {
    if !p.mounted then p
    else p.(reader := Close(p.reader), store := SetSerialConnected(p.store, false))
  }

  /** `handleSimulate()` with `u` the value `Math.random()` returns. While
      simulating it stops the simulator and lowers only the simulation flag;
      otherwise it starts the simulator, raises the simulation flag, lowers the
      connection flag and closes the reader. */
  function HandleSimulate(p: Panel, u: real): (q: Panel)
    requires 0.0 <= u < 1.0
    ensures !p.mounted ==> q == p
    ensures p.mounted && p.store.isSimulating ==>
      q == p.(sim := Stopped, store := p.store.(isSimulating := false))
    ensures p.mounted && !p.store.isSimulating ==>
      && q.store == p.store.(isSimulating := true, isSerialConnected := false)
      && q.sim.running && !q.reader.connected && q.error == p.error
  {
    if !p.mounted then p
    else if p.store.isSimulating then
      p.(sim := StopSimulation(p.sim), store := SetSimulating(p.store, false))
    else
      var store := SetSerialConnected(SetSimulating(p.store, true), false);
      p.(sim := StartSimulation(p.sim, u), store := store, reader := Close(p.reader))
  }

  /** The reader's error callback: the message shown and only the connection flag lowered. */
  function OnReaderError(p: Panel): (q: Panel)
    ensures q == p.(error := Some(ReadFailed), store := p.store.(isSerialConnected := false))
  {
    p.(error := Some(ReadFailed), store := SetSerialConnected(p.store, false))
  }

  /** The effect's cleanup on unmount: the reader closed and the simulator
      stopped; the store's flags are left as they were. */
  function Unmount(p: Panel): (q: Panel)
    ensures !q.reader.connected && !q.sim.running && q.store == p.store
  {
    p.(reader := Close(p.reader), sim := StopSimulation(p.sim))
  }

  /** What can happen to the panel. */
  datatype Event =
    | ConnectClicked(resp: PortResponse)
    | DisconnectClicked
    | SimulateClicked(u: real)
    | ReaderFailed
    | ReadingArrived(d: SerialData)

  predicate Possible(e: Event) {
    e.SimulateClicked? ==> 0.0 <= e.u < 1.0
  }

  function Step(p: Panel, e: Event): Panel
    requires Possible(e)
  {
    match e
    case ConnectClicked(resp) => HandleConnect(p, resp)
    case DisconnectClicked => HandleDisconnect(p)
    case SimulateClicked(u) => HandleSimulate(p, u)
    case ReaderFailed => OnReaderError(p)
    case ReadingArrived(d) => p.(store := FanOut(p.store, d))
  }

  function Run(p: Panel, es: seq<Event>): Panel
    requires forall i :: 0 <= i < |es| ==> Possible(es[i])
    decreases |es|
  {
    if |es| == 0 then p else Run(Step(p, es[0]), es[1..])
  }

  /** The two flags the UI shows are never raised together. */
  predicate FlagsExclusive(p: Panel) {
    !(p.store.isSerialConnected && p.store.isSimulating)
  }

  /** Every handler keeps the flags exclusive, whatever state it starts from. */
  lemma StepKeepsFlagsExclusive(p: Panel, e: Event)
    requires Possible(e) && FlagsExclusive(p)
    ensures FlagsExclusive(Step(p, e))
  {
  }

  /** From the mounted panel, no sequence of clicks, errors and readings raises both flags. */
  lemma {:induction false} FlagsNeverBoth(p: Panel, es: seq<Event>)
    requires forall i :: 0 <= i < |es| ==> Possible(es[i])
    requires FlagsExclusive(p)
    ensures FlagsExclusive(Run(p, es))
    decreases |es|
  {
    if |es| > 0 {
      StepKeepsFlagsExclusive(p, es[0]);
      FlagsNeverBoth(Step(p, es[0]), es[1..]);
    }
  }

  lemma MountedFlagsNeverBoth(es: seq<Event>)
    requires forall i :: 0 <= i < |es| ==> Possible(es[i])
    ensures FlagsExclusive(Run(Mounted, es))
  {
    FlagsNeverBoth(Mounted, es);
  }

  /** The sources themselves, not just the flags: the reader connected and the
      simulator running at once. */
  predicate BothSourcesLive(p: Panel) {
    p.reader.connected && p.sim.running
  }

  /** Connecting while the simulator runs does not stop it: afterwards the
      reader is connected, the simulator still runs and feeds the store, and
      the store's simulation flag says it does not. */
  lemma ConnectLeavesSimulatorRunning(u: real)
    requires 0.0 <= u < 1.0
    ensures var p := HandleConnect(HandleSimulate(Mounted, u), Opened(true));
      && BothSourcesLive(p) && !p.store.isSimulating && p.store.isSerialConnected
  {
  }

  /** The evidently intended connect: the same, and on success the simulator
      is stopped as its flag is lowered. */
  function HandleConnectIntended(p: Panel, resp: PortResponse): (q: Panel)
    ensures q.store == HandleConnect(p, resp).store && q.reader == HandleConnect(p, resp).reader
    ensures p.mounted && resp.Opened? ==> !q.sim.running
  {
    var q := HandleConnect(p, resp);
    if p.mounted && resp.Opened? then q.(sim := StopSimulation(q.sim)) else q
  }

  function StepIntended(p: Panel, e: Event): Panel
    requires Possible(e)
  {
    match e
    case ConnectClicked(resp) => HandleConnectIntended(p, resp)
    case _ => Step(p, e)
  }

  function RunIntended(p: Panel, es: seq<Event>): Panel
    requires forall i :: 0 <= i < |es| ==> Possible(es[i])
    decreases |es|
  {
    if |es| == 0 then p else RunIntended(StepIntended(p, es[0]), es[1..])
  }

  /** What the intended handlers keep: the flags exclusive, the simulator
      running exactly when its flag says so, and never both sources live. */
  predicate Coherent(p: Panel) {
    && FlagsExclusive(p)
    && p.sim.running == p.store.isSimulating
    && SimValid(p.sim)
    && !BothSourcesLive(p)
  }

  lemma StepIntendedCoherent(p: Panel, e: Event)
    requires Possible(e) && Coherent(p)
    ensures Coherent(StepIntended(p, e))
  {
  }

  /** With the intended connect, from the mounted panel the reader and the
      simulator are never live together and the simulation flag tells the truth. */
  lemma {:induction false} IntendedSourcesExclusive(p: Panel, es: seq<Event>)
    requires forall i :: 0 <= i < |es| ==> Possible(es[i])
    requires Coherent(p)
    ensures Coherent(RunIntended(p, es))
    decreases |es|
  {
    if |es| > 0 {
      StepIntendedCoherent(p, es[0]);
      IntendedSourcesExclusive(StepIntended(p, es[0]), es[1..]);
    }
  }

  lemma MountedIsCoherent()
    ensures Coherent(Mounted)
  {
  }
}
