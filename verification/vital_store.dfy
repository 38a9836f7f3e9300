/** The kiosk's capture store (`lib/store.ts`): six vital channels, each a
    small record `{ status, currentValue, samples, capturedValue }`, the
    capture-window flags, the serial/simulator flags shown in the UI, and the
    patient draft. Every action is a pure transition from one `AppState` to the
    next, as the store's `set` callbacks are. */
module VitalStore {
  import opened Base
  import Median

  datatype Channel = BpSys | BpDia | Hr | Spo2 | TempC | WeightKg

  /** The channels in declaration order, the order `Object.keys` and
      `Object.entries` visit them. */
  const Channels: seq<Channel> := [BpSys, BpDia, Hr, Spo2, TempC, WeightKg]

  /** The channels the review step insists on: every one but the weight. */
  const Required: set<Channel> := {BpSys, BpDia, Hr, Spo2, TempC}

  /** The order `isVitalsComplete` checks the required channels in. */
  const RequiredOrder: seq<Channel> := [BpSys, BpDia, Hr, Spo2, TempC]

  datatype Status = Waiting | Capturing | Captured

  datatype VitalState = VitalState(status: Status, currentValue: Option<real>, samples: seq<real>, capturedValue: Option<real>)

  /** `initialVitalState`. */
  const InitialVital: VitalState := VitalState(Waiting, None, [], None)

  /** The six channel records, addressed by channel. */
  datatype Vitals = Vitals(bpSys: VitalState, bpDia: VitalState, hr: VitalState, spo2: VitalState,
                           tempC: VitalState, weightKg: VitalState)
  {
    function Get(c: Channel): VitalState {
      match c
      case BpSys => bpSys
      case BpDia => bpDia
      case Hr => hr
      case Spo2 => spo2
      case TempC => tempC
      case WeightKg => weightKg
    }

    /** `{ ...vitals, [c]: v }`: channel `c` replaced, every other channel kept. */
    function Set(c: Channel, v: VitalState): (r: Vitals)
      ensures r.Get(c) == v
      ensures forall d :: d != c ==> r.Get(d) == Get(d)
    {
      match c
      case BpSys => this.(bpSys := v)
      case BpDia => this.(bpDia := v)
      case Hr => this.(hr := v)
      case Spo2 => this.(spo2 := v)
      case TempC => this.(tempC := v)
      case WeightKg => this.(weightKg := v)
    }
  }

  const InitialVitals: Vitals :=
    Vitals(InitialVital, InitialVital, InitialVital, InitialVital, InitialVital, InitialVital)

  /** The patient draft, a `Partial<PatientData>`: `None` is an absent key. */
  datatype Patient = Patient(firstName: Option<string>, lastName: Option<string>, dob: Option<string>)

  const NoPatient: Patient := Patient(None, None, None)

  /** The store's data. The insurance and additional-information drafts are not
      part of this model. */
  datatype AppState = AppState(
    patient: Patient,
    vitals: Vitals,
    isCapturing: bool,
    captureStartTime: Option<int>,
    isSerialConnected: bool,
    isSimulating: bool,
    currentVisitId: Option<string>)

  /** The store as created. */
  const Initial: AppState := AppState(NoPatient, InitialVitals, false, None, false, false, None)

  /** `updatePatient(data)`: the keys present in `data` overwrite, the others stay. */
  function UpdatePatient(s: AppState, data: Patient): (r: AppState)
    ensures r == s.(patient := r.patient)
    ensures r.patient.firstName == (if data.firstName.Some? then data.firstName else s.patient.firstName)
    ensures r.patient.lastName == (if data.lastName.Some? then data.lastName else s.patient.lastName)
    ensures r.patient.dob == (if data.dob.Some? then data.dob else s.patient.dob)
  {
    var p := s.patient;
    s.(patient := Patient(
      if data.firstName.Some? then data.firstName else p.firstName,
      if data.lastName.Some? then data.lastName else p.lastName,
      if data.dob.Some? then data.dob else p.dob))
  }

  /** `updateVitalValue(c, x)`: one sample for channel `c`. It is appended to
      the samples and becomes the current value; the status is overwritten with
      `capturing` or `waiting` by the window flag alone, even on a channel
      already captured, and `capturedValue` is kept. Nothing else changes. */
  function UpdateVitalValue(s: AppState, c: Channel, x: real): (r: AppState)
    ensures r == s.(vitals := r.vitals)
    ensures forall d :: d != c ==> r.vitals.Get(d) == s.vitals.Get(d)
    ensures r.vitals.Get(c).samples == s.vitals.Get(c).samples + [x]
    ensures r.vitals.Get(c).currentValue == Some(x)
    ensures r.vitals.Get(c).capturedValue == s.vitals.Get(c).capturedValue
    ensures r.vitals.Get(c).status == (if s.isCapturing then Capturing else Waiting)
  {
    var v := s.vitals.Get(c);
    var v' := v.(currentValue := Some(x), samples := v.samples + [x],
                 status := if s.isCapturing then Capturing else Waiting);
    s.(vitals := s.vitals.Set(c, v'))
  }

  /** A channel opened for a new window: `capturing` with no samples; the last
      value seen and the value committed before are kept. */
  function Reopen(v: VitalState): (r: VitalState)
    ensures r.status == Capturing && r.samples == []
    ensures r.currentValue == v.currentValue && r.capturedValue == v.capturedValue
  {
    v.(status := Capturing, samples := [])
  }

  /** `startCapture()` at time `now`: the window opens and all six channels are reopened. */
  function StartCapture(s: AppState, now: int): (r: AppState)
    ensures r.isCapturing && r.captureStartTime == Some(now)
    ensures forall c :: r.vitals.Get(c) == Reopen(s.vitals.Get(c))
    ensures r.patient == s.patient && r.isSerialConnected == s.isSerialConnected
    ensures r.isSimulating == s.isSimulating && r.currentVisitId == s.currentVisitId
  {
    var vs := s.vitals;
    s.(isCapturing := true, captureStartTime := Some(now),
       vitals := Vitals(Reopen(vs.bpSys), Reopen(vs.bpDia), Reopen(vs.hr), Reopen(vs.spo2),
                        Reopen(vs.tempC), Reopen(vs.weightKg)))
  }

  /** `stopCapture()`: the window closes; no channel is touched. */
  function StopCapture(s: AppState): (r: AppState)
    ensures !r.isCapturing && r.captureStartTime.None?
    ensures r == s.(isCapturing := false, captureStartTime := None)
    ensures r.vitals == s.vitals
  {
    s.(isCapturing := false, captureStartTime := None)
  }

  /** `captureVital(c)`: with no samples the state is returned as it was;
      otherwise the channel becomes `captured` with the samples' upper median
      committed, the samples themselves kept. */
  function CaptureVital(s: AppState, c: Channel): (r: AppState)
    ensures |s.vitals.Get(c).samples| == 0 ==> r == s
    ensures r == s.(vitals := r.vitals)
    ensures forall d :: d != c ==> r.vitals.Get(d) == s.vitals.Get(d)
    ensures |s.vitals.Get(c).samples| > 0 ==>
      var v, w := s.vitals.Get(c), r.vitals.Get(c);
      && w.status == Captured && w.samples == v.samples && w.currentValue == v.currentValue
      && w.capturedValue.Some? && w.capturedValue.value in v.samples
  {
    var v := s.vitals.Get(c);
    if |v.samples| == 0 then s
    else
      var median := Median.UpperMedian(v.samples);
      s.(vitals := s.vitals.Set(c, v.(status := Captured, capturedValue := Some(median))))
  }

  /** The committed value is the upper median of the samples at commit time. */
  lemma CaptureCommitsMedian(s: AppState, c: Channel)
    requires |s.vitals.Get(c).samples| > 0
    ensures var w := CaptureVital(s, c).vitals.Get(c);
      && w.capturedValue == Some(Median.UpperMedian(s.vitals.Get(c).samples))
      && forall x :: x == w.capturedValue.value <==>
           Median.Count(w.samples, x, true) <= |w.samples| / 2 < Median.Count(w.samples, x, false)
  {
    var w := CaptureVital(s, c).vitals.Get(c);
    forall x
      ensures x == w.capturedValue.value <==>
        Median.Count(w.samples, x, true) <= |w.samples| / 2 < Median.Count(w.samples, x, false)
    {
      Median.MedianCharacterised(w.samples, x);
    }
  }

  /** `resetVital(c)`: the channel goes back to the initial record — `waiting`,
      no current value, no samples, nothing committed; the other channels stay. */
  function ResetVital(s: AppState, c: Channel): (r: AppState)
    ensures r.vitals.Get(c).status == Waiting && r.vitals.Get(c).samples == []
    ensures r.vitals.Get(c).currentValue.None? && r.vitals.Get(c).capturedValue.None?
    ensures forall d :: d != c ==> r.vitals.Get(d) == s.vitals.Get(d)
    ensures r == s.(vitals := r.vitals)
  {
    s.(vitals := s.vitals.Set(c, InitialVital))
  }

  /** `setSerialConnected(b)`: only the connection flag changes. */
  function SetSerialConnected(s: AppState, b: bool): (r: AppState)
    ensures r.isSerialConnected == b && r.(isSerialConnected := s.isSerialConnected) == s
  {
    s.(isSerialConnected := b)
  }

  /** `setSimulating(b)`: only the simulation flag changes. */
  function SetSimulating(s: AppState, b: bool): (r: AppState)
    ensures r.isSimulating == b && r.(isSimulating := s.isSimulating) == s
  {
    s.(isSimulating := b)
  }

  /** `resetVisit()`: every field back to its initial value, whatever the visit held. */
  function ResetVisit(s: AppState): (r: AppState)
    ensures forall c :: r.vitals.Get(c) == InitialVital
    ensures !r.isCapturing && r.captureStartTime.None? && r.currentVisitId.None?
    ensures !r.isSerialConnected && !r.isSimulating && r.patient == NoPatient
  {
    Initial
  }

  /** The entries `getVitalsData` collects from the channels `cs`, visited in order. */
  function Collect(vs: Vitals, cs: seq<Channel>): (m: map<Channel, real>)
    ensures forall c :: c in m <==> c in cs && vs.Get(c).capturedValue.Some?
    ensures forall c :: c in m ==> m[c] == vs.Get(c).capturedValue.value
  {
    if |cs| == 0 then map[]
    else
      var m := Collect(vs, cs[..|cs| - 1]);
      var c := cs[|cs| - 1];
      assert forall d :: d in cs <==> d in cs[..|cs| - 1] || d == c;
      match vs.Get(c).capturedValue
      case Some(x) => m[c := x]
      case None => m
  }

  /** `getVitalsData()`: the committed value of exactly the channels that have one. */
  function GetVitalsData(s: AppState): (m: map<Channel, real>)
    ensures forall c :: c in m <==> s.vitals.Get(c).capturedValue.Some?
    ensures forall c :: c in m ==> m[c] == s.vitals.Get(c).capturedValue.value
  {
    ChannelsDistinct();
    Collect(s.vitals, Channels)
  }

  /** `requiredVitals.every(...)` over the channels `cs`. */
  function AllCaptured(vs: Vitals, cs: seq<Channel>): (b: bool)
    ensures b <==> forall i :: 0 <= i < |cs| ==> vs.Get(cs[i]).status == Captured
  {
    |cs| == 0 || (vs.Get(cs[0]).status == Captured && AllCaptured(vs, cs[1..]))
  }

  /** `isVitalsComplete()`: every required channel is `captured`; the weight
      channel plays no part. */
  function IsVitalsComplete(s: AppState): (b: bool)
    ensures b <==> forall c :: c in Required ==> s.vitals.Get(c).status == Captured
  {
    assert forall c :: c in Required <==> c in RequiredOrder;
    AllCaptured(s.vitals, RequiredOrder)
  }

  /** JavaScript truthiness of an optional string: present and non-empty. */
  predicate Truthy(o: Option<string>) {
    o.Some? && |o.value| > 0
  }

  /** `isPatientComplete()`: first name, last name and date of birth all present
      and non-empty. */
  function IsPatientComplete(s: AppState): (b: bool)
    ensures b ==> s.patient.firstName.Some? && s.patient.lastName.Some? && s.patient.dob.Some?
    ensures b <==> forall o :: o in [s.patient.firstName, s.patient.lastName, s.patient.dob] ==> Truthy(o)
  {
    Truthy(s.patient.firstName) && Truthy(s.patient.lastName) && Truthy(s.patient.dob)
  }

  /** `canContinue()`. */
  function CanContinue(s: AppState): (b: bool)
    ensures b <==> (forall c :: c in Required ==> s.vitals.Get(c).status == Captured) && IsPatientComplete(s)
  {
    IsVitalsComplete(s) && IsPatientComplete(s)
  }

  /** `captureVital` applied to the channels `cs` in turn, each on the state the
      previous one left: the end-of-window sweep of the capture page. */
  function CaptureAll(s: AppState, cs: seq<Channel>): (r: AppState)
    ensures r == s.(vitals := r.vitals)
    decreases |cs|
  {
    if |cs| == 0 then s else CaptureAll(CaptureVital(s, cs[0]), cs[1..])
  }

  /** The manual stop's sweep: `captureVital` only on the channels whose samples
      in the snapshot `snap` are non-empty. */
  function CaptureNonEmpty(s: AppState, snap: Vitals, cs: seq<Channel>): (r: AppState)
    ensures r == s.(vitals := r.vitals)
    decreases |cs|
  {
    if |cs| == 0 then s
    else
      var s' := if |snap.Get(cs[0]).samples| > 0 then CaptureVital(s, cs[0]) else s;
      CaptureNonEmpty(s', snap, cs[1..])
  }

  /** The window running out: `stopCapture()`, then `captureVital` on every
      channel. The window is closed and nothing but the vitals changes otherwise. */
  function AutoStop(s: AppState): (r: AppState)
    ensures !r.isCapturing && r.captureStartTime.None?
    ensures r == s.(isCapturing := false, captureStartTime := None, vitals := r.vitals)
  {
    CaptureAll(StopCapture(s), Channels)
  }

  /** The stop button: `stopCapture()`, then `captureVital` on the channels
      that have samples. The window is closed and nothing but the vitals
      changes otherwise. */
  function ManualStop(s: AppState): (r: AppState)
    ensures !r.isCapturing && r.captureStartTime.None?
    ensures r == s.(isCapturing := false, captureStartTime := None, vitals := r.vitals)
  {
    CaptureNonEmpty(StopCapture(s), s.vitals, Channels)
  }

  /** What committing `v` does to one channel. */
  function Committed(v: VitalState): (w: VitalState)
    ensures |v.samples| == 0 ==> w == v
    ensures |v.samples| > 0 ==> w.status == Captured && w.capturedValue.Some? && w.samples == v.samples
  {
    if |v.samples| == 0 then v
    else v.(status := Captured, capturedValue := Some(Median.UpperMedian(v.samples)))
  }

  /** A sweep over distinct channels commits each of them once and touches nothing else. */
  lemma {:induction false} CaptureAllEffect(s: AppState, cs: seq<Channel>)
    requires forall i, j :: 0 <= i < j < |cs| ==> cs[i] != cs[j]
    ensures var r := CaptureAll(s, cs);
      && r == s.(vitals := r.vitals)
      && forall c :: r.vitals.Get(c) == if c in cs then Committed(s.vitals.Get(c)) else s.vitals.Get(c)
    decreases |cs|
  {
    if |cs| > 0 {
      var s1 := CaptureVital(s, cs[0]);
      CaptureAllEffect(s1, cs[1..]);
      assert forall c :: c in cs <==> c == cs[0] || c in cs[1..];
      assert cs[0] !in cs[1..];
    }
  }

  /** The manual sweep over distinct channels, with the snapshot agreeing on the
      samples, does the same. */
  lemma {:induction false} CaptureNonEmptyEffect(s: AppState, snap: Vitals, cs: seq<Channel>)
    requires forall i, j :: 0 <= i < j < |cs| ==> cs[i] != cs[j]
    requires forall c :: c in cs ==> snap.Get(c).samples == s.vitals.Get(c).samples
    ensures var r := CaptureNonEmpty(s, snap, cs);
      && r == s.(vitals := r.vitals)
      && forall c :: r.vitals.Get(c) == if c in cs then Committed(s.vitals.Get(c)) else s.vitals.Get(c)
    decreases |cs|
  {
    if |cs| > 0 {
      var s1 := if |snap.Get(cs[0]).samples| > 0 then CaptureVital(s, cs[0]) else s;
      assert cs[0] !in cs[1..];
      CaptureNonEmptyEffect(s1, snap, cs[1..]);
      assert forall c :: c in cs <==> c == cs[0] || c in cs[1..];
    }
  }

  lemma ChannelsDistinct()
    ensures forall i, j :: 0 <= i < j < |Channels| ==> Channels[i] != Channels[j]
    ensures forall c :: c in Channels
  {
    forall c: Channel
      ensures c in Channels
    {
      match c
      case BpSys => assert Channels[0] == c;
      case BpDia => assert Channels[1] == c;
      case Hr => assert Channels[2] == c;
      case Spo2 => assert Channels[3] == c;
      case TempC => assert Channels[4] == c;
      case WeightKg => assert Channels[5] == c;
    }
  }

  /** Two channel tables agreeing on every channel are equal. */
  lemma VitalsEqual(a: Vitals, b: Vitals)
    requires forall c :: a.Get(c) == b.Get(c)
    ensures a == b
  {
    assert a.Get(BpSys) == b.Get(BpSys) && a.Get(BpDia) == b.Get(BpDia) && a.Get(Hr) == b.Get(Hr);
    assert a.Get(Spo2) == b.Get(Spo2) && a.Get(TempC) == b.Get(TempC) && a.Get(WeightKg) == b.Get(WeightKg);
  }

  /** Ending the window commits every channel with samples to its upper
      median and leaves every other channel as it was. */
  lemma AutoStopCommits(s: AppState)
    ensures forall c :: AutoStop(s).vitals.Get(c) == Committed(s.vitals.Get(c))
    ensures AutoStop(s) == StopCapture(s).(vitals := AutoStop(s).vitals)
  {
    ChannelsDistinct();
    CaptureAllEffect(StopCapture(s), Channels);
  }

  /** Ending the window by timeout or by the stop button gives the same store:
      the window is closed and every channel with samples is committed to its
      upper median, every other channel left as it was. */
  lemma StopPathsAgree(s: AppState)
    ensures AutoStop(s) == ManualStop(s)
    ensures var r := AutoStop(s);
      && !r.isCapturing && r.captureStartTime.None?
      && r.patient == s.patient && r.isSerialConnected == s.isSerialConnected && r.isSimulating == s.isSimulating
      && forall c :: r.vitals.Get(c) == Committed(s.vitals.Get(c))
  {
    ChannelsDistinct();
    AutoStopCommits(s);
    CaptureNonEmptyEffect(StopCapture(s), s.vitals, Channels);
    VitalsEqual(AutoStop(s).vitals, ManualStop(s).vitals);
  }

  /** A window in which every required channel received a sample ends with the
      vitals complete, and their committed values are what `getVitalsData` reports. */
  lemma SweepCompletes(s: AppState)
    requires forall c :: c in Required ==> |s.vitals.Get(c).samples| > 0
    ensures IsVitalsComplete(AutoStop(s))
    ensures forall c :: c in Required ==> c in GetVitalsData(AutoStop(s))
  {
    StopPathsAgree(s);
  }

  /** Resetting the visit forgets everything: afterwards nothing is committed,
      neither check passes, and the result does not depend on the visit. */
  lemma ResetForgets(s: AppState, t: AppState)
    ensures ResetVisit(s) == ResetVisit(t)
    ensures GetVitalsData(ResetVisit(s)) == map[]
    ensures !IsVitalsComplete(ResetVisit(s)) && !IsPatientComplete(ResetVisit(s)) && !CanContinue(ResetVisit(s))
  {
    assert BpSys in Required;
  }

  /** Starting a window clears every channel's samples but keeps what was
      committed, so the review data survive until the next commit. */
  lemma StartKeepsCommitted(s: AppState, now: int)
    ensures GetVitalsData(StartCapture(s, now)) == GetVitalsData(s)
    ensures !IsVitalsComplete(StartCapture(s, now))
  {
    assert BpSys in Required;
  }

  /** A sample arriving after a complete sweep — the simulator keeps ticking
      once the window has closed — takes a required channel out of `captured`
      while its committed value stays: the vitals stop being complete and
      `canContinue` fails, although `getVitalsData` still holds every value. */
  lemma SampleRevokesCompleteness(s: AppState, c: Channel, x: real)
    requires IsVitalsComplete(s) && c in Required
    ensures var r := UpdateVitalValue(s, c, x);
      && !IsVitalsComplete(r) && !CanContinue(r)
      && GetVitalsData(r) == GetVitalsData(s)
  {
    var r := UpdateVitalValue(s, c, x);
    assert r.vitals.Get(c).status != Captured;
    assert forall d :: r.vitals.Get(d).capturedValue == s.vitals.Get(d).capturedValue;
  }

  /** The evidently intended sample update: a `captured` channel ignores
      samples until it is reset; any other channel updates as before. */
  function UpdateVitalValueIntended(s: AppState, c: Channel, x: real): (r: AppState)
    ensures s.vitals.Get(c).status == Captured ==> r == s
    ensures s.vitals.Get(c).status != Captured ==> r == UpdateVitalValue(s, c, x)
  {
    if s.vitals.Get(c).status == Captured then s else UpdateVitalValue(s, c, x)
  }

  /** With the intended update, samples never undo a commit: every captured
      channel stays captured with its value, so completeness is stable under
      any further reading. */
  lemma IntendedKeepsCommits(s: AppState, c: Channel, x: real)
    ensures var r := UpdateVitalValueIntended(s, c, x);
      && (forall d :: s.vitals.Get(d).status == Captured ==> r.vitals.Get(d) == s.vitals.Get(d))
      && (IsVitalsComplete(s) ==> IsVitalsComplete(r))
  {
  }

  /** ... and the review data are unchanged by it. */
  lemma IntendedKeepsData(s: AppState, c: Channel, x: real)
    ensures GetVitalsData(UpdateVitalValueIntended(s, c, x)) == GetVitalsData(s)
  {
    if s.vitals.Get(c).status != Captured {
      var r := UpdateVitalValue(s, c, x);
      assert forall d :: r.vitals.Get(d).capturedValue == s.vitals.Get(d).capturedValue;
      assert forall d :: d in GetVitalsData(r) <==> d in GetVitalsData(s);
    }
  }
}
