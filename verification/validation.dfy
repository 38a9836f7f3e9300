/** The review step's validation schemas (`lib/validation.ts`) as predicates:
    inclusive ranges for the vitals, required non-empty patient strings,
    optional insurance fields, and the optional duration of the complaint. */
module Validation {
  import opened Base
  import opened VitalStore
  import Median

  /** `z.number().min(lo).max(hi)`: both ends inclusive. */
  datatype Range = Range(lo: real, hi: real) {
    predicate Contains(x: real) {
      lo <= x <= hi
    }
  }

  /** The range each channel must lie in. */
  function Bounds(c: Channel): Range {
    match c
    case BpSys => Range(60.0, 220.0)
    case BpDia => Range(30.0, 140.0)
    case Hr => Range(30.0, 220.0)
    case Spo2 => Range(70.0, 100.0)
    case TempC => Range(30.0, 45.0)
    case WeightKg => Range(1.0, 500.0)
  }

  /** Only the weight is `.optional()`. */
  predicate Optional(c: Channel) {
    c == WeightKg
  }

  /** `vitalsSchema` accepts an object with these keys: every mandatory key
      present, and every present key within its range. */
  predicate VitalsValid(v: map<Channel, real>) {
    forall c :: (Optional(c) || c in v) && (c in v ==> Bounds(c).Contains(v[c]))
  }

  /** The schema spelled out channel by channel. */
  lemma VitalsValidExplicit(v: map<Channel, real>)
    ensures VitalsValid(v) <==>
      && BpSys in v && 60.0 <= v[BpSys] <= 220.0
      && BpDia in v && 30.0 <= v[BpDia] <= 140.0
      && Hr in v && 30.0 <= v[Hr] <= 220.0
      && Spo2 in v && 70.0 <= v[Spo2] <= 100.0
      && TempC in v && 30.0 <= v[TempC] <= 45.0
      && (WeightKg in v ==> 1.0 <= v[WeightKg] <= 500.0)
  {
    if !VitalsValid(v) {
      var c :| !((Optional(c) || c in v) && (c in v ==> Bounds(c).Contains(v[c])));
      match c
      case BpSys =>
      case BpDia =>
      case Hr =>
      case Spo2 =>
      case TempC =>
      case WeightKg =>
    }
  }

  /** The keys the schema insists on are exactly the channels the store's
      completeness check requires. */
  lemma MandatoryIsRequired()
    ensures forall c :: !Optional(c) <==> c in Required
  {
  }

  /** A window whose every sample lies in range, in which every required
      channel received a sample, and which starts from in-range committed
      values, ends with vitals data the schema accepts. */
  lemma SweepPassesSchema(s: AppState)
    requires forall c :: c in Required ==> |s.vitals.Get(c).samples| > 0
    requires forall c :: InRange(s.vitals.Get(c), c)
    ensures VitalsValid(GetVitalsData(AutoStop(s)))
  {
    AutoStopCommits(s);
    CommitsPassSchema(s.vitals, AutoStop(s));
  }

  /** A store whose every channel is the commit of an in-range channel of
      `before`, with a sample on every required one, reports data the schema
      accepts. */
  lemma CommitsPassSchema(before: Vitals, after: AppState)
    requires forall c :: c in Required ==> |before.Get(c).samples| > 0
    requires forall c :: InRange(before.Get(c), c)
    requires forall c :: after.vitals.Get(c) == Committed(before.Get(c))
    ensures VitalsValid(GetVitalsData(after))
  {
    var data := GetVitalsData(after);
    forall c
      ensures (Optional(c) || c in data) && (c in data ==> Bounds(c).Contains(data[c]))
    {
      CommitPassesSchema(before, after, c);
    }
  }

  /** One channel of such a store: reported when mandatory, and in range when reported. */
  lemma CommitPassesSchema(before: Vitals, after: AppState, c: Channel)
    requires c in Required ==> |before.Get(c).samples| > 0
    requires InRange(before.Get(c), c)
    requires after.vitals.Get(c) == Committed(before.Get(c))
    ensures var data := GetVitalsData(after);
      (Optional(c) || c in data) && (c in data ==> Bounds(c).Contains(data[c]))
  {
    MandatoryIsRequired();
    CommittedInRange(before.Get(c), c);
  }

  /** Every sample of the channel, and its committed value if any, lies in the channel's range. */
  predicate InRange(v: VitalState, c: Channel) {
    && (forall i :: 0 <= i < |v.samples| ==> Bounds(c).Contains(v.samples[i]))
    && (v.capturedValue.Some? ==> Bounds(c).Contains(v.capturedValue.value))
  }

  /** Committing keeps the committed value in range when every sample is. */
  lemma CommittedInRange(v: VitalState, c: Channel)
    requires InRange(v, c)
    ensures Committed(v).capturedValue.Some? ==> Bounds(c).Contains(Committed(v).capturedValue.value)
  {
    if |v.samples| > 0 {
      var m := Median.UpperMedian(v.samples);
      var i :| 0 <= i < |v.samples| && v.samples[i] == m;
    }
  }

  /** `patientSchema`: first name, last name and date of birth, each a string
      of at least one character. */
  predicate PatientValid(p: Patient) {
    && p.firstName.Some? && |p.firstName.value| >= 1
    && p.lastName.Some? && |p.lastName.value| >= 1
    && p.dob.Some? && |p.dob.value| >= 1
  }

  /** The store's patient check and the schema agree. */
  lemma PatientCompleteIsValid(s: AppState)
    ensures IsPatientComplete(s) <==> PatientValid(s.patient)
  {
  }

  /** The insurance draft: `provider` and `memberId`, both optional strings. */
  datatype Insurance = Insurance(provider: Option<string>, memberId: Option<string>)

  /** `insuranceSchema`: both fields are optional strings with no length
      bound, so every draft of this type passes. */
  predicate InsuranceValid(i: Insurance): (r: bool)
    ensures r
  {
    true
  }

  /** The additional-information draft. */
  datatype Additional = Additional(
    meds: Option<seq<string>>,
    allergies: Option<seq<string>>,
    symptoms: Option<string>,
    durationValue: Option<real>,
    durationUnit: Option<string>)

  const DurationUnits: set<string> := {"hours", "days", "weeks", "months"}

  /** `additionalInfoSchema`: a duration, when given, is positive and at most
      3650; a unit, when given, is one of the four names. */
  predicate AdditionalValid(a: Additional) {
    && (a.durationValue.Some? ==> 0.0 < a.durationValue.value <= 3650.0)
    && (a.durationUnit.Some? ==> a.durationUnit.value in DurationUnits)
  }

  /** The duration bounds for every value: a duration passes exactly when it
      is positive and at most 3650, whatever the other fields; leaving duration
      and unit out always passes, and a unit outside the four names fails. */
  lemma DurationBounds(a: Additional, x: real)
    ensures AdditionalValid(a.(durationValue := Some(x))) <==>
      0.0 < x <= 3650.0 && AdditionalValid(a.(durationValue := None))
    ensures AdditionalValid(a.(durationValue := None, durationUnit := None))
    ensures !AdditionalValid(a.(durationUnit := Some("years")))
  {
  }

  /** The medication, allergy and symptom fields are unconstrained: changing
      them never changes whether a draft passes. */
  lemma FreeTextUnconstrained(a: Additional, meds: Option<seq<string>>, allergies: Option<seq<string>>,
                              symptoms: Option<string>)
    ensures AdditionalValid(a.(meds := meds, allergies := allergies, symptoms := symptoms)) <==> AdditionalValid(a)
  {
  }
}
