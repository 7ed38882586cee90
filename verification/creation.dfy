/** Building a new medication record from the submitted form: the start timestamp, the generated
    schedule and the record itself, as both `handleAddMedication` (src/app/page.tsx) and
    `addMedication` (src/lib/actions.ts) do it. */
module Creation {
  import opened Types
  import opened StartTime
  import opened ScheduleGenerator
  import opened Validation

  /** The invariant of an active record: its doses are the generator's slots for its own start,
      frequency and duration; only the taken flags may differ. */
  ghost predicate FollowsSchedule(m: Medication) {
    && m.dosageFrequencyHours >= 1
    && |m.doses| == DoseCount(m.dosageFrequencyHours, m.durationDays)
    && forall k :: 0 <= k < |m.doses| ==>
         m.doses[k].time == DoseTime(m.initialDoseTimestamp, m.dosageFrequencyHours, k)
  }

  /** What a submission needs so that the record can be built: a usable frequency, a time text the
      pattern accepts, and one fresh id per dose. */
  predicate Buildable(values: FormValues, freshIds: seq<DoseId>) {
    && values.dosageFrequencyHours >= 1
    && TimeMatches(values.initialDoseTime)
    && DoseCount(values.dosageFrequencyHours, values.durationDays) <= |freshIds|
  }

  /** The record as a value. */
  function NewMedication(userId: Option<UserId>, values: FormValues, createdAt: Time, freshIds: seq<DoseId>): Medication
    requires Buildable(values, freshIds)
  {
    var start := StartTimestamp(values.initialDoseDate, values.initialDoseTime);
    Medication(
      userId,
      values.name,
      values.description.GetOr(""),
      values.dosageFrequencyHours,
      values.durationDays,
      start,
      createdAt,
      Schedule(start, values.dosageFrequencyHours, values.durationDays, freshIds))
  }

  /** What the new record holds: the submitted fields, an empty description when none was given,
      a start on the chosen day at the chosen whole minute, and a schedule that follows from it with
      no dose taken. */
  lemma NewMedicationShape(userId: Option<UserId>, values: FormValues, createdAt: Time, freshIds: seq<DoseId>)
    requires Buildable(values, freshIds)
    ensures var m := NewMedication(userId, values, createdAt, freshIds);
      && m.userId == userId && m.name == values.name && m.createdAt == createdAt
      && m.dosageFrequencyHours == values.dosageFrequencyHours && m.durationDays == values.durationDays
      && (values.description.None? ==> m.description == "")
      && (values.description.Some? ==> m.description == values.description.value)
      && m.initialDoseTimestamp / DayMs == values.initialDoseDate / DayMs
      && m.initialDoseTimestamp % DayMs ==
           ParseTime(values.initialDoseTime).0 * HourMs + ParseTime(values.initialDoseTime).1 * MinuteMs
      && FollowsSchedule(m)
      && (|m.doses| > 0 ==> m.doses[0].time == m.initialDoseTimestamp)
      && (forall k :: 0 <= k < |m.doses| ==> !m.doses[k].taken)
  {
    var m := NewMedication(userId, values, createdAt, freshIds);
    ScheduleShape(m.initialDoseTimestamp, values.dosageFrequencyHours, values.durationDays, freshIds);
  }

  /** The statements that build the record: split the time text, set the hours of the chosen day,
      run the generator and assemble the fields. */
  method BuildMedication(userId: Option<UserId>, values: FormValues, createdAt: Time, freshIds: seq<DoseId>)
    returns (m: Medication)
    requires Buildable(values, freshIds)
    ensures m == NewMedication(userId, values, createdAt, freshIds)
  {
    var (hours, minutes) := ParseTime(values.initialDoseTime);
    var startDate := SetHours(values.initialDoseDate, hours, minutes);
    var doses := GenerateDoseSchedule(startDate, values.dosageFrequencyHours, values.durationDays, freshIds);
    m := Medication(
      userId,
      values.name,
      values.description.GetOr(""),
      values.dosageFrequencyHours,
      values.durationDays,
      startDate,
      createdAt,
      doses);
  }
}
