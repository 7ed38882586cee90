/** The signed-in user's two collections and the page's handlers that change them
    (src/app/page.tsx): adding a course, and recording a dose, which archives the course into
    the history once its last dose is taken. */
module Tracker {
  import opened Types
  import opened Doses
  import opened ScheduleGenerator
  import opened Validation
  import opened Creation

  /** Both collections as values: active courses and history records, each keyed by its id. */
  datatype Collections = Collections(
    medications: map<MedicationId, Medication>,
    history: map<HistoryId, HistoricalMedication>)

  /** An active course keeps the generated slots and is never complete, unless it has no dose at all. */
  ghost predicate Active(m: Medication) {
    FollowsSchedule(m) && (m.doses != [] ==> !AllTaken(m.doses))
  }

  ghost predicate AllActive(c: Collections) {
    forall id :: id in c.medications ==> Active(c.medications[id])
  }

  /** The history entry written for a course whose doses are all taken. */
  function ArchiveRecord(userId: UserId, med: Medication, completedAt: Time): (r: HistoricalMedication)
    ensures r.totalDoses == |med.doses|
    ensures r.endDate - r.startDate == med.durationDays * DayMs
  {
    HistoricalMedication(
      userId,
      med.name,
      med.description,
      med.dosageFrequencyHours,
      |med.doses|,
      med.initialDoseTimestamp,
      AddDays(med.initialDoseTimestamp, med.durationDays),
      completedAt)
  }

  /** Whether recording this dose completes the course, so that it is archived. */
  predicate Completes(c: Collections, user: Option<UserId>, medicationId: MedicationId, doseId: DoseId, taken: bool) {
    && user.Some?
    && medicationId in c.medications
    && AllTaken(SetTaken(c.medications[medicationId].doses, doseId, taken))
  }

  /** `handleUpdateDose` on the collections: nothing without a user or for an unknown course;
      otherwise the dose's flag is set, and either the course moves to history under `historyId`
      or only its dose list is written back. */
  function DoseUpdate(c: Collections, user: Option<UserId>, medicationId: MedicationId, doseId: DoseId,
                      taken: bool, now: Time, historyId: HistoryId): (r: Collections)
    ensures r.medications.Keys <= c.medications.Keys
    ensures c.history.Keys <= r.history.Keys <= c.history.Keys + {historyId}
  {
    if user.None? || medicationId !in c.medications then c
    else
      var medication := c.medications[medicationId];
      var updatedDoses := SetTaken(medication.doses, doseId, taken);
      if AllTaken(updatedDoses) then
        Collections(c.medications - {medicationId},
                    c.history[historyId := ArchiveRecord(user.value, medication, now)])
      else
        Collections(c.medications[medicationId := medication.(doses := updatedDoses)], c.history)
  }

  /** Without a signed-in user, or for a course id that is not active, neither collection changes. */
  lemma UnknownMedicationUnchanged(c: Collections, user: Option<UserId>, medicationId: MedicationId,
                                   doseId: DoseId, taken: bool, now: Time, historyId: HistoryId)
    requires user.None? || medicationId !in c.medications
    ensures DoseUpdate(c, user, medicationId, doseId, taken, now, historyId) == c
  {
  }

  /** A dose update that does not complete the course replaces only that course's dose list, and only
      the flag of the matching dose in it; the history is untouched. */
  lemma PartialUpdateOnlyFlag(c: Collections, user: Option<UserId>, medicationId: MedicationId,
                              doseId: DoseId, taken: bool, now: Time, historyId: HistoryId)
    requires user.Some? && medicationId in c.medications
    requires !Completes(c, user, medicationId, doseId, taken)
    ensures var r := DoseUpdate(c, user, medicationId, doseId, taken, now, historyId);
      var old_m := c.medications[medicationId];
      && r.history == c.history
      && r.medications.Keys == c.medications.Keys
      && (forall id :: id in c.medications && id != medicationId ==> r.medications[id] == c.medications[id])
      && r.medications[medicationId] == old_m.(doses := r.medications[medicationId].doses)
      && |r.medications[medicationId].doses| == |old_m.doses|
      && (forall k :: 0 <= k < |old_m.doses| ==>
            var d, e := old_m.doses[k], r.medications[medicationId].doses[k];
            e.id == d.id && e.time == d.time && e.taken == (if d.id == doseId then taken else d.taken))
  {
  }

  /** Completion: the course leaves the active collection and exactly one history record is written for it,
      counting all its doses, starting at the course's start timestamp and ending `durationDays` days later. */
  lemma CompletionArchives(c: Collections, user: Option<UserId>, medicationId: MedicationId,
                           doseId: DoseId, taken: bool, now: Time, historyId: HistoryId)
    requires Completes(c, user, medicationId, doseId, taken)
    requires historyId !in c.history
    ensures var r := DoseUpdate(c, user, medicationId, doseId, taken, now, historyId);
      var med := c.medications[medicationId];
      && medicationId !in r.medications
      && r.medications == c.medications - {medicationId}
      && r.history.Keys == c.history.Keys + {historyId}
      && |r.history| == |c.history| + 1
      && (forall h :: h in c.history ==> r.history[h] == c.history[h])
      && r.history[historyId].totalDoses == |med.doses|
      && r.history[historyId].startDate == med.initialDoseTimestamp
      && r.history[historyId].endDate == med.initialDoseTimestamp + med.durationDays * DayMs
      && r.history[historyId].completedAt == now
      && r.history[historyId].name == med.name
      && r.history[historyId].description == med.description
      && r.history[historyId].dosageFrequencyHours == med.dosageFrequencyHours
      && r.history[historyId].userId == user.value
  {
    var r := DoseUpdate(c, user, medicationId, doseId, taken, now, historyId);
    assert r.history.Keys == c.history.Keys + {historyId};
    assert |c.history.Keys + {historyId}| == |c.history.Keys| + 1;
  }

  /** Recording the same dose update twice leaves the collections as recording it once. */
  lemma DoseUpdateIdempotent(c: Collections, user: Option<UserId>, medicationId: MedicationId,
                             doseId: DoseId, taken: bool, now: Time, historyId: HistoryId,
                             later: Time, laterHistoryId: HistoryId)
    ensures var once := DoseUpdate(c, user, medicationId, doseId, taken, now, historyId);
      DoseUpdate(once, user, medicationId, doseId, taken, later, laterHistoryId) == once
  {
    var once := DoseUpdate(c, user, medicationId, doseId, taken, now, historyId);
    if user.Some? && medicationId in c.medications && !Completes(c, user, medicationId, doseId, taken) {
      var medication := c.medications[medicationId];
      var updated := SetTaken(medication.doses, doseId, taken);
      SetTakenIdempotent(medication.doses, doseId, taken);
      assert once.medications[medicationId] == medication.(doses := updated);
      assert once.medications[medicationId := medication.(doses := updated)] == once.medications;
    }
  }

  /** Every dose update keeps each active course on its generated slots and never leaves a complete,
      non-empty course active. */
  lemma DoseUpdateKeepsActive(c: Collections, user: Option<UserId>, medicationId: MedicationId,
                              doseId: DoseId, taken: bool, now: Time, historyId: HistoryId)
    requires AllActive(c)
    ensures AllActive(DoseUpdate(c, user, medicationId, doseId, taken, now, historyId))
  {
    if user.Some? && medicationId in c.medications && !Completes(c, user, medicationId, doseId, taken) {
      var medication := c.medications[medicationId];
      var updated := medication.(doses := SetTaken(medication.doses, doseId, taken));
      assert FollowsSchedule(medication);
      assert FollowsSchedule(updated);
    }
  }

  /** Marking a dose taken archives the course exactly when every other dose of it was taken already. */
  lemma TakingLastDoseArchives(c: Collections, user: Option<UserId>, medicationId: MedicationId,
                               doseId: DoseId, now: Time, historyId: HistoryId)
    requires user.Some? && medicationId in c.medications
    ensures var doses := c.medications[medicationId].doses;
      Completes(c, user, medicationId, doseId, true) <==>
        (forall k :: 0 <= k < |doses| && doses[k].id != doseId ==> doses[k].taken)
  {
    SetTakenAllTaken(c.medications[medicationId].doses, doseId);
  }

  /** The page's state: the two collections of the signed-in user, plus, for the proof only, which
      history record each archived course became. */
  class MedicationTracker {
    var medications: map<MedicationId, Medication>
    var history: map<HistoryId, HistoricalMedication>
    ghost var archived: map<MedicationId, HistoryId>

    function State(): Collections
      reads this
    {
      Collections(medications, history)
    }

    /** Active courses are well formed; a course is either active or archived, never both; every
        archived course has its own history record. */
    ghost predicate Valid()
      reads this
    {
      && AllActive(State())
      && archived.Keys !! medications.Keys
      && archived.Values <= history.Keys
      && forall m1, m2 :: m1 in archived && m2 in archived && m1 != m2 ==> archived[m1] != archived[m2]
    }

    constructor ()
      ensures Valid()
      ensures medications == map[] && history == map[] && archived == map[]
    {
      medications := map[];
      history := map[];
      archived := map[];
    }

    /** `handleAddMedication`, with the check it lacks: with a signed-in user and a submission the
        server's form schema accepts, the record built from it joins the active courses under the fresh
        id the store assigns; otherwise nothing happens. As written the handler checks nothing, and a
        frequency of 0 makes its generator loop forever (`ScheduleGenerator.ZeroFrequencyLoopsForever`). */
    method HandleAddMedication(user: Option<UserId>, values: FormValues, now: Time,
                               newId: MedicationId, freshIds: seq<DoseId>)
      requires Valid()
      requires values.dosageFrequencyHours >= 1 ==>
        DoseCount(values.dosageFrequencyHours, values.durationDays) <= |freshIds|
      requires newId !in medications && newId !in archived
      modifies this
      ensures Valid()
      ensures history == old(history) && archived == old(archived)
      ensures user.None? || !ValidForm(values) ==> medications == old(medications)
      ensures user.Some? && ValidForm(values) ==>
        medications == old(medications)[newId := NewMedication(user, values, now, freshIds)]
    {
      if user.None? {
        return;
      }
      if !ValidForm(values) {
        return;
      }
      var newMedication := BuildMedication(user, values, now, freshIds);
      NewMedicationShape(user, values, now, freshIds);
      medications := medications[newId := newMedication];
    }

    /** `handleUpdateDose`: set the dose's flag; when every dose is then taken, write the history
        record first and delete the course afterwards, else write back the dose list only. */
    method HandleUpdateDose(user: Option<UserId>, medicationId: MedicationId, doseId: DoseId, taken: bool,
                            now: Time, historyId: HistoryId)
      requires Valid()
      requires historyId !in history
      modifies this
      ensures Valid()
      ensures State() == DoseUpdate(old(State()), user, medicationId, doseId, taken, now, historyId)
      ensures archived ==
        if Completes(old(State()), user, medicationId, doseId, taken)
        then old(archived)[medicationId := historyId]
        else old(archived)
    {
      DoseUpdateKeepsActive(State(), user, medicationId, doseId, taken, now, historyId);
      if user.None? {
        return;
      }
      if medicationId !in medications {
        return;
      }
      var medication := medications[medicationId];
      var updatedDoses := SetTaken(medication.doses, doseId, taken);
      var isComplete := AllTaken(updatedDoses);
      if isComplete {
        var historicalEntry := ArchiveRecord(user.value, medication, now);
        history := history[historyId := historicalEntry];
        // Between the two writes the course is both active and in the history.
        medications := medications - {medicationId};
        archived := archived[medicationId := historyId];
      } else {
        medications := medications[medicationId := medication.(doses := updatedDoses)];
      }
    }
  }
}
