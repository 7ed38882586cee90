/** The server actions over the shared `medications` collection (src/lib/actions.ts):
    `addMedication`, which validates before writing, and `updateDoseState`, which only ever
    rewrites a dose list and never archives. */
module ServerActions {
  import opened Types
  import opened Doses
  import opened ScheduleGenerator
  import opened Validation
  import opened Creation

  /** `{ success: true }` or `{ error: "Invalid data provided." }`. */
  datatype AddOutcome = Success | InvalidData

  /** `updateDoseState` on the collection: nothing for an unknown id, else the course's dose list with
      the one flag set. */
  function ServerDoseUpdate(medications: map<MedicationId, Medication>, medicationId: MedicationId,
                            doseId: DoseId, taken: bool): (r: map<MedicationId, Medication>)
    ensures r.Keys == medications.Keys
  {
    if medicationId !in medications then medications
    else
      var medication := medications[medicationId];
      medications[medicationId := medication.(doses := SetTaken(medication.doses, doseId, taken))]
  }

  /** The server update never archives: the same ids stay, every other course is untouched, and the
      updated course differs only in the taken flag of the matching dose. A missing course changes nothing. */
  lemma ServerDoseUpdateOnlyFlag(medications: map<MedicationId, Medication>, medicationId: MedicationId,
                                 doseId: DoseId, taken: bool)
    ensures var r := ServerDoseUpdate(medications, medicationId, doseId, taken);
      && r.Keys == medications.Keys
      && (medicationId !in medications ==> r == medications)
      && (forall id :: id in medications && id != medicationId ==> r[id] == medications[id])
      && (medicationId in medications ==>
            var m, n := medications[medicationId], r[medicationId];
            && n == m.(doses := n.doses)
            && |n.doses| == |m.doses|
            && forall k :: 0 <= k < |m.doses| ==>
                 n.doses[k].id == m.doses[k].id && n.doses[k].time == m.doses[k].time
                 && n.doses[k].taken == (if m.doses[k].id == doseId then taken else m.doses[k].taken))
  {
  }

  /** Even when every dose ends up taken, the course stays in the collection with all doses taken. */
  lemma ServerUpdateKeepsCompletedCourse(medications: map<MedicationId, Medication>, medicationId: MedicationId,
                                         doseId: DoseId)
    requires medicationId in medications
    requires forall k :: 0 <= k < |medications[medicationId].doses| ==>
      medications[medicationId].doses[k].id != doseId ==> medications[medicationId].doses[k].taken
    ensures var r := ServerDoseUpdate(medications, medicationId, doseId, true);
      medicationId in r && AllTaken(r[medicationId].doses)
  {
    SetTakenAllTaken(medications[medicationId].doses, doseId);
  }

  /** Repeating the same server update changes nothing more. */
  lemma ServerDoseUpdateIdempotent(medications: map<MedicationId, Medication>, medicationId: MedicationId,
                                   doseId: DoseId, taken: bool)
    ensures var once := ServerDoseUpdate(medications, medicationId, doseId, taken);
      ServerDoseUpdate(once, medicationId, doseId, taken) == once
  {
    if medicationId in medications {
      var once := ServerDoseUpdate(medications, medicationId, doseId, taken);
      var m := medications[medicationId];
      SetTakenIdempotent(m.doses, doseId, taken);
      assert once[medicationId := once[medicationId].(doses := SetTaken(once[medicationId].doses, doseId, taken))] == once;
    }
  }

  /** The server's `medications` collection. */
  class MedicationCollection {
    var medications: map<MedicationId, Medication>

    constructor ()
      ensures medications == map[]
    {
      medications := map[];
    }

    /** `addMedication`: invalid input is refused and nothing is written; valid input adds the built
        record, without an owner, under the fresh id the store assigns. */
    method AddMedication(values: FormValues, now: Time, newId: MedicationId, freshIds: seq<DoseId>)
      returns (outcome: AddOutcome)
      requires newId !in medications
      requires ValidForm(values) ==> DoseCount(values.dosageFrequencyHours, values.durationDays) <= |freshIds|
      modifies this
      ensures outcome == (if ValidForm(values) then Success else InvalidData)
      ensures !ValidForm(values) ==> medications == old(medications)
      ensures ValidForm(values) ==> Buildable(values, freshIds)
      ensures ValidForm(values) ==>
        medications == old(medications)[newId := NewMedication(None, values, now, freshIds)]
    {
      if !ValidForm(values) {
        return InvalidData;
      }
      var newMedication := BuildMedication(None, values, now, freshIds);
      medications := medications[newId := newMedication];
      outcome := Success;
    }

    /** `updateDoseState`: a missing course is reported and nothing is written; otherwise only the
        course's `doses` field is rewritten. */
    method UpdateDoseState(medicationId: MedicationId, doseId: DoseId, taken: bool)
      modifies this
      ensures medications == ServerDoseUpdate(old(medications), medicationId, doseId, taken)
    {
      if medicationId !in medications {
        return;
      }
      var medication := medications[medicationId];
      var newDoses := SetTaken(medication.doses, doseId, taken);
      medications := medications[medicationId := medication.(doses := newDoses)];
    }
  }
}
