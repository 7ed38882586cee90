/** The "next dose" panel of a course card (src/components/medication-card.tsx, `NextDose`):
    the first dose not yet taken, or the all-taken message, and the update its checkbox requests. */
module MedicationCard {
  import opened Types

  /** `doses.find(dose => !dose.taken)`, as a position in the list. */
  function NextDoseIndex(doses: seq<Dose>): (r: Option<nat>)
    ensures r.Some? ==> r.value < |doses| && !doses[r.value].taken
    ensures r.Some? ==> forall j :: 0 <= j < r.value ==> doses[j].taken
    ensures r.None? <==> AllTaken(doses)
  {
    if doses == [] then None
    else if !doses[0].taken then Some(0)
    else
      match NextDoseIndex(doses[1..])
      case None => None
      case Some(i) => Some(i + 1)
  }

  /** What the panel shows. */
  datatype NextDoseView = AllDosesTaken | Upcoming(dose: Dose)

  /** The panel: the all-taken message when no dose is pending, else the first pending dose. */
  function NextDose(medication: Medication): (v: NextDoseView)
    ensures v.AllDosesTaken? <==> AllTaken(medication.doses)
    ensures v.Upcoming? ==>
      !v.dose.taken &&
      exists i :: 0 <= i < |medication.doses| && medication.doses[i] == v.dose &&
        forall j :: 0 <= j < i ==> medication.doses[j].taken
  {
    match NextDoseIndex(medication.doses)
    case None => AllDosesTaken
    case Some(i) => Upcoming(medication.doses[i])
  }

  /** The call `onUpdateDose(medicationId, doseId, taken)`. */
  datatype DoseRequest = DoseRequest(medicationId: MedicationId, doseId: DoseId, taken: bool)

  /** Ticking or clearing the panel's checkbox: a request for the shown dose with `taken` equal to the
      checkbox state; there is no checkbox, hence no request, once every dose is taken. */
  function CheckNextDose(medicationId: MedicationId, medication: Medication, checked: bool): (r: Option<DoseRequest>)
    ensures r.None? <==> AllTaken(medication.doses)
    ensures r.Some? ==> r.value.medicationId == medicationId && r.value.taken == checked
    ensures r.Some? ==>
      exists i :: 0 <= i < |medication.doses| && medication.doses[i].id == r.value.doseId &&
        !medication.doses[i].taken && forall j :: 0 <= j < i ==> medication.doses[j].taken
  {
    match NextDose(medication)
    case AllDosesTaken => None
    case Upcoming(dose) => Some(DoseRequest(medicationId, dose.id, checked))
  }

  /** Any pending dose means there is a next dose, no later in the list than it: the panel never skips
      past a pending dose. */
  lemma {:induction false} NextDoseIsFirstPending(doses: seq<Dose>, k: nat)
    requires k < |doses| && !doses[k].taken
    ensures NextDoseIndex(doses).Some? && NextDoseIndex(doses).value <= k
  {
    if doses[0].taken {
      NextDoseIsFirstPending(doses[1..], k - 1);
    }
  }
}
