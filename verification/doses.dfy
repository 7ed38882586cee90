/** Setting the taken flag of one dose: the expression
    `doses.map(d => d.id === doseId ? { ...d, taken } : d)` shared by the page's
    dose handler, the server action and the schedule's optimistic reducer. */
module Doses {
  import opened Types

  /** The dose list with the flag of every dose whose id is `doseId` set to `taken`. */
  function SetTaken(doses: seq<Dose>, doseId: DoseId, taken: bool): (r: seq<Dose>)
    ensures |r| == |doses|
    ensures forall k :: 0 <= k < |doses| ==>
      r[k].id == doses[k].id && r[k].time == doses[k].time &&
      r[k].taken == (if doses[k].id == doseId then taken else doses[k].taken)
  {
    if doses == [] then []
    else
      var d := doses[0];
      [if d.id == doseId then d.(taken := taken) else d] + SetTaken(doses[1..], doseId, taken)
  }

  /** Doses whose id differs from `doseId` are left exactly as they were. */
  lemma SetTakenLeavesOthers(doses: seq<Dose>, doseId: DoseId, taken: bool)
    ensures forall k :: 0 <= k < |doses| && doses[k].id != doseId ==>
      SetTaken(doses, doseId, taken)[k] == doses[k]
  {
    var r := SetTaken(doses, doseId, taken);
    forall k | 0 <= k < |doses| && doses[k].id != doseId
      ensures r[k] == doses[k]
    {
      assert r[k].id == doses[k].id && r[k].time == doses[k].time && r[k].taken == doses[k].taken;
    }
  }

  /** Applying the same update a second time changes nothing. */
  lemma SetTakenIdempotent(doses: seq<Dose>, doseId: DoseId, taken: bool)
    ensures SetTaken(SetTaken(doses, doseId, taken), doseId, taken) == SetTaken(doses, doseId, taken)
  {
    var once := SetTaken(doses, doseId, taken);
    var twice := SetTaken(once, doseId, taken);
    forall k | 0 <= k < |doses|
      ensures twice[k] == once[k]
    {
      assert twice[k].id == once[k].id && twice[k].time == once[k].time && twice[k].taken == once[k].taken;
    }
  }

  /** After setting a dose taken, the list is all taken exactly when every other dose already was. */
  lemma {:induction false} SetTakenAllTaken(doses: seq<Dose>, doseId: DoseId)
    ensures AllTaken(SetTaken(doses, doseId, true)) <==>
      (forall k :: 0 <= k < |doses| && doses[k].id != doseId ==> doses[k].taken)
  {
    var r := SetTaken(doses, doseId, true);
    if AllTaken(r) {
      forall k | 0 <= k < |doses| && doses[k].id != doseId
        ensures doses[k].taken
      {
        assert r[k].taken;
      }
    }
  }
}
