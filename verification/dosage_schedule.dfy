/** The full-schedule view of one course (src/components/dosage-schedule.tsx): the optimistic
    reducer that shows a dose change before the store confirms it, and the day cards built by
    grouping the doses by calendar day, sorting the day keys and marking the days whose doses
    are all taken. */
module DosageSchedule {
  import opened Types
  import opened Doses

  /** A day key as `format(new Date(dose.time), "yyyy-MM-dd")` writes it. Which day a time falls on is a
      parameter of the view (`dayKey`), standing for the locale's calendar. */
  type DayKey = string

  /** What `setOptimisticDoses` is called with. */
  datatype DoseAction = DoseAction(doseId: DoseId, taken: bool)

  /** The optimistic reducer: the shown list with the acted-on dose's flag replaced. */
  function OptimisticDoses(state: seq<Dose>, action: DoseAction): (r: seq<Dose>)
    ensures |r| == |state|
    ensures forall k :: 0 <= k < |state| && state[k].id != action.doseId ==> r[k] == state[k]
    ensures forall k :: 0 <= k < |state| && state[k].id == action.doseId ==> r[k] == state[k].(taken := action.taken)
  {
    SetTakenLeavesOthers(state, action.doseId, action.taken);
    SetTaken(state, action.doseId, action.taken)
  }

  // ---------------------------------------------------------------------------------------------
  // Grouping by day

  /** The doses of `doses` that fall on day `key`, in list order. */
  function DosesOn(doses: seq<Dose>, dayKey: Time -> DayKey, key: DayKey): seq<Dose> {
    if doses == [] then []
    else
      var last := doses[|doses| - 1];
      DosesOn(doses[..|doses| - 1], dayKey, key) + (if dayKey(last.time) == key then [last] else [])
  }

  /** The days the doses fall on. */
  ghost function DayKeys(doses: seq<Dose>, dayKey: Time -> DayKey): set<DayKey> {
    set k | 0 <= k < |doses| :: dayKey(doses[k].time)
  }

  ghost predicate Distinct(keys: seq<DayKey>) {
    forall i, j :: 0 <= i < j < |keys| ==> keys[i] != keys[j]
  }

  lemma {:induction false} DosesOnOtherDay(doses: seq<Dose>, dayKey: Time -> DayKey, key: DayKey)
    requires key !in DayKeys(doses, dayKey)
    ensures DosesOn(doses, dayKey, key) == []
  {
    if doses != [] {
      var init := doses[..|doses| - 1];
      assert forall k :: 0 <= k < |init| ==> init[k] == doses[k];
      assert DayKeys(init, dayKey) <= DayKeys(doses, dayKey);
      DosesOnOtherDay(init, dayKey, key);
    }
  }

  /** The `reduce` that fills the `acc` dictionary: a day gets an empty list on its first dose, then
      every dose is pushed onto its day's list. `keys` is the dictionary's key order, which for keys
      of this shape is the order in which they were first added. */
  method GroupByDay(doses: seq<Dose>, dayKey: Time -> DayKey)
    returns (groups: map<DayKey, seq<Dose>>, keys: seq<DayKey>)
    ensures groups.Keys == DayKeys(doses, dayKey)
    ensures forall key :: key in groups ==> groups[key] == DosesOn(doses, dayKey, key)
    ensures Distinct(keys) && (set k | k in keys) == groups.Keys
  {
    groups, keys := map[], [];
    for i := 0 to |doses|
      invariant groups.Keys == DayKeys(doses[..i], dayKey)
      invariant forall key :: key in groups ==> groups[key] == DosesOn(doses[..i], dayKey, key)
      invariant Distinct(keys) && (set k | k in keys) == groups.Keys
    {
      var dose := doses[i];
      var dateKey := dayKey(dose.time);
      assert doses[..i + 1][..i] == doses[..i];
      assert doses[..i + 1][i] == dose;
      if dateKey !in groups {
        DosesOnOtherDay(doses[..i], dayKey, dateKey);
        groups := groups[dateKey := []];
        keys := keys + [dateKey];
      }
      groups := groups[dateKey := groups[dateKey] + [dose]];
      assert DayKeys(doses[..i + 1], dayKey) == DayKeys(doses[..i], dayKey) + {dateKey} by {
        assert forall k :: 0 <= k < i ==> doses[..i + 1][k] == doses[..i][k];
      }
    }
    assert doses[..|doses|] == doses;
  }

  /** Each dose is in the group of its own day and in no other: a dose belongs to day `key`'s group
      exactly when it is one of the doses and falls on that day. */
  lemma {:induction false} DosesOnMembership(doses: seq<Dose>, dayKey: Time -> DayKey, key: DayKey, d: Dose)
    ensures d in DosesOn(doses, dayKey, key) <==> d in doses && dayKey(d.time) == key
  {
    if doses != [] {
      var init := doses[..|doses| - 1];
      DosesOnMembership(init, dayKey, key, d);
      assert doses == init + [doses[|doses| - 1]];
    }
  }

  /** `a` is `b` with some elements left out, the rest in their order. */
  predicate IsSubsequence(a: seq<Dose>, b: seq<Dose>) {
    if a == [] then true
    else if b == [] then false
    else if a[|a| - 1] == b[|b| - 1] then IsSubsequence(a[..|a| - 1], b[..|b| - 1])
    else IsSubsequence(a, b[..|b| - 1])
  }

  /** A day's group keeps the doses in their original relative order. */
  lemma {:induction false} DosesOnKeepsOrder(doses: seq<Dose>, dayKey: Time -> DayKey, key: DayKey)
    ensures IsSubsequence(DosesOn(doses, dayKey, key), doses)
  {
    if doses != [] {
      var init := doses[..|doses| - 1];
      var last := doses[|doses| - 1];
      var g := DosesOn(init, dayKey, key);
      DosesOnKeepsOrder(init, dayKey, key);
      if dayKey(last.time) == key {
        assert DosesOn(doses, dayKey, key) == g + [last];
        assert (g + [last])[..|g|] == g;
      } else {
        assert DosesOn(doses, dayKey, key) == g;
        if g != [] {
          DosesOnMembership(init, dayKey, key, g[|g| - 1]);
          assert g[|g| - 1] != last;
        }
      }
    }
  }

  /** The sizes of the groups of the listed days, added up. */
  function SumSizes(doses: seq<Dose>, dayKey: Time -> DayKey, keys: seq<DayKey>): nat {
    if keys == [] then 0 else |DosesOn(doses, dayKey, keys[0])| + SumSizes(doses, dayKey, keys[1..])
  }

  lemma {:induction false} SumSizesNoDoses(dayKey: Time -> DayKey, keys: seq<DayKey>)
    ensures SumSizes([], dayKey, keys) == 0
  {
    if keys != [] {
      SumSizesNoDoses(dayKey, keys[1..]);
    }
  }

  lemma {:induction false} SumSizesAppend(doses: seq<Dose>, d: Dose, dayKey: Time -> DayKey, keys: seq<DayKey>)
    requires Distinct(keys)
    ensures SumSizes(doses + [d], dayKey, keys) == SumSizes(doses, dayKey, keys) + (if dayKey(d.time) in keys then 1 else 0)
  {
    var s := doses + [d];
    assert s[..|s| - 1] == doses && s[|s| - 1] == d;
    if keys != [] {
      SumSizesAppend(doses, d, dayKey, keys[1..]);
      assert dayKey(d.time) in keys <==> dayKey(d.time) == keys[0] || dayKey(d.time) in keys[1..];
      assert keys[0] !in keys[1..];
    }
  }

  /** No dose is lost or counted twice: over any list of distinct days that covers every dose's day,
      the group sizes add up to the number of doses. */
  lemma {:induction false} GroupSizesSum(doses: seq<Dose>, dayKey: Time -> DayKey, keys: seq<DayKey>)
    requires Distinct(keys)
    requires DayKeys(doses, dayKey) <= set k | k in keys
    ensures SumSizes(doses, dayKey, keys) == |doses|
  {
    if doses == [] {
      SumSizesNoDoses(dayKey, keys);
    } else {
      var init := doses[..|doses| - 1];
      var last := doses[|doses| - 1];
      assert doses == init + [last];
      assert forall k :: 0 <= k < |init| ==> init[k] == doses[k];
      assert DayKeys(init, dayKey) <= DayKeys(doses, dayKey);
      assert dayKey(last.time) in DayKeys(doses, dayKey);
      GroupSizesSum(init, dayKey, keys);
      SumSizesAppend(init, last, dayKey, keys);
    }
  }

  /** A day's card shows "Complete" exactly when every dose of the whole list that falls on that day
      is taken. */
  lemma DayCompleteIff(doses: seq<Dose>, dayKey: Time -> DayKey, key: DayKey)
    ensures AllTaken(DosesOn(doses, dayKey, key)) <==>
      forall k :: 0 <= k < |doses| && dayKey(doses[k].time) == key ==> doses[k].taken
  {
    var g := DosesOn(doses, dayKey, key);
    if AllTaken(g) {
      forall k | 0 <= k < |doses| && dayKey(doses[k].time) == key
        ensures doses[k].taken
      {
        DosesOnMembership(doses, dayKey, key, doses[k]);
        var j :| 0 <= j < |g| && g[j] == doses[k];
      }
    } else {
      var j :| 0 <= j < |g| && !g[j].taken;
      DosesOnMembership(doses, dayKey, key, g[j]);
    }
  }

  // ---------------------------------------------------------------------------------------------
  // Sorting the day keys

  /** `a` sorts strictly before `b` under JavaScript's default string order: at the first position
      where they differ the character of `a` is smaller, or `a` is a proper prefix of `b`. */
  predicate Below(a: string, b: string) {
    if a == [] then b != []
    else if b == [] then false
    else if a[0] != b[0] then a[0] < b[0]
    else Below(a[1..], b[1..])
  }

  lemma {:induction false} BelowIrreflexive(a: string)
    ensures !Below(a, a)
  {
    if a != [] {
      BelowIrreflexive(a[1..]);
    }
  }

  lemma {:induction false} BelowTransitive(a: string, b: string, c: string)
    requires Below(a, b) && Below(b, c)
    ensures Below(a, c)
  {
    if a != [] && b != [] && c != [] && a[0] == b[0] && b[0] == c[0] {
      BelowTransitive(a[1..], b[1..], c[1..]);
    }
  }

  lemma {:induction false} BelowTotal(a: string, b: string)
    requires a != b
    ensures Below(a, b) || Below(b, a)
  {
    if a != [] && b != [] && a[0] == b[0] {
      assert a == [a[0]] + a[1..] && b == [b[0]] + b[1..];
      BelowTotal(a[1..], b[1..]);
    }
  }

  ghost predicate StrictlySorted(keys: seq<DayKey>) {
    forall i, j :: 0 <= i < j < |keys| ==> Below(keys[i], keys[j])
  }

  /** One insertion step of the sort. */
  function Insert(sorted: seq<DayKey>, key: DayKey): (r: seq<DayKey>)
    requires StrictlySorted(sorted) && key !in sorted
    ensures StrictlySorted(r)
    ensures multiset(r) == multiset(sorted) + multiset{key}
  {
    if sorted == [] then [key]
    else if Below(key, sorted[0]) then
      assert forall j :: 0 < j < |sorted| ==> Below(key, sorted[j]) by {
        forall j | 0 < j < |sorted| ensures Below(key, sorted[j]) {
          BelowTransitive(key, sorted[0], sorted[j]);
        }
      }
      assert sorted == [sorted[0]] + sorted[1..];
      [key] + sorted
    else
      var rest := Insert(sorted[1..], key);
      assert sorted == [sorted[0]] + sorted[1..];
      BelowTotal(key, sorted[0]);
      assert forall x :: x in rest ==> Below(sorted[0], x) by {
        forall x | x in rest ensures Below(sorted[0], x) {
          assert x in multiset(rest);
        }
      }
      [sorted[0]] + rest
  }

  /** `Object.keys(groupedDoses).sort()`: the distinct day keys in ascending string order. */
  function SortDays(keys: seq<DayKey>): (r: seq<DayKey>)
    requires Distinct(keys)
    ensures StrictlySorted(r)
    ensures multiset(r) == multiset(keys)
  {
    if keys == [] then []
    else
      var init := keys[..|keys| - 1];
      var last := keys[|keys| - 1];
      assert keys == init + [last];
      var sortedInit := SortDays(init);
      assert last !in multiset(sortedInit);
      Insert(sortedInit, last)
  }

  // ---------------------------------------------------------------------------------------------
  // The day cards

  /** One card of the view: its day, the doses listed on it, and whether it shows "Complete". */
  datatype DayCard = DayCard(dateKey: DayKey, doses: seq<Dose>, allTaken: bool)

  function TotalListed(cards: seq<DayCard>): nat {
    if cards == [] then 0 else |cards[0].doses| + TotalListed(cards[1..])
  }

  lemma {:induction false} TotalListedIsSum(cards: seq<DayCard>, doses: seq<Dose>, dayKey: Time -> DayKey,
                                            days: seq<DayKey>)
    requires |cards| == |days|
    requires forall i :: 0 <= i < |cards| ==> cards[i].doses == DosesOn(doses, dayKey, days[i])
    ensures TotalListed(cards) == SumSizes(doses, dayKey, days)
  {
    if cards != [] {
      TotalListedIsSum(cards[1..], doses, dayKey, days[1..]);
    }
  }

  /** Sorting keeps exactly the given days, each once. */
  lemma SortDaysSameDays(keys: seq<DayKey>)
    requires Distinct(keys)
    ensures var r := SortDays(keys);
      Distinct(r) && (forall x :: x in r <==> x in keys)
  {
    var r := SortDays(keys);
    forall x ensures x in r <==> x in keys {
      assert x in r <==> x in multiset(r);
      assert x in keys <==> x in multiset(keys);
    }
    forall i, j | 0 <= i < j < |r| ensures r[i] != r[j] {
      BelowIrreflexive(r[i]);
    }
  }

  /** The cards `sortedDays.map(...)` renders, one per listed day. */
  function CardsFor(groups: map<DayKey, seq<Dose>>, days: seq<DayKey>): seq<DayCard>
    requires forall x :: x in days ==> x in groups
  {
    seq(|days|, i requires 0 <= i < |days| =>
      var dosesForDay := groups[days[i]];
      DayCard(days[i], dosesForDay, AllTaken(dosesForDay)))
  }

  /** The rendered view: one card per day that has a dose, in ascending day order, each listing exactly
      that day's doses in list order, marked complete exactly when they are all taken; together the
      cards list every dose once. */
  method DayCards(doses: seq<Dose>, dayKey: Time -> DayKey) returns (cards: seq<DayCard>)
    ensures forall i, j :: 0 <= i < j < |cards| ==> Below(cards[i].dateKey, cards[j].dateKey)
    ensures (set i | 0 <= i < |cards| :: cards[i].dateKey) == DayKeys(doses, dayKey)
    ensures forall i :: 0 <= i < |cards| ==>
      cards[i].doses == DosesOn(doses, dayKey, cards[i].dateKey) &&
      cards[i].allTaken == AllTaken(cards[i].doses)
    ensures TotalListed(cards) == |doses|
  {
    var groupedDoses, keys := GroupByDay(doses, dayKey);
    var sortedDays := SortDays(keys);
    SortDaysSameDays(keys);
    cards := CardsFor(groupedDoses, sortedDays);
    assert forall i :: 0 <= i < |cards| ==> cards[i].dateKey == sortedDays[i];
    assert (set i | 0 <= i < |cards| :: cards[i].dateKey) == groupedDoses.Keys by {
      forall x | x in groupedDoses.Keys ensures x in (set i | 0 <= i < |cards| :: cards[i].dateKey) {
        var i :| 0 <= i < |sortedDays| && sortedDays[i] == x;
        assert cards[i].dateKey == x;
      }
    }
    TotalListedIsSum(cards, doses, dayKey, sortedDays);
    GroupSizesSum(doses, dayKey, sortedDays);
  }
}
