/** The dose-schedule generator (`generateDoseSchedule`, written identically in
    src/app/page.tsx and src/lib/actions.ts): one dose every `frequencyHours` hours
    from the start time, as many as fit in `durationDays` days. */
module ScheduleGenerator {
  import opened Types

  /** How many doses the loop emits: `Math.floor(durationDays * 24 / frequencyHours)`,
      or none at all when that quotient is not positive. */
  function DoseCount(frequencyHours: int, durationDays: int): (n: nat)
    requires frequencyHours >= 1
    ensures durationDays >= 0 ==> n * frequencyHours <= durationDays * 24 < (n + 1) * frequencyHours
    ensures durationDays <= 0 ==> n == 0
    ensures n == 0 <==> durationDays * 24 < frequencyHours
  {
    var totalHours := durationDays * 24;
    if totalHours < frequencyHours then 0 else totalHours / frequencyHours
  }

  /** How often the generator's `for` loop runs when nothing has checked the frequency: a number of
      iterations, or no end at all. */
  datatype Iterations = Finitely(n: nat) | Endlessly

  /** The loop bound `Math.floor(durationDays * 24 / frequencyHours)` for any integer frequency, compared
      against `i = 0, 1, ...`. A positive total divided by 0 is +Infinity, which no `i` reaches; a zero or
      negative total divided by 0 is NaN or -Infinity, which stops the loop at once. */
  function LoopIterations(frequencyHours: int, durationDays: int): (r: Iterations)
    ensures frequencyHours >= 1 ==> r == Finitely(DoseCount(frequencyHours, durationDays))
    ensures r.Endlessly? <==> frequencyHours == 0 && durationDays > 0
  {
    var totalHours := durationDays * 24;
    if frequencyHours == 0 then
      if totalHours > 0 then Endlessly else Finitely(0)
    else
      // floor of the exact quotient; Dafny's `/` is the floor only for a positive divisor
      var quotient := if frequencyHours > 0 then totalHours / frequencyHours else (-totalHours) / (-frequencyHours);
      if quotient <= 0 then Finitely(0) else Finitely(quotient)
  }

  /** Without validation, a frequency of 0 hours and any positive duration makes the generator loop forever. */
  lemma ZeroFrequencyLoopsForever(durationDays: int)
    requires durationDays >= 1
    ensures LoopIterations(0, durationDays) == Endlessly
  {
  }

  /** The time of the `i`-th dose. */
  function DoseTime(start: Time, frequencyHours: int, i: int): Time {
    AddHours(start, i * frequencyHours)
  }

  /** The schedule as a value: dose `i` takes the `i`-th fresh id, sits at `DoseTime(start, frequencyHours, i)`
      and is not yet taken. */
  function Schedule(start: Time, frequencyHours: int, durationDays: int, freshIds: seq<DoseId>): (doses: seq<Dose>)
    requires frequencyHours >= 1
    requires DoseCount(frequencyHours, durationDays) <= |freshIds|
  {
    seq(DoseCount(frequencyHours, durationDays),
        i requires 0 <= i < DoseCount(frequencyHours, durationDays) =>
          Dose(freshIds[i], DoseTime(start, frequencyHours, i), false))
  }

  /** Times strictly increase along the list. */
  ghost predicate StrictlyAscending(doses: seq<Dose>) {
    forall i, j :: 0 <= i < j < |doses| ==> doses[i].time < doses[j].time
  }

  /** The loop of `generateDoseSchedule`, appending one dose per iteration. */
  method GenerateDoseSchedule(startDate: Time, frequencyHours: int, durationDays: int, freshIds: seq<DoseId>)
    returns (doses: seq<Dose>)
    requires frequencyHours >= 1
    requires DoseCount(frequencyHours, durationDays) <= |freshIds|
    ensures doses == Schedule(startDate, frequencyHours, durationDays, freshIds)
  {
    doses := [];
    var totalHours := durationDays * 24;
    var numberOfDoses := totalHours / frequencyHours;
    var i := 0;
    while i < numberOfDoses
      invariant 0 <= i <= DoseCount(frequencyHours, durationDays)
      invariant i < numberOfDoses ==> i < DoseCount(frequencyHours, durationDays)
      invariant |doses| == i
      invariant forall k :: 0 <= k < i ==>
        doses[k] == Dose(freshIds[k], DoseTime(startDate, frequencyHours, k), false)
    {
      var doseTime := AddHours(startDate, i * frequencyHours);
      doses := doses + [Dose(freshIds[i], doseTime, false)];
      i := i + 1;
    }
  }

  /** Count, first time and spacing: the schedule has `DoseCount` doses, the first at the start time,
      each next one exactly `frequencyHours` hours after the previous, none taken. */
  lemma ScheduleShape(start: Time, frequencyHours: int, durationDays: int, freshIds: seq<DoseId>)
    requires frequencyHours >= 1
    requires DoseCount(frequencyHours, durationDays) <= |freshIds|
    ensures var s := Schedule(start, frequencyHours, durationDays, freshIds);
      && |s| == DoseCount(frequencyHours, durationDays)
      && (|s| > 0 ==> s[0].time == start)
      && (forall i :: 0 < i < |s| ==> s[i].time == s[i - 1].time + frequencyHours * HourMs)
      && (forall i :: 0 <= i < |s| ==> !s[i].taken && s[i].id == freshIds[i])
  {
    var s := Schedule(start, frequencyHours, durationDays, freshIds);
    forall i | 0 < i < |s|
      ensures s[i].time == s[i - 1].time + frequencyHours * HourMs
    {
      calc {
        s[i].time;
        start + (i * frequencyHours) * HourMs;
        { assert i * frequencyHours == (i - 1) * frequencyHours + frequencyHours; }
        start + ((i - 1) * frequencyHours) * HourMs + frequencyHours * HourMs;
      }
    }
  }

  /** Later doses are strictly later in time. */
  lemma ScheduleAscending(start: Time, frequencyHours: int, durationDays: int, freshIds: seq<DoseId>)
    requires frequencyHours >= 1
    requires DoseCount(frequencyHours, durationDays) <= |freshIds|
    ensures StrictlyAscending(Schedule(start, frequencyHours, durationDays, freshIds))
  {
    var s := Schedule(start, frequencyHours, durationDays, freshIds);
    forall i, j | 0 <= i < j < |s|
      ensures s[i].time < s[j].time
    {
      MulStrictlyMonotone(i, j, frequencyHours * HourMs);
      assert (i * frequencyHours) * HourMs == i * (frequencyHours * HourMs);
      assert (j * frequencyHours) * HourMs == j * (frequencyHours * HourMs);
    }
  }

  lemma MulStrictlyMonotone(i: int, j: int, c: int)
    requires i < j && c > 0
    ensures i * c < j * c
  {
    assert j * c - i * c == (j - i) * c;
  }

  /** A frequency longer than the whole course yields no dose at all, and otherwise at least one. */
  lemma ScheduleEmptyIff(start: Time, frequencyHours: int, durationDays: int, freshIds: seq<DoseId>)
    requires frequencyHours >= 1
    requires DoseCount(frequencyHours, durationDays) <= |freshIds|
    ensures Schedule(start, frequencyHours, durationDays, freshIds) == [] <==> frequencyHours > durationDays * 24
  {
  }

  /** Distinct fresh ids give doses with distinct ids. */
  lemma ScheduleIdsDistinct(start: Time, frequencyHours: int, durationDays: int, freshIds: seq<DoseId>)
    requires frequencyHours >= 1
    requires DoseCount(frequencyHours, durationDays) <= |freshIds|
    requires forall i, j :: 0 <= i < j < |freshIds| ==> freshIds[i] != freshIds[j]
    ensures var s := Schedule(start, frequencyHours, durationDays, freshIds);
      forall i, j :: 0 <= i < j < |s| ==> s[i].id != s[j].id
  {
  }

  /** The dated example: every 8 hours for one day from 08:00 gives doses at 08:00, 16:00 and 00:00
      of the next day, none taken. */
  lemma EightHourlyForOneDay(start: Time, freshIds: seq<DoseId>)
    requires |freshIds| >= 3
    ensures Schedule(start, 8, 1, freshIds) ==
      [Dose(freshIds[0], start, false),
       Dose(freshIds[1], start + 8 * HourMs, false),
       Dose(freshIds[2], start + 16 * HourMs, false)]
  {
    assert DoseCount(8, 1) == 3;
  }
}
