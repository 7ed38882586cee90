/** The form schema of the server action (src/lib/actions.ts, `formSchema`); the dialog's own
    form (src/components/add-medication-form.tsx) states the same rules. */
module Validation {
  import opened Types
  import opened StartTime

  /** What the add-medication form submits. The date picker yields a `Date`, here a timestamp. */
  datatype FormValues = FormValues(
    name: string,
    description: Option<string>,
    dosageFrequencyHours: int,
    durationDays: int,
    initialDoseDate: Time,
    initialDoseTime: string)

  /** `formSchema.safeParse(values).success`: a name of at least two characters, frequency and
      duration of at least one, and a time text matching the pattern. */
  predicate ValidForm(v: FormValues) {
    && |v.name| >= 2
    && v.dosageFrequencyHours >= 1
    && v.durationDays >= 1
    && TimeMatches(v.initialDoseTime)
  }

  /** What the schema admits, stated on values: the rejected inputs are exactly a name shorter than two,
      a frequency or duration below one, or a time that is not hours 0-23 and minutes 00-59. */
  lemma ValidFormIff(v: FormValues)
    ensures ValidForm(v) <==>
      |v.name| >= 2 && v.dosageFrequencyHours >= 1 && v.durationDays >= 1 && IsClockTime(v.initialDoseTime)
  {
    TimeMatchesIff(v.initialDoseTime);
  }
}
