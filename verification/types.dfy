/** Record shapes of the tracker (src/lib/types.ts) and the clock they live on.

    Timestamps are ISO 8601 strings in the source; here they are integers counting
    milliseconds on the local clock: a `Date` holds UTC milliseconds since the epoch, and the
    time-zone offset is folded into the model's clock, so that local days are whole multiples
    of a day. */
module Types {

  datatype Option<+T> = None | Some(value: T) {
    /** The value, or `default` when there is none (JavaScript's `x || default` on an optional string). */
    function GetOr(default: T): T {
      match this
      case Some(v) => v
      case None => default
    }
  }

  type Time = int
  type DoseId = string
  type MedicationId = string
  type HistoryId = string
  type UserId = string

  const MinuteMs: int := 60_000
  const HourMs: int := 3_600_000
  const DayMs: int := 86_400_000

  /** date-fns `addHours` on the local clock. */
  function AddHours(t: Time, hours: int): Time {
    t + hours * HourMs
  }

  /** date-fns `addDays`, taken as 24 hours a day (no daylight-saving shifts). */
  function AddDays(t: Time, days: int): Time {
    t + days * DayMs
  }

  /** One scheduled intake. Only `taken` ever changes after creation. */
  datatype Dose = Dose(id: DoseId, time: Time, taken: bool)

  /** An active course. The record's own id is the key under which a collection stores it.
      `userId` is absent on records written by the server action, which does not set it. */
  datatype Medication = Medication(
    userId: Option<UserId>,
    name: string,
    description: string,
    dosageFrequencyHours: int,
    durationDays: int,
    initialDoseTimestamp: Time,
    createdAt: Time,
    doses: seq<Dose>)

  /** The archived summary of a completed course. */
  datatype HistoricalMedication = HistoricalMedication(
    userId: UserId,
    name: string,
    description: string,
    dosageFrequencyHours: int,
    totalDoses: nat,
    startDate: Time,
    endDate: Time,
    completedAt: Time)

  /** Every dose of the list is taken (`doses.every(d => d.taken)`); true of the empty list. */
  predicate AllTaken(doses: seq<Dose>) {
    forall k :: 0 <= k < |doses| ==> doses[k].taken
  }
}
