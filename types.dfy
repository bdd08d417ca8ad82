/** The record types shared by the stores and the components (types/index.ts). */
module Types {
  import opened Wrappers

  /**
    A doctor as the catalog holds it. `ratingTenths` is the fractional rating
    times ten. `availableSlots` and `reviewCount` are unbounded at the type
    level: non-negativity is a property of the catalog data only.
   */
  datatype Doctor = Doctor(
    id: string,
    name: string,
    specialty: string,
    photo: string,
    ratingTenths: int,
    reviewCount: int,
    location: string,
    availableSlots: int,
    tags: seq<string>)

  /** The three-valued status union. */
  datatype Status = Confirmed | Cancelled | Completed

  /**
    A booked appointment. It embeds a copy of the whole doctor record, not a
    doctor id; `date` is an instant in milliseconds and `time` is an
    unconstrained string (the slot restriction lives in the booking modal).
   */
  datatype Appointment = Appointment(
    id: string,
    doctor: Doctor,
    date: int,
    time: string,
    status: Status)

  /** The string literal that stands for each status. */
  function StatusLabel(s: Status): string {
    match s
    case Confirmed => "confirmed"
    case Cancelled => "cancelled"
    case Completed => "completed"
  }

  /** Reads a status literal; exactly the three literals are accepted. */
  function ParseStatus(t: string): (r: Option<Status>)
    ensures r.Some? <==> t == "confirmed" || t == "cancelled" || t == "completed"
    ensures r.Some? ==> StatusLabel(r.value) == t
  {
    if t == "confirmed" then Some(Confirmed)
    else if t == "cancelled" then Some(Cancelled)
    else if t == "completed" then Some(Completed)
    else None
  }

  lemma StatusLabelRoundTrip(s: Status)
    ensures ParseStatus(StatusLabel(s)) == Some(s)
  {
  }
}
