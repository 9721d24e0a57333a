/** The `Appointment` record shared by the store and every view. */
module Appointments {

  datatype Option<T> = None | Some(value: T)

  /** The three values the optional `status` field may take. */
  datatype Status = Scheduled | Completed | Cancelled

  /** One appointment. Optional fields are `Option`s; `duration` is a number
      of minutes, kept independently of `startTime` and `endTime`. */
  datatype Appointment = Appointment(
    id: Option<string>,
    userId: Option<string>,
    clientName: string,
    date: string,
    startTime: string,
    endTime: string,
    duration: int,
    status: Option<Status>,
    note: Option<string>)

  /** JavaScript truthiness of an optional string: present and not empty. */
  predicate Truthy(o: Option<string>)
  {
    o.Some? && o.value != ""
  }

  /** `apt._id === id`: a record without an `_id` matches no string. */
  predicate HasId(a: Appointment, id: string)
  {
    a.id == Some(id)
  }
}
