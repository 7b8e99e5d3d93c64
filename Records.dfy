/** The records the appointment core reads and writes, and the outcome of
    each of its operations.  Identifiers and queue numbers are strings in
    which the empty string stands for every value JavaScript treats as
    missing (`null`, `undefined`, `""`). */
module Records {

  datatype Option<+T> = None | Some(value: T)

  /** The statuses this core writes.  Booking writes `confirmed`,
      cancellation writes `cancelled`; nothing else in the core assigns one. */
  datatype Status = Confirmed | Cancelled

  /** One stored appointment.  `dateTime`, `bookedAt` and the optional
      stamps are instants (milliseconds); `queueNumber == ""` means that no
      queue number has been assigned yet. */
  datatype Appointment = Appointment(
    appointmentId: string,
    patientId: string,
    doctorId: string,
    dateTime: int,
    status: Status,
    bookedAt: int,
    queueNumber: string,
    checkedIn: bool,
    cancelledAt: Option<int>,
    modifiedAt: Option<int>,
    checkedInAt: Option<int>)

  /** One availability entry of a doctor; times of day are minutes. */
  datatype Schedule = Schedule(date: string, startTime: int, endTime: int, available: bool, updatedAt: int)

  datatype Doctor = Doctor(doctorId: string, name: string, specialization: string, schedules: seq<Schedule>)

  datatype Notification = Notification(notificationId: string, patientId: string, message: string, sentAt: int)

  /** The failure branches of the core, one per distinct rejection. */
  datatype Error =
    | MissingBookingFields   // a patient id, doctor id or date/time is missing
    | IdRequired             // the appointment id is missing
    | MissingModifyFields    // the appointment id or the new date/time is missing
    | NotFound               // no appointment under that id
    | NotInFuture            // the requested time is not strictly after now
    | AlreadyCancelled
    | AlreadyCheckedIn
    | DoctorIdRequired
    | ScheduleRequired       // no schedule object was given
    | IncompleteSchedule     // a schedule field is absent
    | PatientIdRequired
    | EmptyMessage
    | StoreRejected          // the store refuses a second record under an existing key

  datatype Result<+T> = Ok(value: T) | Err(error: Error)

  /** What an operation answers together with the state it leaves behind. */
  datatype Step<+T, +S> = Step(result: Result<T>, state: S)
}
