/** `sendNotification`: validate the patient id and the message, and append
    a notification carrying the trimmed message to the notification log. */
module Notifications {
  import opened Records
  import opened Text

  /** The message text a notification stores: refused when the patient id
      is missing, or when the message has no character other than
      whitespace (an absent message is the empty string); otherwise the
      message with its surrounding whitespace removed, never empty. */
  function NotificationText(patientId: string, message: string): (r: Result<string>)
    ensures patientId == "" ==> r == Err(PatientIdRequired)
    ensures patientId != "" && AllWhitespace(message) ==> r == Err(EmptyMessage)
    ensures r.Ok? <==> patientId != "" && exists i :: 0 <= i < |message| && !IsJsWhitespace(message[i])
    ensures r.Ok? ==> r.value == Trim(message) && |r.value| > 0
  {
    if patientId == "" then Err(PatientIdRequired)
    else if |Trim(message)| == 0 then Err(EmptyMessage)
    else Ok(Trim(message))
  }

  /** Appending to the log: a refused notification leaves the log as it
      was; an accepted one is appended as the last entry, with the
      generated id `newId`, the patient, the trimmed message and the send
      time. */
  function Send(log: seq<Notification>, patientId: string, message: string, now: int, newId: string)
    : (s: Step<Notification, seq<Notification>>)
    ensures s.result.Ok? <==> NotificationText(patientId, message).Ok?
    ensures s.result.Err? ==> s.state == log && s.result == Err(NotificationText(patientId, message).error)
    ensures s.result.Ok? ==>
      && s.state == log + [s.result.value]
      && s.result.value == Notification(newId, patientId, Trim(message), now)
  {
    match NotificationText(patientId, message)
    case Err(e) => Step(Err(e), log)
    case Ok(text) => var n := Notification(newId, patientId, text, now); Step(Ok(n), log + [n])
  }

  /** Sending a message and sending its trimmed text store the same text. */
  lemma SendTrimmedAgain(patientId: string, message: string)
    requires NotificationText(patientId, message).Ok?
    ensures NotificationText(patientId, Trim(message)) == NotificationText(patientId, message)
  {
    TrimIdempotent(message);
  }
}
