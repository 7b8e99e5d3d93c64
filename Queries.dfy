/** `getPatientQueue`: the queue entries of one patient's appointments that
    are confirmed and checked in, in store order. */
module Queries {
  import opened Records
  import opened Appointments

  datatype QueueEntry = QueueEntry(queueNumber: string, waitingTime: string, doctorName: string, patientId: string)

  /** The filter of `getPatientQueue`. */
  predicate InPatientQueue(a: Appointment, patientId: string) {
    a.patientId == patientId && a.status == Confirmed && a.checkedIn
  }

  /** The entry shown for a queued appointment; no wait time is computed. */
  function EntryFor(a: Appointment): QueueEntry {
    QueueEntry(a.queueNumber, "N/A", "Dr. " + a.doctorId, a.patientId)
  }

  /** The positions of the records that pass the filter. */
  ghost function QueuedIndices(records: seq<Appointment>, patientId: string): set<int> {
    set i | 0 <= i < |records| && InPatientQueue(records[i], patientId)
  }

  /** Dropping the last record drops its position, if it passed. */
  lemma QueuedIndicesLast(records: seq<Appointment>, patientId: string)
    requires records != []
    ensures var n := |records|;
      QueuedIndices(records, patientId) ==
        QueuedIndices(records[..n - 1], patientId) + (if InPatientQueue(records[n - 1], patientId) then {n - 1} else {})
    ensures |records| - 1 !in QueuedIndices(records[..|records| - 1], patientId)
  {
  }

  /** The positions of the records that pass the filter and show `e`. */
  ghost function EntryIndices(records: seq<Appointment>, patientId: string, e: QueueEntry): set<int> {
    set i | 0 <= i < |records| && InPatientQueue(records[i], patientId) && EntryFor(records[i]) == e
  }

  /** Dropping the last record removes one record showing an entry when
      it passed and shows that entry, and none otherwise. */
  lemma EntryIndicesLast(records: seq<Appointment>, patientId: string)
    requires records != []
    ensures var n := |records|;
      forall e :: |EntryIndices(records, patientId, e)| ==
        |EntryIndices(records[..n - 1], patientId, e)|
        + (if InPatientQueue(records[n - 1], patientId) && EntryFor(records[n - 1]) == e then 1 else 0)
  {
    var n := |records|;
    forall e
      ensures |EntryIndices(records, patientId, e)| ==
        |EntryIndices(records[..n - 1], patientId, e)|
        + (if InPatientQueue(records[n - 1], patientId) && EntryFor(records[n - 1]) == e then 1 else 0)
    {
      var front := EntryIndices(records[..n - 1], patientId, e);
      assert n - 1 !in front;
      if InPatientQueue(records[n - 1], patientId) && EntryFor(records[n - 1]) == e {
        assert EntryIndices(records, patientId, e) == front + {n - 1};
      } else {
        assert EntryIndices(records, patientId, e) == front;
      }
    }
  }

  /** A list holding each entry as often as the passing records show it
      holds exactly the entries of the passing records, all of them the
      patient's own. */
  lemma QueueMembers(records: seq<Appointment>, patientId: string, r: seq<QueueEntry>)
    requires forall e :: multiset(r)[e] == |EntryIndices(records, patientId, e)|
    ensures forall e :: e in r ==> exists a :: a in records && InPatientQueue(a, patientId) && e == EntryFor(a)
    ensures forall a :: a in records && InPatientQueue(a, patientId) ==> EntryFor(a) in r
    ensures forall e :: e in r ==> e.patientId == patientId
  {
    forall e | e in r
      ensures exists a :: a in records && InPatientQueue(a, patientId) && e == EntryFor(a)
    {
      assert multiset(r)[e] > 0;
      var i :| i in EntryIndices(records, patientId, e);
      assert records[i] in records;
    }
    forall a | a in records && InPatientQueue(a, patientId)
      ensures EntryFor(a) in r
    {
      var i :| 0 <= i < |records| && records[i] == a;
      assert i in EntryIndices(records, patientId, EntryFor(a));
    }
  }

  /** Exactly the entries of the records that pass the filter, one per
      passing record: each entry occurs as often as there are passing
      records showing it.  Every entry is the patient's own. */
  function PatientQueue(records: seq<Appointment>, patientId: string): (r: seq<QueueEntry>)
    ensures |r| == |QueuedIndices(records, patientId)|
    ensures forall e :: multiset(r)[e] == |EntryIndices(records, patientId, e)|
    ensures forall e :: e in r ==> exists a :: a in records && InPatientQueue(a, patientId) && e == EntryFor(a)
    ensures forall a :: a in records && InPatientQueue(a, patientId) ==> EntryFor(a) in r
    ensures forall e :: e in r ==> e.patientId == patientId
  {
    if records == [] then
      assert QueuedIndices(records, patientId) == {};
      []
    else
      var front := records[..|records| - 1];
      var last := records[|records| - 1];
      var rest := PatientQueue(front, patientId);
      QueuedIndicesLast(records, patientId);
      EntryIndicesLast(records, patientId);
      var r := if InPatientQueue(last, patientId) then rest + [EntryFor(last)] else rest;
      assert multiset(r) == multiset(rest) + if InPatientQueue(last, patientId) then multiset{EntryFor(last)} else multiset{};
      QueueMembers(records, patientId, r);
      r
  }

  /** Every queued appointment of well-formed records shows a queue number:
      check-in always leaves one on the record. */
  lemma QueuedEntriesHaveNumbers(records: seq<Appointment>, patientId: string)
    requires forall i :: 0 <= i < |records| ==> WellFormed(records[i])
    ensures forall e :: e in PatientQueue(records, patientId) ==> e.queueNumber != ""
  {
  }
}
