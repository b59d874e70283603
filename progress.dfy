/** The `progress` table: one record per student with the number of completed tutoring sessions,
    the whole hours studied and an optional average grade. Both the CRUD helpers and the grade
    router look a record up and create it when it is missing. */
module ProgressRecords {
  import opened Seqs

  datatype ProgressRecord = ProgressRecord(totalSessions: int, totalHours: int, averageGrade: Option<int>)

  /** A record as it is first inserted: no sessions, no hours and no average grade. */
  const NewProgress := ProgressRecord(0, 0, None)

  /** The table after looking up `studentId`, creating its record when there is none. */
  function WithRecord(records: map<int, ProgressRecord>, studentId: int): (r: map<int, ProgressRecord>)
    ensures studentId in r
    ensures studentId in records ==> r == records
    ensures studentId !in records ==> r[studentId] == NewProgress && r.Keys == records.Keys + {studentId}
    ensures forall id :: id in records ==> id in r && r[id] == records[id]
  {
    if studentId in records then records else records[studentId := NewProgress]
  }

  /** Looking a record up twice creates it at most once. */
  lemma WithRecordIdempotent(records: map<int, ProgressRecord>, studentId: int)
    ensures WithRecord(WithRecord(records, studentId), studentId) == WithRecord(records, studentId)
  {
  }

  class ProgressStore {
    var records: map<int, ProgressRecord>

    constructor ()
      ensures records == map[]
    {
      records := map[];
    }

    /** `get_or_create_progress`: the student's record, inserted zeroed when it does not exist yet. */
    method GetOrCreate(studentId: int) returns (prog: ProgressRecord)
      modifies this
      ensures records == WithRecord(old(records), studentId)
      ensures prog == records[studentId]
      ensures studentId in old(records) ==> prog == old(records)[studentId]
    {
      if studentId !in records {
        records := records[studentId := NewProgress];
      }
      prog := records[studentId];
    }

    /** Writing back the fields of one record. */
    method Save(studentId: int, prog: ProgressRecord)
      modifies this
      ensures records == old(records)[studentId := prog]
    {
      records := records[studentId := prog];
    }
  }
}
