/**
 * The records the timetable generator reads and writes
 * (src/utils/timetableGenerator.ts, the interfaces at lines 4-56).
 * The TypeScript field `type` of subjects and rooms is called `kind` here,
 * and the optional `is_break` flag is a plain bool whose absence reads as false.
 */
module TimetableTypes {

  datatype Teacher = Teacher(id: string, name: string)

  datatype Subject = Subject(id: string, name: string, code: string, hoursPerWeek: int, kind: string)

  datatype Room = Room(id: string, number: string, kind: string)

  datatype Batch = Batch(id: string, name: string)

  datatype Timeslot = Timeslot(id: string, day: string, startTime: string, endTime: string, isBreak: bool)

  datatype Assignment = Assignment(teacherId: string, subjectId: string)

  datatype TimetableEntry = TimetableEntry(
    batchId: string, subjectId: string, teacherId: string, roomId: string, timeslotId: string)

  datatype GenerateParams = GenerateParams(
    teachers: seq<Teacher>,
    subjects: seq<Subject>,
    rooms: seq<Room>,
    batches: seq<Batch>,
    timeslots: seq<Timeslot>,
    assignments: seq<Assignment>)

  /** The `type` value that marks a lab subject and a lab room. */
  const LabKind: string := "Lab"

  function TeacherIds(teachers: seq<Teacher>): set<string> {
    set t | t in teachers :: t.id
  }

  function RoomIds(rooms: seq<Room>): set<string> {
    set r | r in rooms :: r.id
  }

  function BatchIds(batches: seq<Batch>): set<string> {
    set b | b in batches :: b.id
  }

  function SlotIds(slots: seq<Timeslot>): set<string> {
    set t | t in slots :: t.id
  }

}
