/**
 * The greedy scan of `generateOptimizedTimetable`
 * (src/utils/timetableGenerator.ts:138-281) as functions over occupancy
 * values. Each function returns the occupancy after its part of the scan and
 * the entries that part pushed, in push order; the methods of module
 * `Generator` do the same work in place and are proved equal to these.
 */
module Schedule {
  import opened Wrappers
  import opened Sequences
  import opened TimetableTypes
  import opened Timeslots
  import opened Tracking

  /** The occupancy reached and the entries pushed by part of the scan. */
  datatype Progress = Progress(occ: Occupancy, entries: seq<TimetableEntry>)

  function Prefixed(earlier: seq<TimetableEntry>, p: Progress): Progress {
    Progress(p.occ, earlier + p.entries)
  }

  /** Unfolding step for the loop proofs: prefixing twice is prefixing with the concatenation. */
  lemma PrefixedTwice(earlier: seq<TimetableEntry>, later: seq<TimetableEntry>, p: Progress)
    ensures Prefixed(earlier, Prefixed(later, p)) == Prefixed(earlier + later, p)
  {
  }

  function Max0(x: int): nat {
    if x < 0 then 0 else x
  }

  /** The message of the Error thrown at line 277. */
  const NoEntriesMessage: string :=
    "Could not generate any timetable entries. Please check your data and teacher-subject assignments."

  /** Position of the first assignment for `subjectId`, or -1 when there is none: `indexOf` on the subject ids. */
  function FirstAssignment(assignments: seq<Assignment>, subjectId: string): (r: int)
    ensures -1 <= r < |assignments|
    ensures r == -1 <==> forall k | 0 <= k < |assignments| :: assignments[k].subjectId != subjectId
    ensures 0 <= r ==> assignments[r].subjectId == subjectId
    ensures 0 <= r ==> forall k | 0 <= k < r :: assignments[k].subjectId != subjectId
  {
    var subjectIds := seq(|assignments|, k requires 0 <= k < |assignments| => assignments[k].subjectId);
    assert forall k | 0 <= k < |assignments| :: subjectIds[k] == assignments[k].subjectId;
    assert subjectId in subjectIds <==> exists k | 0 <= k < |assignments| :: subjectIds[k] == subjectId;
    IndexOf(subjectIds, subjectId)
  }

  /** `teacherIds[0]` of lines 142-152: the teacher of the first matching assignment, if any. */
  function FirstTeacher(assignments: seq<Assignment>, subjectId: string): (r: Option<string>)
    ensures r.None? <==> forall k | 0 <= k < |assignments| :: assignments[k].subjectId != subjectId
    ensures r.Some? ==> exists k | 0 <= k < |assignments| ::
      && assignments[k].subjectId == subjectId && assignments[k].teacherId == r.value
      && forall j | 0 <= j < k :: assignments[j].subjectId != subjectId
  {
    var k := FirstAssignment(assignments, subjectId);
    if k == -1 then None
    else
      Some(assignments[k].teacherId)
  }

  predicate IsLabSubject(subject: Subject) {
    subject.kind == LabKind
  }

  predicate IsLabRoom(room: Room) {
    room.kind == LabKind
  }

  /**
   * `appropriateRooms` of lines 155-166: the Lab rooms for a Lab subject,
   * every room when there is no Lab room or the subject is not a Lab.
   */
  function EligibleRooms(rooms: seq<Room>, subject: Subject): (r: seq<Room>)
    ensures forall m | m in r :: m in rooms
    ensures |r| == 0 <==> |rooms| == 0
    ensures !IsLabSubject(subject) ==> r == rooms
    ensures IsLabSubject(subject) && (forall m | m in rooms :: !IsLabRoom(m)) ==> r == rooms
    ensures IsLabSubject(subject) && (exists m | m in rooms :: IsLabRoom(m)) ==>
      && (forall m | m in r :: IsLabRoom(m))
      && (forall m :: multiset(r)[m] == if IsLabRoom(m) then multiset(rooms)[m] else 0)
      && r == Filter(rooms, IsLabRoom)
  {
    if !IsLabSubject(subject) then rooms
    else
      var labRooms := Filter(rooms, IsLabRoom);
      FilterCount(rooms, IsLabRoom);
      if |labRooms| == 0 then
        assert forall m | m in rooms :: multiset(labRooms)[m] == 0;
        rooms
      else
        assert labRooms[0] in labRooms;
        labRooms
  }

  /** `Math.ceil(h / 2)` for a whole number of hours: the least `r` with `2 * r >= h`. */
  function CeilHalf(h: int): (r: int)
    ensures h <= 2 * r <= h + 1
  {
    (h + 1) / 2
  }

  /**
   * The first room, by position, for which every timeslot of `timeslotIds`
   * is free for the teacher, the batch and the room (lines 191-201 and 239-245).
   */
  function FirstFreeRoom(occ: Occupancy, teacherId: string, batchId: string, rooms: seq<Room>, timeslotIds: seq<string>): (r: Option<nat>)
    ensures r.Some? ==> r.value < |rooms| && FreeForAll(occ, teacherId, batchId, rooms[r.value].id, timeslotIds)
    ensures r.Some? ==> forall k | 0 <= k < r.value :: !FreeForAll(occ, teacherId, batchId, rooms[k].id, timeslotIds)
    ensures r.None? ==> forall k | 0 <= k < |rooms| :: !FreeForAll(occ, teacherId, batchId, rooms[k].id, timeslotIds)
  {
    if |rooms| == 0 then None
    else if FreeForAll(occ, teacherId, batchId, rooms[0].id, timeslotIds) then Some(0)
    else
      match FirstFreeRoom(occ, teacherId, batchId, rooms[1..], timeslotIds)
      case None => None
      case Some(k) => Some(k + 1)
  }

  /** No Lab room among the first `n` of `rooms` is free at every timeslot of `timeslotIds`. */
  ghost predicate NoFreeLabRoomBefore(occ: Occupancy, teacherId: string, batchId: string, rooms: seq<Room>, timeslotIds: seq<string>, n: int) {
    forall j | 0 <= j < n && j < |rooms| && IsLabRoom(rooms[j]) :: !FreeForAll(occ, teacherId, batchId, rooms[j].id, timeslotIds)
  }

  /** `rooms[j]` is the first Lab room of `rooms` free at every timeslot of `timeslotIds`. */
  ghost predicate FirstFreeLabRoomAt(occ: Occupancy, teacherId: string, batchId: string, rooms: seq<Room>, timeslotIds: seq<string>, j: int) {
    && 0 <= j < |rooms| && IsLabRoom(rooms[j]) && FreeForAll(occ, teacherId, batchId, rooms[j].id, timeslotIds)
    && NoFreeLabRoomBefore(occ, teacherId, batchId, rooms, timeslotIds, j)
  }

  /** The room picked from the Lab rooms of `rooms` is the first free Lab room of `rooms`; none is picked when none is free. */
  ghost predicate PicksFirstFreeLabRoom(occ: Occupancy, teacherId: string, batchId: string, rooms: seq<Room>, timeslotIds: seq<string>) {
    var labs := Filter(rooms, IsLabRoom);
    match FirstFreeRoom(occ, teacherId, batchId, labs, timeslotIds)
    case None => NoFreeLabRoomBefore(occ, teacherId, batchId, rooms, timeslotIds, |rooms|)
    case Some(k) => exists j :: FirstFreeLabRoomAt(occ, teacherId, batchId, rooms, timeslotIds, j) && labs[k] == rooms[j]
  }

  /**
   * For a Lab subject while a Lab room exists, the eligible rooms are the
   * Lab rooms in input order, so the room chosen is the first Lab room of
   * `rooms` that is free at every timeslot of `timeslotIds`; none is chosen
   * exactly when no Lab room is free.
   */
  lemma {:induction false} ChosenRoomIsFirstFreeLabRoom(occ: Occupancy, teacherId: string, batchId: string, rooms: seq<Room>, timeslotIds: seq<string>)
    ensures PicksFirstFreeLabRoom(occ, teacherId, batchId, rooms, timeslotIds)
  {
    if |rooms| > 0 {
      ChosenRoomIsFirstFreeLabRoom(occ, teacherId, batchId, rooms[1..], timeslotIds);
      if IsLabRoom(rooms[0]) && FreeForAll(occ, teacherId, batchId, rooms[0].id, timeslotIds) {
        FirstLabRoomFree(occ, teacherId, batchId, rooms, timeslotIds);
      } else {
        FirstRoomPassed(occ, teacherId, batchId, rooms, timeslotIds);
      }
    }
  }

  lemma FirstLabRoomFree(occ: Occupancy, teacherId: string, batchId: string, rooms: seq<Room>, timeslotIds: seq<string>)
    requires |rooms| > 0 && IsLabRoom(rooms[0]) && FreeForAll(occ, teacherId, batchId, rooms[0].id, timeslotIds)
    ensures PicksFirstFreeLabRoom(occ, teacherId, batchId, rooms, timeslotIds)
  {
    var labs := Filter(rooms, IsLabRoom);
    assert labs == [rooms[0]] + Filter(rooms[1..], IsLabRoom);
    assert FirstFreeRoom(occ, teacherId, batchId, labs, timeslotIds) == Some(0);
    assert FirstFreeLabRoomAt(occ, teacherId, batchId, rooms, timeslotIds, 0);
  }

  lemma FirstRoomPassed(occ: Occupancy, teacherId: string, batchId: string, rooms: seq<Room>, timeslotIds: seq<string>)
    requires |rooms| > 0 && !(IsLabRoom(rooms[0]) && FreeForAll(occ, teacherId, batchId, rooms[0].id, timeslotIds))
    requires PicksFirstFreeLabRoom(occ, teacherId, batchId, rooms[1..], timeslotIds)
    ensures PicksFirstFreeLabRoom(occ, teacherId, batchId, rooms, timeslotIds)
  {
    var labs := Filter(rooms, IsLabRoom);
    var rest := Filter(rooms[1..], IsLabRoom);
    ShiftNoFreeLabRoom(occ, teacherId, batchId, rooms, timeslotIds);
    LabRoomsShift(occ, teacherId, batchId, rooms, timeslotIds);
    match FirstFreeRoom(occ, teacherId, batchId, rest, timeslotIds)
    case None =>
    case Some(k) =>
      var j :| FirstFreeLabRoomAt(occ, teacherId, batchId, rooms[1..], timeslotIds, j) && rest[k] == rooms[1..][j];
      assert FirstFreeLabRoomAt(occ, teacherId, batchId, rooms, timeslotIds, j + 1);
  }

  /** Past a first room that is not a free Lab room, the pick among the Lab rooms is the pick among the tail's, shifted. */
  lemma LabRoomsShift(occ: Occupancy, teacherId: string, batchId: string, rooms: seq<Room>, timeslotIds: seq<string>)
    requires |rooms| > 0 && !(IsLabRoom(rooms[0]) && FreeForAll(occ, teacherId, batchId, rooms[0].id, timeslotIds))
    ensures var labs := Filter(rooms, IsLabRoom);
      var rest := Filter(rooms[1..], IsLabRoom);
      match FirstFreeRoom(occ, teacherId, batchId, rest, timeslotIds)
      case None => FirstFreeRoom(occ, teacherId, batchId, labs, timeslotIds).None?
      case Some(k) =>
        && FirstFreeRoom(occ, teacherId, batchId, labs, timeslotIds).Some?
        && labs[FirstFreeRoom(occ, teacherId, batchId, labs, timeslotIds).value] == rest[k]
  {
    var labs := Filter(rooms, IsLabRoom);
    var rest := Filter(rooms[1..], IsLabRoom);
    if IsLabRoom(rooms[0]) {
      assert labs == [rooms[0]] + rest && labs[1..] == rest;
    } else {
      assert labs == rest;
    }
  }

  /** When `rooms[0]` is not a free Lab room, the search of `rooms` is the search of its tail shifted by one. */
  lemma ShiftNoFreeLabRoom(occ: Occupancy, teacherId: string, batchId: string, rooms: seq<Room>, timeslotIds: seq<string>)
    requires |rooms| > 0 && !(IsLabRoom(rooms[0]) && FreeForAll(occ, teacherId, batchId, rooms[0].id, timeslotIds))
    ensures forall n | 0 <= n && NoFreeLabRoomBefore(occ, teacherId, batchId, rooms[1..], timeslotIds, n) ::
      NoFreeLabRoomBefore(occ, teacherId, batchId, rooms, timeslotIds, n + 1)
  {
    forall n | 0 <= n && NoFreeLabRoomBefore(occ, teacherId, batchId, rooms[1..], timeslotIds, n)
      ensures NoFreeLabRoomBefore(occ, teacherId, batchId, rooms, timeslotIds, n + 1)
    {
      forall j | 0 < j < n + 1 && j < |rooms| && IsLabRoom(rooms[j])
        ensures !FreeForAll(occ, teacherId, batchId, rooms[j].id, timeslotIds)
      {
        assert rooms[j] == rooms[1..][j - 1];
      }
    }
  }

  /**
   * The lab scan of lines 177-226 from position `i` with `blocks` blocks
   * already placed: at each position whose two-slot window is a consecutive
   * run, book both slots in the first room free for both and jump past the
   * window; stop after `blocksNeeded` blocks or at the end.
   */
  function LabBlocks(
    classSlots: seq<Timeslot>, teacherId: string, batchId: string, subjectId: string, rooms: seq<Room>,
    blocksNeeded: int, i: nat, blocks: int, occ: Occupancy): Progress
    decreases |classSlots| - i
  {
    if i >= |classSlots| || blocks >= blocksNeeded then Progress(occ, [])
    else if i + 2 <= |classSlots| && IsConsecutiveRun(classSlots[i..i + 2]) then
      match FirstFreeRoom(occ, teacherId, batchId, rooms, [classSlots[i].id, classSlots[i + 1].id])
      case None => LabBlocks(classSlots, teacherId, batchId, subjectId, rooms, blocksNeeded, i + 1, blocks, occ)
      case Some(k) =>
        var roomId := rooms[k].id;
        var first := TimetableEntry(batchId, subjectId, teacherId, roomId, classSlots[i].id);
        var second := TimetableEntry(batchId, subjectId, teacherId, roomId, classSlots[i + 1].id);
        var next := occ.Occupy(teacherId, batchId, roomId, classSlots[i].id).Occupy(teacherId, batchId, roomId, classSlots[i + 1].id);
        Prefixed([first, second], LabBlocks(classSlots, teacherId, batchId, subjectId, rooms, blocksNeeded, i + 2, blocks + 1, next))
    else LabBlocks(classSlots, teacherId, batchId, subjectId, rooms, blocksNeeded, i + 1, blocks, occ)
  }

  /**
   * A lab scan only adds occupancy, places at most two entries per missing
   * block, and every entry it pushes is for the given batch, subject and
   * teacher, in one of the given rooms and on a class timeslot.
   */
  lemma {:induction false} LabBlocksBounds(
    classSlots: seq<Timeslot>, teacherId: string, batchId: string, subjectId: string, rooms: seq<Room>,
    blocksNeeded: int, i: nat, blocks: int, occ: Occupancy)
    ensures occ.Below(LabBlocks(classSlots, teacherId, batchId, subjectId, rooms, blocksNeeded, i, blocks, occ).occ)
    ensures |LabBlocks(classSlots, teacherId, batchId, subjectId, rooms, blocksNeeded, i, blocks, occ).entries| <= 2 * Max0(blocksNeeded - blocks)
    ensures forall e | e in LabBlocks(classSlots, teacherId, batchId, subjectId, rooms, blocksNeeded, i, blocks, occ).entries ::
      && e.batchId == batchId && e.subjectId == subjectId && e.teacherId == teacherId
      && e.roomId in RoomIds(rooms) && e.timeslotId in SlotIds(classSlots)
    decreases |classSlots| - i
  {
    if i >= |classSlots| || blocks >= blocksNeeded {
    } else if i + 2 <= |classSlots| && IsConsecutiveRun(classSlots[i..i + 2]) {
      match FirstFreeRoom(occ, teacherId, batchId, rooms, [classSlots[i].id, classSlots[i + 1].id])
      case None =>
        LabBlocksBounds(classSlots, teacherId, batchId, subjectId, rooms, blocksNeeded, i + 1, blocks, occ);
      case Some(k) =>
        var roomId := rooms[k].id;
        var mid := occ.Occupy(teacherId, batchId, roomId, classSlots[i].id);
        var next := mid.Occupy(teacherId, batchId, roomId, classSlots[i + 1].id);
        LabBlocksBounds(classSlots, teacherId, batchId, subjectId, rooms, blocksNeeded, i + 2, blocks + 1, next);
        var rest := LabBlocks(classSlots, teacherId, batchId, subjectId, rooms, blocksNeeded, i + 2, blocks + 1, next);
        BelowTransitive(occ, mid, next);
        BelowTransitive(occ, next, rest.occ);
        assert rooms[k] in rooms && classSlots[i] in classSlots && classSlots[i + 1] in classSlots;
    } else {
      LabBlocksBounds(classSlots, teacherId, batchId, subjectId, rooms, blocksNeeded, i + 1, blocks, occ);
    }
  }

  /** Unfolding step for the loop proofs: one booked lab block, then the scan continues two timeslots on. */
  lemma LabBlocksBooked(
    classSlots: seq<Timeslot>, teacherId: string, batchId: string, subjectId: string, rooms: seq<Room>,
    blocksNeeded: int, i: nat, blocks: int, occ: Occupancy, k: nat)
    requires blocks < blocksNeeded && i + 2 <= |classSlots| && IsConsecutiveRun(classSlots[i..i + 2])
    requires FirstFreeRoom(occ, teacherId, batchId, rooms, [classSlots[i].id, classSlots[i + 1].id]) == Some(k)
    ensures k < |rooms|
    ensures var roomId := rooms[k].id;
      LabBlocks(classSlots, teacherId, batchId, subjectId, rooms, blocksNeeded, i, blocks, occ)
      == Prefixed([TimetableEntry(batchId, subjectId, teacherId, roomId, classSlots[i].id),
                   TimetableEntry(batchId, subjectId, teacherId, roomId, classSlots[i + 1].id)],
                  LabBlocks(classSlots, teacherId, batchId, subjectId, rooms, blocksNeeded, i + 2, blocks + 1,
                            occ.Occupy(teacherId, batchId, roomId, classSlots[i].id).Occupy(teacherId, batchId, roomId, classSlots[i + 1].id)))
  {
  }

  /** Unfolding step for the loop proofs: no block at position `i`, so the scan moves on by one timeslot. */
  lemma LabBlocksPassed(
    classSlots: seq<Timeslot>, teacherId: string, batchId: string, subjectId: string, rooms: seq<Room>,
    blocksNeeded: int, i: nat, blocks: int, occ: Occupancy)
    requires blocks < blocksNeeded && i < |classSlots|
    requires i + 2 <= |classSlots| && IsConsecutiveRun(classSlots[i..i + 2]) ==>
      FirstFreeRoom(occ, teacherId, batchId, rooms, [classSlots[i].id, classSlots[i + 1].id]).None?
    ensures LabBlocks(classSlots, teacherId, batchId, subjectId, rooms, blocksNeeded, i, blocks, occ)
         == LabBlocks(classSlots, teacherId, batchId, subjectId, rooms, blocksNeeded, i + 1, blocks, occ)
  {
  }

  /**
   * The lecture scan of lines 235-262 from position `i` with `scheduled`
   * hours already placed: book each class timeslot in the first free room
   * until `hours` hours are placed or the timeslots run out.
   */
  function LectureSlots(
    classSlots: seq<Timeslot>, teacherId: string, batchId: string, subjectId: string, rooms: seq<Room>,
    hours: int, i: nat, scheduled: int, occ: Occupancy): Progress
    decreases |classSlots| - i
  {
    if i >= |classSlots| || scheduled >= hours then Progress(occ, [])
    else
      match FirstFreeRoom(occ, teacherId, batchId, rooms, [classSlots[i].id])
      case None => LectureSlots(classSlots, teacherId, batchId, subjectId, rooms, hours, i + 1, scheduled, occ)
      case Some(k) =>
        var roomId := rooms[k].id;
        var entry := TimetableEntry(batchId, subjectId, teacherId, roomId, classSlots[i].id);
        Prefixed([entry], LectureSlots(classSlots, teacherId, batchId, subjectId, rooms, hours, i + 1, scheduled + 1,
                                       occ.Occupy(teacherId, batchId, roomId, classSlots[i].id)))
  }

  /**
   * A lecture scan only adds occupancy, places at most one entry per missing
   * hour, and every entry it pushes is for the given batch, subject and
   * teacher, in one of the given rooms and on a class timeslot.
   */
  lemma {:induction false} LectureSlotsBounds(
    classSlots: seq<Timeslot>, teacherId: string, batchId: string, subjectId: string, rooms: seq<Room>,
    hours: int, i: nat, scheduled: int, occ: Occupancy)
    ensures occ.Below(LectureSlots(classSlots, teacherId, batchId, subjectId, rooms, hours, i, scheduled, occ).occ)
    ensures |LectureSlots(classSlots, teacherId, batchId, subjectId, rooms, hours, i, scheduled, occ).entries| <= Max0(hours - scheduled)
    ensures forall e | e in LectureSlots(classSlots, teacherId, batchId, subjectId, rooms, hours, i, scheduled, occ).entries ::
      && e.batchId == batchId && e.subjectId == subjectId && e.teacherId == teacherId
      && e.roomId in RoomIds(rooms) && e.timeslotId in SlotIds(classSlots)
    decreases |classSlots| - i
  {
    if i >= |classSlots| || scheduled >= hours {
    } else {
      match FirstFreeRoom(occ, teacherId, batchId, rooms, [classSlots[i].id])
      case None =>
        LectureSlotsBounds(classSlots, teacherId, batchId, subjectId, rooms, hours, i + 1, scheduled, occ);
      case Some(k) =>
        var roomId := rooms[k].id;
        var next := occ.Occupy(teacherId, batchId, roomId, classSlots[i].id);
        LectureSlotsBounds(classSlots, teacherId, batchId, subjectId, rooms, hours, i + 1, scheduled + 1, next);
        var rest := LectureSlots(classSlots, teacherId, batchId, subjectId, rooms, hours, i + 1, scheduled + 1, next);
        BelowTransitive(occ, next, rest.occ);
        assert rooms[k] in rooms && classSlots[i] in classSlots;
    }
  }

  /** Unfolding step for the loop proofs: one booked lecture hour, then the scan continues at the next timeslot. */
  lemma LectureSlotsBooked(
    classSlots: seq<Timeslot>, teacherId: string, batchId: string, subjectId: string, rooms: seq<Room>,
    hours: int, i: nat, scheduled: int, occ: Occupancy, k: nat)
    requires scheduled < hours && i < |classSlots|
    requires FirstFreeRoom(occ, teacherId, batchId, rooms, [classSlots[i].id]) == Some(k)
    ensures k < |rooms|
    ensures LectureSlots(classSlots, teacherId, batchId, subjectId, rooms, hours, i, scheduled, occ)
      == Prefixed([TimetableEntry(batchId, subjectId, teacherId, rooms[k].id, classSlots[i].id)],
                  LectureSlots(classSlots, teacherId, batchId, subjectId, rooms, hours, i + 1, scheduled + 1,
                               occ.Occupy(teacherId, batchId, rooms[k].id, classSlots[i].id)))
  {
  }

  /** One subject iteration of lines 140-272: its teacher, its rooms, then the lab or the lecture scan. */
  function ScheduleSubject(params: GenerateParams, classSlots: seq<Timeslot>, batch: Batch, subject: Subject, occ: Occupancy): Progress {
    match FirstTeacher(params.assignments, subject.id)
    case None => Progress(occ, [])
    case Some(teacherId) =>
      var rooms := EligibleRooms(params.rooms, subject);
      if |rooms| == 0 then Progress(occ, [])
      else if IsLabSubject(subject) then
        LabBlocks(classSlots, teacherId, batch.id, subject.id, rooms, CeilHalf(subject.hoursPerWeek), 0, 0, occ)
      else
        LectureSlots(classSlots, teacherId, batch.id, subject.id, rooms, subject.hoursPerWeek, 0, 0, occ)
  }

  /**
   * A subject without an assignment gets nothing; otherwise every entry is
   * for the batch and the subject, with the teacher of its first
   * assignment, in one of its eligible rooms, on a class timeslot.
   */
  lemma ScheduleSubjectBounds(params: GenerateParams, classSlots: seq<Timeslot>, batch: Batch, subject: Subject, occ: Occupancy)
    ensures occ.Below(ScheduleSubject(params, classSlots, batch, subject, occ).occ)
    ensures FirstTeacher(params.assignments, subject.id).None? ==> ScheduleSubject(params, classSlots, batch, subject, occ) == Progress(occ, [])
    ensures forall e | e in ScheduleSubject(params, classSlots, batch, subject, occ).entries ::
      && e.batchId == batch.id && e.subjectId == subject.id
      && FirstTeacher(params.assignments, subject.id) == Some(e.teacherId)
      && e.roomId in RoomIds(EligibleRooms(params.rooms, subject))
      && e.timeslotId in SlotIds(classSlots)
  {
    match FirstTeacher(params.assignments, subject.id)
    case None =>
    case Some(teacherId) =>
      var rooms := EligibleRooms(params.rooms, subject);
      if |rooms| == 0 {
      } else if IsLabSubject(subject) {
        LabBlocksBounds(classSlots, teacherId, batch.id, subject.id, rooms, CeilHalf(subject.hoursPerWeek), 0, 0, occ);
      } else {
        LectureSlotsBounds(classSlots, teacherId, batch.id, subject.id, rooms, subject.hoursPerWeek, 0, 0, occ);
      }
  }

  /** What the output says about one entry: where its batch, teacher, room and timeslot come from. */
  ghost predicate EntryFits(params: GenerateParams, classSlots: seq<Timeslot>, e: TimetableEntry) {
    && e.batchId in BatchIds(params.batches)
    && FirstTeacher(params.assignments, e.subjectId) == Some(e.teacherId)
    && e.timeslotId in SlotIds(classSlots)
    && exists s | s in params.subjects :: s.id == e.subjectId && e.roomId in RoomIds(EligibleRooms(params.rooms, s))
  }

  /**
   * The nested loops of lines 139-274 from batch `bi`, subject `si` on:
   * every subject for the current batch, then the next batch.
   */
  function ScheduleFrom(params: GenerateParams, classSlots: seq<Timeslot>, bi: nat, si: nat, occ: Occupancy): Progress
    decreases |params.batches| - bi, |params.subjects| - si
  {
    if bi >= |params.batches| then Progress(occ, [])
    else if si >= |params.subjects| then ScheduleFrom(params, classSlots, bi + 1, 0, occ)
    else
      var p := ScheduleSubject(params, classSlots, params.batches[bi], params.subjects[si], occ);
      Prefixed(p.entries, ScheduleFrom(params, classSlots, bi, si + 1, p.occ))
  }

  /** The scan only adds occupancy, and every entry it pushes fits the inputs. */
  lemma {:induction false} ScheduleFromBounds(params: GenerateParams, classSlots: seq<Timeslot>, bi: nat, si: nat, occ: Occupancy)
    ensures occ.Below(ScheduleFrom(params, classSlots, bi, si, occ).occ)
    ensures forall e | e in ScheduleFrom(params, classSlots, bi, si, occ).entries :: EntryFits(params, classSlots, e)
    decreases |params.batches| - bi, |params.subjects| - si
  {
    if bi >= |params.batches| {
    } else if si >= |params.subjects| {
      ScheduleFromBounds(params, classSlots, bi + 1, 0, occ);
    } else {
      var batch := params.batches[bi];
      var subject := params.subjects[si];
      var p := ScheduleSubject(params, classSlots, batch, subject, occ);
      ScheduleSubjectBounds(params, classSlots, batch, subject, occ);
      ScheduleFromBounds(params, classSlots, bi, si + 1, p.occ);
      BelowTransitive(occ, p.occ, ScheduleFrom(params, classSlots, bi, si + 1, p.occ).occ);
      assert batch in params.batches && subject in params.subjects;
    }
  }

  /** Unfolding step for the loop proofs: one subject of the current batch, then the rest of the scan. */
  lemma ScheduleFromStep(params: GenerateParams, classSlots: seq<Timeslot>, bi: nat, si: nat, occ: Occupancy)
    requires bi < |params.batches| && si < |params.subjects|
    ensures var p := ScheduleSubject(params, classSlots, params.batches[bi], params.subjects[si], occ);
      ScheduleFrom(params, classSlots, bi, si, occ) == Prefixed(p.entries, ScheduleFrom(params, classSlots, bi, si + 1, p.occ))
  {
  }

  /** The whole of `generateOptimizedTimetable`: the entries, or the Error of line 277 when there are none. */
  function GreedyTimetable(params: GenerateParams): (r: Result<seq<TimetableEntry>>)
    ensures r.Success? ==> |r.value| > 0
    ensures r.Success? ==> forall e | e in r.value :: EntryFits(params, ClassTimeslots(params.timeslots), e)
    ensures r.Failure? ==> r.error == NoEntriesMessage
    ensures var p := ScheduleFrom(params, ClassTimeslots(params.timeslots), 0, 0, Seeded(params.teachers, params.rooms, params.batches));
      && (r.Failure? <==> p.entries == [])
      && (r.Success? ==> r.value == p.entries)
  {
    var classSlots := ClassTimeslots(params.timeslots);
    var occ := Seeded(params.teachers, params.rooms, params.batches);
    ScheduleFromBounds(params, classSlots, 0, 0, occ);
    var p := ScheduleFrom(params, classSlots, 0, 0, occ);
    if |p.entries| == 0 then Failure(NoEntriesMessage) else Success(p.entries)
  }
}
