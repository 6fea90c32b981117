/**
 * `generateOptimizedTimetable` (src/utils/timetableGenerator.ts:58-281) as
 * the program runs it: one `SlotTracker` updated in place and the entries
 * pushed in order, batch by batch and subject by subject. Each method is
 * proved to reach the occupancy and the entries that the functions of
 * module `Schedule` describe, so everything proved there holds of its result.
 */
module Generator {
  import opened Wrappers
  import opened TimetableTypes
  import opened Timeslots
  import opened Tracking
  import opened Schedule
  import opened ScheduleProofs

  /**
   * The room loops of lines 190-201 and 239-245: the first room, by
   * position, in which every timeslot of `timeslotIds` is free for the
   * teacher and the batch.
   */
  method SelectRoom(tracker: SlotTracker, teacherId: string, batchId: string, rooms: seq<Room>, timeslotIds: seq<string>)
    returns (r: Option<nat>)
    ensures r == FirstFreeRoom(tracker.View(), teacherId, batchId, rooms, timeslotIds)
  {
    var k := 0;
    while k < |rooms|
      invariant 0 <= k <= |rooms|
      invariant forall j | 0 <= j < k :: !FreeForAll(tracker.View(), teacherId, batchId, rooms[j].id, timeslotIds)
    {
      if tracker.IsFreeForAll(teacherId, batchId, rooms[k].id, timeslotIds) {
        return Some(k);
      }
      k := k + 1;
    }
    return None;
  }

  /**
   * One pass of the lab loop body (lines 178-222) at position `i`: when the
   * two class timeslots at `i` are consecutive and some room is free for
   * both, push both entries and occupy both timeslots.
   */
  method TryLabBlockAt(
    tracker: SlotTracker, classSlots: seq<Timeslot>, teacherId: string, batchId: string, subjectId: string,
    rooms: seq<Room>, blocksNeeded: int, i: nat, blocks: int)
    returns (added: seq<TimetableEntry>, booked: bool)
    requires i < |classSlots| && blocks < blocksNeeded
    modifies tracker
    ensures booked ==> i + 2 <= |classSlots|
    ensures booked ==>
      LabBlocks(classSlots, teacherId, batchId, subjectId, rooms, blocksNeeded, i, blocks, old(tracker.View()))
      == Prefixed(added, LabBlocks(classSlots, teacherId, batchId, subjectId, rooms, blocksNeeded, i + 2, blocks + 1, tracker.View()))
    ensures !booked ==>
      LabBlocks(classSlots, teacherId, batchId, subjectId, rooms, blocksNeeded, i, blocks, old(tracker.View()))
      == Prefixed(added, LabBlocks(classSlots, teacherId, batchId, subjectId, rooms, blocksNeeded, i + 1, blocks, tracker.View()))
  {
    ghost var occ := tracker.View();
    added, booked := [], false;
    var consecutiveSlots := FindConsecutiveSlots(classSlots, i, 2);
    if consecutiveSlots.Some? {
      var slots := consecutiveSlots.value;
      assert slots[0] == classSlots[i] && slots[1] == classSlots[i + 1];
      var selected := SelectRoom(tracker, teacherId, batchId, rooms, [slots[0].id, slots[1].id]);
      if selected.Some? {
        LabBlocksBooked(classSlots, teacherId, batchId, subjectId, rooms, blocksNeeded, i, blocks, occ, selected.value);
        var roomId := rooms[selected.value].id;
        var block := [TimetableEntry(batchId, subjectId, teacherId, roomId, slots[0].id),
                      TimetableEntry(batchId, subjectId, teacherId, roomId, slots[1].id)];
        // Both timeslots of the block, in order.
        for k := 0 to 2
          invariant added == block[..k]
          invariant tracker.View() == if k == 0 then occ
                                      else if k == 1 then occ.Occupy(teacherId, batchId, roomId, slots[0].id)
                                      else occ.Occupy(teacherId, batchId, roomId, slots[0].id).Occupy(teacherId, batchId, roomId, slots[1].id)
        {
          added := added + [block[k]];
          tracker.OccupySlot(teacherId, batchId, roomId, slots[k].id);
        }
        assert block[..2] == block;
        booked := true;
        return;
      }
    }
    LabBlocksPassed(classSlots, teacherId, batchId, subjectId, rooms, blocksNeeded, i, blocks, occ);
    assert [] + LabBlocks(classSlots, teacherId, batchId, subjectId, rooms, blocksNeeded, i + 1, blocks, occ).entries
        == LabBlocks(classSlots, teacherId, batchId, subjectId, rooms, blocksNeeded, i + 1, blocks, occ).entries;
  }

  /** The lab loop of lines 177-226: book up to `blocksNeeded` two-slot blocks. */
  method ScheduleLabBlocks(
    tracker: SlotTracker, classSlots: seq<Timeslot>, teacherId: string, batchId: string, subjectId: string,
    rooms: seq<Room>, blocksNeeded: int)
    returns (entries: seq<TimetableEntry>)
    modifies tracker
    ensures Progress(tracker.View(), entries)
         == LabBlocks(classSlots, teacherId, batchId, subjectId, rooms, blocksNeeded, 0, 0, old(tracker.View()))
  {
    ghost var total := LabBlocks(classSlots, teacherId, batchId, subjectId, rooms, blocksNeeded, 0, 0, tracker.View());
    entries := [];
    var blocks := 0;
    var i := 0;
    while i < |classSlots| && blocks < blocksNeeded
      invariant 0 <= i <= |classSlots|
      invariant total == Prefixed(entries, LabBlocks(classSlots, teacherId, batchId, subjectId, rooms, blocksNeeded, i, blocks, tracker.View()))
      decreases |classSlots| - i
    {
      ghost var before := entries;
      var added, booked := TryLabBlockAt(tracker, classSlots, teacherId, batchId, subjectId, rooms, blocksNeeded, i, blocks);
      entries := entries + added;
      if booked {
        blocks := blocks + 1;
        // The next timeslot is the second of the block: skip it.
        i := i + 1;
      }
      i := i + 1;
      PrefixedTwice(before, added, LabBlocks(classSlots, teacherId, batchId, subjectId, rooms, blocksNeeded, i, blocks, tracker.View()));
    }
    assert entries + [] == entries;
  }

  /** The lecture loop of lines 235-262: book single timeslots until `hours` are placed. */
  method ScheduleLectureSlots(
    tracker: SlotTracker, classSlots: seq<Timeslot>, teacherId: string, batchId: string, subjectId: string,
    rooms: seq<Room>, hours: int)
    returns (entries: seq<TimetableEntry>)
    modifies tracker
    ensures Progress(tracker.View(), entries)
         == LectureSlots(classSlots, teacherId, batchId, subjectId, rooms, hours, 0, 0, old(tracker.View()))
  {
    ghost var total := LectureSlots(classSlots, teacherId, batchId, subjectId, rooms, hours, 0, 0, tracker.View());
    entries := [];
    var scheduled := 0;
    var i := 0;
    while i < |classSlots|
      invariant 0 <= i <= |classSlots|
      invariant total == Prefixed(entries, LectureSlots(classSlots, teacherId, batchId, subjectId, rooms, hours, i, scheduled, tracker.View()))
    {
      if scheduled >= hours {
        break;
      }
      var timeslot := classSlots[i];
      var selected := SelectRoom(tracker, teacherId, batchId, rooms, [timeslot.id]);
      if selected.Some? {
        LectureSlotsBooked(classSlots, teacherId, batchId, subjectId, rooms, hours, i, scheduled, tracker.View(), selected.value);
        var roomId := rooms[selected.value].id;
        var entry := TimetableEntry(batchId, subjectId, teacherId, roomId, timeslot.id);
        PrefixedTwice(entries, [entry], LectureSlots(classSlots, teacherId, batchId, subjectId, rooms, hours, i + 1, scheduled + 1,
                                                     tracker.View().Occupy(teacherId, batchId, roomId, timeslot.id)));
        entries := entries + [entry];
        tracker.OccupySlot(teacherId, batchId, roomId, timeslot.id);
        scheduled := scheduled + 1;
      }
      i := i + 1;
    }
    assert entries + [] == entries;
  }

  /** One (batch, subject) iteration of lines 140-272. */
  method ScheduleSubjectHours(tracker: SlotTracker, params: GenerateParams, classSlots: seq<Timeslot>, batch: Batch, subject: Subject)
    returns (entries: seq<TimetableEntry>)
    modifies tracker
    ensures Progress(tracker.View(), entries) == ScheduleSubject(params, classSlots, batch, subject, old(tracker.View()))
  {
    var teacher := FirstTeacher(params.assignments, subject.id);
    if teacher.None? {
      return [];
    }
    var teacherId := teacher.value;
    var rooms := EligibleRooms(params.rooms, subject);
    if |rooms| == 0 {
      return [];
    }
    if IsLabSubject(subject) {
      entries := ScheduleLabBlocks(tracker, classSlots, teacherId, batch.id, subject.id, rooms, CeilHalf(subject.hoursPerWeek));
    } else {
      entries := ScheduleLectureSlots(tracker, classSlots, teacherId, batch.id, subject.id, rooms, subject.hoursPerWeek);
    }
  }

  /** The subject loop of lines 140-273 for the batch at position `bi`. */
  method ScheduleBatch(tracker: SlotTracker, params: GenerateParams, classSlots: seq<Timeslot>, bi: nat)
    returns (entries: seq<TimetableEntry>)
    requires bi < |params.batches|
    modifies tracker
    ensures ScheduleFrom(params, classSlots, bi, 0, old(tracker.View()))
         == Prefixed(entries, ScheduleFrom(params, classSlots, bi + 1, 0, tracker.View()))
  {
    ghost var total := ScheduleFrom(params, classSlots, bi, 0, tracker.View());
    var batch := params.batches[bi];
    entries := [];
    var si := 0;
    while si < |params.subjects|
      invariant 0 <= si <= |params.subjects|
      invariant total == Prefixed(entries, ScheduleFrom(params, classSlots, bi, si, tracker.View()))
    {
      ScheduleFromStep(params, classSlots, bi, si, tracker.View());
      var added := ScheduleSubjectHours(tracker, params, classSlots, batch, params.subjects[si]);
      PrefixedTwice(entries, added, ScheduleFrom(params, classSlots, bi, si + 1, tracker.View()));
      entries := entries + added;
      si := si + 1;
    }
  }

  /** The batch loop of lines 139-274: every batch in turn, all subjects for each. */
  method ScheduleAllBatches(tracker: SlotTracker, params: GenerateParams, classSlots: seq<Timeslot>) returns (entries: seq<TimetableEntry>)
    modifies tracker
    ensures Progress(tracker.View(), entries) == ScheduleFrom(params, classSlots, 0, 0, old(tracker.View()))
  {
    ghost var total := ScheduleFrom(params, classSlots, 0, 0, tracker.View());
    entries := [];
    var bi := 0;
    while bi < |params.batches|
      invariant 0 <= bi <= |params.batches|
      invariant total == Prefixed(entries, ScheduleFrom(params, classSlots, bi, 0, tracker.View()))
    {
      var added := ScheduleBatch(tracker, params, classSlots, bi);
      PrefixedTwice(entries, added, ScheduleFrom(params, classSlots, bi + 1, 0, tracker.View()));
      entries := entries + added;
      bi := bi + 1;
    }
    assert entries + [] == entries;
  }

  /**
   * The generator: the entries of the greedy scan, or the Error of line 277
   * when there are none. Every entry fits the inputs, and with distinct
   * timeslot ids no room or batch is booked twice for one timeslot.
   */
  method GenerateOptimizedTimetable(params: GenerateParams) returns (r: Result<seq<TimetableEntry>>)
    ensures r == GreedyTimetable(params)
    ensures r.Success? ==> |r.value| > 0 && forall e | e in r.value :: EntryFits(params, ClassTimeslots(params.timeslots), e)
    ensures r.Failure? ==> r.error == NoEntriesMessage
    ensures DistinctIds(params.timeslots) && r.Success? ==>
      NoDoubleBookingAmong(r.value, TeacherIds(params.teachers), RoomIds(params.rooms), BatchIds(params.batches))
  {
    var classSlots := ClassTimeslots(params.timeslots);
    var tracker := new SlotTracker(params.teachers, params.rooms, params.batches);
    var timetableEntries := ScheduleAllBatches(tracker, params, classSlots);
    if DistinctIds(params.timeslots) {
      TimetableNoDoubleBooking(params);
    }
    if |timetableEntries| == 0 {
      return Failure(NoEntriesMessage);
    }
    return Success(timetableEntries);
  }
}
