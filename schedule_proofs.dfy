/**
 * What the greedy scan guarantees about its output: no teacher, room or
 * batch is booked twice for one timeslot, lab entries come in consecutive
 * pairs, hour bounds, teacher and room choice, break exclusion and the
 * failure condition.
 */
module ScheduleProofs {
  import opened Wrappers
  import opened Sequences
  import opened TimetableTypes
  import opened Timeslots
  import opened Tracking
  import opened Schedule

  /** The tracker records `e`'s timeslot for each of `e`'s ids that it tracks. */
  ghost predicate Covers(occ: Occupancy, e: TimetableEntry) {
    && (e.teacherId in occ.teacherSlots ==> e.timeslotId in occ.teacherSlots[e.teacherId])
    && (e.batchId in occ.batchSlots ==> e.timeslotId in occ.batchSlots[e.batchId])
    && (e.roomId in occ.roomSlots ==> e.timeslotId in occ.roomSlots[e.roomId])
  }

  /**
   * Two entries for one timeslot never share a teacher, room or batch id
   * drawn from the given sets of tracked ids.
   */
  ghost predicate NoDoubleBookingAmong(es: seq<TimetableEntry>, teacherIds: set<string>, roomIds: set<string>, batchIds: set<string>) {
    forall i, j | 0 <= i < j < |es| && es[i].timeslotId == es[j].timeslotId ::
      && (es[i].teacherId in teacherIds ==> es[i].teacherId != es[j].teacherId)
      && (es[i].roomId in roomIds ==> es[i].roomId != es[j].roomId)
      && (es[i].batchId in batchIds ==> es[i].batchId != es[j].batchId)
  }

  /** Two entries for one timeslot never share a teacher, a room or a batch. */
  ghost predicate NoDoubleBooking(es: seq<TimetableEntry>) {
    forall i, j | 0 <= i < j < |es| && es[i].timeslotId == es[j].timeslotId ::
      es[i].teacherId != es[j].teacherId && es[i].roomId != es[j].roomId && es[i].batchId != es[j].batchId
  }

  /** The invariant of the scan: the tracker covers every entry pushed so far, and none is double-booked. */
  ghost predicate Safe(occ: Occupancy, es: seq<TimetableEntry>) {
    && (forall e | e in es :: Covers(occ, e))
    && NoDoubleBookingAmong(es, occ.teacherSlots.Keys, occ.roomSlots.Keys, occ.batchSlots.Keys)
  }

  /** Regrouping the concatenation inside `Safe`, so that the recursive proofs below stay small. */
  lemma SafeRegroup(occ: Occupancy, a: seq<TimetableEntry>, b: seq<TimetableEntry>, c: seq<TimetableEntry>)
    requires Safe(occ, a + b + c)
    ensures Safe(occ, a + (b + c))
  {
    assert a + b + c == a + (b + c);
  }

  /** Pushing an entry that `isSlotAvailable` accepted, then occupying it, keeps the invariant. */
  lemma AddEntryIsSafe(occ: Occupancy, es: seq<TimetableEntry>, e: TimetableEntry)
    requires Safe(occ, es)
    requires occ.IsSlotAvailable(e.teacherId, e.batchId, e.roomId, e.timeslotId)
    ensures Safe(occ.Occupy(e.teacherId, e.batchId, e.roomId, e.timeslotId), es + [e])
  {
    var next := occ.Occupy(e.teacherId, e.batchId, e.roomId, e.timeslotId);
    var es' := es + [e];
    forall x | x in es' ensures Covers(next, x) {
      if x != e {
        assert x in es && Covers(occ, x);
      }
    }
    forall i, j | 0 <= i < j < |es'| && es'[i].timeslotId == es'[j].timeslotId
      ensures && (es'[i].teacherId in next.teacherSlots.Keys ==> es'[i].teacherId != es'[j].teacherId)
              && (es'[i].roomId in next.roomSlots.Keys ==> es'[i].roomId != es'[j].roomId)
              && (es'[i].batchId in next.batchSlots.Keys ==> es'[i].batchId != es'[j].batchId)
    {
      assert es'[i] == es[i] && es[i] in es;
      if j < |es| {
        assert es'[j] == es[j];
      } else {
        assert es'[j] == e && Covers(occ, es[i]);
      }
    }
  }

  lemma {:induction false} LabBlocksSafe(
    classSlots: seq<Timeslot>, teacherId: string, batchId: string, subjectId: string, rooms: seq<Room>,
    blocksNeeded: int, i: nat, blocks: int, occ: Occupancy, prior: seq<TimetableEntry>)
    requires DistinctIds(classSlots)
    requires Safe(occ, prior)
    ensures var r := LabBlocks(classSlots, teacherId, batchId, subjectId, rooms, blocksNeeded, i, blocks, occ);
      Safe(r.occ, prior + r.entries)
    decreases |classSlots| - i
  {
    if i >= |classSlots| || blocks >= blocksNeeded {
      assert prior + [] == prior;
    } else if i + 2 <= |classSlots| && IsConsecutiveRun(classSlots[i..i + 2]) {
      var ids := [classSlots[i].id, classSlots[i + 1].id];
      match FirstFreeRoom(occ, teacherId, batchId, rooms, ids)
      case None =>
        LabBlocksSafe(classSlots, teacherId, batchId, subjectId, rooms, blocksNeeded, i + 1, blocks, occ, prior);
      case Some(k) =>
        var roomId := rooms[k].id;
        var first := TimetableEntry(batchId, subjectId, teacherId, roomId, classSlots[i].id);
        var second := TimetableEntry(batchId, subjectId, teacherId, roomId, classSlots[i + 1].id);
        var mid := occ.Occupy(teacherId, batchId, roomId, classSlots[i].id);
        var next := mid.Occupy(teacherId, batchId, roomId, classSlots[i + 1].id);
        assert occ.IsSlotAvailable(teacherId, batchId, roomId, ids[0]);
        assert occ.IsSlotAvailable(teacherId, batchId, roomId, ids[1]);
        AddEntryIsSafe(occ, prior, first);
        assert SlotId(classSlots[i]) != SlotId(classSlots[i + 1]);
        AddEntryIsSafe(mid, prior + [first], second);
        assert prior + [first] + [second] == prior + [first, second];
        LabBlocksSafe(classSlots, teacherId, batchId, subjectId, rooms, blocksNeeded, i + 2, blocks + 1, next,
                      prior + [first, second]);
        var rest := LabBlocks(classSlots, teacherId, batchId, subjectId, rooms, blocksNeeded, i + 2, blocks + 1, next);
        SafeRegroup(rest.occ, prior, [first, second], rest.entries);
    } else {
      LabBlocksSafe(classSlots, teacherId, batchId, subjectId, rooms, blocksNeeded, i + 1, blocks, occ, prior);
    }
  }

  lemma {:induction false} LectureSlotsSafe(
    classSlots: seq<Timeslot>, teacherId: string, batchId: string, subjectId: string, rooms: seq<Room>,
    hours: int, i: nat, scheduled: int, occ: Occupancy, prior: seq<TimetableEntry>)
    requires Safe(occ, prior)
    ensures var r := LectureSlots(classSlots, teacherId, batchId, subjectId, rooms, hours, i, scheduled, occ);
      Safe(r.occ, prior + r.entries)
    decreases |classSlots| - i
  {
    if i >= |classSlots| || scheduled >= hours {
      assert prior + [] == prior;
    } else {
      var ids := [classSlots[i].id];
      match FirstFreeRoom(occ, teacherId, batchId, rooms, ids)
      case None =>
        LectureSlotsSafe(classSlots, teacherId, batchId, subjectId, rooms, hours, i + 1, scheduled, occ, prior);
      case Some(k) =>
        var roomId := rooms[k].id;
        var entry := TimetableEntry(batchId, subjectId, teacherId, roomId, classSlots[i].id);
        var next := occ.Occupy(teacherId, batchId, roomId, classSlots[i].id);
        assert occ.IsSlotAvailable(teacherId, batchId, roomId, ids[0]);
        AddEntryIsSafe(occ, prior, entry);
        LectureSlotsSafe(classSlots, teacherId, batchId, subjectId, rooms, hours, i + 1, scheduled + 1, next, prior + [entry]);
        var rest := LectureSlots(classSlots, teacherId, batchId, subjectId, rooms, hours, i + 1, scheduled + 1, next);
        SafeRegroup(rest.occ, prior, [entry], rest.entries);
    }
  }

  lemma ScheduleSubjectSafe(
    params: GenerateParams, classSlots: seq<Timeslot>, batch: Batch, subject: Subject, occ: Occupancy, prior: seq<TimetableEntry>)
    requires DistinctIds(classSlots)
    requires Safe(occ, prior)
    ensures var r := ScheduleSubject(params, classSlots, batch, subject, occ);
      Safe(r.occ, prior + r.entries)
  {
    match FirstTeacher(params.assignments, subject.id)
    case None =>
      assert prior + [] == prior;
    case Some(teacherId) =>
      var rooms := EligibleRooms(params.rooms, subject);
      if |rooms| == 0 {
        assert prior + [] == prior;
      } else if IsLabSubject(subject) {
        LabBlocksSafe(classSlots, teacherId, batch.id, subject.id, rooms, CeilHalf(subject.hoursPerWeek), 0, 0, occ, prior);
      } else {
        LectureSlotsSafe(classSlots, teacherId, batch.id, subject.id, rooms, subject.hoursPerWeek, 0, 0, occ, prior);
      }
  }

  lemma {:induction false} ScheduleSafe(
    params: GenerateParams, classSlots: seq<Timeslot>, bi: nat, si: nat, occ: Occupancy, prior: seq<TimetableEntry>)
    requires DistinctIds(classSlots)
    requires Safe(occ, prior)
    ensures var r := ScheduleFrom(params, classSlots, bi, si, occ);
      Safe(r.occ, prior + r.entries)
    decreases |params.batches| - bi, |params.subjects| - si
  {
    if bi >= |params.batches| {
      assert prior + [] == prior;
    } else if si >= |params.subjects| {
      ScheduleSafe(params, classSlots, bi + 1, 0, occ, prior);
    } else {
      var p := ScheduleSubject(params, classSlots, params.batches[bi], params.subjects[si], occ);
      ScheduleSubjectSafe(params, classSlots, params.batches[bi], params.subjects[si], occ, prior);
      ScheduleSafe(params, classSlots, bi, si + 1, p.occ, prior + p.entries);
      var rest := ScheduleFrom(params, classSlots, bi, si + 1, p.occ);
      SafeRegroup(rest.occ, prior, p.entries, rest.entries);
    }
  }
  /** The room and the batch of an entry that fits come from the `rooms` and `batches` inputs. */
  lemma FitsKnownRoomAndBatch(params: GenerateParams, classSlots: seq<Timeslot>, e: TimetableEntry)
    requires EntryFits(params, classSlots, e)
    ensures e.roomId in RoomIds(params.rooms) && e.batchId in BatchIds(params.batches)
  {
  }

  /** The whole scan from the seeded tracker keeps the tracked ids free of double booking. */
  lemma ScanNoDoubleBooking(params: GenerateParams, classSlots: seq<Timeslot>)
    requires DistinctIds(classSlots)
    ensures var es := ScheduleFrom(params, classSlots, 0, 0, Seeded(params.teachers, params.rooms, params.batches)).entries;
      NoDoubleBookingAmong(es, TeacherIds(params.teachers), RoomIds(params.rooms), BatchIds(params.batches))
  {
    var occ0 := Seeded(params.teachers, params.rooms, params.batches);
    ScheduleSafe(params, classSlots, 0, 0, occ0, []);
    ScheduleFromBounds(params, classSlots, 0, 0, occ0);
    var p := ScheduleFrom(params, classSlots, 0, 0, occ0);
    assert [] + p.entries == p.entries;
  }

  /**
   * With distinct timeslot ids, two entries of the generated timetable for
   * one timeslot never share a room or a batch, and never share a teacher
   * that is listed in `teachers` (an unlisted teacher id is not tracked).
   */
  lemma TimetableNoDoubleBooking(params: GenerateParams)
    requires DistinctIds(params.timeslots)
    ensures var r := GreedyTimetable(params);
      r.Success? ==> NoDoubleBookingAmong(r.value, TeacherIds(params.teachers), RoomIds(params.rooms), BatchIds(params.batches))
    ensures var r := GreedyTimetable(params);
      r.Success? ==> forall i, j | 0 <= i < j < |r.value| && r.value[i].timeslotId == r.value[j].timeslotId ::
        r.value[i].roomId != r.value[j].roomId && r.value[i].batchId != r.value[j].batchId
  {
    var classSlots := ClassTimeslots(params.timeslots);
    ClassTimeslotsDistinct(params.timeslots);
    ScanNoDoubleBooking(params, classSlots);
    var r := GreedyTimetable(params);
    if r.Success? {
      var es := r.value;
      forall i, j | 0 <= i < j < |es| && es[i].timeslotId == es[j].timeslotId
        ensures es[i].roomId != es[j].roomId && es[i].batchId != es[j].batchId
      {
        assert es[i] in es;
        FitsKnownRoomAndBatch(params, classSlots, es[i]);
      }
    }
  }

  /** When every assigned teacher is listed in `teachers`, the timetable has no double booking at all. */
  lemma TimetableNoDoubleBookingForKnownTeachers(params: GenerateParams)
    requires DistinctIds(params.timeslots)
    requires forall a | a in params.assignments :: a.teacherId in TeacherIds(params.teachers)
    ensures var r := GreedyTimetable(params);
      r.Success? ==> NoDoubleBooking(r.value)
  {
    TimetableNoDoubleBooking(params);
    var r := GreedyTimetable(params);
    if r.Success? {
      var es := r.value;
      forall i | 0 <= i < |es| ensures es[i].teacherId in TeacherIds(params.teachers) {
        assert es[i] in es;
      }
    }
  }

  /** The two entries of one lab block: same batch, subject, teacher and room, on a consecutive run of class timeslots. */
  ghost predicate IsLabBlock(classSlots: seq<Timeslot>, first: TimetableEntry, second: TimetableEntry) {
    && first.batchId == second.batchId && first.subjectId == second.subjectId
    && first.teacherId == second.teacherId && first.roomId == second.roomId
    && exists j: nat | j + 2 <= |classSlots| ::
      && IsConsecutiveRun(classSlots[j..j + 2])
      && first.timeslotId == classSlots[j].id && second.timeslotId == classSlots[j + 1].id
  }

  /** The entries split into lab blocks, two by two. */
  ghost predicate LabPairs(classSlots: seq<Timeslot>, es: seq<TimetableEntry>) {
    |es| == 0 || (|es| >= 2 && IsLabBlock(classSlots, es[0], es[1]) && LabPairs(classSlots, es[2..]))
  }

  lemma {:induction false} LabPairsEven(classSlots: seq<Timeslot>, es: seq<TimetableEntry>)
    requires LabPairs(classSlots, es)
    ensures |es| % 2 == 0
  {
    if |es| > 0 {
      LabPairsEven(classSlots, es[2..]);
    }
  }

  /** A lab scan pushes whole blocks only: pairs of entries on consecutive class timeslots sharing teacher and room. */
  lemma {:induction false} LabBlocksArePairs(
    classSlots: seq<Timeslot>, teacherId: string, batchId: string, subjectId: string, rooms: seq<Room>,
    blocksNeeded: int, i: nat, blocks: int, occ: Occupancy)
    ensures LabPairs(classSlots, LabBlocks(classSlots, teacherId, batchId, subjectId, rooms, blocksNeeded, i, blocks, occ).entries)
    decreases |classSlots| - i
  {
    if i >= |classSlots| || blocks >= blocksNeeded {
    } else if i + 2 <= |classSlots| && IsConsecutiveRun(classSlots[i..i + 2]) {
      match FirstFreeRoom(occ, teacherId, batchId, rooms, [classSlots[i].id, classSlots[i + 1].id])
      case None =>
        LabBlocksArePairs(classSlots, teacherId, batchId, subjectId, rooms, blocksNeeded, i + 1, blocks, occ);
      case Some(k) =>
        var roomId := rooms[k].id;
        var next := occ.Occupy(teacherId, batchId, roomId, classSlots[i].id)
                       .Occupy(teacherId, batchId, roomId, classSlots[i + 1].id);
        LabBlocksArePairs(classSlots, teacherId, batchId, subjectId, rooms, blocksNeeded, i + 2, blocks + 1, next);
        var es := LabBlocks(classSlots, teacherId, batchId, subjectId, rooms, blocksNeeded, i, blocks, occ).entries;
        var rest := LabBlocks(classSlots, teacherId, batchId, subjectId, rooms, blocksNeeded, i + 2, blocks + 1, next).entries;
        assert es[2..] == rest;
        assert IsLabBlock(classSlots, es[0], es[1]);
    } else {
      LabBlocksArePairs(classSlots, teacherId, batchId, subjectId, rooms, blocksNeeded, i + 1, blocks, occ);
    }
  }

  /**
   * A Lab subject gets its entries in lab blocks, so an even number of them,
   * at most two per block of `ceil(hours / 2)`.
   */
  lemma LabSubjectHours(params: GenerateParams, classSlots: seq<Timeslot>, batch: Batch, subject: Subject, occ: Occupancy)
    requires IsLabSubject(subject)
    ensures var es := ScheduleSubject(params, classSlots, batch, subject, occ).entries;
      LabPairs(classSlots, es) && |es| % 2 == 0 && |es| <= 2 * Max0(CeilHalf(subject.hoursPerWeek))
  {
    var es := ScheduleSubject(params, classSlots, batch, subject, occ).entries;
    match FirstTeacher(params.assignments, subject.id)
    case None =>
    case Some(teacherId) =>
      var rooms := EligibleRooms(params.rooms, subject);
      if |rooms| > 0 {
        LabBlocksArePairs(classSlots, teacherId, batch.id, subject.id, rooms, CeilHalf(subject.hoursPerWeek), 0, 0, occ);
        LabBlocksBounds(classSlots, teacherId, batch.id, subject.id, rooms, CeilHalf(subject.hoursPerWeek), 0, 0, occ);
        LabPairsEven(classSlots, es);
      }
  }

  lemma SafeFromStart(occ: Occupancy, es: seq<TimetableEntry>)
    requires Safe(occ, [] + es)
    ensures Safe(occ, es)
  {
    assert [] + es == es;
  }

  /** Entries that are safe and all for one tracked batch are on pairwise different timeslots. */
  lemma OneBatchDistinctSlots(occ: Occupancy, es: seq<TimetableEntry>, batchId: string)
    requires Safe(occ, es) && batchId in occ.batchSlots
    requires forall e | e in es :: e.batchId == batchId
    ensures forall i, j | 0 <= i < j < |es| :: es[i].timeslotId != es[j].timeslotId
  {
  }

  /** A lecture scan for a tracked batch never books one timeslot twice. */
  lemma LectureSlotsDistinct(
    classSlots: seq<Timeslot>, teacherId: string, batchId: string, subjectId: string, rooms: seq<Room>,
    hours: int, occ: Occupancy)
    requires batchId in occ.batchSlots
    ensures var es := LectureSlots(classSlots, teacherId, batchId, subjectId, rooms, hours, 0, 0, occ).entries;
      forall i, j | 0 <= i < j < |es| :: es[i].timeslotId != es[j].timeslotId
  {
    var r := LectureSlots(classSlots, teacherId, batchId, subjectId, rooms, hours, 0, 0, occ);
    LectureSlotsSafe(classSlots, teacherId, batchId, subjectId, rooms, hours, 0, 0, occ, []);
    LectureSlotsBounds(classSlots, teacherId, batchId, subjectId, rooms, hours, 0, 0, occ);
    SafeFromStart(r.occ, r.entries);
    OneBatchDistinctSlots(r.occ, r.entries, batchId);
  }

  /**
   * Any other subject gets at most `hours` entries, on pairwise different
   * timeslots when its batch is tracked.
   */
  lemma LectureSubjectHours(params: GenerateParams, classSlots: seq<Timeslot>, batch: Batch, subject: Subject, occ: Occupancy)
    requires !IsLabSubject(subject)
    ensures var es := ScheduleSubject(params, classSlots, batch, subject, occ).entries;
      |es| <= Max0(subject.hoursPerWeek)
    ensures var es := ScheduleSubject(params, classSlots, batch, subject, occ).entries;
      batch.id in occ.batchSlots ==> forall i, j | 0 <= i < j < |es| :: es[i].timeslotId != es[j].timeslotId
  {
    match FirstTeacher(params.assignments, subject.id)
    case None =>
    case Some(teacherId) =>
      var rooms := EligibleRooms(params.rooms, subject);
      LectureSlotsBounds(classSlots, teacherId, batch.id, subject.id, rooms, subject.hoursPerWeek, 0, 0, occ);
      if |rooms| > 0 && batch.id in occ.batchSlots {
        assert ScheduleSubject(params, classSlots, batch, subject, occ)
            == LectureSlots(classSlots, teacherId, batch.id, subject.id, rooms, subject.hoursPerWeek, 0, 0, occ);
        LectureSlotsDistinct(classSlots, teacherId, batch.id, subject.id, rooms, subject.hoursPerWeek, occ);
      }
  }

  /** While at least one Lab room exists, every entry of a Lab subject is in a Lab room. */
  lemma LabSubjectsUseLabRooms(params: GenerateParams, classSlots: seq<Timeslot>, batch: Batch, subject: Subject, occ: Occupancy)
    requires IsLabSubject(subject) && exists m | m in params.rooms :: IsLabRoom(m)
    ensures forall e | e in ScheduleSubject(params, classSlots, batch, subject, occ).entries ::
      exists m | m in params.rooms :: IsLabRoom(m) && m.id == e.roomId
  {
    ScheduleSubjectBounds(params, classSlots, batch, subject, occ);
    forall e | e in ScheduleSubject(params, classSlots, batch, subject, occ).entries
      ensures exists m | m in params.rooms :: IsLabRoom(m) && m.id == e.roomId
    {
      var m :| m in EligibleRooms(params.rooms, subject) && m.id == e.roomId;
      assert m in params.rooms && IsLabRoom(m);
    }
  }

  /** Every entry uses the teacher of the first assignment for its subject, so a subject without one gets no entry. */
  lemma UnassignedSubjectIsSkipped(params: GenerateParams, subjectId: string)
    requires forall a | a in params.assignments :: a.subjectId != subjectId
    ensures var r := GreedyTimetable(params);
      r.Success? ==> forall e | e in r.value :: e.subjectId != subjectId
  {
  }

  /** With distinct timeslot ids, no entry names a timeslot flagged as a break. */
  lemma NoBreakIsBooked(params: GenerateParams)
    requires DistinctIds(params.timeslots)
    ensures var r := GreedyTimetable(params);
      r.Success? ==> forall e, t | e in r.value && t in params.timeslots && t.id == e.timeslotId :: !t.isBreak
  {
  }

  /**
   * The generator throws (the Error of line 277) unless there is an
   * assignment, a room, a batch, a subject and a non-break timeslot: every
   * entry needs one of each.
   */
  lemma SuccessNeedsInputs(params: GenerateParams)
    ensures GreedyTimetable(params).Success? ==>
      && |params.assignments| > 0 && |params.rooms| > 0 && |params.batches| > 0 && |params.subjects| > 0
      && exists t | t in params.timeslots :: !t.isBreak
  {
    var r := GreedyTimetable(params);
    var classSlots := ClassTimeslots(params.timeslots);
    if r.Success? {
      var e := r.value[0];
      assert e in r.value && EntryFits(params, classSlots, e);
      FitsKnownRoomAndBatch(params, classSlots, e);
      var c :| c in classSlots && c.id == e.timeslotId;
      assert c in params.timeslots && !c.isBreak;
    }
  }

  /** The two-slot window at position `j` is a consecutive run: `findConsecutiveSlots(j, 2)` finds it. */
  ghost predicate PairAt(classSlots: seq<Timeslot>, j: nat) {
    j + 2 <= |classSlots| && IsConsecutiveRun(classSlots[j..j + 2])
  }

  /** Some window of two class timeslots is a consecutive run. */
  ghost predicate HasConsecutivePair(classSlots: seq<Timeslot>) {
    exists j: nat :: PairAt(classSlots, j)
  }

  /**
   * What a subject needs to get an entry when nothing is occupied: a first
   * teacher, a room, at least one hour, and a class timeslot (a consecutive
   * pair of them for a Lab subject).
   */
  ghost predicate CanSchedule(params: GenerateParams, classSlots: seq<Timeslot>, subject: Subject) {
    && FirstTeacher(params.assignments, subject.id).Some?
    && |params.rooms| > 0
    && subject.hoursPerWeek >= 1
    && (if IsLabSubject(subject) then HasConsecutivePair(classSlots) else |classSlots| > 0)
  }

  /** Nothing is occupied: every timeslot is available for every teacher, batch and room. */
  ghost predicate AllFree(occ: Occupancy) {
    forall t, b, m, s :: occ.IsSlotAvailable(t, b, m, s)
  }

  /** With nothing occupied, the first room is free, so a room is found. */
  lemma AllFreeFindsRoom(occ: Occupancy, teacherId: string, batchId: string, rooms: seq<Room>, timeslotIds: seq<string>)
    requires AllFree(occ) && |rooms| > 0
    ensures FirstFreeRoom(occ, teacherId, batchId, rooms, timeslotIds) == Some(0)
  {
    assert FreeForAll(occ, teacherId, batchId, rooms[0].id, timeslotIds);
  }

  /** A lab scan that pushes nothing leaves the occupancy as it was. */
  lemma {:induction false} LabBlocksNothingKeepsOcc(
    classSlots: seq<Timeslot>, teacherId: string, batchId: string, subjectId: string, rooms: seq<Room>,
    blocksNeeded: int, i: nat, blocks: int, occ: Occupancy)
    ensures var r := LabBlocks(classSlots, teacherId, batchId, subjectId, rooms, blocksNeeded, i, blocks, occ);
      r.entries == [] ==> r.occ == occ
    decreases |classSlots| - i
  {
    if i >= |classSlots| || blocks >= blocksNeeded {
    } else if i + 2 <= |classSlots| && IsConsecutiveRun(classSlots[i..i + 2]) {
      match FirstFreeRoom(occ, teacherId, batchId, rooms, [classSlots[i].id, classSlots[i + 1].id])
      case None =>
        LabBlocksNothingKeepsOcc(classSlots, teacherId, batchId, subjectId, rooms, blocksNeeded, i + 1, blocks, occ);
      case Some(k) =>
    } else {
      LabBlocksNothingKeepsOcc(classSlots, teacherId, batchId, subjectId, rooms, blocksNeeded, i + 1, blocks, occ);
    }
  }

  /** A lecture scan that pushes nothing leaves the occupancy as it was. */
  lemma {:induction false} LectureSlotsNothingKeepsOcc(
    classSlots: seq<Timeslot>, teacherId: string, batchId: string, subjectId: string, rooms: seq<Room>,
    hours: int, i: nat, scheduled: int, occ: Occupancy)
    ensures var r := LectureSlots(classSlots, teacherId, batchId, subjectId, rooms, hours, i, scheduled, occ);
      r.entries == [] ==> r.occ == occ
    decreases |classSlots| - i
  {
    if i >= |classSlots| || scheduled >= hours {
    } else {
      match FirstFreeRoom(occ, teacherId, batchId, rooms, [classSlots[i].id])
      case None =>
        LectureSlotsNothingKeepsOcc(classSlots, teacherId, batchId, subjectId, rooms, hours, i + 1, scheduled, occ);
      case Some(k) =>
    }
  }

  /** A subject iteration that pushes nothing leaves the occupancy as it was. */
  lemma ScheduleSubjectNothingKeepsOcc(params: GenerateParams, classSlots: seq<Timeslot>, batch: Batch, subject: Subject, occ: Occupancy)
    ensures var p := ScheduleSubject(params, classSlots, batch, subject, occ);
      p.entries == [] ==> p.occ == occ
  {
    match FirstTeacher(params.assignments, subject.id)
    case None =>
    case Some(teacherId) =>
      var rooms := EligibleRooms(params.rooms, subject);
      if |rooms| == 0 {
      } else if IsLabSubject(subject) {
        LabBlocksNothingKeepsOcc(classSlots, teacherId, batch.id, subject.id, rooms, CeilHalf(subject.hoursPerWeek), 0, 0, occ);
      } else {
        LectureSlotsNothingKeepsOcc(classSlots, teacherId, batch.id, subject.id, rooms, subject.hoursPerWeek, 0, 0, occ);
      }
  }

  /** Without a consecutive pair from position `i` on, the lab scan pushes nothing. */
  lemma {:induction false} LabBlocksNeedPair(
    classSlots: seq<Timeslot>, teacherId: string, batchId: string, subjectId: string, rooms: seq<Room>,
    blocksNeeded: int, i: nat, blocks: int, occ: Occupancy)
    requires forall j: nat | i <= j :: !PairAt(classSlots, j)
    ensures LabBlocks(classSlots, teacherId, batchId, subjectId, rooms, blocksNeeded, i, blocks, occ).entries == []
    decreases |classSlots| - i
  {
    if i < |classSlots| && blocks < blocksNeeded {
      assert !PairAt(classSlots, i);
      LabBlocksNeedPair(classSlots, teacherId, batchId, subjectId, rooms, blocksNeeded, i + 1, blocks, occ);
    }
  }

  /** With nothing occupied, a room, a missing block and a consecutive pair from position `i` on, the lab scan books a block. */
  lemma {:induction false} LabBlocksBookOnFree(
    classSlots: seq<Timeslot>, teacherId: string, batchId: string, subjectId: string, rooms: seq<Room>,
    blocksNeeded: int, i: nat, blocks: int, occ: Occupancy)
    requires AllFree(occ) && |rooms| > 0 && blocks < blocksNeeded
    requires exists j: nat | i <= j :: PairAt(classSlots, j)
    ensures LabBlocks(classSlots, teacherId, batchId, subjectId, rooms, blocksNeeded, i, blocks, occ).entries != []
    decreases |classSlots| - i
  {
    if i + 2 <= |classSlots| && IsConsecutiveRun(classSlots[i..i + 2]) {
      AllFreeFindsRoom(occ, teacherId, batchId, rooms, [classSlots[i].id, classSlots[i + 1].id]);
    } else {
      LabBlocksBookOnFree(classSlots, teacherId, batchId, subjectId, rooms, blocksNeeded, i + 1, blocks, occ);
    }
  }

  /** A subject pushes an entry onto a tracker with nothing occupied exactly when `CanSchedule` holds. */
  lemma ScheduleSubjectProduces(params: GenerateParams, classSlots: seq<Timeslot>, batch: Batch, subject: Subject, occ: Occupancy)
    requires AllFree(occ)
    ensures ScheduleSubject(params, classSlots, batch, subject, occ).entries != [] <==> CanSchedule(params, classSlots, subject)
  {
    match FirstTeacher(params.assignments, subject.id)
    case None =>
    case Some(teacherId) =>
      var rooms := EligibleRooms(params.rooms, subject);
      if |rooms| == 0 {
      } else if IsLabSubject(subject) {
        var n := CeilHalf(subject.hoursPerWeek);
        if subject.hoursPerWeek >= 1 && HasConsecutivePair(classSlots) {
          LabBlocksBookOnFree(classSlots, teacherId, batch.id, subject.id, rooms, n, 0, 0, occ);
        } else if subject.hoursPerWeek >= 1 {
          LabBlocksNeedPair(classSlots, teacherId, batch.id, subject.id, rooms, n, 0, 0, occ);
        }
      } else if subject.hoursPerWeek >= 1 && |classSlots| > 0 {
        AllFreeFindsRoom(occ, teacherId, batch.id, rooms, [classSlots[0].id]);
      }
  }

  /** A subject that cannot be scheduled on an empty tracker pushes nothing on any tracker. */
  lemma ScheduleSubjectNothing(params: GenerateParams, classSlots: seq<Timeslot>, batch: Batch, subject: Subject, occ: Occupancy)
    requires !CanSchedule(params, classSlots, subject)
    ensures ScheduleSubject(params, classSlots, batch, subject, occ).entries == []
  {
    match FirstTeacher(params.assignments, subject.id)
    case None =>
    case Some(teacherId) =>
      var rooms := EligibleRooms(params.rooms, subject);
      if |rooms| > 0 && IsLabSubject(subject) && subject.hoursPerWeek >= 1 {
        LabBlocksNeedPair(classSlots, teacherId, batch.id, subject.id, rooms, CeilHalf(subject.hoursPerWeek), 0, 0, occ);
      }
  }

  /** From batch `bi` on, the scan pushes an entry when a subject at `si` or later can be scheduled and nothing is occupied. */
  lemma {:induction false} ScheduleFromProduces(params: GenerateParams, classSlots: seq<Timeslot>, bi: nat, si: nat, k: nat, occ: Occupancy)
    requires bi < |params.batches| && AllFree(occ)
    requires si <= k < |params.subjects| && CanSchedule(params, classSlots, params.subjects[k])
    ensures ScheduleFrom(params, classSlots, bi, si, occ).entries != []
    decreases |params.subjects| - si
  {
    var p := ScheduleSubject(params, classSlots, params.batches[bi], params.subjects[si], occ);
    ScheduleFromStep(params, classSlots, bi, si, occ);
    ScheduleSubjectProduces(params, classSlots, params.batches[bi], params.subjects[si], occ);
    if p.entries == [] {
      ScheduleSubjectNothingKeepsOcc(params, classSlots, params.batches[bi], params.subjects[si], occ);
      ScheduleFromProduces(params, classSlots, bi, si + 1, k, occ);
    }
  }

  /** When no subject can be scheduled, the scan pushes nothing, whatever the tracker holds. */
  lemma {:induction false} ScheduleFromNothing(params: GenerateParams, classSlots: seq<Timeslot>, bi: nat, si: nat, occ: Occupancy)
    requires forall s | s in params.subjects :: !CanSchedule(params, classSlots, s)
    ensures ScheduleFrom(params, classSlots, bi, si, occ).entries == []
    decreases |params.batches| - bi, |params.subjects| - si
  {
    if bi >= |params.batches| {
    } else if si >= |params.subjects| {
      ScheduleFromNothing(params, classSlots, bi + 1, 0, occ);
    } else {
      var p := ScheduleSubject(params, classSlots, params.batches[bi], params.subjects[si], occ);
      ScheduleSubjectNothing(params, classSlots, params.batches[bi], params.subjects[si], occ);
      ScheduleFromNothing(params, classSlots, bi, si + 1, p.occ);
    }
  }

  /**
   * The generator throws (the Error of line 277) exactly when there is no
   * batch or no subject that can be scheduled: the tracker starts empty, so
   * the first subject with a teacher, a room, an hour and a (consecutive)
   * class timeslot always gets an entry.
   */
  lemma GreedyTimetableSucceeds(params: GenerateParams)
    ensures GreedyTimetable(params).Success? <==>
      && |params.batches| > 0
      && exists s | s in params.subjects :: CanSchedule(params, ClassTimeslots(params.timeslots), s)
  {
    var classSlots := ClassTimeslots(params.timeslots);
    var occ := Seeded(params.teachers, params.rooms, params.batches);
    if |params.batches| > 0 && exists s | s in params.subjects :: CanSchedule(params, classSlots, s) {
      var s :| s in params.subjects && CanSchedule(params, classSlots, s);
      var k :| 0 <= k < |params.subjects| && params.subjects[k] == s;
      ScheduleFromProduces(params, classSlots, 0, 0, k, occ);
    } else if |params.batches| > 0 {
      ScheduleFromNothing(params, classSlots, 0, 0, occ);
    }
  }
}
