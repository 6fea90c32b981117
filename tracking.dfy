/**
 * The occupancy tracker of the generator (src/utils/timetableGenerator.ts:90-112):
 * for every teacher, room and batch id, the set of timeslot ids it already
 * holds. Only the ids of the `teachers`, `rooms` and `batches` inputs get an
 * entry; an id without one reads as always free and is never recorded
 * (the `?.` at lines 102-104 and 109-111).
 *
 * `Occupancy` is the value of the three maps; `SlotTracker` is the object the
 * generator updates in place.
 */
module Tracking {
  import opened TimetableTypes

  /** `slots[id]` with `timeslotId` added, when `id` has an entry; `slots` otherwise. */
  function AddSlot(slots: map<string, set<string>>, id: string, timeslotId: string): (r: map<string, set<string>>)
    ensures r.Keys == slots.Keys
    ensures forall k | k in slots :: r[k] == if k == id then slots[k] + {timeslotId} else slots[k]
  {
    if id in slots then slots[id := slots[id] + {timeslotId}] else slots
  }

  /** Every id starts with no occupied timeslot. */
  function EmptySlots(ids: set<string>): (r: map<string, set<string>>)
    ensures r.Keys == ids
    ensures forall k | k in r :: r[k] == {}
  {
    map k | k in ids :: {}
  }

  datatype Occupancy = Occupancy(
    teacherSlots: map<string, set<string>>,
    roomSlots: map<string, set<string>>,
    batchSlots: map<string, set<string>>)
  {
    /** `isSlotAvailable`: none of the three ids, where tracked, holds the timeslot yet. */
    predicate IsSlotAvailable(teacherId: string, batchId: string, roomId: string, timeslotId: string) {
      && !(teacherId in teacherSlots && timeslotId in teacherSlots[teacherId])
      && !(batchId in batchSlots && timeslotId in batchSlots[batchId])
      && !(roomId in roomSlots && timeslotId in roomSlots[roomId])
    }

    /** `occupySlot`: records the timeslot for each of the three ids that is tracked. */
    function Occupy(teacherId: string, batchId: string, roomId: string, timeslotId: string): (r: Occupancy)
      ensures SameKeys(r)
      ensures Below(r)
      ensures forall t, b, m ::
        (t == teacherId && t in teacherSlots) || (b == batchId && b in batchSlots) || (m == roomId && m in roomSlots)
        ==> !r.IsSlotAvailable(t, b, m, timeslotId)
      ensures forall t, b, m, s | s != timeslotId :: r.IsSlotAvailable(t, b, m, s) == IsSlotAvailable(t, b, m, s)
    {
      Occupancy(
        AddSlot(teacherSlots, teacherId, timeslotId),
        AddSlot(roomSlots, roomId, timeslotId),
        AddSlot(batchSlots, batchId, timeslotId))
    }

    /** Both track the same ids. */
    predicate SameKeys(other: Occupancy) {
      && teacherSlots.Keys == other.teacherSlots.Keys
      && roomSlots.Keys == other.roomSlots.Keys
      && batchSlots.Keys == other.batchSlots.Keys
    }

    /** `other` tracks the same ids and holds at least what this holds: occupancy only grows. */
    ghost predicate Below(other: Occupancy) {
      && SameKeys(other)
      && (forall k | k in teacherSlots :: teacherSlots[k] <= other.teacherSlots[k])
      && (forall k | k in roomSlots :: roomSlots[k] <= other.roomSlots[k])
      && (forall k | k in batchSlots :: batchSlots[k] <= other.batchSlots[k])
    }
  }

  /** The tracker right after lines 96-98: one empty set per input teacher, room and batch. */
  function Seeded(teachers: seq<Teacher>, rooms: seq<Room>, batches: seq<Batch>): (r: Occupancy)
    ensures r.teacherSlots.Keys == TeacherIds(teachers)
    ensures r.roomSlots.Keys == RoomIds(rooms)
    ensures r.batchSlots.Keys == BatchIds(batches)
    ensures forall t, b, m, s :: r.IsSlotAvailable(t, b, m, s)
  {
    Occupancy(EmptySlots(TeacherIds(teachers)), EmptySlots(RoomIds(rooms)), EmptySlots(BatchIds(batches)))
  }

  lemma BelowTransitive(a: Occupancy, b: Occupancy, c: Occupancy)
    requires a.Below(b) && b.Below(c)
    ensures a.Below(c)
  {
  }

  /** `occupySlot` touches only the three ids it is given: every other tracked id keeps its set of timeslots. */
  lemma OccupyLeavesOtherIds(occ: Occupancy, teacherId: string, batchId: string, roomId: string, timeslotId: string)
    ensures var r := occ.Occupy(teacherId, batchId, roomId, timeslotId);
      && (forall k | k in occ.teacherSlots && k != teacherId :: r.teacherSlots[k] == occ.teacherSlots[k])
      && (forall k | k in occ.roomSlots && k != roomId :: r.roomSlots[k] == occ.roomSlots[k])
      && (forall k | k in occ.batchSlots && k != batchId :: r.batchSlots[k] == occ.batchSlots[k])
  {
  }

  /** An id the tracker was not seeded with never blocks a timeslot, however much was occupied. */
  lemma UntrackedIdsAreFree(occ: Occupancy, teacherId: string, batchId: string, roomId: string, timeslotId: string)
    requires teacherId !in occ.teacherSlots && batchId !in occ.batchSlots && roomId !in occ.roomSlots
    ensures occ.IsSlotAvailable(teacherId, batchId, roomId, timeslotId)
    ensures occ.Occupy(teacherId, batchId, roomId, timeslotId) == occ
  {
  }

  /** The three maps of lines 91-93, updated in place by `OccupySlot`. */
  class SlotTracker {
    var teacherSlots: map<string, set<string>>
    var roomSlots: map<string, set<string>>
    var batchSlots: map<string, set<string>>

    function View(): Occupancy
      reads this
    {
      Occupancy(teacherSlots, roomSlots, batchSlots)
    }

    constructor (teachers: seq<Teacher>, rooms: seq<Room>, batches: seq<Batch>)
      ensures View() == Seeded(teachers, rooms, batches)
    {
      var tk: map<string, set<string>> := map[];
      for i := 0 to |teachers|
        invariant tk.Keys == set k | 0 <= k < i :: teachers[k].id
        invariant forall id | id in tk :: tk[id] == {}
      {
        tk := tk[teachers[i].id := {}];
      }
      var rk: map<string, set<string>> := map[];
      for i := 0 to |rooms|
        invariant rk.Keys == set k | 0 <= k < i :: rooms[k].id
        invariant forall id | id in rk :: rk[id] == {}
      {
        rk := rk[rooms[i].id := {}];
      }
      var bk: map<string, set<string>> := map[];
      for i := 0 to |batches|
        invariant bk.Keys == set k | 0 <= k < i :: batches[k].id
        invariant forall id | id in bk :: bk[id] == {}
      {
        bk := bk[batches[i].id := {}];
      }
      SeededKeys(teachers, rooms, batches);
      teacherSlots, roomSlots, batchSlots := tk, rk, bk;
    }

    /** `consecutiveSlots.every(slot => isSlotAvailable(...))`. */
    predicate IsFreeForAll(teacherId: string, batchId: string, roomId: string, timeslotIds: seq<string>)
      reads this
    {
      FreeForAll(View(), teacherId, batchId, roomId, timeslotIds)
    }

    method OccupySlot(teacherId: string, batchId: string, roomId: string, timeslotId: string)
      modifies this
      ensures View() == old(View()).Occupy(teacherId, batchId, roomId, timeslotId)
    {
      if teacherId in teacherSlots {
        teacherSlots := teacherSlots[teacherId := teacherSlots[teacherId] + {timeslotId}];
      }
      if batchId in batchSlots {
        batchSlots := batchSlots[batchId := batchSlots[batchId] + {timeslotId}];
      }
      if roomId in roomSlots {
        roomSlots := roomSlots[roomId := roomSlots[roomId] + {timeslotId}];
      }
    }
  }

  /** Every timeslot of `timeslotIds` is available for the teacher, the batch and the room. */
  predicate FreeForAll(occ: Occupancy, teacherId: string, batchId: string, roomId: string, timeslotIds: seq<string>) {
    forall k | 0 <= k < |timeslotIds| :: occ.IsSlotAvailable(teacherId, batchId, roomId, timeslotIds[k])
  }

  lemma SeededKeys(teachers: seq<Teacher>, rooms: seq<Room>, batches: seq<Batch>)
    ensures TeacherIds(teachers) == set k | 0 <= k < |teachers| :: teachers[k].id
    ensures RoomIds(rooms) == set k | 0 <= k < |rooms| :: rooms[k].id
    ensures BatchIds(batches) == set k | 0 <= k < |batches| :: batches[k].id
  {
  }
}
