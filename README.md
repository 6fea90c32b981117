# Greedy timetable generator — a verified Dafny model

This project models `generateOptimizedTimetable` from
`src/utils/timetableGenerator.ts`. It is the scheduler that turns teachers,
subjects, rooms, batches (student groups), timeslots and teacher–subject
assignments into a list of timetable entries
(batch, subject, teacher, room, timeslot).

The generator works in three stages:

1. It sorts the timeslots by weekday, then by start time, and drops the
   breaks.
2. It walks the batches and, for each batch, the subjects, in input order.
   For each subject it picks the teacher of the first matching assignment
   and the eligible rooms: every room for a non-Lab subject; for a Lab
   subject the Lab rooms, or every room when there is no Lab room.
3. A Lab subject gets up to `ceil(hours / 2)` blocks of two consecutive
   class timeslots. Any other subject gets single timeslots, up to its hours per
   week. Each booking goes to the first room that is free. It is guarded by
   an occupancy tracker of three maps, one for teachers, one for rooms and
   one for batches. Each map is keyed by id and holds the set of timeslot
   ids that id already has.

If no entry is produced at all, the generator throws. Since the tracker
starts empty, that happens exactly when there is no batch, or no subject
with an assigned teacher, a room, at least one hour and a class timeslot (a
consecutive pair of them for a Lab subject).

## Layout

- `wrappers.dfy` — `Option` and `Result`.
- `timetable_types.dfy` — the records of lines 4-56.
  - `Subject.type` and `Room.type` are named `kind`, because `type` is a
    Dafny keyword.
  - An absent `is_break` is `false`.
- `sequences.dfy` — a generic filter, `indexOf`, and a stable insertion sort
  by a comparator, with their permutation, order and distinct-key lemmas.
- `timeslots.dfy`:
  - the comparator (lines 79-83) and the sort and break filter (lines 78-86);
  - `findConsecutiveSlots` (lines 115-136), as a method with its two loops.
- `tracking.dfy`:
  - the occupancy tracker (lines 91-112), both as a value (`Occupancy`) and
    as the class `SlotTracker`, whose three map fields `OccupySlot` updates
    in place;
  - `View()`, which ties the class to the value.
- `schedule.dfy` — the scan as functions over `Occupancy`. They state what
  every part of the loop pushes and what occupancy it reaches:
  - `LabBlocks` for lines 177-226;
  - `LectureSlots` for lines 235-262;
  - `ScheduleSubject` for one subject, `ScheduleFrom` for the nested loops,
    and `GreedyTimetable` for the whole function.
- `schedule_proofs.dfy` — the properties of that scan: no double booking,
  lab pairs, hour bounds, teacher and room choice, break exclusion and the
  exact condition under which the generator throws.
- `generator.dfy` — the generator as the program runs it, with `while`/`for`
  loops over one `SlotTracker`. Each method is proved to produce the same
  entries and the same final occupancy as the matching function of
  `schedule.dfy`.
  - `GenerateOptimizedTimetable` ensures `r == GreedyTimetable(params)`, so
    every lemma about the functions holds of its result.

## Behaviour of note

- **Unknown weekdays.** A weekday name that is not in the weekday list gets
  index -1 from `indexOf`. It therefore sorts before Monday, not after
  Sunday. `UnknownDaySortsFirst` and `UnknownDaysLead` state this.
- **One pass.** Labs and lectures are scheduled subject by subject in one
  pass over the batches and their subjects. There are no per-teacher or
  per-day caps.
- **Hours.** A Lab subject is booked in whole two-slot blocks, at most
  `ceil(hours / 2)` of them. With an odd number of hours it can therefore get
  one hour more than asked for: it does when every block finds a consecutive
  pair and a free room. `LabSubjectHours` states the bound.

## Model

| member | source | states |
|---|---|---|
| Timeslots.DayIndex | src/utils/timetableGenerator.ts:78-80 | `dayOrder.indexOf(day)` is -1 exactly when the day is not one of the seven listed names, and otherwise the position of that name |
| Timeslots.CompareStrings | src/utils/timetableGenerator.ts:82 | `localeCompare` on start times as an ordinal comparison: the result is -1, 0 or 1; its antisymmetry, zero case and transitivity are the three rows below |
| Timeslots.CompareStringsAntisymmetric | src/utils/timetableGenerator.ts:82 | the start-time comparison gives the opposite sign when its arguments are swapped |
| Timeslots.CompareStringsZero | src/utils/timetableGenerator.ts:82 | the start-time comparison is zero exactly for equal strings |
| Timeslots.CompareStringsTransitive | src/utils/timetableGenerator.ts:82 | the start-time comparison is transitive |
| Timeslots.CompareSlots | src/utils/timetableGenerator.ts:79-83 | the comparator itself (weekday index difference, then start-time comparison); no contract of its own: its properties are stated by the `InOrder*` and `UnknownDaySortsFirst` rows |
| Timeslots.InOrder | src/utils/timetableGenerator.ts:79-83 | the comparator read as "sorts no later than"; no contract of its own: its properties are stated by the `InOrderTotal`, `InOrderTransitive` and `InOrderIsTotalPreorder` rows |
| Timeslots.InOrderTotal | src/utils/timetableGenerator.ts:79-83 | any two timeslots are ordered one way or the other; when `a` does not come before `b`, `b` compares strictly less than `a` |
| Timeslots.InOrderTransitive | src/utils/timetableGenerator.ts:79-83 | the order by (weekday index, start time) is transitive |
| Timeslots.InOrderIsTotalPreorder | src/utils/timetableGenerator.ts:79-83 | the comparator is a total preorder, so the sort is well defined |
| Timeslots.UnknownDaySortsFirst | src/utils/timetableGenerator.ts:80 | a timeslot on an unlisted weekday compares below any timeslot on a listed weekday |
| Timeslots.SortTimeslots | src/utils/timetableGenerator.ts:79-83 | the sorted timeslots are a permutation of the input |
| Timeslots.ClassTimeslots | src/utils/timetableGenerator.ts:86 | every class timeslot is an input timeslot that is not a break |
| Timeslots.ClassTimeslotsNormalised | src/utils/timetableGenerator.ts:78-86 | the class timeslots are sorted by the comparator, hold no break, and hold every non-break input timeslot exactly as often as the input does |
| Timeslots.InOrderDays | src/utils/timetableGenerator.ts:80-81 | a timeslot sorted before another has a weekday index no greater than the other's |
| Timeslots.UnknownDaysLead | src/utils/timetableGenerator.ts:78-86 | every class timeslot before one on an unlisted weekday is also on an unlisted weekday |
| Timeslots.ClassTimeslotsDistinct | src/utils/timetableGenerator.ts:78-86 | distinct input timeslot ids stay distinct after sorting and filtering |
| Timeslots.ConsecutivePairCondition | src/utils/timetableGenerator.ts:115-136 | a two-slot window is a consecutive run exactly when both slots share a day and the first ends where the second starts |
| Timeslots.FindConsecutiveSlots | src/utils/timetableGenerator.ts:115-136 | returns a window exactly when it fits and all its slots share the first slot's day with each ending where the next starts; the window returned is exactly `classTimeslots[startIndex..startIndex+count]` |
| Tracking.AddSlot | src/utils/timetableGenerator.ts:109-111 | `get(id)?.add(slot)`: the keys are unchanged and only a present `id` gains the timeslot |
| Tracking.EmptySlots | src/utils/timetableGenerator.ts:96-98 | one empty set per seeded id |
| Tracking.Occupancy.IsSlotAvailable | src/utils/timetableGenerator.ts:101-105 | `isSlotAvailable`: none of the three ids, where tracked, holds the timeslot; no contract of its own: it is stated by the `Occupy`, `Seeded` and `UntrackedIdsAreFree` rows |
| Tracking.Occupancy.Occupy | src/utils/timetableGenerator.ts:101-112 | after `occupySlot` the same ids are tracked and no set shrinks; the timeslot is unavailable for every tracked id that was involved; availability of every other timeslot is unchanged |
| Tracking.OccupyLeavesOtherIds | src/utils/timetableGenerator.ts:108-112 | `occupySlot` changes only the sets of the three ids it is given: every other tracked teacher, room and batch keeps its set of timeslots |
| Tracking.Seeded | src/utils/timetableGenerator.ts:91-98 | the tracker is seeded with exactly the teacher, room and batch ids of the inputs, and every timeslot is available |
| Tracking.UntrackedIdsAreFree | src/utils/timetableGenerator.ts:101-111 | an id that was never seeded never blocks a timeslot, and occupying with only such ids changes nothing |
| Tracking.FreeForAll | src/utils/timetableGenerator.ts:193-195 | `consecutiveSlots.every(slot => isSlotAvailable(...))` on the value tracker; no contract of its own: it is the room test that `FirstFreeRoom` and `SelectRoom` state their results by |
| Tracking.SlotTracker.IsFreeForAll | src/utils/timetableGenerator.ts:193-195 | the same test on the class tracker, read through `View()`; no contract of its own |
| Tracking.SlotTracker.constructor | src/utils/timetableGenerator.ts:91-98 | the three `forEach` loops leave the tracker in the seeded state |
| Tracking.SlotTracker.OccupySlot | src/utils/timetableGenerator.ts:108-112 | the in-place update of the three maps reaches `Occupy` of the previous state |
| Sequences.Filter | src/utils/timetableGenerator.ts:86 | `Array.prototype.filter`: the result is no longer than the input and holds only input elements that pass; its order and multiplicities are the `FilterAppend` and `FilterCount` rows |
| Sequences.IndexOf | src/utils/timetableGenerator.ts:80 | `Array.prototype.indexOf`: -1 exactly when the element is absent, otherwise the position of its first occurrence |
| Sequences.SortBy | src/utils/timetableGenerator.ts:79-83 | `Array.prototype.sort` as a stable insertion sort: the result is a permutation of the input; its order is stated by `ClassTimeslotsNormalised` |
| Sequences.FilterAppend | src/utils/timetableGenerator.ts:155-160 | `filter` keeps input order: filtering a concatenation is the concatenation of the filtered parts |
| Sequences.FilterCount | src/utils/timetableGenerator.ts:155-160 | `filter` keeps every element that passes as often as the input holds it, and drops every other |
| Schedule.FirstAssignment | src/utils/timetableGenerator.ts:142-144 | the position of the first assignment for the subject, or -1 exactly when none matches |
| Schedule.FirstTeacher | src/utils/timetableGenerator.ts:142-152 | `teacherIds[0]`: absent exactly when no assignment names the subject, and otherwise the teacher of the first assignment that names it |
| Schedule.EligibleRooms | src/utils/timetableGenerator.ts:155-166 | a sub-list of the rooms that is empty exactly when there are no rooms; all rooms for a non-Lab subject or when no Lab room exists; otherwise the Lab rooms (with multiplicity) as `Filter` keeps them, in input order |
| Schedule.ChosenRoomIsFirstFreeLabRoom | src/utils/timetableGenerator.ts:155-201 | for a Lab subject while a Lab room exists, the room chosen is the first Lab room of `rooms`, in input order, that is free at every timeslot of the block; none is chosen exactly when no Lab room is free |
| Schedule.CeilHalf | src/utils/timetableGenerator.ts:178 | `Math.ceil(h / 2)`: the least `r` with `2r >= h` |
| Schedule.FirstFreeRoom | src/utils/timetableGenerator.ts:190-201 | the position of the first room free for the teacher and the batch at every given timeslot; absent exactly when no room is |
| Schedule.LabBlocks | src/utils/timetableGenerator.ts:177-226 | the lab scan: the entries it pushes and the occupancy it reaches; no contract of its own: its properties are stated by the `LabBlocksBounds`, `LabBlocksSafe`, `LabBlocksArePairs` and `LabSubjectHours` rows |
| Schedule.LectureSlots | src/utils/timetableGenerator.ts:235-262 | the lecture scan; no contract of its own: its properties are stated by the `LectureSlotsBounds`, `LectureSlotsSafe`, `LectureSlotsDistinct` and `LectureSubjectHours` rows |
| Schedule.ScheduleSubject | src/utils/timetableGenerator.ts:140-272 | one iteration of the subject loop (teacher, rooms, then the lab or lecture scan); no contract of its own: its properties are stated by the `ScheduleSubjectBounds`, `ScheduleSubjectSafe`, `ScheduleSubjectProduces` and `UnassignedSubjectIsSkipped` rows |
| Schedule.ScheduleFrom | src/utils/timetableGenerator.ts:139-274 | the nested batch and subject loops from a given position; no contract of its own: its properties are stated by the `ScheduleFromBounds`, `ScheduleSafe`, `ScheduleFromProduces` and `ScheduleFromNothing` rows |
| Schedule.LabBlocksBounds | src/utils/timetableGenerator.ts:177-226 | the lab scan only adds occupancy and pushes at most two entries per missing block; every entry is for the batch, subject and teacher, in an eligible room, on a class timeslot |
| Schedule.LectureSlotsBounds | src/utils/timetableGenerator.ts:235-262 | the lecture scan only adds occupancy and pushes at most one entry per missing hour; every entry is for the batch, subject and teacher, in an eligible room, on a class timeslot |
| Schedule.ScheduleSubjectBounds | src/utils/timetableGenerator.ts:140-272 | a subject with no assignment adds nothing; otherwise every entry has the batch, the subject, the first assigned teacher, an eligible room and a class timeslot |
| Schedule.ScheduleFromBounds | src/utils/timetableGenerator.ts:139-274 | occupancy only grows over the nested loops, and every entry pushed fits the inputs |
| Schedule.GreedyTimetable | src/utils/timetableGenerator.ts:276-281 | fails, with the message of line 277, exactly when the scan from the seeded tracker pushed nothing; a success is those entries, non-empty, each fitting the inputs |
| ScheduleProofs.AddEntryIsSafe | src/utils/timetableGenerator.ts:101-112 | pushing an entry that `isSlotAvailable` accepted, then occupying it, keeps every pushed entry recorded and no tracked id double-booked |
| ScheduleProofs.LabBlocksSafe | src/utils/timetableGenerator.ts:192-217 | with distinct timeslot ids, the lab scan keeps that invariant: both slots of a block are checked before either is occupied |
| ScheduleProofs.LectureSlotsSafe | src/utils/timetableGenerator.ts:240-258 | the lecture scan keeps that invariant |
| ScheduleProofs.ScheduleSubjectSafe | src/utils/timetableGenerator.ts:140-272 | with distinct timeslot ids, one subject iteration keeps that invariant |
| ScheduleProofs.ScheduleSafe | src/utils/timetableGenerator.ts:139-274 | with distinct timeslot ids, the nested loops keep that invariant |
| ScheduleProofs.FitsKnownRoomAndBatch | src/utils/timetableGenerator.ts:139-166 | every entry's room and batch come from the `rooms` and `batches` inputs |
| ScheduleProofs.ScanNoDoubleBooking | src/utils/timetableGenerator.ts:96-112 | with distinct timeslot ids, from the seeded tracker no seeded teacher, room or batch is booked twice for one timeslot |
| ScheduleProofs.TimetableNoDoubleBooking | src/utils/timetableGenerator.ts:96-112 | with distinct timeslot ids, two entries for one timeslot never share a room or a batch, and never share a teacher listed in `teachers` |
| ScheduleProofs.TimetableNoDoubleBookingForKnownTeachers | src/utils/timetableGenerator.ts:96-112 | with distinct timeslot ids, and when every assigned teacher is listed, two entries for one timeslot share no teacher, room or batch |
| ScheduleProofs.LabPairsEven | src/utils/timetableGenerator.ts:207-219 | entries that split into blocks of two are even in number |
| ScheduleProofs.LabBlocksArePairs | src/utils/timetableGenerator.ts:183-226 | the lab scan's entries split into pairs on a consecutive window of class timeslots, each pair sharing batch, subject, teacher and room |
| ScheduleProofs.LabSubjectHours | src/utils/timetableGenerator.ts:177-226 | a Lab subject gets lab pairs, an even number of entries, at most `2 * ceil(hours / 2)` |
| ScheduleProofs.OneBatchDistinctSlots | src/utils/timetableGenerator.ts:101-105 | safe entries that all belong to one tracked batch are on pairwise different timeslots |
| ScheduleProofs.LectureSlotsDistinct | src/utils/timetableGenerator.ts:235-262 | the lecture scan for a tracked batch never books one timeslot twice |
| ScheduleProofs.LectureSubjectHours | src/utils/timetableGenerator.ts:231-262 | a non-Lab subject gets at most `hours_per_week` entries, on pairwise different timeslots when its batch is tracked |
| ScheduleProofs.LabSubjectsUseLabRooms | src/utils/timetableGenerator.ts:155-166 | while any Lab room exists, every entry of a Lab subject is in a Lab room |
| ScheduleProofs.UnassignedSubjectIsSkipped | src/utils/timetableGenerator.ts:142-149 | a subject no assignment names gets no entry for any batch |
| ScheduleProofs.NoBreakIsBooked | src/utils/timetableGenerator.ts:86 | with distinct timeslot ids, no entry names a break timeslot |
| ScheduleProofs.SuccessNeedsInputs | src/utils/timetableGenerator.ts:276-278 | the generator throws unless there is an assignment, a room, a batch, a subject and a non-break timeslot |
| ScheduleProofs.AllFreeFindsRoom | src/utils/timetableGenerator.ts:190-201 | when nothing is occupied, the room loop picks the first room |
| ScheduleProofs.LabBlocksNothingKeepsOcc | src/utils/timetableGenerator.ts:177-226 | a lab scan that pushes nothing occupies nothing |
| ScheduleProofs.LectureSlotsNothingKeepsOcc | src/utils/timetableGenerator.ts:235-262 | a lecture scan that pushes nothing occupies nothing |
| ScheduleProofs.ScheduleSubjectNothingKeepsOcc | src/utils/timetableGenerator.ts:140-272 | a subject iteration that pushes nothing occupies nothing |
| ScheduleProofs.LabBlocksNeedPair | src/utils/timetableGenerator.ts:183-188 | with no consecutive pair of class timeslots from `i` on, the lab scan pushes nothing |
| ScheduleProofs.LabBlocksBookOnFree | src/utils/timetableGenerator.ts:183-225 | when nothing is occupied, there is a room, a block is missing and a consecutive pair exists from `i` on, the lab scan books a block |
| ScheduleProofs.ScheduleSubjectProduces | src/utils/timetableGenerator.ts:140-262 | on a tracker with nothing occupied, a subject gets an entry exactly when it has an assigned teacher, there is a room, its hours are at least 1, and there is a class timeslot (a consecutive pair of them for a Lab subject) |
| ScheduleProofs.ScheduleSubjectNothing | src/utils/timetableGenerator.ts:140-262 | a subject lacking any of those gets no entry, whatever is occupied |
| ScheduleProofs.ScheduleFromProduces | src/utils/timetableGenerator.ts:139-274 | with nothing occupied and a schedulable subject ahead, the nested loops push an entry |
| ScheduleProofs.ScheduleFromNothing | src/utils/timetableGenerator.ts:139-274 | with no schedulable subject, the nested loops push nothing |
| ScheduleProofs.GreedyTimetableSucceeds | src/utils/timetableGenerator.ts:276-278 | the generator succeeds exactly when there is a batch and a schedulable subject: the tracker starts empty, so availability never blocks the first entry |
| Generator.SelectRoom | src/utils/timetableGenerator.ts:190-201 | the room loop returns the first room free at every timeslot of the block |
| Generator.TryLabBlockAt | src/utils/timetableGenerator.ts:184-222 | one pass of the lab loop body advances the scan exactly as `LabBlocks` does |
| Generator.ScheduleLabBlocks | src/utils/timetableGenerator.ts:177-226 | the lab loop, with its in-place skip of `i`, pushes the entries and reaches the occupancy of `LabBlocks` |
| Generator.ScheduleLectureSlots | src/utils/timetableGenerator.ts:235-262 | the lecture loop, with its `break`, pushes the entries and reaches the occupancy of `LectureSlots` |
| Generator.ScheduleSubjectHours | src/utils/timetableGenerator.ts:140-272 | one subject iteration pushes the entries and reaches the occupancy of `ScheduleSubject` |
| Generator.ScheduleBatch | src/utils/timetableGenerator.ts:140-273 | the subject loop for one batch advances the scan to the next batch |
| Generator.ScheduleAllBatches | src/utils/timetableGenerator.ts:139-274 | the batch loop pushes the entries and reaches the occupancy of `ScheduleFrom` from the first batch |
| Generator.GenerateOptimizedTimetable | src/utils/timetableGenerator.ts:58-281 | returns `GreedyTimetable` of the inputs: a non-empty list of entries that fit the inputs, or the Error of line 277; with distinct timeslot ids, no tracked id is double-booked |

## Left out

- Logging: every `console.log` and `console.warn` call. The hour counter
  `hoursScheduled` is modelled where it stops the lecture loop (line 236,
  `scheduled` in `LectureSlots` and `ScheduleLectureSlots`). In the lab loop
  it feeds only the messages of lines 229 and 266-271, so it is dropped
  there.
- Locale: `localeCompare` is modelled as ordinal comparison of the
  characters. It agrees with the locale order on "HH:MM" start times.
- Fractional hours: `hours_per_week` is an integer here. A fractional value
  would change `Math.ceil` and the comparisons with the hour count.
- Sort stability: the sort is modelled as a stable insertion sort, as
  JavaScript's `Array.prototype.sort` is. The lemmas state the order and the
  permutation, not stability.
- Exceptions other than the empty-result Error (for example a `null` in the
  input arrays) are not modelled.
- ScheduleProofs.TimetableNoDoubleBooking assumes that timeslot ids are
  distinct. With duplicate ids, a lab block whose two slots share an id
  passes both checks before either slot is occupied, so that id would be
  booked twice.
- ScheduleProofs.TimetableNoDoubleBookingForKnownTeachers assumes distinct
  timeslot ids, for the same reason.
- ScheduleProofs.ScanNoDoubleBooking assumes distinct class timeslot ids,
  for the same reason.
- ScheduleProofs.ScheduleSafe assumes distinct class timeslot ids, for the
  same reason.
- ScheduleProofs.ScheduleSubjectSafe assumes distinct class timeslot ids,
  for the same reason.
- ScheduleProofs.LabBlocksSafe assumes distinct class timeslot ids, for the
  same reason.
- ScheduleProofs.NoBreakIsBooked assumes distinct timeslot ids: with
  duplicates, a break and a class slot could share the id an entry names.
- ScheduleProofs.TimetableNoDoubleBooking covers teachers only when they
  appear in `teachers`. An assigned teacher id that is not listed is never
  tracked (the `?.` of lines 102 and 109), so the code can book it twice.
  ScheduleProofs.TimetableNoDoubleBookingForKnownTeachers assumes that every
  assigned teacher is listed.
- The React pages, routing and database access around the generator are
  not part of this model.
