/**
 * The timetable handlers: regenerating a date range of slots around the
 * scheduling service, the one-day view, partial update of a slot and
 * marking a slot done, over an in-memory slot collection. Timestamps are
 * integer milliseconds and a calendar day is a fixed block of 86,400,000 ms
 * starting at a multiple of that length.
 */
module TimetableController {
  import opened Base
  import opened TaskModel
  import TaskController

  type SlotId = nat

  /** Milliseconds in a day. */
  const DayMs: int := 86_400_000
  /** Offset of 23:59:59.999 from midnight. */
  const LastMsOfDay: int := 86_399_999

  /** A stored timetable slot; `task` is `None` for a slot bound to no task. */
  datatype Slot = Slot(
    id: SlotId,
    user: UserId,
    start: int,
    end: int,
    task: Option<TaskId>,
    status: string,
    autoGenerated: bool)

  /** A slot as the scheduling service returns it, before the owner and an id are added. */
  datatype GeneratedSlot = GeneratedSlot(
    start: int,
    end: int,
    task: Option<TaskId>,
    status: string,
    autoGenerated: bool)

  /**
   * A date parameter of a request: `Missing` when it is undefined or the
   * empty string (the values the handlers reject as absent), `Unparsable`
   * when it is a string that makes an invalid date, `At(ms)` otherwise.
   */
  datatype DateParam = Missing | Unparsable | At(ms: int)

  /** The settings read from the user record and handed to the scheduling service. */
  datatype UserSettings = UserSettings(studyHoursPerDay: int, preferredTime: string)

  /**
   * The scheduling service `generateTimetable(tasks, startDate, endDate,
   * settings)`, which is not part of this model: any function of its
   * inputs; `None` stands for a call that throws.
   */
  type Generator = (seq<Task>, int, int, UserSettings) -> Option<seq<GeneratedSlot>>

  /** The sort `{ start: 1 }`. */
  function StartKey(s: Slot): Key {
    (s.start, 0)
  }

  /** The lookup `{ _id: id, user: caller }`. */
  function OwnedSlot(caller: UserId, id: SlotId): Slot -> bool {
    (s: Slot) => s.id == id && s.user == caller
  }

  /** The tasks handed to the scheduling service: the caller's incomplete ones, in collection order. */
  function PendingTasks(tasks: seq<Task>, caller: UserId): (r: seq<Task>)
    ensures forall t :: t in r <==> t in tasks && t.user == caller && !t.completed
  {
    Filter(tasks, (t: Task) => t.user == caller && !t.completed)
  }

  /**
   * The slots a regeneration of `[startDate, endDate]` for `caller` keeps:
   * all but the caller's slots that start inside the closed range.
   */
  function OutsideRange(caller: UserId, startDate: int, endDate: int): Slot -> bool {
    (s: Slot) => !(s.user == caller && startDate <= s.start <= endDate)
  }

  /* ---------------------------------------------------------------------
   * Day arithmetic
   * ------------------------------------------------------------------- */

  /** 00:00:00.000 of the day containing `date`. */
  function DayStart(date: int): (r: int)
    ensures r % DayMs == 0 && r <= date < r + DayMs
  {
    (date / DayMs) * DayMs
  }

  /**
   * The window `[DayStart(date), DayStart(date) + 23:59:59.999]` is exactly
   * the calendar day of `date`: a timestamp lies in it iff it falls on the
   * same day.
   */
  lemma DayWindowIsCalendarDay(date: int, u: int)
    ensures DayStart(date) <= u <= DayStart(date) + LastMsOfDay <==> u / DayMs == date / DayMs
  {
    var q := date / DayMs;
    assert DayStart(date) == q * DayMs;
    assert u == (u / DayMs) * DayMs + u % DayMs && 0 <= u % DayMs < DayMs;
    if u / DayMs < q {
      assert (u / DayMs) * DayMs <= (q - 1) * DayMs;
    } else if u / DayMs > q {
      assert (u / DayMs) * DayMs >= (q + 1) * DayMs;
    }
  }

  /* ---------------------------------------------------------------------
   * Store invariant
   * ------------------------------------------------------------------- */

  /** No two slots share an id. */
  ghost predicate UniqueIds(slots: seq<Slot>) {
    forall i, j :: 0 <= i < j < |slots| ==> slots[i].id != slots[j].id
  }

  /** Slot ids are unique and below `nextId`. */
  ghost predicate SlotInvariant(slots: seq<Slot>, nextId: SlotId) {
    && UniqueIds(slots)
    && (forall i :: 0 <= i < |slots| ==> slots[i].id < nextId)
  }

  /** The slots `insertMany` creates: the generated ones in order, owned by `caller`, with fresh consecutive ids. */
  function Stamp(generated: seq<GeneratedSlot>, caller: UserId, firstId: SlotId): (r: seq<Slot>)
    ensures |r| == |generated|
    ensures forall k :: 0 <= k < |r| ==>
              && r[k].id == firstId + k && r[k].user == caller
              && r[k].start == generated[k].start && r[k].end == generated[k].end
              && r[k].task == generated[k].task && r[k].status == generated[k].status
              && r[k].autoGenerated == generated[k].autoGenerated
  {
    seq(|generated|, k requires 0 <= k < |generated| =>
      var g := generated[k];
      Slot(firstId + k, caller, g.start, g.end, g.task, g.status, g.autoGenerated))
  }

  /** Deleting any slots and appending freshly numbered ones keeps ids unique. */
  lemma InvariantReplaceRange(slots: seq<Slot>, nextId: SlotId, p: Slot -> bool, created: seq<Slot>)
    requires SlotInvariant(slots, nextId)
    requires forall k :: 0 <= k < |created| ==> created[k].id == nextId + k
    ensures SlotInvariant(Filter(slots, p) + created, nextId + |created|)
    ensures forall s :: s in slots ==> s !in created
  {
    var kept := Filter(slots, p);
    var r := kept + created;
    assert forall s :: s in kept ==> s.id < nextId by {
      forall s | s in kept ensures s.id < nextId {
        var k :| 0 <= k < |slots| && slots[k] == s;
      }
    }
    FilterKeepsUniqueIds(slots, p);
    forall i, j | 0 <= i < j < |r| ensures r[i].id != r[j].id {
      if j < |kept| {
        assert r[i] == kept[i] && r[j] == kept[j];
      } else if i < |kept| {
        assert r[i] == kept[i];
        assert r[i] in kept;
        assert r[j] == created[j - |kept|];
      } else {
        assert r[i] == created[i - |kept|] && r[j] == created[j - |kept|];
      }
    }
    forall i | 0 <= i < |r| ensures r[i].id < nextId + |created| {
      if i < |kept| {
        assert r[i] in kept;
      } else {
        assert r[i] == created[i - |kept|];
      }
    }
    forall s | s in slots ensures s !in created {
      var k :| 0 <= k < |slots| && slots[k] == s;
    }
  }

  lemma ConsUniqueIds(h: Slot, rest: seq<Slot>)
    requires UniqueIds(rest)
    requires forall x :: x in rest ==> x.id != h.id
    ensures UniqueIds([h] + rest)
  {
    var r := [h] + rest;
    forall i, j | 0 <= i < j < |r| ensures r[i].id != r[j].id {
      assert r[j] == rest[j - 1];
      if i == 0 {
        assert r[j] in rest;
      } else {
        assert r[i] == rest[i - 1];
      }
    }
  }

  /** A filter of slots with unique ids has unique ids. */
  lemma {:induction false} FilterKeepsUniqueIds(slots: seq<Slot>, p: Slot -> bool)
    requires UniqueIds(slots)
    ensures UniqueIds(Filter(slots, p))
  {
    if slots != [] {
      var tail := slots[1..];
      assert UniqueIds(tail) by {
        forall i, j | 0 <= i < j < |tail| ensures tail[i].id != tail[j].id {
          assert tail[i] == slots[i + 1] && tail[j] == slots[j + 1];
        }
      }
      var rest := Filter(tail, p);
      FilterKeepsUniqueIds(tail, p);
      if p(slots[0]) {
        assert forall x :: x in rest ==> x.id != slots[0].id by {
          forall x | x in rest ensures x.id != slots[0].id {
            var k :| 0 <= k < |tail| && tail[k] == x;
            assert slots[k + 1] == x;
          }
        }
        ConsUniqueIds(slots[0], rest);
      } else {
        assert Filter(slots, p) == rest;
      }
    }
  }

  /* ---------------------------------------------------------------------
   * Regeneration
   * ------------------------------------------------------------------- */

  /** The collection after a regeneration: the range deleted, then the created slots appended. */
  function Regenerated(slots: seq<Slot>, caller: UserId, startDate: int, endDate: int, created: seq<Slot>): (r: seq<Slot>)
    ensures forall s :: s in r <==>
              || (s in slots && !(s.user == caller && startDate <= s.start <= endDate))
              || s in created
  {
    Filter(slots, OutsideRange(caller, startDate, endDate)) + created
  }

  /**
   * Regenerating the same range twice leaves what the second run alone
   * would leave, provided the first run's slots are the caller's and start
   * inside the range: nothing of the first run survives the second.
   */
  lemma RegenerateTwice(slots: seq<Slot>, caller: UserId, startDate: int, endDate: int, first: seq<Slot>, second: seq<Slot>)
    requires forall s :: s in first ==> s.user == caller && startDate <= s.start <= endDate
    ensures Regenerated(Regenerated(slots, caller, startDate, endDate, first), caller, startDate, endDate, second)
         == Regenerated(slots, caller, startDate, endDate, second)
  {
    var keep := OutsideRange(caller, startDate, endDate);
    var kept := Filter(slots, keep);
    FilterConcat(kept, first, keep);
    FilterIdempotent(slots, keep);
    FilterNone(first, keep);
    assert kept + [] == kept;
  }

  /**
   * The range ends at the instant `endDate`: a slot of an earlier run that
   * starts after it (later on the day a date-only `endDate` names) is not
   * deleted by a regeneration, and stays beside the new run's slots.
   */
  lemma RegenerateKeepsSlotsAfterEnd(slots: seq<Slot>, caller: UserId, startDate: int, endDate: int, first: seq<Slot>, second: seq<Slot>, s: Slot)
    requires s in first && s.start > endDate
    ensures s in Regenerated(Regenerated(slots, caller, startDate, endDate, first), caller, startDate, endDate, second)
  {
  }

  /** The patch of `updateTimetableSlot`; `None` is a missing or empty status, `Given(None)` for `task` is null. */
  datatype SlotPatch = SlotPatch(
    start: DateParam,
    end: DateParam,
    task: Field<Option<TaskId>>,
    status: Option<string>)

  /** A status value that JavaScript treats as true: present and not the empty string. */
  predicate TruthyStatus(status: Option<string>) {
    status.Some? && status.value != ""
  }

  /**
   * The assignments of `updateTimetableSlot`: start, end and status only
   * when the supplied value is truthy, the task reference whenever it is
   * supplied (null included); nothing relates the new start to the new end.
   * A start or end that is not a date leaves a cast failure that makes the
   * later save fail.
   */
  method AssignGiven(before: Slot, patch: SlotPatch) returns (slot: Slot, castFailed: bool)
    ensures castFailed <==> patch.start.Unparsable? || patch.end.Unparsable?
    ensures slot.id == before.id && slot.user == before.user && slot.autoGenerated == before.autoGenerated
    ensures slot.start == (if patch.start.At? then patch.start.ms else before.start)
    ensures slot.end == (if patch.end.At? then patch.end.ms else before.end)
    ensures slot.task == (if patch.task.Given? then patch.task.value else before.task)
    ensures slot.status == (if TruthyStatus(patch.status) then patch.status.value else before.status)
  {
    slot := before;
    castFailed := false;
    match patch.start {
      case Missing =>
      case Unparsable => castFailed := true;
      case At(ms) => slot := slot.(start := ms);
    }
    match patch.end {
      case Missing =>
      case Unparsable => castFailed := true;
      case At(ms) => slot := slot.(end := ms);
    }
    if patch.task.Given? { slot := slot.(task := patch.task.value); }
    if TruthyStatus(patch.status) { slot := slot.(status := patch.status.value); }
  }

  class TimetableStore {
    /** The slot collection, in insertion order. */
    var slots: seq<Slot>
    /** The next unused slot id. */
    var nextId: SlotId

    ghost predicate Valid()
      reads this
    {
      SlotInvariant(slots, nextId)
    }

    constructor ()
      ensures Valid() && slots == [] && nextId == 0
    {
      slots := [];
      nextId := 0;
    }

    /**
     * POST /api/timetable/generate. Missing dates are a bad request. The
     * scheduling service runs on the caller's incomplete tasks before
     * anything is deleted, so a missing user record, a failing service or
     * an unparsable date (on which the range deletion fails its cast)
     * answers 500 and leaves the slots as they were. Otherwise every slot of the caller
     * starting in `[startDate, endDate]` is deleted, whatever its
     * `autoGenerated` flag, the generated slots are inserted as the caller's,
     * and they are returned ordered by start.
     */
    method GenerateTimetableSlots(
      caller: UserId, startDate: DateParam, endDate: DateParam,
      user: Option<UserSettings>, taskStore: TaskController.TaskStore, generate: Generator)
      returns (res: Result<seq<Slot>, Error>)
      requires Valid()
      modifies this
      ensures Valid()
      ensures startDate.Missing? || endDate.Missing? ==> res == Err(BadRequest)
      ensures res.Err? && !startDate.Missing? && !endDate.Missing? ==> res.error == ServerError
      ensures res.Err? ==> slots == old(slots) && nextId == old(nextId)
      ensures res.Ok? <==>
        && startDate.At? && endDate.At? && user.Some?
        && generate(PendingTasks(taskStore.tasks, caller), startDate.ms, endDate.ms, user.value).Some?
      ensures res.Ok? ==>
        var created := Stamp(generate(PendingTasks(taskStore.tasks, caller), startDate.ms, endDate.ms, user.value).value,
                             caller, old(nextId));
        && slots == Regenerated(old(slots), caller, startDate.ms, endDate.ms, created)
        && nextId == old(nextId) + |created|
        && SortedBy(res.value, StartKey)
        && multiset(res.value) == multiset(created)
      ensures res.Ok? ==> forall s :: s in res.value ==> s.user == caller && s in slots && s !in old(slots)
      ensures res.Ok? ==> forall s :: s in old(slots) ==>
                            (s in slots <==> !(s.user == caller && startDate.ms <= s.start <= endDate.ms))
    {
      if startDate.Missing? || endDate.Missing? {
        return Err(BadRequest);
      }
      if user.None? {
        return Err(ServerError);
      }
      var tasks := PendingTasks(taskStore.tasks, caller);
      if startDate.Unparsable? || endDate.Unparsable? {
        // The service is called with invalid dates; whether it throws or
        // not, the range deletion then fails to cast them.
        return Err(ServerError);
      }
      var generated := generate(tasks, startDate.ms, endDate.ms, user.value);
      if generated.None? {
        return Err(ServerError);
      }
      var keep := OutsideRange(caller, startDate.ms, endDate.ms);
      var created := Stamp(generated.value, caller, nextId);
      InvariantReplaceRange(slots, nextId, keep, created);
      slots := Filter(slots, keep) + created;
      nextId := nextId + |created|;
      res := Ok(SortBy(created, StartKey));
      forall s | s in res.value ensures s.user == caller && s in created {
        assert s in multiset(res.value);
        assert s in multiset(created);
        var k :| 0 <= k < |created| && created[k] == s;
      }
    }

    /**
     * GET /api/timetable/day. A missing date is a bad request, and an
     * unparsable one fails the query's cast (500); otherwise
     * exactly the caller's slots that start on the calendar day of `date`
     * (from 00:00:00.000 to 23:59:59.999), ordered by start.
     */
    method GetDayTimetable(caller: UserId, date: DateParam) returns (res: Result<seq<Slot>, Error>)
      ensures res.Err? <==> !date.At?
      ensures date.Missing? ==> res == Err(BadRequest)
      ensures date.Unparsable? ==> res == Err(ServerError)
      ensures res.Ok? ==> SortedBy(res.value, StartKey)
      ensures res.Ok? ==> forall s :: multiset(res.value)[s] ==
                            (if s.user == caller && s.start / DayMs == date.ms / DayMs then multiset(slots)[s] else 0)
    {
      if date.Missing? {
        return Err(BadRequest);
      }
      if date.Unparsable? {
        return Err(ServerError);
      }
      var dayStart := DayStart(date.ms);
      var dayEnd := dayStart + LastMsOfDay;
      var found := Filter(slots, (s: Slot) => s.user == caller && dayStart <= s.start <= dayEnd);
      res := Ok(SortBy(found, StartKey));
      forall s: Slot {
        DayWindowIsCalendarDay(date.ms, s.start);
      }
    }

    /**
     * PUT /api/timetable/:id. A slot that is missing or someone else's is
     * not found and nothing changes; a start or end that is not a date
     * fails the save (500) and nothing changes; otherwise the supplied
     * fields are assigned (start, end and status only when truthy, the task
     * whenever given) and the update succeeds, even when the new end is not
     * after the new start.
     */
    method UpdateTimetableSlot(caller: UserId, id: SlotId, patch: SlotPatch) returns (res: Result<Slot, Error>)
      requires Valid()
      modifies this
      ensures Valid() && nextId == old(nextId)
      ensures res == Err(NotFound) <==> IndexWhere(old(slots), OwnedSlot(caller, id)).None?
      ensures res.Ok? <==>
        && IndexWhere(old(slots), OwnedSlot(caller, id)).Some?
        && !patch.start.Unparsable? && !patch.end.Unparsable?
      ensures res.Err? && res.error != NotFound ==> res.error == ServerError
      ensures res.Err? ==> slots == old(slots)
      ensures res.Ok? ==>
        var i := IndexWhere(old(slots), OwnedSlot(caller, id)).value;
        var before := old(slots)[i];
        && slots == old(slots)[i := res.value]
        && res.value.id == id && res.value.user == caller && res.value.autoGenerated == before.autoGenerated
        && res.value.start == (if patch.start.At? then patch.start.ms else before.start)
        && res.value.end == (if patch.end.At? then patch.end.ms else before.end)
        && res.value.task == (if patch.task.Given? then patch.task.value else before.task)
        && res.value.status == (if TruthyStatus(patch.status) then patch.status.value else before.status)
    {
      var found := IndexWhere(slots, OwnedSlot(caller, id));
      if found.None? {
        return Err(NotFound);
      }
      var i := found.value;
      var slot, castFailed := AssignGiven(slots[i], patch);
      if castFailed {
        return Err(ServerError);
      }
      slots := slots[i := slot];
      res := Ok(slot);
    }

    /**
     * POST /api/timetable/:id/done. Sets the caller's slot to "done" and
     * changes nothing else; marking a slot that is already done changes
     * nothing at all, so a second call has no further effect.
     */
    method MarkSlotDone(caller: UserId, id: SlotId) returns (res: Result<Slot, Error>)
      requires Valid()
      modifies this
      ensures Valid() && nextId == old(nextId)
      ensures res.Err? <==> IndexWhere(old(slots), OwnedSlot(caller, id)).None?
      ensures res.Err? ==> res.error == NotFound && slots == old(slots)
      ensures res.Ok? ==>
        var i := IndexWhere(old(slots), OwnedSlot(caller, id)).value;
        && res.value == old(slots)[i].(status := "done")
        && slots == old(slots)[i := res.value]
        && (old(slots)[i].status == "done" ==> slots == old(slots))
    {
      var found := IndexWhere(slots, OwnedSlot(caller, id));
      if found.None? {
        return Err(NotFound);
      }
      var i := found.value;
      var slot := slots[i].(status := "done");
      slots := slots[i := slot];
      res := Ok(slot);
    }
  }
}
