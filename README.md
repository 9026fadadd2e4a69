# Study Planner: tasks and timetable, modelled in Dafny

Study Planner is a web application. A student lists study tasks: each task has a title, a subject, a
duration in minutes, a due date, a preferred time of day and a completion flag. The student then has
a timetable of study slots generated for a date range. This project models the server side of these
two resources:

- **The Task document schema.** This covers the required paths and the defaults (60 minutes,
  "09:00", not completed). It also covers the minimum duration of one minute, the `trim` setter on
  the title and the `HH:MM` 24-hour validator on `preferredTime`. It is written as pure functions in
  module `TaskModel` (`task_model.dfy`).
- **The task handlers.** These are listing with optional `completed` and `subject` filters, sorted
  by due date and then newest first, plus creation, partial update and deletion, each scoped to the
  calling user. They are written as methods of the class `TaskController.TaskStore`
  (`task_controller.dfy`), which holds the task collection.
- **The timetable handlers.**
  - Regeneration of a date range: it deletes the caller's slots in the range and inserts the slots
    the scheduling service produces.
  - The one-day view.
  - Partial update of a slot.
  - Marking a slot done.

  They are written as methods of the class `TimetableController.TimetableStore`
  (`timetable_controller.dfy`), which holds the slot collection.

Module `Base` (`base.dfy`) holds the shared vocabulary:
- `Option`, `Result`, and `Field`, which tells an undefined request field apart from a supplied one;
- the three error outcomes: 400, 404, and 500, where 500 includes a failed schema validation;
- the two collection operations the database performs for the handlers: a filtering `find` and a
  stable sort on a compound key. Each is proved to be a permutation of what it selects, and the sort
  is proved stable.

The model makes the following choices:
- Timestamps are integer milliseconds.
- A calendar day is a fixed block of 86,400,000 ms that starts at a multiple of that length.
- Document ids are natural numbers drawn from a counter held by each store.
- User and subject ids are strings.
- The scheduling service (`generateTimetable`) is not part of this model. Regeneration takes it as
  a function parameter and proves its properties for every such function. `None` stands for a call
  that throws.
- The user record that `User.findById` returns is also a parameter. `None` stands for a missing
  record, which makes the handler fail with 500.

Some behaviours of the handlers are easy to miss:
- The regeneration handler is not atomic: it deletes the range and then inserts the new slots in two
  separate steps. It does not check that `startDate <= endDate`.
- The slot update handler does not check that `end` is after `start`.
- A regeneration removes every slot of the caller that starts in the range, whatever its
  `autoGenerated` flag.
- The range ends at the instant `endDate`. A date-only `endDate` means midnight, so a regeneration
  leaves the previous run's slots that start later on that day in place.
  `RegenerateKeepsSlotsAfterEnd` states this.
- A date parameter that is missing or empty is answered with 400. A non-empty string that is not a
  date passes that test, so it fails later, when the database casts it, and is answered with 500.

## Model

| member | source | states |
|---|---|---|
| TaskModel.IsValidTime | backend/models/Task.js:30 | The anchored regular expression read alternative by alternative: hour `0`/`1` then any digit or `2` then `0`..`3`, a colon, minute tens `0`..`5`, any digit, and nothing else (no contract; `ValidTimeIff` states what it accepts) |
| TaskModel.ValidTimeIff | backend/models/Task.js:28-31 | The validator accepts a string exactly when it is the zero-padded `HH:MM` rendering of some hour 0..23 and minute 0..59 (both directions) |
| TaskModel.TimeOfDayIsValid | backend/models/Task.js:30 | Every hour 0..23 and minute 0..59, written as `HH:MM`, is accepted and parses back to the same hour and minute |
| TaskModel.ValidTimeIsTimeOfDay | backend/models/Task.js:30 | Every accepted string is the rendering of the time of day it denotes (parse then format is the identity) |
| TaskModel.ParseTime | backend/models/Task.js:30 | An accepted string denotes an hour below 24 and a minute below 60 |
| TaskModel.TimeValidatorExamples | backend/models/Task.js:24-33 | The default "09:00", "00:00" and "23:59" are accepted; "9:00", "24:00", "12:60", a trailing space and a missing colon are refused |
| TaskModel.Trim | backend/models/Task.js:5-9 | The title setter keeps a slice of the title and removes only white space before and after it; the result is empty exactly when the title is all white space, and otherwise starts and ends with a non-space |
| TaskModel.TrimmedIsFixed | backend/models/Task.js:8 | The setter leaves an already trimmed title unchanged |
| TaskModel.TrimIdempotent | backend/models/Task.js:8 | Setting a title twice through the setter stores the same value as once |
| TaskModel.ValidTask | backend/models/Task.js:3-44 | What every validator of the schema accepts once the required paths are set: a non-empty trimmed title, a duration of at least 1 and a time the validator accepts (no contract; `SaveAcceptsExactlyValid` states its meaning) |
| TaskModel.SaveAcceptsExactlyValid | backend/models/Task.js:3-44 | Saving a stored document passes every validator, and keeps the document as it is, exactly when it is valid (both directions) |
| TaskModel.Instantiate | backend/models/Task.js:3-48 | A document is accepted iff title (after trim, non-empty), subject, dueDate and user are present, any given duration is at least 1 and any given time passes the validator; a refusal names at least one path; an accepted document passes every validator, keeps the supplied values and takes the defaults 60, "09:00" and not completed for undefined paths |
| TaskModel.FailingPathsReported | backend/models/Task.js:3-44 | A refused document reports exactly its failing paths: title missing or all white space, subject, dueDate or user missing, duration below 1, time refused by the validator (each both directions) |
| TaskModel.InvalidValueReported | backend/models/Task.js:5-33 | A duration below one minute, a refused preferred time or an all-white-space title is refused, and its path is reported |
| TaskModel.MissingRequiredPathRejected | backend/models/Task.js:5-43 | A document missing any of the four required paths is refused and that path is among the reported failures |
| TaskModel.DefaultsAreValid | backend/models/Task.js:15-38 | A document with only the required paths is accepted and stores 60 minutes, "09:00" and not completed |
| Base.Filter | backend/controllers/taskController.js:20 | A `find`: every element occurs in the result as often as in the collection when it matches the query, and not at all otherwise |
| Base.SortBy | backend/controllers/taskController.js:22 | A sort: the result is ordered by the key and is a permutation of its input |
| Base.SortByIsStable | backend/controllers/taskController.js:20-22 | The sort is stable: for every key, the elements with that key come out in the order they went in |
| Base.IndexWhere | backend/controllers/taskController.js:66-69 | A `findOne`: the position found matches and no earlier one does; nothing is found iff no element matches |
| Base.FilterConcat | backend/controllers/timetableController.js:42-53 | Deleting by a predicate from a concatenation deletes from each part |
| Base.FilterIdempotent | backend/controllers/timetableController.js:42-45 | Running the same range deletion twice deletes nothing more the second time |
| Base.FilterNone | backend/controllers/timetableController.js:42-45 | When the range deletion matches every slot of a sequence, none of them survives it |
| TaskController.Matches | backend/controllers/taskController.js:10-18 | The query object: the owner always, the completion state and the subject only when set (no contract; `TaskStore.GetTasks` states the filter in terms of the request) |
| TaskController.TaskStore.GetTasks | backend/controllers/taskController.js:7-29 | Returns exactly the caller's tasks (with multiplicity), narrowed to `completed == (value == "true")` when `completed` is given and to the subject when a non-empty subject is given, ordered by due date ascending and then creation time descending; nothing changes |
| TaskController.RequestedTime | backend/controllers/taskController.js:44 | The supplied preferred time, or "09:00" when it is missing or the empty string (no contract; `TaskStore.CreateTask` states the stored time through it) |
| TaskController.TaskStore.CreateTask | backend/controllers/taskController.js:35-58 | Succeeds iff the body has a non-blank title, a subject, a due date, a duration of at least 1 if any, and a preferred time (or "09:00" when missing or empty) that passes the validator; on success appends exactly one task owned by the caller, not completed, with the trimmed title and the default duration when none was given; on failure answers 500 and stores nothing; the store invariant (unique ids, every task valid) is kept |
| TaskController.AssignSupplied | backend/controllers/taskController.js:75-83 | Each field the body supplies is overwritten (the title through the setter), every other field, the id, owner and creation time are kept; a supplied due date that is not a date is a cast failure |
| TaskController.TaskStore.UpdateTask | backend/controllers/taskController.js:64-96 | 404 iff no task with that id belongs to the caller; succeeds iff the task is found, any supplied due date is a date, and any supplied title (after trim), duration and time pass their validators; every other error is 500 and changes nothing; on success only that task is replaced, by the old one with the supplied fields overwritten, and it stays valid |
| TaskController.TaskStore.DeleteTask | backend/controllers/taskController.js:102-119 | 404 iff no task with that id belongs to the caller, and then nothing changes; otherwise exactly that task is removed, the others keep their order, and the remaining tasks are those of the old collection with a different id |
| TimetableController.PendingTasks | backend/controllers/timetableController.js:28-31 | The tasks handed to the scheduling service are exactly the caller's incomplete tasks |
| TimetableController.OutsideRange | backend/controllers/timetableController.js:42-45 | The slots the range deletion keeps: all but the caller's slots starting between `startDate` and `endDate` inclusive (no contract; `Regenerated` states the deletion through it) |
| TimetableController.DayStart | backend/controllers/timetableController.js:85-86 | Midnight of the day of `date`: a multiple of the day length, at most `date`, and less than a day before it |
| TimetableController.DayWindowIsCalendarDay | backend/controllers/timetableController.js:85-92 | A timestamp lies between 00:00:00.000 and 23:59:59.999 of the day of `date` iff it falls on the same calendar day (both directions) |
| TimetableController.Stamp | backend/controllers/timetableController.js:48-53 | The inserted slots are the generated ones in order, each owned by the caller and given a fresh consecutive id |
| TimetableController.Regenerated | backend/controllers/timetableController.js:41-53 | After a regeneration a slot is present iff it was present and is not a slot of the caller starting in `[startDate, endDate]`, or it is one of the created slots |
| TimetableController.RegenerateTwice | backend/controllers/timetableController.js:41-53 | Regenerating a range twice leaves the same collection as only the second regeneration, when the first run's slots are the caller's and start inside the range |
| TimetableController.RegenerateKeepsSlotsAfterEnd | backend/controllers/timetableController.js:42-45 | A slot of an earlier run that starts after the instant `endDate` survives the next regeneration of the same range |
| TimetableController.AssignGiven | backend/controllers/timetableController.js:123-128 | Start, end and status are overwritten only when supplied and truthy, the task reference whenever supplied (null included); id, owner and `autoGenerated` are kept; a start or end that is not a date is a cast failure |
| TimetableController.TimetableStore.GenerateTimetableSlots | backend/controllers/timetableController.js:10-71 | A missing or empty date answers 400; any other failure (a missing user record, a failing scheduling service, an unparsable date) answers 500 with nothing deleted; success iff both dates are dates, the user exists and the service returns; otherwise the collection becomes the old one without the caller's slots starting in the range, plus the generated slots stamped as the caller's, and the answer is a permutation of the inserted slots ordered by start, none of which existed before; ids stay unique |
| TimetableController.TimetableStore.GetDayTimetable | backend/controllers/timetableController.js:77-106 | 400 iff the date is missing or empty, 500 iff it is not a date; otherwise exactly the caller's slots (with multiplicity) that start on the calendar day of `date`, ordered by start; nothing changes |
| TimetableController.TimetableStore.UpdateTimetableSlot | backend/controllers/timetableController.js:112-143 | 404 iff no slot with that id belongs to the caller; succeeds iff the slot is found and no supplied start or end fails to parse, every other error being 500; any error changes nothing; on success only that slot is replaced, with the truthy start, end and status and any supplied task, whether or not the new end is after the new start |
| TimetableController.TimetableStore.MarkSlotDone | backend/controllers/timetableController.js:149-175 | 404 iff no slot with that id belongs to the caller; otherwise only that slot changes, and only its status, to "done"; marking a slot that is already done changes nothing |

## Left out

- The scheduling service `backend/services/scheduler.js` is not part of this model. It is a
  function parameter of the regeneration. `getSlotsForDay` is imported by the timetable handlers
  but never called.
- The `TimetableSlot` and `User` schemas are not part of this model. So are the slot validators
  they would run on save, such as allowed status values and required fields.
  - TimetableController.TimetableStore.UpdateTimetableSlot: succeeds whenever the slot is found and
    its dates parse, because the slot schema whose validation could refuse the save is not part of
    this model.
  - TimetableController.TimetableStore.MarkSlotDone: always succeeds once the slot is found, for the
    same reason.
- The HTTP layer is not modelled: routing, the authentication middleware that sets `req.user`,
  status codes beyond the three outcome classes, and response bodies and messages.
- `populate` of subjects and tasks is not modelled, because it only decorates the response.
- The re-read by id after a save is not modelled. It returns the saved document.
- Casting of request values is not modelled:
  - Ids in routes and bodies are taken to be well-formed. A malformed ObjectId, which makes Mongoose
    throw and the handler answer 500, is not modelled.
  - Strings given for numbers or booleans are not modelled.
  - Non-integer durations are not modelled.
  - JSON `null` in a task update is not modelled. Slot updates are different: `task: null` is
    modelled.
  - The request value for `completed` is taken to be a single string, not an array.
- Date strings are not parsed. A date parameter of the timetable handlers arrives as `Missing`
  (undefined or empty), `Unparsable`, or a timestamp in milliseconds. The task handlers receive a
  due date as milliseconds, or `None` when it is missing or unparsable. Both cases fail validation
  there, with the same 500.
  - Local time zones and daylight saving are not modelled. The day view uses fixed UTC-aligned days.
- The `updatedAt` timestamp is not modelled, because no handler reads it. `createdAt` is the time
  passed to the create call.
- Mongo's order among documents with equal sort keys is not modelled.
  - TaskController.TaskStore.GetTasks: orders ties on both keys by the collection order. Mongo
    leaves that order unspecified.
  - TimetableController.TimetableStore.GetDayTimetable: the same holds for ties on the start time.
  - TimetableController.TimetableStore.GenerateTimetableSlots: the same holds for ties on the start
    time.
- Concurrency is not modelled. This includes the window between the range deletion and the
  insertion, during which other requests see the range empty.
- Partial failure of `insertMany` is not modelled. The insertion either stores every generated
  slot, or the service call fails before anything is deleted.
- The React pages of the frontend are not modelled.
