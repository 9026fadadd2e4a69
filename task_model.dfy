/**
 * The Task document schema: field types, defaults, minimums, the required
 * paths, the `trim` setter on the title and the one custom validator, the
 * 24-hour `HH:MM` check on `preferredTime`.
 */
module TaskModel {
  import opened Base

  /** Document ids, allocated fresh by the store. */
  type TaskId = nat

  const DefaultDurationMinutes: int := 60
  const MinDurationMinutes: int := 1
  const DefaultPreferredTime: string := "09:00"

  /* ---------------------------------------------------------------------
   * The preferredTime validator: /^([0-1][0-9]|2[0-3]):[0-5][0-9]$/
   * ------------------------------------------------------------------- */

  predicate IsDigit(c: char) {
    '0' <= c <= '9'
  }

  /**
   * The regular expression, read alternative by alternative: an hour of
   * `0` or `1` followed by any digit, or `2` followed by `0`..`3`; a colon;
   * a minute tens digit `0`..`5` and any digit; anchored at both ends.
   */
  predicate IsValidTime(s: string) {
    && |s| == 5
    && (('0' <= s[0] <= '1' && IsDigit(s[1])) || (s[0] == '2' && '0' <= s[1] <= '3'))
    && s[2] == ':'
    && '0' <= s[3] <= '5'
    && IsDigit(s[4])
  }

  function DigitValue(c: char): (d: nat)
    requires IsDigit(c)
    ensures d < 10
  {
    (c as int - '0' as int) as nat
  }

  function DigitChar(d: nat): (c: char)
    requires d < 10
    ensures IsDigit(c) && DigitValue(c) == d
  {
    ('0' as int + d) as char
  }

  /** The hour and minute written by a string the validator accepts. */
  function ParseTime(s: string): (hm: (nat, nat))
    requires IsValidTime(s)
    ensures hm.0 < 24 && hm.1 < 60
  {
    (10 * DigitValue(s[0]) + DigitValue(s[1]), 10 * DigitValue(s[3]) + DigitValue(s[4]))
  }

  /** The zero-padded two-digit `HH:MM` rendering of an hour and a minute. */
  function FormatTime(h: nat, m: nat): (s: string)
    requires h < 100 && m < 100
    ensures |s| == 5 && s[2] == ':'
  {
    [DigitChar(h / 10), DigitChar(h % 10), ':', DigitChar(m / 10), DigitChar(m % 10)]
  }

  /** Every time of day, written as `HH:MM`, is accepted and reads back as itself. */
  lemma TimeOfDayIsValid(h: nat, m: nat)
    requires h < 24 && m < 60
    ensures IsValidTime(FormatTime(h, m))
    ensures ParseTime(FormatTime(h, m)) == (h, m)
  {
    var s := FormatTime(h, m);
    assert DigitValue(s[0]) == h / 10 && DigitValue(s[1]) == h % 10;
    assert DigitValue(s[3]) == m / 10 && DigitValue(s[4]) == m % 10;
  }

  /** Every accepted string is the `HH:MM` rendering of the time of day it denotes. */
  lemma ValidTimeIsTimeOfDay(s: string)
    requires IsValidTime(s)
    ensures FormatTime(ParseTime(s).0, ParseTime(s).1) == s
  {
    var (h, m) := ParseTime(s);
    var t := FormatTime(h, m);
    assert h / 10 == DigitValue(s[0]) && h % 10 == DigitValue(s[1]);
    assert m / 10 == DigitValue(s[3]) && m % 10 == DigitValue(s[4]);
    assert t[0] == s[0] && t[1] == s[1] && t[3] == s[3] && t[4] == s[4];
  }

  /** The accepted language, stated exactly: the renderings of hours 00..23 and minutes 00..59. */
  lemma ValidTimeIff(s: string)
    ensures IsValidTime(s) <==> exists h: nat, m: nat :: h < 24 && m < 60 && s == FormatTime(h, m)
  {
    if IsValidTime(s) {
      ValidTimeIsTimeOfDay(s);
      var (h, m) := ParseTime(s);
      assert h < 24 && m < 60 && s == FormatTime(h, m);
    }
    if exists h: nat, m: nat :: h < 24 && m < 60 && s == FormatTime(h, m) {
      var h: nat, m: nat :| h < 24 && m < 60 && s == FormatTime(h, m);
      TimeOfDayIsValid(h, m);
    }
  }

  /** Single-digit hours and out-of-range hours or minutes are refused; the default is accepted. */
  lemma TimeValidatorExamples()
    ensures IsValidTime(DefaultPreferredTime)
    ensures IsValidTime("00:00") && IsValidTime("23:59")
    ensures !IsValidTime("9:00") && !IsValidTime("24:00") && !IsValidTime("12:60")
    ensures !IsValidTime("09:00 ") && !IsValidTime("0900")
  {
  }

  /* ---------------------------------------------------------------------
   * The `trim: true` setter on the title (String.prototype.trim)
   * ------------------------------------------------------------------- */

  /** The white space and line terminators that String.prototype.trim removes. */
  predicate IsSpace(c: char) {
    || c == ' ' || c == '\t' || c == '\n' || c == '\r'
    || c == '\U{000B}' || c == '\U{000C}' || c == '\U{00A0}' || c == '\U{1680}'
    || ('\U{2000}' <= c <= '\U{200A}')
    || c == '\U{2028}' || c == '\U{2029}' || c == '\U{202F}' || c == '\U{205F}'
    || c == '\U{3000}' || c == '\U{FEFF}'
  }

  /** `s` without its leading white space: a suffix of `s` that starts with a non-space, if anything. */
  function TrimStart(s: string): (r: string)
    ensures |r| <= |s| && r == s[|s| - |r|..]
    ensures forall k :: 0 <= k < |s| - |r| ==> IsSpace(s[k])
    ensures r == [] || !IsSpace(r[0])
  {
    if s != [] && IsSpace(s[0]) then TrimStart(s[1..]) else s
  }

  /** `s` without its trailing white space: a prefix of `s` that ends with a non-space, if anything. */
  function TrimEnd(s: string): (r: string)
    ensures |r| <= |s| && r == s[..|r|]
    ensures forall k :: |r| <= k < |s| ==> IsSpace(s[k])
    ensures r == [] || !IsSpace(r[|r| - 1])
  {
    if s != [] && IsSpace(s[|s| - 1]) then TrimEnd(s[..|s| - 1]) else s
  }

  /** Neither starts nor ends with white space. */
  predicate IsTrimmed(s: string) {
    s == [] || (!IsSpace(s[0]) && !IsSpace(s[|s| - 1]))
  }

  /**
   * Dropping white space from the front of `s` (giving `t`) and then from
   * the back of `t` (giving `r`) leaves a slice of `s` with only white
   * space around it.
   */
  lemma StrippedIsSlice(s: string, t: string, r: string)
    requires |t| <= |s| && t == s[|s| - |t|..]
    requires forall k :: 0 <= k < |s| - |t| ==> IsSpace(s[k])
    requires |r| <= |t| && r == t[..|r|]
    requires forall k :: |r| <= k < |t| ==> IsSpace(t[k])
    ensures exists i, j :: 0 <= i <= j <= |s| && r == s[i..j]
                           && forall k :: (0 <= k < i || j <= k < |s|) ==> IsSpace(s[k])
  {
    var i := |s| - |t|;
    var j := i + |r|;
    assert r == s[i..j];
    forall k | j <= k < |s| ensures IsSpace(s[k]) {
      assert t[k - i] == s[k];
    }
  }

  /**
   * The title setter: `s` with its leading and trailing white space
   * removed and everything in between kept. The result is empty exactly
   * when `s` is all white space, and otherwise starts and ends with a
   * non-space character.
   */
  function Trim(s: string): (r: string)
    ensures |r| <= |s|
    ensures exists i, j :: 0 <= i <= j <= |s| && r == s[i..j]
                           && forall k :: (0 <= k < i || j <= k < |s|) ==> IsSpace(s[k])
    ensures r == [] <==> forall k :: 0 <= k < |s| ==> IsSpace(s[k])
    ensures IsTrimmed(r)
  {
    var t := TrimStart(s);
    var r := TrimEnd(t);
    StrippedIsSlice(s, t, r);
    assert r != [] ==> r[0] == t[0];
    if r == [] then
      assert t == [];
      r
    else
      assert !IsSpace(s[|s| - |t|]);
      r
  }

  /** The setter leaves a trimmed string as it is. */
  lemma TrimmedIsFixed(s: string)
    requires IsTrimmed(s)
    ensures Trim(s) == s
  {
    assert TrimStart(s) == s;
    assert TrimEnd(s) == s;
  }

  /** Assigning a title twice through the setter stores the same value as once. */
  lemma TrimIdempotent(s: string)
    ensures Trim(Trim(s)) == Trim(s)
  {
    TrimmedIsFixed(Trim(s));
  }

  /* ---------------------------------------------------------------------
   * Documents
   * ------------------------------------------------------------------- */

  /** A stored task. `createdAt` is the creation timestamp added by `timestamps: true`. */
  datatype Task = Task(
    id: TaskId,
    title: string,
    subject: SubjectId,
    durationMinutes: int,
    dueDate: int,
    preferredTime: string,
    completed: bool,
    user: UserId,
    createdAt: int)

  /**
   * A document as handed to the model before defaults and validation;
   * `None` is a path left undefined (for `dueDate`, also an unparsable date).
   */
  datatype TaskDraft = TaskDraft(
    title: Option<string>,
    subject: Option<SubjectId>,
    durationMinutes: Option<int>,
    dueDate: Option<int>,
    preferredTime: Option<string>,
    completed: Option<bool>,
    user: Option<UserId>)

  /** What every validator of the schema accepts, for a document whose required paths are set. */
  predicate ValidTask(t: Task) {
    && t.title != "" && IsTrimmed(t.title)
    && t.durationMinutes >= MinDurationMinutes
    && IsValidTime(t.preferredTime)
  }

  /** The schema paths whose validation fails for `d` once defaults are applied. */
  function FailingPaths(d: TaskDraft): (paths: set<string>)
    ensures paths <= {"title", "subject", "durationMinutes", "dueDate", "preferredTime", "user"}
  {
    (if d.title.None? || Trim(d.title.value) == "" then {"title"} else {})
    + (if d.subject.None? then {"subject"} else {})
    + (if d.durationMinutes.Some? && d.durationMinutes.value < MinDurationMinutes then {"durationMinutes"} else {})
    + (if d.dueDate.None? then {"dueDate"} else {})
    + (if d.preferredTime.Some? && !IsValidTime(d.preferredTime.value) then {"preferredTime"} else {})
    + (if d.user.None? then {"user"} else {})
  }

  /**
   * Creating a document: defaults fill the undefined paths (60 minutes,
   * "09:00", not completed), the title goes through the setter, and the
   * document is stored only if every validator passes; otherwise the
   * failing paths are reported.
   */
  function Instantiate(d: TaskDraft, id: TaskId, createdAt: int): (r: Result<Task, set<string>>)
    ensures r.Ok? <==>
      && d.title.Some? && Trim(d.title.value) != ""
      && d.subject.Some? && d.dueDate.Some? && d.user.Some?
      && (d.durationMinutes.None? || d.durationMinutes.value >= MinDurationMinutes)
      && (d.preferredTime.None? || IsValidTime(d.preferredTime.value))
    ensures r.Err? ==> r.error != {}
    ensures r.Ok? ==> ValidTask(r.value)
    ensures r.Ok? ==> r.value.id == id && r.value.createdAt == createdAt
    ensures r.Ok? ==> r.value.title == Trim(d.title.value) && r.value.subject == d.subject.value
    ensures r.Ok? ==> r.value.dueDate == d.dueDate.value && r.value.user == d.user.value
    ensures r.Ok? ==> r.value.durationMinutes == (if d.durationMinutes.None? then DefaultDurationMinutes else d.durationMinutes.value)
    ensures r.Ok? ==> r.value.preferredTime == (if d.preferredTime.None? then DefaultPreferredTime else d.preferredTime.value)
    ensures r.Ok? ==> r.value.completed == (d.completed.Some? && d.completed.value)
  {
    var paths := FailingPaths(d);
    if paths != {} then Err(paths)
    else
      Ok(Task(
        id,
        Trim(d.title.value),
        d.subject.value,
        if d.durationMinutes.None? then DefaultDurationMinutes else d.durationMinutes.value,
        d.dueDate.value,
        if d.preferredTime.None? then DefaultPreferredTime else d.preferredTime.value,
        if d.completed.None? then false else d.completed.value,
        d.user.value,
        createdAt))
  }

  /** A document missing any required path (title, subject, dueDate, user) is refused, and that path is reported. */
  lemma MissingRequiredPathRejected(d: TaskDraft, id: TaskId, createdAt: int)
    requires d.title.None? || d.subject.None? || d.dueDate.None? || d.user.None?
    ensures Instantiate(d, id, createdAt).Err?
    ensures d.title.None? ==> "title" in Instantiate(d, id, createdAt).error
    ensures d.subject.None? ==> "subject" in Instantiate(d, id, createdAt).error
    ensures d.dueDate.None? ==> "dueDate" in Instantiate(d, id, createdAt).error
    ensures d.user.None? ==> "user" in Instantiate(d, id, createdAt).error
  {
  }

  /**
   * A refused document reports exactly its failing paths: a title that is
   * missing or all white space, a missing subject, due date or owner, a
   * duration below the minimum, and a preferred time the validator refuses.
   */
  lemma FailingPathsReported(d: TaskDraft, id: TaskId, createdAt: int)
    ensures var r := Instantiate(d, id, createdAt);
      r.Err? ==>
        && ("title" in r.error <==> d.title.None? || Trim(d.title.value) == "")
        && ("subject" in r.error <==> d.subject.None?)
        && ("durationMinutes" in r.error <==> d.durationMinutes.Some? && d.durationMinutes.value < MinDurationMinutes)
        && ("dueDate" in r.error <==> d.dueDate.None?)
        && ("preferredTime" in r.error <==> d.preferredTime.Some? && !IsValidTime(d.preferredTime.value))
        && ("user" in r.error <==> d.user.None?)
  {
  }

  /** A supplied duration below one minute, a refused time or an all-white-space title is refused and reported. */
  lemma InvalidValueReported(d: TaskDraft, id: TaskId, createdAt: int)
    requires || (d.title.Some? && forall k :: 0 <= k < |d.title.value| ==> IsSpace(d.title.value[k]))
             || (d.durationMinutes.Some? && d.durationMinutes.value < MinDurationMinutes)
             || (d.preferredTime.Some? && !IsValidTime(d.preferredTime.value))
    ensures Instantiate(d, id, createdAt).Err?
    ensures d.title.Some? && (forall k :: 0 <= k < |d.title.value| ==> IsSpace(d.title.value[k]))
            ==> "title" in Instantiate(d, id, createdAt).error
    ensures d.durationMinutes.Some? && d.durationMinutes.value < MinDurationMinutes
            ==> "durationMinutes" in Instantiate(d, id, createdAt).error
    ensures d.preferredTime.Some? && !IsValidTime(d.preferredTime.value)
            ==> "preferredTime" in Instantiate(d, id, createdAt).error
  {
    FailingPathsReported(d, id, createdAt);
  }

  /** The draft a save validates: every path of the stored document set. */
  function AsDraft(t: Task): (d: TaskDraft)
    ensures d.title.Some? && d.subject.Some? && d.dueDate.Some? && d.user.Some?
  {
    TaskDraft(Some(t.title), Some(t.subject), Some(t.durationMinutes), Some(t.dueDate),
              Some(t.preferredTime), Some(t.completed), Some(t.user))
  }

  /**
   * `ValidTask` is what saving a document checks: a document passes every
   * validator of the schema, and is stored exactly as it is, iff it is valid.
   */
  lemma {:induction false} SaveAcceptsExactlyValid(t: Task)
    ensures Instantiate(AsDraft(t), t.id, t.createdAt) == Ok(t) <==> ValidTask(t)
  {
    if ValidTask(t) {
      TrimmedIsFixed(t.title);
    }
  }

  /** With only the required paths given, the defaults are what gets stored, and they pass validation. */
  lemma DefaultsAreValid(title: string, subject: SubjectId, dueDate: int, user: UserId, id: TaskId, createdAt: int)
    requires Trim(title) != ""
    ensures var r := Instantiate(TaskDraft(Some(title), Some(subject), None, Some(dueDate), None, None, Some(user)), id, createdAt);
      && r.Ok?
      && r.value.durationMinutes == 60
      && r.value.preferredTime == "09:00"
      && !r.value.completed
  {
    TimeValidatorExamples();
  }
}
