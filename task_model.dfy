/** The `Task` schema: `title` and `details` (trimmed, bounded), an optional
    due `date` not before the start of today, an optional `HH:mm` `hour`, a
    `status` from a fixed list with a default, and the owner's `userId`.
    Dates are whole milliseconds; the start of the current day is a parameter. */
module TaskModel {
  import opened Wrappers
  import opened JsText

  type TaskId = nat
  type OwnerId = nat

  const MaxTitle: nat := 50
  const MaxDetails: nat := 500

  const ToDo := "Por hacer"
  const Doing := "Haciendo"
  const Done := "Hecho"

  /** The `enum` of `status`. */
  predicate IsStatus(s: string)
  {
    s == ToDo || s == Doing || s == Done
  }

  datatype TaskField = Title | Details | Date | Hour | Status | UserId

  /** The paths a request body may carry (`None`: absent). */
  datatype TaskBody = TaskBody(
    title: Option<string>,
    details: Option<string>,
    date: Option<int>,
    hour: Option<string>,
    status: Option<string>)

  /** A stored task. */
  datatype TaskRecord = TaskRecord(
    title: string,
    details: string,
    date: Option<int>,
    hour: Option<string>,
    status: string,
    userId: OwnerId)

  // ------------------------------------------------------------ the hour pattern

  predicate InRange(c: char, lo: char, hi: char) { lo <= c <= hi }

  /** `^([01]\d|2[0-3]):([0-5]\d)$` */
  predicate HourPattern(s: string)
  {
    && |s| == 5
    && ((InRange(s[0], '0', '1') && IsDigit(s[1])) || (s[0] == '2' && InRange(s[1], '0', '3')))
    && s[2] == ':'
    && InRange(s[3], '0', '5') && IsDigit(s[4])
  }

  function TwoDigits(n: nat): (s: string)
    requires n < 100
    ensures |s| == 2 && IsDigit(s[0]) && IsDigit(s[1])
    ensures DigitValue(s[0]) == n / 10 && DigitValue(s[1]) == n % 10
  {
    [DigitChar(n / 10), DigitChar(n % 10)]
  }

  /** The `HH:mm` text of a time of day. */
  function HourText(h: nat, m: nat): string
    requires h < 24 && m < 60
  {
    TwoDigits(h) + ":" + TwoDigits(m)
  }

  /** The `HH:mm` text of a time of day matches the pattern. */
  lemma {:induction false} HourTextMatches(h: nat, m: nat)
    requires h < 24 && m < 60
    ensures HourPattern(HourText(h, m))
  {
    var t := HourText(h, m);
    assert t[0] == TwoDigits(h)[0] && t[1] == TwoDigits(h)[1];
    assert t[3] == TwoDigits(m)[0] && t[4] == TwoDigits(m)[1];
  }

  /** A text the pattern accepts is the `HH:mm` text of the time it reads as. */
  lemma {:induction false} HourPatternReads(s: string)
    requires HourPattern(s)
    ensures var h := 10 * DigitValue(s[0]) + DigitValue(s[1]);
            var m := 10 * DigitValue(s[3]) + DigitValue(s[4]);
            h < 24 && m < 60 && s == HourText(h, m)
  {
    var h: nat := 10 * DigitValue(s[0]) + DigitValue(s[1]);
    var m: nat := 10 * DigitValue(s[3]) + DigitValue(s[4]);
    assert h < 24 && m < 60;
    var t := HourText(h, m);
    assert t[0] == s[0] && t[1] == s[1] && t[2] == s[2] && t[3] == s[3] && t[4] == s[4];
  }

  /** The pattern accepts exactly the `HH:mm` texts of the times of day from
      00:00 to 23:59. */
  lemma {:induction false} HourPatternIsTimeOfDay(s: string)
    ensures HourPattern(s) <==> exists h: nat, m: nat :: h < 24 && m < 60 && s == HourText(h, m)
  {
    if HourPattern(s) {
      HourPatternReads(s);
      var h: nat := 10 * DigitValue(s[0]) + DigitValue(s[1]);
      var m: nat := 10 * DigitValue(s[3]) + DigitValue(s[4]);
      assert h < 24 && m < 60 && s == HourText(h, m);
    }
    if exists h: nat, m: nat :: h < 24 && m < 60 && s == HourText(h, m) {
      var h: nat, m: nat :| h < 24 && m < 60 && s == HourText(h, m);
      HourTextMatches(h, m);
    }
  }

  // ------------------------------------------------------------ validators

  /** `required` and `maxlength: 50`, on the trimmed value. */
  predicate TitleOk(title: string) { title != "" && |title| <= MaxTitle }
  /** `maxlength: 500`, on the trimmed value. */
  predicate DetailsOk(details: string) { |details| <= MaxDetails }
  /** `!value || value >= new Date().setHours(0, 0, 0, 0)` */
  predicate DateOk(date: Option<int>, todayStart: int) { date.None? || date.value >= todayStart }
  /** `!value || /^([01]\d|2[0-3]):([0-5]\d)$/.test(value)` */
  predicate HourOk(hour: Option<string>) { hour.None? || hour.value == "" || HourPattern(hour.value) }
  /** `required` and `enum` */
  predicate StatusOk(status: string) { status != "" && IsStatus(status) }

  /** What holds of every stored task whatever the day: the checks that do not
      depend on the clock. Titles and details are trimmed. */
  predicate RecordValid(t: TaskRecord)
  {
    && TitleOk(t.title) && IsTrimmed(t.title)
    && DetailsOk(t.details) && IsTrimmed(t.details)
    && HourOk(t.hour)
    && StatusOk(t.status)
  }

  const AllFields: set<TaskField> := {Title, Details, Date, Hour, Status, UserId}

  lemma {:induction false} AllFieldsComplete()
    ensures forall fld: TaskField :: fld in AllFields
  {
    forall fld: TaskField ensures fld in AllFields {
      match fld
      case Title =>
      case Details =>
      case Date =>
      case Hour =>
      case Status =>
      case UserId =>
    }
  }

  /** Whether path `fld` of a task about to be created passes its validators. */
  predicate CreateFieldOk(t: TaskRecord, owner: Option<OwnerId>, todayStart: int, fld: TaskField)
  {
    match fld
    case Title => TitleOk(t.title)
    case Details => DetailsOk(t.details)
    case Date => DateOk(t.date, todayStart)
    case Hour => HourOk(t.hour)
    case Status => StatusOk(t.status)
    case UserId => owner.Some?
  }

  /** Every validator of a task about to be created passes. */
  predicate CreateValid(t: TaskRecord, owner: Option<OwnerId>, todayStart: int)
  {
    TitleOk(t.title) && DetailsOk(t.details) && DateOk(t.date, todayStart)
    && HourOk(t.hour) && StatusOk(t.status) && owner.Some?
  }

  /** The failing paths of a task about to be created. */
  function CreateFailures(t: TaskRecord, owner: Option<OwnerId>, todayStart: int): (f: set<TaskField>)
    ensures forall fld :: fld in f <==> !CreateFieldOk(t, owner, todayStart, fld)
    ensures f == {} <==> CreateValid(t, owner, todayStart)
  {
    AllFieldsComplete();
    var f := set fld | fld in AllFields && !CreateFieldOk(t, owner, todayStart, fld);
    assert !TitleOk(t.title) ==> Title in f;
    assert !DetailsOk(t.details) ==> Details in f;
    assert !DateOk(t.date, todayStart) ==> Date in f;
    assert !HourOk(t.hour) ==> Hour in f;
    assert !StatusOk(t.status) ==> Status in f;
    assert owner.None? ==> UserId in f;
    f
  }

  function OrElse(o: Option<string>, d: string): string
  {
    if o.Some? then o.value else d
  }

  /** The document `new task({ title, details, date, hour, status, userId })`
      builds: the `trim` setters run, `details` defaults to "" and `status`
      to "Por hacer" when absent; an absent title is the empty text, which
      fails `required`. */
  function Built(body: TaskBody, owner: Option<OwnerId>): TaskRecord
  {
    TaskRecord(Trim(OrElse(body.title, "")), Trim(OrElse(body.details, "")), body.date, body.hour,
               OrElse(body.status, ToDo), if owner.Some? then owner.value else 0)
  }

  /** `new task(...)` and `save()`: every validator runs on the built
      document; it is stored exactly when all of them pass, and otherwise
      the failing paths are reported. */
  function NewTask(body: TaskBody, owner: Option<OwnerId>, todayStart: int)
    : (r: Result<TaskRecord, set<TaskField>>)
    ensures r.Success? <==>
              && owner.Some? && body.title.Some? && TitleOk(Trim(body.title.value))
              && (body.details.None? || DetailsOk(Trim(body.details.value)))
              && DateOk(body.date, todayStart) && HourOk(body.hour)
              && (body.status.None? || StatusOk(body.status.value))
    ensures r.Success? ==>
              && RecordValid(r.value) && DateOk(r.value.date, todayStart)
              && Some(r.value.userId) == owner
              && r.value.title == Trim(body.title.value)
              && r.value.details == (if body.details.Some? then Trim(body.details.value) else "")
              && r.value.status == (if body.status.Some? then body.status.value else ToDo)
              && r.value.date == body.date && r.value.hour == body.hour
    ensures r.Failure? ==> r.error == CreateFailures(Built(body, owner), owner, todayStart) && r.error != {}
    ensures body.title.None? ==> r.Failure? && Title in r.error
  {
    var t := Built(body, owner);
    assert body.title.None? ==> t.title == "";
    if CreateValid(t, owner, todayStart) then Success(t)
    else Failure(CreateFailures(t, owner, todayStart))
  }

  /** The paths a creation reports are those an update with the same body
      would report, plus the title when it is absent and the owner when
      there is none. */
  lemma {:induction false} NewTaskFailures(body: TaskBody, owner: Option<OwnerId>, todayStart: int)
    ensures CreateFailures(Built(body, owner), owner, todayStart) ==
              UpdateFailures(body, todayStart)
              + (if body.title.None? then {Title} else {})
              + (if owner.None? then {UserId} else {})
  {
    var cf := CreateFailures(Built(body, owner), owner, todayStart);
    var uf := UpdateFailures(body, todayStart)
              + (if body.title.None? then {Title} else {})
              + (if owner.None? then {UserId} else {});
    forall fld ensures fld in cf <==> fld in uf {
      match fld
      case Title =>
      case Details =>
      case Date =>
      case Hour =>
      case Status =>
      case UserId =>
    }
  }

  /** Whether path `fld` of an update passes its validators: only the paths
      present in the `$set` are checked, on their trimmed values. */
  predicate UpdateFieldOk(body: TaskBody, todayStart: int, fld: TaskField)
  {
    match fld
    case Title => body.title.None? || TitleOk(Trim(body.title.value))
    case Details => body.details.None? || DetailsOk(Trim(body.details.value))
    case Date => DateOk(body.date, todayStart)
    case Hour => HourOk(body.hour)
    case Status => body.status.None? || StatusOk(body.status.value)
    case UserId => true
  }

  /** Every validator of the paths an update sets passes. */
  predicate UpdateValid(body: TaskBody, todayStart: int)
  {
    && (body.title.None? || TitleOk(Trim(body.title.value)))
    && (body.details.None? || DetailsOk(Trim(body.details.value)))
    && DateOk(body.date, todayStart)
    && HourOk(body.hour)
    && (body.status.None? || StatusOk(body.status.value))
  }

  /** The failing paths of `findByIdAndUpdate(id, { title, details, date,
      hour, status }, { runValidators: true })`: absent keys are dropped from
      the `$set`, the `trim` setters run on the others, and only the validators
      of the paths being set run (no defaults are applied). */
  function UpdateFailures(body: TaskBody, todayStart: int): (f: set<TaskField>)
    ensures forall fld :: fld in f <==> !UpdateFieldOk(body, todayStart, fld)
    ensures f == {} <==> UpdateValid(body, todayStart)
  {
    AllFieldsComplete();
    var f := set fld | fld in AllFields && !UpdateFieldOk(body, todayStart, fld);
    assert !UpdateFieldOk(body, todayStart, Title) ==> Title in f;
    assert !UpdateFieldOk(body, todayStart, Details) ==> Details in f;
    assert !UpdateFieldOk(body, todayStart, Date) ==> Date in f;
    assert !UpdateFieldOk(body, todayStart, Hour) ==> Hour in f;
    assert !UpdateFieldOk(body, todayStart, Status) ==> Status in f;
    f
  }

  /** The updated task: present paths replaced by their (trimmed) values,
      absent ones and the owner kept; or the failing paths. */
  function ApplyUpdate(t: TaskRecord, body: TaskBody, todayStart: int)
    : (r: Result<TaskRecord, set<TaskField>>)
    ensures r.Failure? <==> !UpdateValid(body, todayStart)
    ensures r.Failure? ==> r.error == UpdateFailures(body, todayStart) && r.error != {}
    ensures r.Success? ==>
              && r.value.userId == t.userId
              && r.value.title == (if body.title.Some? then Trim(body.title.value) else t.title)
              && r.value.details == (if body.details.Some? then Trim(body.details.value) else t.details)
              && r.value.date == (if body.date.Some? then body.date else t.date)
              && r.value.hour == (if body.hour.Some? then body.hour else t.hour)
              && r.value.status == (if body.status.Some? then body.status.value else t.status)
    ensures r.Success? && RecordValid(t) ==> RecordValid(r.value)
  {
    if !UpdateValid(body, todayStart) then Failure(UpdateFailures(body, todayStart))
    else Success(TaskRecord(
      if body.title.Some? then Trim(body.title.value) else t.title,
      if body.details.Some? then Trim(body.details.value) else t.details,
      if body.date.Some? then body.date else t.date,
      if body.hour.Some? then body.hour else t.hour,
      if body.status.Some? then body.status.value else t.status,
      t.userId))
  }

  /** An update with an empty body keeps the task as it is. */
  lemma {:induction false} EmptyUpdateKeeps(t: TaskRecord, todayStart: int)
    ensures ApplyUpdate(t, TaskBody(None, None, None, None, None), todayStart) == Success(t)
  {
  }

  /** With every path present, an update checks the same paths as a creation
      for the same owner and finds the same ones failing. */
  lemma {:induction false} FailuresAgree(body: TaskBody, owner: OwnerId, todayStart: int)
    requires body.title.Some? && body.details.Some? && body.status.Some?
    ensures var rec := TaskRecord(Trim(body.title.value), Trim(body.details.value), body.date,
                                  body.hour, body.status.value, owner);
            && (CreateValid(rec, Some(owner), todayStart) <==> UpdateValid(body, todayStart))
            && CreateFailures(rec, Some(owner), todayStart) == UpdateFailures(body, todayStart)
  {
    var rec := TaskRecord(Trim(body.title.value), Trim(body.details.value), body.date,
                          body.hour, body.status.value, owner);
    var cf := CreateFailures(rec, Some(owner), todayStart);
    var uf := UpdateFailures(body, todayStart);
    forall fld ensures fld in cf <==> fld in uf {
      match fld
      case Title =>
      case Details =>
      case Date =>
      case Hour =>
      case Status =>
      case UserId =>
    }
  }

  /** An update that sets every path validates and stores exactly what
      creating the task from the same body for the same owner would: the
      same checks, the same failing paths, the same task. */
  lemma {:induction false} FullUpdateIsCreate(t: TaskRecord, body: TaskBody, todayStart: int)
    requires body.title.Some? && body.details.Some? && body.status.Some?
    requires body.date.Some? && body.hour.Some?
    ensures ApplyUpdate(t, body, todayStart) == NewTask(body, Some(t.userId), todayStart)
  {
    var rec := TaskRecord(Trim(body.title.value), Trim(body.details.value), body.date, body.hour,
                          body.status.value, t.userId);
    assert OrElse(body.title, "") == body.title.value && OrElse(body.details, "") == body.details.value;
    assert OrElse(body.status, ToDo) == body.status.value;
    FailuresAgree(body, t.userId, todayStart);
    if UpdateValid(body, todayStart) {
      assert ApplyUpdate(t, body, todayStart) == Success(rec);
    } else {
      assert ApplyUpdate(t, body, todayStart) == Failure(UpdateFailures(body, todayStart));
    }
  }
}
