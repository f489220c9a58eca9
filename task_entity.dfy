/** The server-side `Task` entity: its default construction, its textual form,
    the description-length constraint and the status it reports for a date. */
module TaskEntity {
  import opened Wrappers

  /** A calendar date, as a day number: later dates have larger numbers. */
  type Day = int

  /** The days field of a calendar period between two ordered dates
      (`Period.getDays()`): what is left over after whole months, so at most 30. */
  type DaysField = n: int | 0 <= n <= 30

  /** The kinds of task; a task stores the ordinal of its kind. */
  datatype TaskType = DATA | PRAZO | LIVRE

  /** `TaskType.values()`, in declaration order. */
  const TaskTypeValues: seq<TaskType> := [DATA, PRAZO, LIVRE]

  function Ordinal(k: TaskType): (i: nat)
    ensures i < |TaskTypeValues| && TaskTypeValues[i] == k
  {
    match k
    case DATA => 0
    case PRAZO => 1
    case LIVRE => 2
  }

  /** The entity's fields; boxed Java fields may be null, `dueDays` is a primitive int. */
  datatype Task = Task(
    id: Option<int>,
    name: Option<string>,
    description: Option<string>,
    completed: Option<bool>,
    taskType: Option<int>,
    dueDate: Option<Day>,
    dueDays: int,
    priorityLevel: Option<int>,
    category: Option<string>)

  /** The no-argument constructor: every reference field is null except `taskType`,
      which its initialiser sets to the ordinal of DATA; `dueDays` is 0. */
  function NewTask(): (t: Task)
    ensures t.taskType == Some(Ordinal(DATA)) && TaskTypeValues[t.taskType.value] == DATA
    ensures t.name == None && t.description == None && t.completed == None
    ensures t.id == None && t.dueDate == None && t.dueDays == 0
    ensures t.priorityLevel == None && t.category == None
  {
    Task(None, None, None, None, Some(Ordinal(DATA)), None, 0, None, None)
  }

  /** The constructor `Task(Object, String, String)`: its body is empty, so only the
      field initialiser runs and the arguments are dropped. */
  function NewTaskFrom<O>(o: O, newTask: Option<string>, newDescription: Option<string>): (t: Task)
    ensures t.name == None && t.description == None
    ensures t.taskType == Some(Ordinal(DATA))
  {
    NewTask()
  }

  lemma NewTaskFromIgnoresArguments<O>(o1: O, o2: O, n1: Option<string>, n2: Option<string>,
                                       d1: Option<string>, d2: Option<string>)
    ensures NewTaskFrom(o1, n1, d1) == NewTaskFrom(o2, n2, d2) == NewTask()
  {
  }

  /** `isTaskTypeNull()`. */
  predicate IsTaskTypeNull(t: Task): (r: bool)
    ensures r <==> t.taskType == None
    ensures r ==> !StatusDefined(t)
  {
    t.taskType.None?
  }

  // ---------------------------------------------------------------------------
  // Description constraint

  /** The least description length that `@Size(min = 10)` accepts. */
  const MinDescriptionLength: nat := 10

  /** `@Size(min = 10)` on `description`. Bean Validation treats a null value as
      valid for `@Size`; the default upper bound is never reached by a Java string. */
  predicate DescriptionSizeValid(description: Option<string>): (r: bool)
    ensures description.None? ==> r
    ensures description.Some? ==> (r <==> |description.value| >= 10)
  {
    match description
    case None => true
    case Some(s) => MinDescriptionLength <= |s|
  }

  // ---------------------------------------------------------------------------
  // Text of numbers, as Java's string concatenation writes them

  predicate IsDigit(c: char) {
    '0' <= c <= '9'
  }

  function Digit(d: nat): (c: char)
    requires d < 10
    ensures IsDigit(c) && c as int - '0' as int == d
  {
    ('0' as int + d) as char
  }

  /** Decimal digits of a natural number, without leading zeros. */
  function NatText(n: nat): (s: string)
    ensures 0 < |s|
    ensures forall i :: 0 <= i < |s| ==> IsDigit(s[i])
    ensures n < 10 <==> |s| == 1
  {
    if n < 10 then [Digit(n)] else NatText(n / 10) + [Digit(n % 10)]
  }

  /** `Long.toString`: a minus sign for negative numbers, then the digits. */
  function IntText(n: int): (s: string)
    ensures 0 < |s|
    ensures n >= 0 ==> s == NatText(n)
    ensures s[0] == '-' <==> n < 0
    ensures n < 0 ==> s == "-" + NatText(-n)
  {
    if n < 0 then "-" + NatText(-n) else NatText(n)
  }

  /** Distinct numbers have distinct decimal texts. */
  lemma {:induction false} NatTextInjective(a: nat, b: nat)
    requires NatText(a) == NatText(b)
    ensures a == b
  {
    var s := NatText(a);
    if a < 10 {
      assert b < 10;
      assert Digit(a) == s[0] == Digit(b);
    } else {
      assert b >= 10;
      assert Digit(a % 10) == s[|s| - 1] == Digit(b % 10);
      assert NatText(a / 10) == s[..|s| - 1] == NatText(b / 10);
      NatTextInjective(a / 10, b / 10);
    }
  }

  // ---------------------------------------------------------------------------
  // Status

  /** The four texts `getStatus()` can return. */
  datatype Status = Concluded | Late(days: DaysField) | Expected | InvalidType

  const LateSuffix: string := " dias de atraso"

  function StatusText(s: Status): (r: string)
    ensures s.Late? ==>
              |r| > |LateSuffix| && r[|r| - |LateSuffix|..] == LateSuffix &&
              r[..|r| - |LateSuffix|] == NatText(s.days)
    ensures r == "Conclu\U{ed}da" <==> s.Concluded?
    ensures r == "Prevista" <==> s.Expected?
    ensures r == "Tipo de tarefa inv\U{e1}lido" <==> s.InvalidType?
  {
    match s
    case Concluded => "Conclu\U{ed}da"
    case Late(n) => IntText(n) + LateSuffix
    case Expected => "Prevista"
    case InvalidType => "Tipo de tarefa inv\U{e1}lido"
  }

  /** A status text names exactly one status. */
  lemma StatusTextInjective(a: Status, b: Status)
    requires StatusText(a) == StatusText(b)
    ensures a == b
  {
    var s := StatusText(a);
    if a.Late? || b.Late? {
      assert IsDigit(s[0]);
      assert a.Late? && b.Late?;
      var x, y := IntText(a.days), IntText(b.days);
      assert |x| == |y|;
      assert x == s[..|x|] == y;
      NatTextInjective(a.days, b.days);
    }
  }

  /** The exceptions `getStatus()` can throw. */
  datatype JavaException = NullPointerException | ArrayIndexOutOfBoundsException

  /** `getStatus()` neither throws nor unboxes a null: the type is a valid
      ordinal and `completed` is set. */
  predicate StatusDefined(t: Task) {
    t.taskType.Some? && 0 <= t.taskType.value < |TaskTypeValues| && t.completed.Some?
  }

  /** `getStatus()`, with `LocalDate.now()` passed in as `today` and the days field of
      `Period.between(from, to)` as `periodDays`. */
  function GetStatus(t: Task, today: Day, periodDays: (Day, Day) -> DaysField)
    : (r: Result<Status, JavaException>)
    ensures r.Success? <==> StatusDefined(t)
    ensures t.taskType.None? ==> r == Failure(NullPointerException)
    ensures t.taskType.Some? && !(0 <= t.taskType.value < |TaskTypeValues|) ==>
              r == Failure(ArrayIndexOutOfBoundsException)
    ensures t.taskType.Some? && 0 <= t.taskType.value < |TaskTypeValues| && t.completed.None? ==>
              r == Failure(NullPointerException)
    ensures r.Success? ==> r.value != InvalidType
    ensures r.Success? ==> (r.value == Concluded <==> t.completed == Some(true))
  {
    match t.taskType
    case None => Failure(NullPointerException)
    case Some(k) =>
      if !(0 <= k < |TaskTypeValues|) then Failure(ArrayIndexOutOfBoundsException)
      else
        match TaskTypeValues[k]
        case DATA =>
          if t.completed.None? then Failure(NullPointerException)
          else if t.completed.value then Success(Concluded)
          else if t.dueDate.Some? && t.dueDate.value < today then
            Success(Late(periodDays(t.dueDate.value, today)))
          else Success(Expected)
        case PRAZO =>
          if t.completed.None? then Failure(NullPointerException)
          else if t.completed.value then Success(Concluded)
          else if t.dueDate.Some? && today > t.dueDate.value + t.dueDays then
            Success(Late(periodDays(t.dueDate.value + t.dueDays, today)))
          else Success(Expected)
        case LIVRE =>
          if t.completed.None? then Failure(NullPointerException)
          else Success(if t.completed.value then Concluded else Expected)
  }

  /** The day after which a task counts as late: its due date for DATA, the due
      date plus `dueDays` for PRAZO, none for LIVRE or without a due date. */
  function Deadline(t: Task): Option<Day>
    requires StatusDefined(t)
  {
    if t.dueDate.None? then None
    else match TaskTypeValues[t.taskType.value]
      case DATA => Some(t.dueDate.value)
      case PRAZO => Some(t.dueDate.value + t.dueDays)
      case LIVRE => None
  }

  /** One rule for all three kinds: done, else late past the deadline, else expected. */
  lemma StatusFollowsDeadline(t: Task, today: Day, periodDays: (Day, Day) -> DaysField)
    requires StatusDefined(t)
    ensures GetStatus(t, today, periodDays) == Success(
              if t.completed.value then Concluded
              else if Deadline(t).Some? && Deadline(t).value < today
              then Late(periodDays(Deadline(t).value, today))
              else Expected)
  {
  }

  lemma CompletedIsConcluded(t: Task, today: Day, periodDays: (Day, Day) -> DaysField)
    requires t.taskType.Some? && t.taskType.value in {Ordinal(DATA), Ordinal(PRAZO), Ordinal(LIVRE)}
    requires t.completed == Some(true)
    ensures GetStatus(t, today, periodDays) == Success(Concluded)
  {
  }

  lemma DataLateIff(t: Task, today: Day, periodDays: (Day, Day) -> DaysField)
    requires t.taskType == Some(Ordinal(DATA)) && t.completed == Some(false)
    ensures GetStatus(t, today, periodDays).Success?
    ensures GetStatus(t, today, periodDays).value.Late? <==>
              t.dueDate.Some? && t.dueDate.value < today
    ensures !GetStatus(t, today, periodDays).value.Late? ==>
              GetStatus(t, today, periodDays).value == Expected
  {
  }

  lemma PrazoLateIff(t: Task, today: Day, periodDays: (Day, Day) -> DaysField)
    requires t.taskType == Some(Ordinal(PRAZO)) && t.completed == Some(false)
    ensures GetStatus(t, today, periodDays).Success?
    ensures GetStatus(t, today, periodDays).value.Late? <==>
              t.dueDate.Some? && today > t.dueDate.value + t.dueDays
    ensures !GetStatus(t, today, periodDays).value.Late? ==>
              GetStatus(t, today, periodDays).value == Expected
  {
  }

  /** A PRAZO task with no extra days has the status the same task would have as DATA. */
  lemma PrazoWithoutDaysIsData(t: Task, today: Day, periodDays: (Day, Day) -> DaysField)
    requires t.taskType == Some(Ordinal(PRAZO)) && t.dueDays == 0
    ensures GetStatus(t, today, periodDays)
              == GetStatus(t.(taskType := Some(Ordinal(DATA))), today, periodDays)
  {
  }

  lemma LivreIgnoresSchedule(t: Task, dueDate: Option<Day>, dueDays: int, today: Day,
                             periodDays: (Day, Day) -> DaysField)
    requires t.taskType == Some(Ordinal(LIVRE))
    ensures GetStatus(t.(dueDate := dueDate, dueDays := dueDays), today, periodDays)
              == GetStatus(t, today, periodDays)
    ensures t.completed == Some(false) ==> GetStatus(t, today, periodDays) == Success(Expected)
  {
  }

  /** The late count is a days field, not the elapsed days: once more than 30 days
      have passed since the deadline it is strictly smaller than the elapsed count. */
  lemma LateCountIsDaysField(t: Task, today: Day, periodDays: (Day, Day) -> DaysField)
    requires StatusDefined(t)
    requires GetStatus(t, today, periodDays).value.Late?
    ensures Deadline(t).Some? && Deadline(t).value < today
    ensures var n := GetStatus(t, today, periodDays).value.days;
            0 <= n <= 30 && (today - Deadline(t).value > 30 ==> n < today - Deadline(t).value)
  {
  }

  /** `isTaskTypeNull()` predicts that `getStatus()` throws a NullPointerException. */
  lemma NullTaskTypeThrows(t: Task, today: Day, periodDays: (Day, Day) -> DaysField)
    ensures IsTaskTypeNull(t) ==> GetStatus(t, today, periodDays) == Failure(NullPointerException)
    ensures GetStatus(t, today, periodDays) == Failure(ArrayIndexOutOfBoundsException) ==>
              !IsTaskTypeNull(t)
  {
  }

  // ---------------------------------------------------------------------------
  // Text form

  function NullableText(v: Option<string>): string {
    match v
    case None => "null"
    case Some(s) => s
  }

  function BoxedIntText(v: Option<int>): string {
    match v
    case None => "null"
    case Some(n) => IntText(n)
  }

  function BoxedBoolText(v: Option<bool>): string {
    match v
    case None => "null"
    case Some(b) => if b then "true" else "false"
  }

  /** `toString()`: id, name, description, completed, taskType, priorityLevel and
      category, in that order; the schedule fields are not part of it. */
  function ToString(t: Task): (s: string)
    ensures |s| > 9 && s[..9] == "Task [id=" && s[|s| - 1] == ']'
  {
    "Task [id=" + BoxedIntText(t.id) + ", name=" + NullableText(t.name)
    + ", description=" + NullableText(t.description)
    + ", completed=" + BoxedBoolText(t.completed) + ", taskType=" + BoxedIntText(t.taskType)
    + ", priorityLevel=" + BoxedIntText(t.priorityLevel)
    + ", category=" + NullableText(t.category) + "]"
  }

  lemma ToStringIgnoresSchedule(t: Task, dueDate: Option<Day>, dueDays: int)
    ensures ToString(t.(dueDate := dueDate, dueDays := dueDays)) == ToString(t)
  {
  }

  /** Some position where two distinct texts of equal length differ. */
  lemma DifferingPosition(x: string, y: string) returns (i: nat)
    requires |x| == |y| && x != y
    ensures i < |x| && x[i] != y[i]
  {
    i :| i < |x| && x[i] != y[i];
  }

  /** Distinct non-negative numbers with as many digits give texts that differ
      at some position. */
  lemma SameWidthNumbersDiffer(a: nat, b: nat) returns (i: nat)
    requires a != b && |NatText(a)| == |NatText(b)|
    ensures i < |BoxedIntText(Some(a))| && i < |BoxedIntText(Some(b))|
    ensures BoxedIntText(Some(a))[i] != BoxedIntText(Some(b))[i]
  {
    if NatText(a) == NatText(b) {
      NatTextInjective(a, b);
    }
    i := DifferingPosition(NatText(a), NatText(b));
  }

  // Each field that `toString()` prints reaches the text: two tasks that differ
  // only in that field print differently.

  /** Where the id's text sits in `toString()`. */
  lemma IdTextAt(t: Task, i: nat)
    requires i < |BoxedIntText(t.id)|
    ensures ToString(t)[|"Task [id="| + i] == BoxedIntText(t.id)[i]
  {
  }

  lemma ToStringShowsId(t: Task, a: nat, b: nat)
    requires a != b && |NatText(a)| == |NatText(b)|
    ensures ToString(t.(id := Some(a))) != ToString(t.(id := Some(b)))
  {
    var i := SameWidthNumbersDiffer(a, b);
    IdTextAt(t.(id := Some(a)), i);
    IdTextAt(t.(id := Some(b)), i);
  }

  lemma ToStringShowsName(t: Task, a: string, b: string)
    requires a != b && |a| == |b|
    ensures ToString(t.(name := Some(a))) != ToString(t.(name := Some(b)))
  {
    var i := DifferingPosition(a, b);
    var k := |"Task [id=" + BoxedIntText(t.id) + ", name="|;
    assert ToString(t.(name := Some(a)))[k + i] == a[i];
    assert ToString(t.(name := Some(b)))[k + i] == b[i];
  }

  lemma ToStringShowsDescription(t: Task, a: string, b: string)
    requires a != b && |a| == |b|
    ensures ToString(t.(description := Some(a))) != ToString(t.(description := Some(b)))
  {
    var i := DifferingPosition(a, b);
    var k := |"Task [id=" + BoxedIntText(t.id) + ", name=" + NullableText(t.name) + ", description="|;
    assert ToString(t.(description := Some(a)))[k + i] == a[i];
    assert ToString(t.(description := Some(b)))[k + i] == b[i];
  }

  lemma ToStringShowsCompleted(t: Task)
    ensures ToString(t.(completed := Some(true))) != ToString(t.(completed := Some(false)))
  {
    var k := |"Task [id=" + BoxedIntText(t.id) + ", name=" + NullableText(t.name)
              + ", description=" + NullableText(t.description) + ", completed="|;
    assert ToString(t.(completed := Some(true)))[k] == 't';
    assert ToString(t.(completed := Some(false)))[k] == 'f';
  }

  /** Where the type ordinal's text sits in `toString()`. */
  lemma TaskTypeTextAt(t: Task, i: nat)
    requires i < |BoxedIntText(t.taskType)|
    ensures var k := |"Task [id=" + BoxedIntText(t.id) + ", name=" + NullableText(t.name)
                      + ", description=" + NullableText(t.description)
                      + ", completed=" + BoxedBoolText(t.completed) + ", taskType="|;
            ToString(t)[k + i] == BoxedIntText(t.taskType)[i]
  {
  }

  lemma ToStringShowsTaskType(t: Task, a: nat, b: nat)
    requires a != b && |NatText(a)| == |NatText(b)|
    ensures ToString(t.(taskType := Some(a))) != ToString(t.(taskType := Some(b)))
  {
    var i := SameWidthNumbersDiffer(a, b);
    TaskTypeTextAt(t.(taskType := Some(a)), i);
    TaskTypeTextAt(t.(taskType := Some(b)), i);
  }

  /** Where the priority level's text sits in `toString()`. */
  lemma PriorityLevelTextAt(t: Task, i: nat)
    requires i < |BoxedIntText(t.priorityLevel)|
    ensures var k := |"Task [id=" + BoxedIntText(t.id) + ", name=" + NullableText(t.name)
                      + ", description=" + NullableText(t.description)
                      + ", completed=" + BoxedBoolText(t.completed) + ", taskType="
                      + BoxedIntText(t.taskType) + ", priorityLevel="|;
            ToString(t)[k + i] == BoxedIntText(t.priorityLevel)[i]
  {
  }

  lemma ToStringShowsPriorityLevel(t: Task, a: nat, b: nat)
    requires a != b && |NatText(a)| == |NatText(b)|
    ensures ToString(t.(priorityLevel := Some(a))) != ToString(t.(priorityLevel := Some(b)))
  {
    var i := SameWidthNumbersDiffer(a, b);
    PriorityLevelTextAt(t.(priorityLevel := Some(a)), i);
    PriorityLevelTextAt(t.(priorityLevel := Some(b)), i);
  }

  lemma ToStringShowsCategory(t: Task, a: string, b: string)
    requires a != b && |a| == |b|
    ensures ToString(t.(category := Some(a))) != ToString(t.(category := Some(b)))
  {
    var i := DifferingPosition(a, b);
    var u, v := ToString(t.(category := Some(a))), ToString(t.(category := Some(b)));
    assert |u| == |v|;
    assert u[|u| - 1 - |a| + i] == a[i];
    assert v[|v| - 1 - |b| + i] == b[i];
  }
}
