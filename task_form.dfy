/** The task form and list controller of the web front end.

    The controller keeps a draft (name, description, priority), an edit-mode flag
    with the id of the task being edited, a cached task list and a transient
    success message. Each remote call is an oracle: its outcome is a parameter.
    The list refresh that a successful mutation starts, and the timer that clears
    its message three seconds later, complete later as events of their own; the
    state records how many refreshes and which clears are still pending.

    `State` and `Step` are the specification; class `App` is the component,
    with one method per handler; each is proved to perform `Step`, except
    `HandleUpdateTask`, which performs `UpdateStep` (what `Step` does for a
    submit in edit mode). */
module TaskForm {
  import opened Wrappers

  type TaskId = int

  /** A task as the list call returns it. */
  datatype Task = Task(id: TaskId, name: string, description: string, priority: string)

  /** The three fields of the shared form. */
  datatype Draft = Draft(name: string, description: string, priority: string)

  const DefaultPriority: string := "Baixa"
  const BlankDraft: Draft := Draft("", "", DefaultPriority)

  const CreatedMessage: string := "Tarefa criada com sucesso"
  const UpdatedMessage: string := "Tarefa atualizada com sucesso"
  const DeletedMessage: string := "Tarefa exclu\U{ed}da com sucesso"

  /** The outcome of a create, update or delete call. */
  datatype Outcome = Succeeded | Failed

  /** The outcome of a list call. */
  datatype ListReply = Listed(tasks: seq<Task>) | ListFailed

  /** What a handler sends to the task service. */
  datatype Request =
    | CreateRequest(fields: Draft)
    | UpdateRequest(target: Option<TaskId>, fields: Draft)
    | DeleteRequest(id: TaskId)

  /** The form's two modes. */
  datatype Mode = Creating | Editing(target: TaskId)

  /** Everything that can happen to the controller: the user's input, and the
      completion of a refresh or of a message timer started earlier. */
  datatype Event =
    | NameChanged(name: string)
    | DescriptionChanged(description: string)
    | PriorityChanged(priority: string)
    | SubmitClicked(outcome: Outcome)
    | EditClicked(task: Task)
    | DeleteClicked(id: TaskId, outcome: Outcome)
    | TasksFetched(reply: ListReply)
    | MessageTimerFired

  /** The component state. `pendingFetches` counts list calls not yet answered;
      `pendingClears` holds, oldest first, the message each unfired timer was
      scheduled for (all timers have the same delay, so they fire in that order). */
  datatype State = State(
    draft: Draft,
    editMode: bool,
    taskIdToEdit: Option<TaskId>,
    tasks: seq<Task>,
    message: string,
    pendingFetches: nat,
    pendingClears: seq<string>)

  /** The edit flag is set exactly when there is a task to edit. */
  predicate Coherent(s: State) {
    s.editMode == s.taskIdToEdit.Some?
  }

  function ModeOf(s: State): Mode
    requires Coherent(s)
  {
    if s.editMode then Editing(s.taskIdToEdit.value) else Creating
  }

  /** The state on mount: a blank draft in create mode, no tasks, no message, and
      the refresh the mount effect starts. */
  function Initial(): (s: State)
    ensures Coherent(s) && ModeOf(s) == Creating
    ensures s.draft == BlankDraft && s.tasks == [] && s.message == ""
    ensures s.pendingFetches == 1 && s.pendingClears == []
  {
    State(BlankDraft, false, None, [], "", 1, [])
  }

  /** A refresh or a timer can only complete if one was started. */
  predicate Enabled(s: State, e: Event) {
    match e
    case TasksFetched(_) => s.pendingFetches > 0
    case MessageTimerFired => s.pendingClears != []
    case _ => true
  }

  /** What every successful mutation does last: show its message, schedule the
      message's clear and start a refresh. */
  function Announce(s: State, msg: string): State {
    s.(message := msg, pendingClears := s.pendingClears + [msg],
       pendingFetches := s.pendingFetches + 1)
  }

  function CreateStep(s: State, outcome: Outcome): State {
    if outcome.Failed? then s else Announce(s.(draft := BlankDraft), CreatedMessage)
  }

  function UpdateStep(s: State, outcome: Outcome): State {
    if outcome.Failed? then s
    else Announce(s.(draft := BlankDraft, editMode := false, taskIdToEdit := None), UpdatedMessage)
  }

  function EditStep(s: State, t: Task): State {
    s.(draft := Draft(t.name, t.description, t.priority), editMode := true, taskIdToEdit := Some(t.id))
  }

  function DeleteStep(s: State, outcome: Outcome): State {
    if outcome.Failed? then s else Announce(s, DeletedMessage)
  }

  function FetchStep(s: State, reply: ListReply): State
    requires s.pendingFetches > 0
  {
    var s' := s.(pendingFetches := s.pendingFetches - 1);
    match reply
    case Listed(ts) => s'.(tasks := ts)
    case ListFailed => s'
  }

  function ClearStep(s: State): State
    requires s.pendingClears != []
  {
    s.(message := "", pendingClears := s.pendingClears[1..])
  }

  /** The reference two-state machine of the form's mode. */
  function NextMode(m: Mode, e: Event): Mode {
    match e
    case EditClicked(t) => Editing(t.id)
    case SubmitClicked(Succeeded) => Creating
    case _ => m
  }

  /** A failed create, update or delete. */
  predicate FailedMutation(e: Event) {
    (e.SubmitClicked? && e.outcome.Failed?) || (e.DeleteClicked? && e.outcome.Failed?)
  }

  /** One event. */
  function Step(s: State, e: Event): (r: State)
    requires Enabled(s, e)
    ensures Coherent(s) ==> Coherent(r) && ModeOf(r) == NextMode(ModeOf(s), e)
    ensures FailedMutation(e) ==> r == s
    ensures r.tasks != s.tasks ==> e.TasksFetched? && e.reply.Listed? && r.tasks == e.reply.tasks
    ensures e.SubmitClicked? && e.outcome.Succeeded? ==>
              r.draft == BlankDraft && r.message == (if s.editMode then UpdatedMessage else CreatedMessage)
              && r.pendingClears == s.pendingClears + [r.message]
              && r.pendingFetches == s.pendingFetches + 1
    ensures e.EditClicked? ==>
              r.draft == Draft(e.task.name, e.task.description, e.task.priority)
              && r.message == s.message && r.tasks == s.tasks
    ensures e.MessageTimerFired? ==> r.message == "" && |r.pendingClears| + 1 == |s.pendingClears|
  {
    match e
    case NameChanged(v) => s.(draft := s.draft.(name := v))
    case DescriptionChanged(v) => s.(draft := s.draft.(description := v))
    case PriorityChanged(v) => s.(draft := s.draft.(priority := v))
    case SubmitClicked(o) => if s.editMode then UpdateStep(s, o) else CreateStep(s, o)
    case EditClicked(t) => EditStep(s, t)
    case DeleteClicked(_, o) => DeleteStep(s, o)
    case TasksFetched(reply) => FetchStep(s, reply)
    case MessageTimerFired => ClearStep(s)
  }

  /** The request an event sends to the task service, if any. */
  function Sent(s: State, e: Event): (r: Option<Request>)
    ensures r.Some? <==> e.SubmitClicked? || e.DeleteClicked?
    ensures e.SubmitClicked? ==> (r.value.UpdateRequest? <==> s.editMode)
    ensures e.SubmitClicked? ==> (r.value.CreateRequest? <==> !s.editMode)
    ensures e.SubmitClicked? && Coherent(s) && s.editMode ==>
              r.value.target == Some(ModeOf(s).target)
    ensures r.Some? && !r.value.DeleteRequest? ==> r.value.fields == s.draft
    ensures e.DeleteClicked? ==> r == Some(DeleteRequest(e.id))
  {
    match e
    case SubmitClicked(_) =>
      Some(if s.editMode then UpdateRequest(s.taskIdToEdit, s.draft) else CreateRequest(s.draft))
    case DeleteClicked(id, _) => Some(DeleteRequest(id))
    case _ => None
  }

  // ---------------------------------------------------------------------------
  // Traces

  /** Every event of the trace can happen when it arrives. */
  predicate Admissible(s: State, evs: seq<Event>)
    decreases |evs|
  {
    evs == [] || (Enabled(s, evs[0]) && Admissible(Step(s, evs[0]), evs[1..]))
  }

  function Run(s: State, evs: seq<Event>): State
    requires Admissible(s, evs)
    decreases |evs|
  {
    if evs == [] then s else Run(Step(s, evs[0]), evs[1..])
  }

  /** The mode after a sequence of events, by the reference machine. */
  function ReplayMode(m: Mode, evs: seq<Event>): Mode
    decreases |evs|
  {
    if evs == [] then m else ReplayMode(NextMode(m, evs[0]), evs[1..])
  }

  /** Along any trace the edit flag and the target stay in step, and the mode
      follows the two-state machine. */
  lemma {:induction false} RunFollowsModeMachine(s: State, evs: seq<Event>)
    requires Coherent(s) && Admissible(s, evs)
    ensures Coherent(Run(s, evs))
    ensures ModeOf(Run(s, evs)) == ReplayMode(ModeOf(s), evs)
    decreases |evs|
  {
    if evs != [] {
      RunFollowsModeMachine(Step(s, evs[0]), evs[1..]);
    }
  }

  /** The list the last successful refresh of a trace delivered, else `current`. */
  function LastListed(evs: seq<Event>, current: seq<Task>): seq<Task>
    decreases |evs|
  {
    if evs == [] then current
    else
      var e := evs[|evs| - 1];
      if e.TasksFetched? && e.reply.Listed? then e.reply.tasks
      else LastListed(evs[..|evs| - 1], current)
  }

  lemma {:induction false} AdmissibleSplit(s: State, evs: seq<Event>, e: Event)
    requires Admissible(s, evs + [e])
    ensures Admissible(s, evs) && Enabled(Run(s, evs), e)
    ensures Run(s, evs + [e]) == Step(Run(s, evs), e)
    decreases |evs|
  {
    if evs == [] {
      assert (evs + [e])[1..] == [];
    } else {
      assert (evs + [e])[0] == evs[0];
      assert (evs + [e])[1..] == evs[1..] + [e];
      AdmissibleSplit(Step(s, evs[0]), evs[1..], e);
    }
  }

  /** Only a successful refresh writes the list, and it replaces it wholesale:
      after any trace the list is the one the last successful refresh delivered,
      or the list from before if there was none. */
  lemma {:induction false} RunTasksAreLastListed(s: State, evs: seq<Event>)
    requires Admissible(s, evs)
    ensures Run(s, evs).tasks == LastListed(evs, s.tasks)
    decreases |evs|
  {
    if evs != [] {
      var init, e := evs[..|evs| - 1], evs[|evs| - 1];
      assert evs == init + [e];
      AdmissibleSplit(s, init, e);
      RunTasksAreLastListed(s, init);
    }
  }

  /** Failed mutations leave the whole state as it was. */
  lemma {:induction false} FailuresChangeNothing(s: State, evs: seq<Event>)
    requires forall i :: 0 <= i < |evs| ==> FailedMutation(evs[i])
    ensures Admissible(s, evs) && Run(s, evs) == s
    decreases |evs|
  {
    if evs != [] {
      assert FailedMutation(evs[0]);
      FailuresChangeNothing(s, evs[1..]);
    }
  }

  /** A second edit overwrites the first entirely. */
  lemma EditOverwritesEdit(s: State, a: Task, b: Task)
    ensures Step(Step(s, EditClicked(a)), EditClicked(b)) == Step(s, EditClicked(b))
  {
  }

  /** Editing a task and submitting without touching the form sends an update of
      that task with exactly its own fields. */
  lemma EditThenSubmitResendsTask(s: State, t: Task, o: Outcome)
    ensures Sent(Step(s, EditClicked(t)), SubmitClicked(o))
              == Some(UpdateRequest(Some(t.id), Draft(t.name, t.description, t.priority)))
  {
  }

  /** The timers are never cancelled: when two mutations succeed in a row, the
      first one's timer clears the second one's message while the second timer
      is still pending. */
  lemma EarlierTimerClearsLaterMessage(s: State, id: TaskId)
    requires !s.editMode && s.pendingClears == []
    ensures var evs := [SubmitClicked(Succeeded), DeleteClicked(id, Succeeded), MessageTimerFired];
            Admissible(s, evs)
            && Run(s, evs[..2]).message == DeletedMessage
            && Run(s, evs).message == ""
            && Run(s, evs).pendingClears == [DeletedMessage]
  {
    var evs := [SubmitClicked(Succeeded), DeleteClicked(id, Succeeded), MessageTimerFired];
    var s1 := Step(s, evs[0]);
    var s2 := Step(s1, evs[1]);
    assert s2.pendingClears == [CreatedMessage, DeletedMessage];
    assert Admissible(s2, evs[2..]);
    assert Run(s, evs[..2]) == Run(s1, evs[1..2]) == Run(s2, []);
    assert Run(s, evs) == Run(s1, evs[1..]) == Run(s2, evs[2..]) == ClearStep(s2);
  }

  /** Deleting the task being edited leaves the form bound to it: after the
      refresh no listed task has that id, yet the next submit updates it. */
  lemma DeletedTargetStaysBound(s: State, id: TaskId, listed: seq<Task>)
    requires Coherent(s) && ModeOf(s) == Editing(id)
    requires forall i :: 0 <= i < |listed| ==> listed[i].id != id
    ensures var r := Run(s, [DeleteClicked(id, Succeeded), TasksFetched(Listed(listed))]);
            Coherent(r) && ModeOf(r) == Editing(id) && r.draft == s.draft
            && r.tasks == listed && (forall i :: 0 <= i < |r.tasks| ==> r.tasks[i].id != id)
            && Sent(r, SubmitClicked(Succeeded)) == Some(UpdateRequest(Some(id), s.draft))
  {
    var evs := [DeleteClicked(id, Succeeded), TasksFetched(Listed(listed))];
    var s1 := Step(s, evs[0]);
    assert Admissible(s1, evs[1..]);
    assert Run(s, evs) == Run(s1, evs[1..]) == Step(s1, evs[1]);
  }

  // ---------------------------------------------------------------------------
  // The component

  class App {
    var taskName: string
    var taskDescription: string
    var taskPriority: string
    var tasks: seq<Task>
    var successMessage: string
    var editMode: bool
    var taskIdToEdit: Option<TaskId>
    ghost var pendingFetches: nat
    ghost var pendingClears: seq<string>

    ghost function Snapshot(): State
      reads this
    {
      State(Draft(taskName, taskDescription, taskPriority), editMode, taskIdToEdit,
            tasks, successMessage, pendingFetches, pendingClears)
    }

    ghost predicate Valid()
      reads this
    {
      Coherent(Snapshot())
    }

    /** The component's initial state, including the refresh started on mount. */
    constructor ()
      ensures Valid() && Snapshot() == Initial()
      ensures taskName == "" && taskDescription == "" && taskPriority == DefaultPriority
      ensures !editMode && taskIdToEdit == None && tasks == [] && successMessage == ""
    {
      taskName, taskDescription, taskPriority := "", "", DefaultPriority;
      tasks := [];
      successMessage := "";
      editMode, taskIdToEdit := false, None;
      pendingFetches, pendingClears := 1, [];
    }

    method SetTaskName(value: string)
      requires Valid()
      modifies this
      ensures Valid() && Snapshot() == Step(old(Snapshot()), NameChanged(value))
      ensures taskName == value && taskDescription == old(taskDescription)
      ensures taskPriority == old(taskPriority)
    {
      taskName := value;
    }

    method SetTaskDescription(value: string)
      requires Valid()
      modifies this
      ensures Valid() && Snapshot() == Step(old(Snapshot()), DescriptionChanged(value))
      ensures taskDescription == value && taskName == old(taskName)
      ensures taskPriority == old(taskPriority)
    {
      taskDescription := value;
    }

    /** Any string is kept; the form offers only the three priorities. */
    method SetTaskPriority(value: string)
      requires Valid()
      modifies this
      ensures Valid() && Snapshot() == Step(old(Snapshot()), PriorityChanged(value))
      ensures taskPriority == value && taskName == old(taskName)
      ensures taskDescription == old(taskDescription)
    {
      taskPriority := value;
    }

    /** The answer to a list call started earlier: on success the list is replaced. */
    method FetchTasks(reply: ListReply)
      requires Valid() && pendingFetches > 0
      modifies this
      ensures Valid() && Snapshot() == Step(old(Snapshot()), TasksFetched(reply))
      ensures tasks == (if reply.Listed? then reply.tasks else old(tasks))
      ensures pendingFetches == old(pendingFetches) - 1
    {
      if reply.Listed? {
        tasks := reply.tasks;
      }
      pendingFetches := pendingFetches - 1;
    }

    /** The submit button: in edit mode the update path, otherwise a create. */
    method HandleCreateTask(outcome: Outcome) returns (sent: Request)
      requires Valid()
      modifies this
      ensures Valid() && Snapshot() == Step(old(Snapshot()), SubmitClicked(outcome))
      ensures Some(sent) == Sent(old(Snapshot()), SubmitClicked(outcome))
      ensures old(editMode) ==> sent.UpdateRequest?
      ensures !old(editMode) ==> sent == CreateRequest(old(Snapshot()).draft)
      ensures !old(editMode) ==> editMode == old(editMode) && taskIdToEdit == old(taskIdToEdit)
    {
      if editMode {
        sent := HandleUpdateTask(outcome);
      } else {
        sent := CreateRequest(Draft(taskName, taskDescription, taskPriority));
        if outcome.Succeeded? {
          taskName := "";
          taskDescription := "";
          taskPriority := DefaultPriority;
          successMessage := CreatedMessage;
          pendingClears := pendingClears + [CreatedMessage];
          pendingFetches := pendingFetches + 1;
        }
      }
    }

    method HandleUpdateTask(outcome: Outcome) returns (sent: Request)
      requires Valid()
      modifies this
      ensures Valid() && Snapshot() == UpdateStep(old(Snapshot()), outcome)
      ensures sent == UpdateRequest(old(taskIdToEdit), old(Snapshot()).draft)
      ensures outcome.Succeeded? ==>
                taskName == "" && taskDescription == "" && taskPriority == DefaultPriority
                && !editMode && taskIdToEdit == None && successMessage == UpdatedMessage
                && tasks == old(tasks)
      ensures outcome.Failed? ==> Snapshot() == old(Snapshot())
    {
      sent := UpdateRequest(taskIdToEdit, Draft(taskName, taskDescription, taskPriority));
      if outcome.Succeeded? {
        taskName := "";
        taskDescription := "";
        taskPriority := DefaultPriority;
        editMode := false;
        taskIdToEdit := None;
        successMessage := UpdatedMessage;
        pendingClears := pendingClears + [UpdatedMessage];
        pendingFetches := pendingFetches + 1;
      }
    }

    /** Loads a listed task into the draft and enters edit mode on its id. */
    method HandleEditTask(task: Task)
      requires Valid()
      modifies this
      ensures Valid() && Snapshot() == Step(old(Snapshot()), EditClicked(task))
      ensures taskName == task.name && taskDescription == task.description
      ensures taskPriority == task.priority
      ensures editMode && taskIdToEdit == Some(task.id)
      ensures tasks == old(tasks) && successMessage == old(successMessage)
    {
      taskName := task.name;
      taskDescription := task.description;
      taskPriority := task.priority;
      editMode := true;
      taskIdToEdit := Some(task.id);
    }

    /** Deletes by id; the draft and the mode are left alone. */
    method HandleDeleteTask(id: TaskId, outcome: Outcome) returns (sent: Request)
      requires Valid()
      modifies this
      ensures Valid() && Snapshot() == Step(old(Snapshot()), DeleteClicked(id, outcome))
      ensures sent == DeleteRequest(id)
      ensures editMode == old(editMode) && taskIdToEdit == old(taskIdToEdit)
      ensures Snapshot().draft == old(Snapshot()).draft && tasks == old(tasks)
      ensures successMessage == if outcome.Succeeded? then DeletedMessage else old(successMessage)
    {
      sent := DeleteRequest(id);
      if outcome.Succeeded? {
        successMessage := DeletedMessage;
        pendingClears := pendingClears + [DeletedMessage];
        pendingFetches := pendingFetches + 1;
      }
    }

    /** The oldest pending timer fires and blanks the message, whatever it shows. */
    method ClearMessage()
      requires Valid() && pendingClears != []
      modifies this
      ensures Valid() && Snapshot() == Step(old(Snapshot()), MessageTimerFired)
      ensures successMessage == "" && pendingClears == old(pendingClears)[1..]
    {
      successMessage := "";
      pendingClears := pendingClears[1..];
    }
  }
}
