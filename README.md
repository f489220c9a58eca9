# Task manager: form controller and task status

This project models two pieces of a small task manager and proves properties of them.

**The task form and list controller** (`TaskForm`, `task_form.dfy`) is the React component of the web front end. It keeps four things:

- a draft of name, description and priority;
- an edit-mode flag with the id of the task being edited;
- a cached task list;
- a transient success message.

Its handlers create a task, update it (the submit button does this in edit mode), load a task into the form, delete a task, and refresh the list. The component is the class `TaskForm.App`, with one method per handler.

Each handler method is proved to perform one step of a pure specification, `TaskForm.Step`, over the datatype `TaskForm.State`. The exception is `HandleUpdateTask`, which is proved to perform `TaskForm.UpdateStep`. That is what `Step` does for a submit in edit mode, which is how the component reaches it. The remote task service is an oracle: a create, update or delete takes a `Succeeded`/`Failed` outcome, and the answer to a list call is a `ListReply`. Some work is started by a successful mutation and finishes later: the list refresh it starts, and the three-second timer that clears its message. Each of these finishes as its own event (`TasksFetched`, `MessageTimerFired`). The state counts the refreshes still unanswered. It also keeps the queue of timers not yet fired, oldest first. All timers have the same delay, so they fire in the order they were set. Traces of events are run by `TaskForm.Run`.

**The task entity** (`TaskEntity`, `task_entity.dfy`) is the server's `Task` record. The model covers:

- its default construction and the three-argument constructor;
- `isTaskTypeNull`, `toString` and the `@Size(min = 10)` description constraint;
- `getStatus()`.

`getStatus()` takes today's date as a parameter, because `LocalDate.now()` is a clock. Dates are ordered day numbers. The days field of `Period.between(from, to)` is a function parameter whose results are typed 0..30 (`DaysField`); the calendar arithmetic behind it is not modelled. Java exceptions are the `Failure` side of a `Result`.

`wrappers.dfy` holds the `Option` and `Result` types both models use.

The default priority is `"Baixa"`, the success messages are the code's Portuguese strings, and the blank message is `""`.

## Model

| member | source | states |
|---|---|---|
| `TaskForm.Initial` | Front-end/frontend/src/App.js:5-24 | the mount state is a blank draft `("", "", "Baixa")`, create mode (edit flag false, no target), no tasks, empty message, and the one refresh the mount effect starts |
| `TaskForm.Step` | Front-end/frontend/src/App.js:13-83 | every event keeps the edit flag and the target in step, and the mode moves as the reference machine `NextMode` says (edit → Editing(id), successful submit → Creating, all else unchanged); a failed create, update or delete leaves the whole state as it was; the list changes only on a successful refresh, which replaces it with the reply; a successful submit resets the draft, shows the created or updated message by mode, schedules one clear and starts one refresh; an edit copies the task into the draft and leaves list and message alone; a timer blanks the message |
| `TaskForm.Sent` | Front-end/frontend/src/App.js:26-74 | submitting in edit mode sends an update to the target id and never a create; otherwise it sends a create and never an update; both carry the current draft; delete sends the id |
| `TaskForm.RunFollowsModeMachine` | Front-end/frontend/src/App.js:26-70 | along any possible trace the edit flag and the target stay coherent, and the final mode is what the two-state machine gives for the same events |
| `TaskForm.RunTasksAreLastListed` | Front-end/frontend/src/App.js:13-20 | after any possible trace the list is the one delivered by the last successful refresh, or the starting list if there was none; nothing else writes it |
| `TaskForm.FailuresChangeNothing` | Front-end/frontend/src/App.js:40-82 | any run of failed creates, updates and deletes leaves draft, mode, target, list, message and pending work exactly as they were |
| `TaskForm.EditOverwritesEdit` | Front-end/frontend/src/App.js:64-70 | a second edit overwrites everything the first one set |
| `TaskForm.EditThenSubmitResendsTask` | Front-end/frontend/src/App.js:26-70 | editing a task and then submitting with no field changes sends an update of that task's id carrying exactly its own name, description and priority |
| `TaskForm.EarlierTimerClearsLaterMessage` | Front-end/frontend/src/App.js:35-78 | after a successful create and then a successful delete, the delete message is shown; the create's timer then fires and blanks it while the delete's own timer is still pending |
| `TaskForm.DeletedTargetStaysBound` | Front-end/frontend/src/App.js:72-83 | deleting the task being edited leaves edit mode bound to its id and the draft unchanged; after the refresh no listed task has that id, yet the next submit sends an update for it |
| `TaskForm.App.constructor` | Front-end/frontend/src/App.js:5-11 | the component starts in `Initial()`: blank draft with priority "Baixa", not editing, no target, no tasks, empty message |
| `TaskForm.App.SetTaskName` | Front-end/frontend/src/App.js:92 | the name field takes the input in either mode; nothing else changes |
| `TaskForm.App.SetTaskDescription` | Front-end/frontend/src/App.js:98 | the description field takes the input; nothing else changes |
| `TaskForm.App.SetTaskPriority` | Front-end/frontend/src/App.js:105 | the priority field takes any string; nothing else changes |
| `TaskForm.App.FetchTasks` | Front-end/frontend/src/App.js:13-20 | an answered refresh replaces the list on success and keeps it on failure; nothing else changes |
| `TaskForm.App.HandleCreateTask` | Front-end/frontend/src/App.js:26-44 | in edit mode it takes the update path; otherwise it sends a create with the draft and never changes mode or target; on success the draft resets, the created message shows, its clear is scheduled and a refresh starts |
| `TaskForm.App.HandleUpdateTask` | Front-end/frontend/src/App.js:46-62 | sends an update for the target with the draft; on success the draft resets, edit mode ends, the target is cleared and the updated message shows, and the list is untouched until the refresh; on failure nothing changes |
| `TaskForm.App.HandleEditTask` | Front-end/frontend/src/App.js:64-70 | the draft becomes the task's name, description and priority, edit mode is on with the task's id, and list and message are untouched |
| `TaskForm.App.HandleDeleteTask` | Front-end/frontend/src/App.js:72-83 | sends a delete for the id; on success the deleted message shows, and draft, mode, target and list are unchanged either way |
| `TaskForm.App.ClearMessage` | Front-end/frontend/src/App.js:36-38 | the oldest pending timer fires and blanks the message whatever it shows |
| `TaskEntity.Ordinal` | roteiro01/src/main/java/com/example/roteiro01/entity/Task.java:73 | the stored ordinal of each kind indexes that kind in `TaskType.values()` |
| `TaskEntity.NewTask` | roteiro01/src/main/java/com/example/roteiro01/entity/Task.java:18-48 | a new task has the ordinal of DATA as its type; its id, name, description, completed, due date, priority level and category are null, and its due days are 0 |
| `TaskEntity.NewTaskFrom` | roteiro01/src/main/java/com/example/roteiro01/entity/Task.java:50-51 | the three-argument constructor leaves name and description null and sets the type to DATA |
| `TaskEntity.NewTaskFromIgnoresArguments` | roteiro01/src/main/java/com/example/roteiro01/entity/Task.java:50-51 | whatever arguments it is given, the three-argument constructor builds the same task as the no-argument one |
| `TaskEntity.IsTaskTypeNull` | roteiro01/src/main/java/com/example/roteiro01/entity/Task.java:59-61 | holds exactly when `taskType` is null, and then the status is not defined |
| `TaskEntity.DescriptionSizeValid` | roteiro01/src/main/java/com/example/roteiro01/entity/Task.java:28-31 | a null description is valid; a non-null one is valid exactly from 10 characters |
| `TaskEntity.NatText` | roteiro01/src/main/java/com/example/roteiro01/entity/Task.java:79 | the decimal text of a number is non-empty, all digits, and one character long exactly for numbers below 10 |
| `TaskEntity.IntText` | roteiro01/src/main/java/com/example/roteiro01/entity/Task.java:79 | a number's text starts with a minus sign exactly when it is negative, and is its digits otherwise |
| `TaskEntity.NatTextInjective` | roteiro01/src/main/java/com/example/roteiro01/entity/Task.java:79 | distinct numbers have distinct decimal texts |
| `TaskEntity.StatusText` | roteiro01/src/main/java/com/example/roteiro01/entity/Task.java:71-96 | maps each status to the text `getStatus()` returns: a late status is its day count in digits followed by " dias de atraso", and "Concluída", "Prevista" and "Tipo de tarefa inválido" each name exactly one status |
| `TaskEntity.StatusTextInjective` | roteiro01/src/main/java/com/example/roteiro01/entity/Task.java:71-96 | each status text, including each "n dias de atraso", names exactly one status |
| `TaskEntity.GetStatus` | roteiro01/src/main/java/com/example/roteiro01/entity/Task.java:71-97 | the status is defined exactly when the type is a valid ordinal and `completed` is non-null; a null type throws a NullPointerException; an out-of-range type throws ArrayIndexOutOfBounds; a null `completed` throws a NullPointerException; "Tipo de tarefa inválido" is never returned; the status is "Concluída" exactly when the task is completed |
| `TaskEntity.StatusFollowsDeadline` | roteiro01/src/main/java/com/example/roteiro01/entity/Task.java:73-93 | all three kinds follow one rule: concluded if completed; else late by the period's days field if the deadline (the due date for DATA, due date plus due days for PRAZO, none for LIVRE) is before today; else expected |
| `TaskEntity.CompletedIsConcluded` | roteiro01/src/main/java/com/example/roteiro01/entity/Task.java:75-93 | a completed task of any of the three kinds is "Concluída" |
| `TaskEntity.DataLateIff` | roteiro01/src/main/java/com/example/roteiro01/entity/Task.java:77-81 | an open DATA task is late exactly when it has a due date strictly before today, and "Prevista" otherwise |
| `TaskEntity.PrazoLateIff` | roteiro01/src/main/java/com/example/roteiro01/entity/Task.java:86-90 | an open PRAZO task is late exactly when it has a due date and today is strictly after the due date plus the due days, and "Prevista" otherwise |
| `TaskEntity.PrazoWithoutDaysIsData` | roteiro01/src/main/java/com/example/roteiro01/entity/Task.java:74-91 | with zero due days a PRAZO task has the status it would have as DATA |
| `TaskEntity.LivreIgnoresSchedule` | roteiro01/src/main/java/com/example/roteiro01/entity/Task.java:92-93 | a LIVRE task's status does not depend on its due date or due days, and is "Prevista" when open |
| `TaskEntity.LateCountIsDaysField` | roteiro01/src/main/java/com/example/roteiro01/entity/Task.java:78-88 | a late status implies the deadline is before today; the count is between 0 and 30, so it is smaller than the elapsed days once more than 30 have passed |
| `TaskEntity.NullTaskTypeThrows` | roteiro01/src/main/java/com/example/roteiro01/entity/Task.java:59-73 | when `isTaskTypeNull()` holds, `getStatus()` throws a NullPointerException; an index exception implies the type is not null |
| `TaskEntity.ToString` | roteiro01/src/main/java/com/example/roteiro01/entity/Task.java:100-104 | the text starts with "Task [id=" and ends with "]" |
| `TaskEntity.ToStringIgnoresSchedule` | roteiro01/src/main/java/com/example/roteiro01/entity/Task.java:100-104 | the due date and due days are not part of the text |
| `TaskEntity.ToStringShowsId` | roteiro01/src/main/java/com/example/roteiro01/entity/Task.java:101 | two tasks that differ only in their id (same digit count) print differently |
| `TaskEntity.ToStringShowsName` | roteiro01/src/main/java/com/example/roteiro01/entity/Task.java:101 | two tasks that differ only in their name (same length) print differently |
| `TaskEntity.ToStringShowsDescription` | roteiro01/src/main/java/com/example/roteiro01/entity/Task.java:101 | two tasks that differ only in their description (same length) print differently |
| `TaskEntity.ToStringShowsCompleted` | roteiro01/src/main/java/com/example/roteiro01/entity/Task.java:102 | a completed and an open task that are otherwise equal print differently |
| `TaskEntity.ToStringShowsTaskType` | roteiro01/src/main/java/com/example/roteiro01/entity/Task.java:102 | two tasks that differ only in their type ordinal (same digit count) print differently |
| `TaskEntity.ToStringShowsPriorityLevel` | roteiro01/src/main/java/com/example/roteiro01/entity/Task.java:103 | two tasks that differ only in their priority level (same digit count) print differently |
| `TaskEntity.ToStringShowsCategory` | roteiro01/src/main/java/com/example/roteiro01/entity/Task.java:103 | two tasks that differ only in their category (same length) print differently |

## Left out

- The rendered form, the list markup and the `styles` object: they are layout only.
- The task service module (`createTask`, `getTasks`, `updateTask`, `deleteTask`) is not part of this model. Its calls are network I/O; their outcomes and list replies are parameters. So properties that depend on what the service stores are not stated. Examples: that the refreshed list contains the created task, or reflects an update; and that deleting an unknown id fails.
- List entries are taken to have a non-null id and string name, description and priority (`TaskForm.Task`). The component copies whatever these fields hold. A null or missing field is not modelled, and neither is an entry whose id is null, which would enter edit mode with no target. The server entity's `name` may be null and it has `priorityLevel`, not `priority`; how the task service maps between the two is not part of this model.
- `console.error` logging is left out; a failure only leaves the state as it was.
- Wall-clock time and the interleaving of promises are not modelled. Each handler runs atomically with its outcome. A refresh and a message clear complete as separate events, whose order only requires that they were started.
- `useEffect` is modelled only as the one refresh pending in the initial state.
- `TaskEntity.GetStatus`: the days field of `Period.between` is a parameter bounded to 0..30. The calendar arithmetic that computes it, and `plusDays`, are not modelled; a due date plus due days is plain day-number addition. So the exception `plusDays` throws outside `LocalDate`'s range is not modelled.
- `TaskType.java` is not part of this model; its constants are taken to be DATA, PRAZO and LIVRE with ordinals 0, 1 and 2.
- Lombok getters and setters, including `setCategory`, are Dafny field access and update (`t.(category := c)`); they are not separate members.
- The all-arguments constructor is the datatype constructor `TaskEntity.Task`.
- JPA id generation, column defaults, the NOT NULL column on `description` and the `@FutureOrPresent` check against the live clock are persistence machinery and are left out.
- `TaskEntity.DescriptionSizeValid` counts characters as Unicode scalar values, while Java's `String.length()` counts UTF-16 code units; the two differ only for characters outside the Basic Multilingual Plane.
- Integer widths are not modelled: Java `Long`/`Integer` ids and ordinals and the `int` due days are unbounded integers here.
