# go-atexit: priority-ordered callback registries, in Dafny

This project models the core of the Go package `atexit`. The package keeps
two registries of callbacks. Exit callbacks run once, when the program calls
`Execute` or `Exit`, with the highest priority first. Init callbacks run when
the program calls `Init`, with the lowest priority first.

Both registries work the same way:

- Registering a callback appends an entry `(priority, callback)` to a list.
  The list is then re-sorted with Go's stable sort, ascending by priority.
- Registering a nil callback panics.
- A registration without a priority takes the next value of a counter. The
  counter starts at 99 and is incremented before use, so the defaults are
  100, 101, ….
- Exit execution reads the list from the back to the front. Init reads it
  from the front to the back.

The exit side exists in two versions:

- `atexit.go` is the first version, modelled as `ExitLegacy`. A
  compare-and-swap on a flag guards the run. After the last callback, the
  version closes the channel that `Wait` receives from.
- `atexit_exit.go` is the newer version, modelled as `ExitRegistry`. It first
  cancels a context, which is the signal behind `Done`. Then it runs the
  callbacks. Only after that does it close the channel `Wait` blocks on.

`init.go` is modelled as `InitRegistry`.

Modules:

- `PriorityList` holds the entry list. It defines the ascending order `Less`,
  `Sorted`, and insertion of one entry the way a stable sort places an
  appended entry. It also defines the stable sort itself and the
  per-priority subsequence `WithPrio`, which states stability.
- `CallbackRegistry` holds the state shared by all three registries: the list
  and the default counter. It defines registration by explicit and by
  default priority. The result `Outcome` is `Ok` or `Panic`, and each carries
  the state the call leaves behind. `Replay` runs a sequence of registration
  calls from program start.
- `Trace` defines what an execution does, as a sequence of events: `Cancel`
  (Done fires), `Run(id)` (one callback is invoked), `Close` (the completion
  channel closes) and `Terminate(code)` (the exit hook is called).
- `ExitLegacy`, `ExitRegistry` and `InitRegistry` model the three source
  files. The flags behind the compare-and-swap, `Done` and `Wait` are
  booleans. `WaitMayReturn` holds exactly when the completion channel is
  closed.
- `Scenarios` replays the registrations in the repository's tests and
  example, and derives the order they expect.

Callbacks are modelled by natural-number ids. An execution returns the ids
it invokes, in order.

### Two consequences of the code worth stating

- Equal-priority exit callbacks run newest first. The stable sort keeps
  equal priorities in registration order, and Execute reads the list back to
  front. The tests expect this: `atexit_exit_test.go:40` and
  `atexit_test.go:76` want "435261", where "4" was registered after "3" and
  runs before it. See `ExitRegistry.HighestPriorityFirst` and
  `Scenarios.ExitTestOrder`.
- In `atexit.go`, a panicking exit callback is not isolated from the
  others. The `defer recover()` at `atexit.go:150` defers `recover` itself,
  and a `recover` called that way does not stop a panic. The panic therefore
  leaves `Execute` after the flag is set and before `close(exitch)` at
  `atexit.go:153`: the remaining callbacks never run and `Wait` never
  returns. The newer version runs its callbacks through `runExits`
  (`atexit_exit.go:35`), whose definition is not part of this model, so the
  model claims nothing about panics there. In both versions, the model makes
  no claim about callbacks that panic.

## Model

| member | source | states |
|---|---|---|
| PriorityList.InsertPermutes | atexit.go:132-133 | Inserting an entry yields the old entries plus exactly that one entry, as a multiset |
| PriorityList.InsertSorted | atexit.go:97 | Insertion keeps a list sorted non-decreasing by `Prio` |
| PriorityList.InsertStable | atexit.go:133 | Insertion appends the new entry to the entries of its own priority and leaves every other priority's entries as they were |
| PriorityList.InsertPosition | atexit.go:132-133 | On a sorted list, the new entry lands after every entry of priority at most its own and before every entry of larger priority |
| PriorityList.StableSortPermutes | atexit.go:96-98 | The stable sort by `Less` yields a sorted list holding exactly the input's entries |
| PriorityList.StableSortStable | atexit.go:133 | The sort keeps each priority's entries in input order |
| PriorityList.SortedUnique | atexit.go:133 | Two sorted lists with the same entries of each priority, in the same order, are equal. So every stable sort, Go's `sort.Stable` among them, gives the model's result |
| PriorityList.StableSortOfSorted | atexit.go:133 | Sorting an already sorted list changes nothing |
| PriorityList.AppendThenSortIsInsert | atexit.go:132-133 | Appending to a sorted list and then stable sorting is the same as inserting the entry behind its equals |
| PriorityList.ResortAppend | atexit.go:132-133 | Sorting after each append gives the same list as appending everything and sorting once |
| PriorityList.ReverseOrder | atexit.go:149-151 | Reading a sorted list back to front gives non-increasing priorities, and each priority's entries in reverse order |
| CallbackRegistry.RegisterWithPriority | atexit.go:127-134 | Panics exactly when the callback is nil and then changes nothing. Otherwise the list is sorted, holds the old entries plus the new one, and the new entry follows the earlier entries of its priority. The counter is not touched |
| CallbackRegistry.RegisterDefault | atexit.go:140-142 | The counter advances by one even when the callback is nil, because the increment is the argument and is evaluated first. A nil callback panics and changes nothing else. Otherwise the entry gets the advanced value as its priority, the list is sorted, and the entry follows the earlier entries of its priority |
| CallbackRegistry.RegisterInserts | atexit.go:132-133 | On a sorted list, registration is insertion at the first position whose entry has a larger priority |
| CallbackRegistry.ReplayIsStableSort | atexit.go:127-142 | After any run of non-nil registrations, the list is the stable sort of the entries in registration order, and the counter moved once per default registration |
| CallbackRegistry.ReplayPanicsOnNil | atexit.go:128-130 | A run of registrations panics exactly when one of them passes a nil callback |
| CallbackRegistry.DefaultPriorities | atexit.go:136-142 | Counting from 0, the k-th default registration gets priority counter + 1 + k (100 + k from program start), whatever explicit registrations come between |
| CallbackRegistry.DefaultsIncrease | atexit.go:136-142 | Default priorities strictly increase in call order |
| ExitLegacy.RegisterWithPriority | atexit.go:127-134 | Panics exactly on nil and then changes nothing. Otherwise the list is sorted and holds the old entries plus the new one, behind the earlier entries of its priority; on a valid state the entry sits exactly at its insertion point. The default counter and the flags are untouched, and the state stays valid |
| ExitLegacy.Register | atexit.go:140-142 | The counter advances by one. A nil callback panics and leaves the list as it was. Otherwise the list is sorted and holds the old entries plus the new one with the advanced value, behind the earlier entries of that priority. The flags are untouched |
| ExitLegacy.RunExits | atexit.go:149-151 | The loop from the last index down to 0 invokes the callbacks in exactly the reverse of list order |
| ExitLegacy.Execute | atexit.go:147-155 | The first call sets the flag, runs the reversed list and then closes the channel. It closes nothing before the last callback. A call after the flag is set changes nothing and runs nothing |
| ExitLegacy.ExitedIsInert | atexit.go:148 | Once the flag is set, any number of calls change nothing and run nothing |
| ExitLegacy.ExecuteIsOneShot | atexit.go:144-155 | Any number of calls, at least one, do exactly what one call does |
| ExitLegacy.WaitAfterCallbacks | atexit.go:149-153 | At every point of the run where `Wait` may return, every callback has already been invoked |
| ExitLegacy.Exit | atexit.go:112-120 | Exit is Execute followed by one final call of the exit hook with the same code: the resulting state is Execute's, the events before the last are exactly Execute's, the run closes the channel before the hook, and the list is untouched. After the flag is set, the hook call is the only event |
| ExitRegistry.OnExitWithPriority | atexit_exit.go:40-56 | Panics exactly on nil and then changes nothing. Otherwise the list is sorted and holds exactly the old entries plus the new one, behind the earlier entries of its priority. The default counter and the three flags are untouched |
| ExitRegistry.OnExit | atexit_exit.go:58-65 | The counter advances by one per call, even for a nil callback, which panics and leaves the list as it was. Otherwise the list is sorted and holds the new callback with the advanced value, behind the earlier entries of that priority. The flags are untouched |
| ExitRegistry.GetAllExitFuncs | atexit_exit.go:45-48 | The copy has the list's length and equals it at every index, so reading it back to front gives the order Execute runs. In a valid state it is sorted |
| ExitRegistry.Execute | atexit_exit.go:32-38 | The first call sets the flag, fires Done first, runs the reversed list, and closes the channel last. A call after the flag is set changes nothing and runs nothing |
| ExitRegistry.DoneBeforeCallbacks | atexit_exit.go:33-35 | At every point of the run where some callback has been invoked, Done has already fired |
| ExitRegistry.WaitAfterCallbacks | atexit_exit.go:35-36 | At every point of the run where `Wait` may return, every callback has already been invoked |
| ExitRegistry.ExecutedIsInert | atexit_exit.go:33 | Once the flag is set, any number of calls change nothing and run nothing |
| ExitRegistry.ExecuteIsOneShot | atexit_exit.go:74-80 | Any number of calls, at least one, do exactly what one call does |
| ExitRegistry.LateRegistrationNeverRuns | atexit_exit.go:40-43 | A callback registered after execution is stored, but no later Execute runs it |
| ExitRegistry.Exit | atexit_exit.go:88-92 | Exit is execute followed by one final call of the exit hook with the same code: the resulting state is execute's, the events before the last are exactly Execute's, so Done fires first and the channel closes before the hook, and the list is untouched. After execution, the hook call is the only event |
| ExitRegistry.HighestPriorityFirst | atexit_exit.go:50-56 | For any registrations from program start, exit callbacks run in non-increasing priority order, and equal priorities newest first |
| InitRegistry.OnInitWithPriority | init.go:27-36 | Panics exactly on nil and then changes nothing. Otherwise the list is sorted, holds the old entries plus the new one, and the entry follows the earlier entries of its priority. The init counter is untouched |
| InitRegistry.OnInit | init.go:55-62 | The init counter advances by one per call. A nil callback panics and changes nothing else. Otherwise the list is sorted and holds the new callback with the advanced value, behind the earlier entries of that priority |
| InitRegistry.GetAllInitFuncs | init.go:38-45 | The loop copies the list element by element. The result has the same length and equals the list at every index |
| InitRegistry.Init | init.go:64-69 | The length is read once, and exactly that many callbacks are invoked, front to back in list order |
| InitRegistry.InitRepeatedly | init.go:64-69 | Calling Init k times in a row invokes the registered callbacks k times over, each time in list order: exactly `InitTimes` |
| InitRegistry.InitRepeats | init.go:64-69 | With no executed flag, k calls of Init run each registered callback k times |
| InitRegistry.LowestPriorityFirst | init.go:47-53 | For any registrations from program start, init callbacks run in non-decreasing priority order, and equal priorities in registration order |
| InitRegistry.ExplicitBelowDefaultsFirst | init.go:55-62 | Default init priorities are at least 100, so every callback with an explicit priority below 100 runs before all default ones |
| Scenarios.ExitCallsList | atexit_exit_test.go:26-31 | Priorities 1, 2, 3, 3, 2, 1 build the list 1, 6, 2, 5, 3, 4 |
| Scenarios.ExitTestOrder | atexit_exit_test.go:23-44 | After those registrations, one execution runs 4, 3, 5, 2, 6, 1 |
| Scenarios.LegacyExitTestOrder | atexit_test.go:51-80 | The first version runs the same registrations as 4, 3, 5, 2, 6, 1 |
| Scenarios.SortTestOrder | atexit_test.go:24-49 | The stable sort of priorities 0, 3, 3, 2, 1, 2 orders exit1 to exit6 as exit1, exit5, exit4, exit6, exit2, exit3 |
| Scenarios.InitCallsList | init_test.go:20-27 | Default, default, 20, 10, 10, 30, default registrations get priorities 100, 101, 20, 10, 10, 30, 102 and build the list 4, 5, 3, 6, 1, 2, 7 |
| Scenarios.InitExampleOrder | init_test.go:19-40 | Init on that list prints init4, init5, init3, init6, init1, init2, init7 |

## Left out

- Concurrency and atomics. The compare-and-swap and `atomic.AddInt64` are a
  sequential check-and-set and increment. Races between registration and
  execution are not modelled.
- Panics inside callbacks. The model has no callback bodies. The ineffective
  `defer recover()` at `atexit.go:150` is not modelled as recovery.
- `os.Exit`/`ExitFunc`, `ExitDelay` and the sleeps in `Exit` and `Wait`
  (`atexit.go:115-117`, `atexit_exit.go:83`). They are the `Terminate` event,
  or nothing. Only the order "execution completes before the exit hook" is
  kept.
- ExitLegacy.Exit: states nothing about the `ExitDelay` pause before the
  hook, because time is not modelled.
- Blocking on channels. `Wait` and `Done` are the booleans `completed` and
  `cancelled`, read at each point of the event trace.
- `Context` (`atexit_exit.go:67-72`): only its Done signal is modelled, as
  `cancelled`.
- `registerCallback` and `runExits`, which `atexit_exit.go` calls: the file
  that defines them is not part of this model. Their behaviour is taken from the same logic in
  `atexit.go` and `init.go` and from `atexit_exit_test.go`: append, stable
  sort, nil check, run back to front.
- `atexit_init.go` and `deprecated.go`. The first repeats `init.go` through
  the same helpers; the second only forwards to other names.
- `getFileLine`, the `File`/`Line`/`Name` fields and debug logging. They are
  diagnostics and do not affect order.
- The `signal` package. It delivers OS signals.
- Overflow of the `int64` counter and of `int` priorities: integers are
  unbounded.
- Panic messages. A panic is `Outcome.Panic`, without its text.
- ExitLegacy.Execute: fixes the run order when the run starts. In Go the
  loop at `atexit.go:149-150` reads the live list on every iteration, so a
  callback that registers another exit callback during the run changes what
  runs next: a re-sort can move an entry that has not yet run to an index the
  loop has already passed, and then it is skipped. Callbacks have no bodies
  here, so they cannot register anything.
- ExitRegistry.Execute: fixes the run order when the run starts.
  `runExits(exitfuncs)` at `atexit_exit.go:35` receives the global slice, and
  a registration from inside a callback appends to it and re-sorts it. When
  the append fits the slice's capacity, the re-sort rearranges the array the
  run is reading. The file that defines `runExits` is not part of this
  model, and callbacks here have no bodies.
- InitRegistry.Init: states nothing about callbacks that register further
  init functions while Init runs, because callbacks have no bodies here. The
  bound `n` is read once, as in `init.go:66`.
- InitRegistry.GetAllInitFuncs: states nothing about aliasing. The model
  holds values, so later registrations cannot change a copy already taken.
