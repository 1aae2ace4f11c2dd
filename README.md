# A verified model of the LITMUS^RT user-space library core

This project models the sequential logic of `src/litmus.c`. That file is the user-space side of LITMUS^RT, a real-time scheduling extension to Linux. The model has four parts:

- **Non-preemptive sections** (`np_section.dfy`, module `NonPreemptive`). This is the flag structure `np_flag` that a task shares with the kernel. It holds a `preemptivity` word, a `request` word and an unsigned nesting counter `ctr`.
  - `enter_np` and `exit_np` are modelled twice. The pure functions `Enter` and `Exit` give the new state and the kernel-visible events. The class `NpFlag` has the three fields and methods proved to take exactly those steps. A ghost log records transitions of the preemptivity word and the calls of `signal_exit_np`.
  - The kernel's exit request is an explicit environment step. It sets `request` only while `ctr > 0`.
  - The lemmas prove the following:
    - the invariant "non-preemptive iff `ctr > 0`" holds at every point of any well-nested run;
    - a balanced `enter^n; exit^n` makes exactly one transition in and one out;
    - a request the kernel makes inside a section gets exactly one `signal_exit_np` at the exit that leaves the section, whatever nested entries, exits and further requests come in between;
    - a request left over from an earlier section is never replayed.
- **Task launch** (`launch.dfy`, module `Launch`). `__launch_rt_task`, `setup_create_rt`, `__create_rt_task` and `create_rt_task` are functions.
  - The results of `fork_rt`, of the setup callback, of `set_rt_task_param`, of `prepare_rt_task` and of the task body are parameters.
  - The result records the routine's end (a return value, or the new task's process exit) and the calls it made (setup, prepare, `kill(…, SIGKILL)`), in order.
- **Lookups** (`lookups.dfy`, module `Lookups`). `get_scheduler_name` and `str2class` are here.
  - The source's spellings "Partioned" and "Unkown" are kept.
  - `str2class`'s `-1` is an explicit `Invalid` result.
- **Shutdown flag** (`shutdown.dfy`, module `Shutdown`). `exit_requested`, `sig_handler` and `litmus_task_active` are a class. Its word is tied to a pure function of its ghost history of handler runs, and a lemma over that function states the monotonicity.

`types.dfy` (module `LitmusTypes`) holds the types the library takes from `litmus.h`: `spolicy`, `task_class_t` and `rt_param_t`, plus the file's own `struct create_rt_param`. `litmus.h` is not part of this model. Its enumerations are modelled by their symbolic members, and their numeric values are not fixed. A policy value outside the nine that the library names is `OtherPolicy(code)`.

Two consequences of the code worth knowing:

- On a failed fork the launch routine returns the fork's negative value, and after a failed setup or preparation it returns -1. A failed system call returns -1, so the caller cannot tell the cases apart by the result (`Launch.LaunchFailuresIndistinguishable`).
- An `exit_np` at depth 0 wraps the unsigned counter to its largest value while the task stays preemptive (`NonPreemptive.UnmatchedExitBreaksInvariant`).

## Model

| member | source | states |
|---|---|---|
| `Lookups.GetSchedulerName` | src/litmus.c:73-110 | Total. Every name is non-empty, and the name is "Unkown" exactly for policies outside the nine listed ones. |
| `Lookups.SchedulerNameRoundTrip` | src/litmus.c:77-107 | Reading a name back gives the listed policy it came from. The fallback name reads back as no policy. |
| `Lookups.SchedulerNamesDistinct` | src/litmus.c:77-104 | Two different listed policies have different display names. |
| `Lookups.Str2Class` | src/litmus.c:195-205 | "hrt" parses to Hard, "srt" to Soft and "be" to BestEffort, each in both directions. Every other string is Invalid and nothing else is. |
| `Lookups.Str2ClassInvertsKeyword` | src/litmus.c:195-205 | A string parses to a class exactly when it is that class's keyword. |
| `Launch.LaunchRtTask` | src/litmus.c:114-152 | A negative fork result is returned unchanged with no calls. The new task (fork result 0) exits with the body's value and never returns. After a successful fork, the controller calls setup once, first, with the new task's id. Prepare is called iff setup succeeded. The id is returned iff setup and prepare both succeed, otherwise -1. SIGKILL is sent to the new task iff the result is -1, and it is the last call. The call list is exactly setup, then prepare if setup succeeded, then the kill if the launch failed. |
| `Launch.LaunchAllOrNothing` | src/litmus.c:123-144 | After a successful fork, the new task is left runnable iff its id is returned, and killed iff -1 is returned. |
| `Launch.LaunchFailuresIndistinguishable` | src/litmus.c:118-143 | A fork that fails with -1 and a failed setup or preparation after any successful fork give the same return value. |
| `Launch.SetupCreateRt` | src/litmus.c:161-169 | The kernel receives a parameter block whose execution cost is the WCET and whose period, CPU and class are copied. Its result is the setup result. |
| `Launch.CreateRtTaskOfClass` | src/litmus.c:171-181 | The setup is called with the given cpu, wcet, period and class. The launch succeeds iff `set_rt_task_param` accepts those parameters and preparation succeeds. |
| `Launch.CreateRtTask` | src/litmus.c:183-185 | Same as above, with the class fixed to RT_CLASS_HARD. |
| `NonPreemptive.Enter` | src/litmus.c:231-239 | The counter rises by exactly one (wrapping at 2^32). Only the step to 1 clears `request` and sets RT_NON_PREEMPTIVE, and it is the only transition event. A nested entry changes nothing but the counter. Enter preserves the invariant below the wrap. |
| `NonPreemptive.Exit` | src/litmus.c:242-251 | The counter falls by exactly one (wrapping below 0). `request` is never changed. Only the step to 0 sets RT_PREEMPTIVE, and its events are the transition followed, when a request is pending, by the notification. `signal_exit_np` is emitted iff the counter was 1 and `request` was RT_EXIT_NP_REQUESTED. Exit preserves the invariant when `ctr > 0`. |
| `NonPreemptive.KernelRequestExit` | src/litmus.c:209-218 | The kernel sets the request word only inside a section; outside one the state is unchanged. It never touches the other words, and it keeps the invariant. |
| `NonPreemptive.RunKeepsConsistent` | src/litmus.c:231-251 | Any well-nested run from a consistent state ends consistent. Well-nested means no exit at depth 0 and no wrap. |
| `NonPreemptive.ConsistentThroughout` | src/litmus.c:231-251 | At every prefix of a well-nested run from a consistent state, the invariant holds: preemptivity is RT_NON_PREEMPTIVE iff `ctr > 0`. |
| `NonPreemptive.NestedEnters` | src/litmus.c:231-239 | `n` entries make at most one transition, and only from depth 0. |
| `NonPreemptive.NestedExits` | src/litmus.c:242-251 | `n` exits change only the counter until the one that reaches 0. That exit sets preemptive and signals iff a request is pending. |
| `NonPreemptive.BalancedSection` | src/litmus.c:231-251 | From the initial state (`preemptivity` RT_PREEMPTIVE, `ctr` 0, even with a stale request), `enter^n; exit^n` makes exactly one transition in and one out, sends no notification, and ends in the initial state. |
| `NonPreemptive.DeferredExitSignalled` | src/litmus.c:242-251 | A kernel request at any depth, followed only by the exits that close the section, gets exactly one `signal_exit_np`, and the section ends preemptive. |
| `NonPreemptive.RequestPersistsInside` | src/litmus.c:231-251 | While the task stays inside a section, a pending request survives any nested entries, exits and further requests, the invariant holds, and nothing is signalled. |
| `NonPreemptive.RequestNeverLost` | src/litmus.c:231-251 | After a kernel request inside a section, whatever well-nested work follows inside it, the exit that leaves the section becomes preemptive and sends exactly one `signal_exit_np`. |
| `NonPreemptive.RequestedSectionThenQuietSection` | src/litmus.c:231-251 | A section with a request gives one notification. The next section starts from a cleared request and gives none. |
| `NonPreemptive.UnmatchedExitBreaksInvariant` | src/litmus.c:242-244 | An exit at depth 0 wraps the unsigned counter to 2^32-1 while the task stays preemptive. |
| `NonPreemptive.NpFlag.constructor` | src/litmus.c:220 | The static structure starts all-zero with an empty event log. |
| `NonPreemptive.NpFlag.InitLitmus` | src/litmus.c:268-272 | Sets RT_PREEMPTIVE and `ctr` 0 and leaves `request` alone. From the zeroed structure this gives the consistent initial state. |
| `NonPreemptive.NpFlag.SignalExitNp` | src/litmus.c:223 | The kernel notification is one entry appended to the log. |
| `NonPreemptive.NpFlag.EnterNp` | src/litmus.c:231-239 | The new fields are exactly `Enter` of the old fields, and the log grows by `Enter`'s events. |
| `NonPreemptive.NpFlag.ExitNp` | src/litmus.c:242-251 | The new fields are exactly `Exit` of the old fields, and the log grows by `Exit`'s events, including the `signal_exit_np` call. |
| `NonPreemptive.NpFlag.KernelRequestsExit` | src/litmus.c:214-215 | The fields become `KernelRequestExit` of the old ones, and the log is unchanged. |
| `Shutdown.ShutdownFlag.constructor` | src/litmus.c:253 | The flag starts at 0, with an empty handler history. |
| `Shutdown.ShutdownFlag.SigHandler` | src/litmus.c:255-258 | Whatever the signal, the flag becomes 1 and the run is appended to the history. The word stays tied to `ActiveAfter` of the history. |
| `Shutdown.ShutdownFlag.LitmusTaskActive` | src/litmus.c:260-263 | Returns `ActiveAfter` of the handler history, that is, active iff no handler has run yet. |
| `Shutdown.ActiveAfter` | src/litmus.c:253-263 | Over a history of handler runs and polls, the task is active iff no handler run occurred. |
| `Shutdown.ShutdownIsFinal` | src/litmus.c:253-263 | Once inactive, the task stays inactive after any further handler runs and polls. |

## Left out

- The `_syscall0/1/2` stub macros and every kernel entry point they generate (`sched_setpolicy`, semaphores, job release and so on). They are foreign kernel calls with no client-side logic. `fork_rt`, `set_rt_task_param`, `prepare_rt_task` and `signal_exit_np` appear only as parameters or log events.
- The `raw_clone` flag constants and clone semantics. Process creation is OS behaviour; only the sign of the fork result matters to the model.
- The `sfence` barrier in `enter_np` and `exit_np`, and concurrency with the kernel. The model treats the barrier as a sequence point and the kernel's write to `request` as an explicit interleaved step. It does not capture memory-ordering or reordering effects.
- The side effects of `init_litmus`: `mlockall`, `register_np_flag`, signal-handler registration, and the `perror`/`exit(1)` abort. Only the two field assignments are modelled.
- `show_rt_param` is console output only.
- Asynchronous signal delivery. `sig_handler` is an ordinary method call.
- `Launch.LaunchRtTask`: the failure cause that the source leaves in `errno` is not modelled, and neither is its possible overwrite by a failing `kill`. The result alone does not carry the cause.
- `Launch.LaunchRtTask`: the child's status is the value passed to `exit`. The operating system's truncation of an exit status to 8 bits is not modelled.
- `Launch.SetupCreateRt`: the widths of `rt_param_t`'s fields are not modelled. They are declared in `litmus.h`, which is not part of this model, so the `int`-to-field conversion is not modelled either.
- `Lookups.Str2Class`: the argument is the C string up to its terminating NUL, so `strcmp`'s stop at an embedded NUL does not arise.
- `Shutdown.ShutdownFlag.LitmusTaskActive`: it returns a boolean where the C function returns the `int` 1 or 0.
