/** The two-phase task launch: create a stopped copy of the process, let the
    controller configure it, and kill it again if configuration fails.

    The kernel calls involved (`fork_rt`, `prepare_rt_task`,
    `set_rt_task_param`) and the caller's callbacks (`rt_prog`, `setup`) are
    outside this model: each appears as a parameter that supplies its result.
    The calls the routine makes are recorded, in order, in the result. */
module Launch {
  import opened LitmusTypes

  /** Signal number of SIGKILL on the kernels the library runs on. */
  const SIGKILL: int := 9

  /** The value every failure after a successful fork returns. */
  const LAUNCH_FAILED: int := -1

  /** A call the controller makes after the fork. */
  datatype LaunchCall<A> =
    | SetupCalled(pid: int, arg: A)
    | PrepareCalled(pid: int)
    | KillSent(pid: int, sig: int)

  /** How the launch routine ends in the process that observes it: it returns
      to its caller (controller, or a failed fork), or the process exits with
      the task body's value (the new task). */
  datatype LaunchEnd = Returned(value: int) | ProcessExit(status: int)

  datatype Launched<A> = Launched(end: LaunchEnd, calls: seq<LaunchCall<A>>)

  /** `__launch_rt_task`.  `forkRt` is what `fork_rt` returned in the process
      at hand: negative on failure, 0 in the new task, the new task's id in the
      controller.  `setup` and `prepareRtTask` give the results of the setup
      callback and of the `prepare_rt_task` kernel call for a task id. */
  function LaunchRtTask<P, A>(rtProg: P -> int, rtArg: P,
                              setup: (int, A) -> int, setupArg: A,
                              forkRt: int, prepareRtTask: int -> int): (r: Launched<A>)
    // A failed fork is returned unchanged, and nothing else happens.
    ensures forkRt < 0 ==> r == Launched(Returned(forkRt), [])
    // The new task never returns: it runs the body and exits with its value.
    ensures forkRt == 0 ==> r == Launched(ProcessExit(rtProg(rtArg)), [])
    // The controller calls setup exactly once, first, with the new task's id.
    ensures forkRt > 0 ==>
      && 0 < |r.calls| <= 3
      && r.calls[0] == SetupCalled(forkRt, setupArg)
      && forall i :: 0 < i < |r.calls| ==> !r.calls[i].SetupCalled?
    // The controller returns either the new task's id or -1 ...
    ensures forkRt > 0 ==> r.end == Returned(forkRt) || r.end == Returned(LAUNCH_FAILED)
    // ... and it returns the id exactly when setup and preparation both succeed.
    ensures forkRt > 0 ==>
      (r.end == Returned(forkRt) <==> setup(forkRt, setupArg) >= 0 && prepareRtTask(forkRt) >= 0)
    // Preparation is attempted exactly when setup succeeded.
    ensures forkRt > 0 ==>
      (PrepareCalled(forkRt) in r.calls <==> setup(forkRt, setupArg) >= 0)
    // Rollback: the new task is killed exactly when the launch fails, and the
    // kill is the controller's last call.
    ensures forkRt > 0 ==>
      (KillSent(forkRt, SIGKILL) in r.calls <==> r.end == Returned(LAUNCH_FAILED))
    ensures forall i :: 0 <= i < |r.calls| - 1 ==> !r.calls[i].KillSent?
    // Only the new task is ever addressed.
    ensures forall c :: c in r.calls ==> c.pid == forkRt
    // The controller's calls, exactly: setup, prepare if setup succeeded, and
    // the kill if the launch failed.
    ensures forkRt > 0 ==>
      r.calls == [SetupCalled(forkRt, setupArg)]
                 + (if setup(forkRt, setupArg) >= 0 then [PrepareCalled(forkRt)] else [])
                 + (if r.end == Returned(LAUNCH_FAILED) then [KillSent(forkRt, SIGKILL)] else [])
  {
    if forkRt < 0 then
      Launched(Returned(forkRt), [])
    else if forkRt > 0 then
      var ret := setup(forkRt, setupArg);
      if ret < 0 then
        Launched(Returned(LAUNCH_FAILED), [SetupCalled(forkRt, setupArg), KillSent(forkRt, SIGKILL)])
      else
        var prepared := prepareRtTask(forkRt);
        if prepared < 0 then
          Launched(Returned(LAUNCH_FAILED),
                   [SetupCalled(forkRt, setupArg), PrepareCalled(forkRt), KillSent(forkRt, SIGKILL)])
        else
          Launched(Returned(forkRt), [SetupCalled(forkRt, setupArg), PrepareCalled(forkRt)])
    else
      Launched(ProcessExit(rtProg(rtArg)), [])
  }

  /** `setup_create_rt`: the setup callback `__create_rt_task` installs.  It
      copies the launch context into a kernel parameter block (the worst-case
      execution time becomes the execution cost) and hands it, with the new
      task's id, to `set_rt_task_param`, whose result it returns. */
  function SetupCreateRt(setRtTaskParam: (int, RtParam) -> int, pid: int, arg: CreateRtParam): (ret: int)
    ensures ret == setRtTaskParam(pid, RtParam(arg.wcet, arg.period, arg.cpu, arg.cls))
  {
    var params := RtParam(execCost := arg.wcet, period := arg.period, cpu := arg.cpu, cls := arg.cls);
    setRtTaskParam(pid, params)
  }

  /** `__create_rt_task`: launch with `setup_create_rt` as the setup callback
      and the given budget, period, CPU and class as its context. */
  function CreateRtTaskOfClass<P>(rtProg: P -> int, arg: P, cpu: int, wcet: int, period: int,
                                  cls: TaskClass, forkRt: int,
                                  setRtTaskParam: (int, RtParam) -> int,
                                  prepareRtTask: int -> int): (r: Launched<CreateRtParam>)
    ensures forkRt > 0 ==> |r.calls| > 0 && r.calls[0] == SetupCalled(forkRt, CreateRtParam(cpu, wcet, period, cls))
    ensures forkRt > 0 ==>
      (r.end == Returned(forkRt) <==>
         setRtTaskParam(forkRt, RtParam(wcet, period, cpu, cls)) >= 0 && prepareRtTask(forkRt) >= 0)
    ensures forkRt <= 0 ==> r.calls == []
  {
    var params := CreateRtParam(cpu := cpu, wcet := wcet, period := period, cls := cls);
    LaunchRtTask(rtProg, arg, (pid, a) => SetupCreateRt(setRtTaskParam, pid, a), params,
                 forkRt, prepareRtTask)
  }

  /** `create_rt_task`: `__create_rt_task` for a hard real-time task. */
  function CreateRtTask<P>(rtProg: P -> int, arg: P, cpu: int, wcet: int, period: int,
                           forkRt: int, setRtTaskParam: (int, RtParam) -> int,
                           prepareRtTask: int -> int): (r: Launched<CreateRtParam>)
    ensures forkRt > 0 ==>
      |r.calls| > 0 && r.calls[0] == SetupCalled(forkRt, CreateRtParam(cpu, wcet, period, RtClassHard))
    ensures forkRt > 0 ==>
      (r.end == Returned(forkRt) <==>
         setRtTaskParam(forkRt, RtParam(wcet, period, cpu, RtClassHard)) >= 0 && prepareRtTask(forkRt) >= 0)
  {
    CreateRtTaskOfClass(rtProg, arg, cpu, wcet, period, RtClassHard, forkRt, setRtTaskParam, prepareRtTask)
  }

  /** The fate of the new task as the controller leaves it. */
  datatype ChildFate = Runnable | Killed | NoChild

  /** Reading the controller's calls back: the new task was killed, or was
      prepared and left to the scheduler, or never existed in the controller's
      view (a failed fork, or the new task itself). */
  function FateOf<A>(calls: seq<LaunchCall<A>>): ChildFate
  {
    if calls == [] then NoChild
    else if calls[|calls| - 1].KillSent? then Killed
    else Runnable
  }

  /** All-or-nothing: after a successful fork the new task ends up either
      prepared and runnable, with its id returned, or killed, with -1
      returned; there is no third outcome. */
  lemma LaunchAllOrNothing<P, A>(rtProg: P -> int, rtArg: P, setup: (int, A) -> int, setupArg: A,
                                 forkRt: int, prepareRtTask: int -> int)
    requires forkRt > 0
    ensures var r := LaunchRtTask(rtProg, rtArg, setup, setupArg, forkRt, prepareRtTask);
      && (FateOf(r.calls) == Runnable <==> r.end == Returned(forkRt))
      && (FateOf(r.calls) == Killed <==> r.end == Returned(LAUNCH_FAILED))
  {
  }

  /** On a failed fork the routine returns the fork's negative value, and
      after a failed setup or preparation it returns -1.  A failed system call
      returns -1, so the caller cannot tell the cases apart by the result. */
  lemma LaunchFailuresIndistinguishable<P, A>(rtProg: P -> int, rtArg: P,
                                              setup: (int, A) -> int, setupArg: A,
                                              pid: int, prepareRtTask: int -> int)
    requires pid > 0 && (setup(pid, setupArg) < 0 || prepareRtTask(pid) < 0)
    ensures LaunchRtTask(rtProg, rtArg, setup, setupArg, -1, prepareRtTask).end
         == LaunchRtTask(rtProg, rtArg, setup, setupArg, pid, prepareRtTask).end
  {
  }
}
