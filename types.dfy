/** Types that the library takes from its kernel interface header (litmus.h).
    The header is not part of this model, so its enumerations are modelled by
    their symbolic members only; their numeric encodings are not fixed here. */
module LitmusTypes {

  /** `spolicy`: the scheduling disciplines compiled into the kernel.  The nine
      listed members are the ones the library names; any other policy value the
      kernel may report is `OtherPolicy`, carrying its raw code. */
  datatype SchedPolicy =
    | SchedLinux
    | SchedPfair
    | SchedPfairStagger
    | SchedPartEdf
    | SchedPartEevdf
    | SchedGlobalEdf
    | SchedEdfHsb
    | SchedGsnEdf
    | SchedPsnEdf
    | OtherPolicy(code: int)
  {
    /** True for the nine policies the library has a display name for. */
    predicate Listed() { !OtherPolicy? }
  }

  /** `task_class_t`: what a deadline or budget miss means to the kernel. */
  datatype TaskClass = RtClassHard | RtClassSoft | RtClassBestEffort

  /** `rt_param_t`: the parameter block handed to `set_rt_task_param`. */
  datatype RtParam = RtParam(execCost: int, period: int, cpu: int, cls: TaskClass)

  /** The library's own `struct create_rt_param`, the context that
      `__create_rt_task` hands to its setup callback. */
  datatype CreateRtParam = CreateRtParam(cpu: int, wcet: int, period: int, cls: TaskClass)
}
