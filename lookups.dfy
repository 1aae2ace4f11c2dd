/** The library's two table lookups: the display name of a scheduling policy
    and the parse of a task-class keyword. */
module Lookups {
  import opened LitmusTypes

  /** The label every policy outside the listed nine gets (spelled as the
      library spells it). */
  const UNKNOWN_POLICY_NAME: string := "Unkown"

  /** `get_scheduler_name`: a total map from policy to display string. */
  function GetSchedulerName(scheduler: SchedPolicy): (name: string)
    ensures |name| > 0
    ensures name == UNKNOWN_POLICY_NAME <==> !scheduler.Listed()
  {
    match scheduler
    case SchedLinux => "Linux"
    case SchedPfair => "Pfair"
    case SchedPfairStagger => "Pfair (staggered)"
    case SchedPartEdf => "Partioned EDF"
    case SchedPartEevdf => "Partioned EEVDF"
    case SchedGlobalEdf => "Global EDF"
    case SchedEdfHsb => "EDF-HSB"
    case SchedGsnEdf => "GSN-EDF"
    case SchedPsnEdf => "PSN-EDF"
    case OtherPolicy(_) => UNKNOWN_POLICY_NAME
  }

  datatype Option<T> = None | Some(value: T)

  /** Reading a display name back: the listed policy whose name it is, if any.
      This inverse is what shows that the names tell the policies apart. */
  function PolicyNamed(name: string): (p: Option<SchedPolicy>)
    ensures p.Some? ==> p.value.Listed()
  {
    if name == "Linux" then Some(SchedLinux)
    else if name == "Pfair" then Some(SchedPfair)
    else if name == "Pfair (staggered)" then Some(SchedPfairStagger)
    else if name == "Partioned EDF" then Some(SchedPartEdf)
    else if name == "Partioned EEVDF" then Some(SchedPartEevdf)
    else if name == "Global EDF" then Some(SchedGlobalEdf)
    else if name == "EDF-HSB" then Some(SchedEdfHsb)
    else if name == "GSN-EDF" then Some(SchedGsnEdf)
    else if name == "PSN-EDF" then Some(SchedPsnEdf)
    else None
  }

  /** Every listed policy is recovered from its display name, and the fallback
      name reads back as no policy at all. */
  lemma SchedulerNameRoundTrip(p: SchedPolicy)
    ensures PolicyNamed(GetSchedulerName(p)) == if p.Listed() then Some(p) else None
  {
  }

  /** The listed display names are pairwise distinct. */
  lemma SchedulerNamesDistinct(p: SchedPolicy, q: SchedPolicy)
    requires p.Listed() && q.Listed() && p != q
    ensures GetSchedulerName(p) != GetSchedulerName(q)
  {
    SchedulerNameRoundTrip(p);
    SchedulerNameRoundTrip(q);
  }

  /** The result of `str2class`: a task class, or the invalid marker that the
      library encodes as -1. */
  datatype ClassParse = Parsed(cls: TaskClass) | Invalid

  /** The keyword `str2class` accepts for each class. */
  function ClassKeyword(cls: TaskClass): (word: string)
    ensures |word| > 0
  {
    match cls
    case RtClassHard => "hrt"
    case RtClassSoft => "srt"
    case RtClassBestEffort => "be"
  }

  /** `str2class`: parse "hrt", "srt" or "be"; every other string is invalid.
      The argument is the C string up to (not including) its terminating NUL. */
  function Str2Class(str: string): (r: ClassParse)
    ensures r == Parsed(RtClassHard) <==> str == "hrt"
    ensures r == Parsed(RtClassSoft) <==> str == "srt"
    ensures r == Parsed(RtClassBestEffort) <==> str == "be"
    ensures r == Invalid <==> str !in {"hrt", "srt", "be"}
  {
    if str == "hrt" then Parsed(RtClassHard)
    else if str == "srt" then Parsed(RtClassSoft)
    else if str == "be" then Parsed(RtClassBestEffort)
    else Invalid
  }

  /** Parsing inverts the keyword table: a string parses to a class exactly
      when it is that class's keyword. */
  lemma Str2ClassInvertsKeyword(str: string, cls: TaskClass)
    ensures Str2Class(str) == Parsed(cls) <==> str == ClassKeyword(cls)
  {
  }
}
