/**
 * The two closed string enumerations of the task tracker: a task's
 * priority and its status. Parsing a string succeeds only for one of the
 * listed values (the enumeration's constructor lookup by value); rendering
 * gives back that value.
 */
module Enums {
  import opened Wrappers

  datatype Priority = High | Medium | Low

  datatype Status = Pending | Completed

  /** The string value of a priority; parsing it gives the priority back. */
  function RenderPriority(p: Priority): (s: string)
    ensures s in {"high", "medium", "low"}
  {
    match p
    case High => "high"
    case Medium => "medium"
    case Low => "low"
  }

  /** Lookup of a priority by its value; case-sensitive, no trimming. */
  function ParsePriority(s: string): (r: Option<Priority>)
    ensures r.Some? <==> s in {"high", "medium", "low"}
  {
    if s == "high" then Some(High)
    else if s == "medium" then Some(Medium)
    else if s == "low" then Some(Low)
    else None
  }

  /** The string value of a status; parsing it gives the status back. */
  function RenderStatus(st: Status): (s: string)
    ensures s in {"pending", "completed"}
  {
    match st
    case Pending => "pending"
    case Completed => "completed"
  }

  /** Lookup of a status by its value; case-sensitive, no trimming. */
  function ParseStatus(s: string): (r: Option<Status>)
    ensures r.Some? <==> s in {"pending", "completed"}
  {
    if s == "pending" then Some(Pending)
    else if s == "completed" then Some(Completed)
    else None
  }

  /** Rendering then parsing a priority returns the same member. */
  lemma PriorityRoundTrip(p: Priority)
    ensures ParsePriority(RenderPriority(p)) == Some(p)
  {
  }

  /** A successful parse is undone by rendering: the accepted string is the member's value. */
  lemma ParsedPriorityRenders(s: string)
    requires ParsePriority(s).Some?
    ensures RenderPriority(ParsePriority(s).value) == s
  {
  }

  /** Rendering then parsing a status returns the same member. */
  lemma StatusRoundTrip(st: Status)
    ensures ParseStatus(RenderStatus(st)) == Some(st)
  {
  }

  /** A successful parse is undone by rendering: the accepted string is the member's value. */
  lemma ParsedStatusRenders(s: string)
    requires ParseStatus(s).Some?
    ensures RenderStatus(ParseStatus(s).value) == s
  {
  }

  /** Distinct priorities render to distinct strings. */
  lemma RenderPriorityInjective(p: Priority, q: Priority)
    ensures RenderPriority(p) == RenderPriority(q) <==> p == q
  {
  }

  /** Distinct statuses render to distinct strings. */
  lemma RenderStatusInjective(st: Status, su: Status)
    ensures RenderStatus(st) == RenderStatus(su) <==> st == su
  {
  }

  /** "urgent" is not a priority, and upper-case spellings are not accepted. */
  lemma UnknownPriorityRejected()
    ensures ParsePriority("urgent") == None
    ensures ParsePriority("HIGH") == None
    ensures ParseStatus("done") == None
  {
  }
}
