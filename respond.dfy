/**
 * The response `run_agent` produces for one goal: the bounded wait for the agent,
 * extraction, the direct parse, the repair parse, and the fixed fallback list,
 * ending in HTTP 200, 408 or 500.
 */
module Respond {
  import opened Wrappers
  import opened Json
  import opened Extract
  import opened Tasks

  /** How the 60-second wait for the agent ended. */
  datatype AgentOutcome =
    | TimedOut                          // a TimeoutError: the 60-second wait's, or one the agent raised
    | Raised(message: string)           // any other exception from the agent; `str(e)` is the message
    | Finished(output: Option<string>)  // the result's "output" entry, if it has one

  /**
   * What `json.loads(cleaned_json)` did: a value, a `JSONDecodeError`, or some
   * other exception (a `RecursionError` on deep nesting, the `ValueError` for an
   * over-long integer literal) that the decode handler does not catch.
   */
  datatype Loaded = Parsed(value: Json) | DecodeError | LoadRaised(message: string)

  /** What `fixing_parser.parse(cleaned_json)` did. */
  datatype Repair = Repaired(tasks: seq<TaskItem>) | RepairFailed

  /** Why the request ended in an HTTP error. */
  datatype Cause = Timeout | AgentFailed(message: string) | NormalizeFailed(failure: Failure)

  /** The endpoint's answer: a 200 body, or an `HTTPException`. */
  datatype Response =
    | Success(tasks: seq<TaskItem>, warning: Option<string>, rawOutput: Option<string>)
    | HttpError(status: nat, cause: Cause)

  /** How much of the agent's output a fallback response echoes back. */
  const RawOutputLimit: nat := 500

  const FallbackWarning: string := "Used fallback task structure due to parsing issues"

  const TimeoutDetail: string :=
    "Request timed out. The AI agent took too long to process your goal. Try with a simpler goal."

  /** How the `detail` of every 500 the model words begins. */
  const AgentFailurePrefix: string := "Agent execution failed: "

  const NoValidTasksDetail: string := AgentFailurePrefix + "No valid tasks found in response"

  /** The last-resort task breakdown. */
  function FallbackTasks(): (r: seq<TaskItem>)
    ensures |r| == 5
    ensures forall k :: 0 <= k < |r| ==> r[k].step != "" && r[k].task != ""
  {
    [ TaskItem("Analysis", "Analyze requirements and define scope"),
      TaskItem("Design", "Create system design and architecture"),
      TaskItem("Development", "Implement core functionality"),
      TaskItem("Testing", "Test and validate the solution"),
      TaskItem("Deployment", "Deploy and monitor the system") ]
  }

  /** The HTTP status code of a response. */
  function Status(r: Response): nat {
    if r.Success? then 200 else r.status
  }

  /** `output_str[:500]`. */
  function RawExcerpt(output: string): (r: string)
    ensures |r| == if |output| < RawOutputLimit then |output| else RawOutputLimit
    ensures r <= output
  {
    if |output| <= RawOutputLimit then output else output[..RawOutputLimit]
  }

  /** Python's message for an operation a type does not support: `'<type>' object` and what it lacks. */
  function TypeErrorText(typeName: string, lacks: string): (r: string)
    ensures "'" + typeName + "' object" <= r
  {
    ("'" + typeName + "' object") + lacks
  }

  /**
   * The `detail` of the `HTTPException`, where the model knows its text: pydantic's
   * message for an invalid record is not modelled.
   */
  function Detail(c: Cause): (r: Option<string>)
    ensures r.None? <==> c.NormalizeFailed? && c.failure.InvalidTaskItem?
    ensures r.Some? && !c.Timeout? ==> AgentFailurePrefix <= r.value
    ensures c.AgentFailed? ==> r.value[|AgentFailurePrefix|..] == c.message
    ensures c.NormalizeFailed? && (c.failure.NoItemsMethod? || c.failure.NotIterable?) ==>
            "'" + c.failure.typeName + "' object" <= r.value[|AgentFailurePrefix|..]
  {
    match c
    case Timeout => Some(TimeoutDetail)
    case AgentFailed(m) => Some(AgentFailurePrefix + m)
    case NormalizeFailed(f) =>
      match f
      case NoValidTasks => Some(NoValidTasksDetail)
      case NoItemsMethod(t) => Some(AgentFailurePrefix + TypeErrorText(t, " has no attribute 'items'"))
      case NotIterable(t) => Some(AgentFailurePrefix + TypeErrorText(t, " is not iterable"))
      case InvalidTaskItem(_) => None
  }

  /**
   * The recovery chain once the agent has produced `output` and the two parsers
   * have been run on the extracted text: a direct parse is normalised (an error
   * there is a 500); a decode error goes to the repair parser; if that fails too,
   * the fallback records are sent with a warning and an excerpt of the output.
   */
  function Recover(output: string, loaded: Loaded, repaired: Repair): (r: Response)
    ensures r.Success? || r.status == 500
    ensures r.Success? && r.warning.Some? <==> loaded.DecodeError? && repaired.RepairFailed?
  {
    match loaded
    case Parsed(v) =>
      (match Normalize(v)
       case Ok(tasks) => Success(tasks, None, None)
       case Err(f) => HttpError(500, NormalizeFailed(f)))
    case LoadRaised(m) => HttpError(500, AgentFailed(m))
    case DecodeError =>
      match repaired
      case Repaired(tasks) => Success(tasks, None, None)
      case RepairFailed => Success(FallbackTasks(), Some(FallbackWarning), Some(RawExcerpt(output)))
  }

  /**
   * The decision `run_agent` makes. `loads` and `repair` stand for `json.loads` and
   * `fixing_parser.parse`; both see the extracted text, and only when the agent
   * finished in time.
   */
  function Respond(outcome: AgentOutcome, loads: string -> Loaded, repair: string -> Repair)
    : (r: Response)
    ensures Status(r) == 200 || Status(r) == 408 || Status(r) == 500
    ensures Status(r) == 408 <==> outcome.TimedOut?
    ensures r.Success? ==> outcome.Finished?
  {
    match outcome
    case TimedOut => HttpError(408, Timeout)
    case Raised(m) => HttpError(500, AgentFailed(m))
    case Finished(o) =>
      var output := o.GetOr("");
      var cleaned := ExtractJsonText(output);
      Recover(output, loads(cleaned), repair(cleaned))
  }

  /** Once the agent has finished, the response is the recovery chain run on what the parsers made of the extracted text. */
  lemma RespondFinished(o: Option<string>, loads: string -> Loaded, repair: string -> Repair)
    ensures Respond(Finished(o), loads, repair) ==
            Recover(o.GetOr(""), loads(CleanedOutput(o)), repair(CleanedOutput(o)))
  {
  }

  /** The text `json.loads` and the repair parser see for an agent output. */
  function CleanedOutput(o: Option<string>): (r: string)
    ensures |r| <= |o.GetOr("")|
  {
    ExtractJsonText(o.GetOr(""))
  }

  /** A timeout is a 408 whatever the parsers would have done: neither is consulted. */
  lemma TimeoutIs408(loads: string -> Loaded, repair: string -> Repair,
                    loads': string -> Loaded, repair': string -> Repair)
    ensures Respond(TimedOut, loads, repair) == HttpError(408, Timeout)
    ensures Respond(TimedOut, loads, repair) == Respond(TimedOut, loads', repair')
    ensures Detail(Respond(TimedOut, loads, repair).cause) == Some(TimeoutDetail)
  {
  }

  /** An exception from the agent itself is a 500 carrying its message; no parse or fallback follows. */
  lemma AgentFailureIs500(m: string, loads: string -> Loaded, repair: string -> Repair)
    ensures Respond(Raised(m), loads, repair) == HttpError(500, AgentFailed(m))
  {
  }

  /** A direct parse that normalises is a 200 with exactly those tasks (at least one) and no warning. */
  lemma DirectParseSucceeds(o: Option<string>, loads: string -> Loaded, repair: string -> Repair)
    ensures var l := loads(CleanedOutput(o));
            l.Parsed? && Normalize(l.value).Ok? ==>
              Respond(Finished(o), loads, repair) == Success(Normalize(l.value).value, None, None) &&
              |Normalize(l.value).value| > 0
  {
    RespondFinished(o, loads, repair);
  }

  /**
   * Valid JSON that does not normalise is a 500, never the repair parser and never
   * the fallback: the `ValueError` for an empty list, like the `AttributeError`,
   * `TypeError` and validation errors, escapes the `JSONDecodeError` handler.
   */
  lemma ShapeErrorIs500(o: Option<string>, loads: string -> Loaded, repair: string -> Repair)
    ensures var l := loads(CleanedOutput(o));
            l.Parsed? && Normalize(l.value).Err? ==>
              Respond(Finished(o), loads, repair) == HttpError(500, NormalizeFailed(Normalize(l.value).error))
  {
    RespondFinished(o, loads, repair);
  }

  /**
   * An exception from `json.loads` other than a decode error is a 500 carrying its
   * message, like an exception from the agent: neither the repair parser nor the
   * fallback is used.
   */
  lemma LoadRaisedIs500(o: Option<string>, loads: string -> Loaded, repair: string -> Repair)
    ensures loads(CleanedOutput(o)).LoadRaised? ==>
              Respond(Finished(o), loads, repair) ==
              HttpError(500, AgentFailed(loads(CleanedOutput(o)).message))
  {
    RespondFinished(o, loads, repair);
  }

  /** In particular a parsed `{"tasks": []}` is the 500 with the empty-list message. */
  lemma EmptyTasksIs500(o: Option<string>, loads: string -> Loaded, repair: string -> Repair)
    requires loads(CleanedOutput(o)) == Parsed(Object([Member("tasks", Array([]))]))
    ensures Respond(Finished(o), loads, repair) == HttpError(500, NormalizeFailed(NoValidTasks))
    ensures Detail(Respond(Finished(o), loads, repair).cause) == Some(NoValidTasksDetail)
  {
    EmptyTaskListRefused();
    ShapeErrorIs500(o, loads, repair);
    NoValidTasksMessage();
  }

  /** The message for a list with no tasks. */
  lemma NoValidTasksMessage()
    ensures Detail(NormalizeFailed(NoValidTasks)) == Some(NoValidTasksDetail)
  {
  }

  /** A failed direct parse rescued by the repair parser is a 200 with its tasks and no warning. */
  lemma RepairSucceeds(o: Option<string>, loads: string -> Loaded, repair: string -> Repair,
                       tasks: seq<TaskItem>)
    requires loads(CleanedOutput(o)) == DecodeError && repair(CleanedOutput(o)) == Repaired(tasks)
    ensures Respond(Finished(o), loads, repair) == Success(tasks, None, None)
  {
    RespondFinished(o, loads, repair);
  }

  /**
   * When both parsers fail the answer is a 200 with the five fixed records, the
   * fixed warning, and the first 500 characters of the output.
   */
  lemma BothParsesFail(o: Option<string>, loads: string -> Loaded, repair: string -> Repair)
    requires loads(CleanedOutput(o)) == DecodeError && repair(CleanedOutput(o)) == RepairFailed
    ensures Respond(Finished(o), loads, repair) ==
            Success(FallbackTasks(), Some(FallbackWarning), Some(RawExcerpt(o.GetOr(""))))
  {
    RespondFinished(o, loads, repair);
  }

  /** A warning appears exactly when both parsers failed, and then with the fallback records. */
  lemma WarningMeansFallback(outcome: AgentOutcome, loads: string -> Loaded, repair: string -> Repair)
    ensures var r := Respond(outcome, loads, repair);
            (r.Success? && r.warning.Some?) <==>
            (outcome.Finished? && loads(CleanedOutput(outcome.output)) == DecodeError &&
             repair(CleanedOutput(outcome.output)) == RepairFailed)
    ensures var r := Respond(outcome, loads, repair);
            r.Success? && r.warning.Some? ==> r.tasks == FallbackTasks()
  {
    if outcome.Finished? {
      RespondFinished(outcome.output, loads, repair);
    }
  }

  /**
   * A 200 with no tasks can only come from the repair parser returning an empty
   * list: the direct path refuses an empty list and the fallback has five records.
   */
  lemma EmptySuccessOnlyFromRepair(outcome: AgentOutcome, loads: string -> Loaded, repair: string -> Repair)
    ensures var r := Respond(outcome, loads, repair);
            r.Success? && r.tasks == [] ==>
              outcome.Finished? &&
              loads(CleanedOutput(outcome.output)) == DecodeError &&
              repair(CleanedOutput(outcome.output)) == Repaired([])
  {
    if outcome.Finished? {
      var c := CleanedOutput(outcome.output);
      RespondFinished(outcome.output, loads, repair);
      assert |FallbackTasks()| == 5;
      match loads(c)
      case Parsed(_) =>
      case DecodeError =>
      case LoadRaised(_) =>
    }
  }
}
