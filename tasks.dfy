/**
 * The task normalisation inside `run_agent`: locate the task collection in the
 * value `json.loads` returned, turn each element into a `TaskItem`, and refuse an
 * empty result.
 */
module Tasks {
  import opened Wrappers
  import opened Text
  import opened Json

  /** `TaskItem(step=..., task=...)`, one record of the response. */
  datatype TaskItem = TaskItem(step: string, task: string)

  /** The exceptions normalisation can raise. None is a `JSONDecodeError`. */
  datatype Failure =
    | NoItemsMethod(typeName: string)   // AttributeError: `.items()` called on a non-dict
    | NotIterable(typeName: string)     // TypeError: `enumerate` over a scalar
    | InvalidTaskItem(index: nat)       // pydantic ValidationError: a field is not a string
    | NoValidTasks                      // the ValueError raised for an empty list

  /** `f"Step {i+1}"`: the step label an element at index `i` gets by default. */
  function StepLabel(i: nat): (r: string)
    ensures |r| > 5 && r[..5] == "Step "
    ensures (forall k :: 5 <= k < |r| ==> IsDigit(r[k])) && DecimalValue(r[5..]) == i + 1
  {
    var d := NatToDecimal(i + 1);
    DecimalRoundTrip(i + 1);
    assert ("Step " + d)[5..] == d;
    "Step " + d
  }

  /** Elements at different indices get different default labels. */
  lemma StepLabelInjective(i: nat, j: nat)
    requires StepLabel(i) == StepLabel(j)
    ensures i == j
  {
    assert StepLabel(i)[5..] == NatToDecimal(i + 1);
    assert StepLabel(j)[5..] == NatToDecimal(j + 1);
    DecimalInjective(i + 1, j + 1);
  }

  /** A non-empty list whose first element is a dict holding `"step"` or `"task"`. */
  predicate IsTaskArray(v: Json) {
    v.Array? && |v.elems| > 0 && v.elems[0].Object? &&
    (HasKey(v.elems[0].members, "step") || HasKey(v.elems[0].members, "task"))
  }

  /** The nested search over `json_data.items()`: the first qualifying value, else `[]`. */
  function FirstTaskArray(ms: seq<Member>): (r: Json)
    ensures r == Array([]) || (IsTaskArray(r) && exists k :: 0 <= k < |ms| && ms[k].value == r)
  {
    if |ms| == 0 then Array([])
    else if IsTaskArray(ms[0].value) then ms[0].value
    else
      var r := FirstTaskArray(ms[1..]);
      assert forall k :: 0 <= k < |ms| - 1 ==> ms[1..][k] == ms[k + 1];
      r
  }

  /** The search finds the qualifying value that comes first in key order. */
  lemma {:induction false} FirstTaskArrayAt(ms: seq<Member>, k: int)
    requires 0 <= k < |ms| && IsTaskArray(ms[k].value)
    requires forall j :: 0 <= j < k ==> !IsTaskArray(ms[j].value)
    ensures FirstTaskArray(ms) == ms[k].value
  {
    if k > 0 {
      assert !IsTaskArray(ms[0].value);
      forall j | 0 <= j < k - 1 ensures !IsTaskArray(ms[1..][j].value) {
        assert ms[1..][j] == ms[j + 1];
      }
      FirstTaskArrayAt(ms[1..], k - 1);
    }
  }

  /** With no qualifying value the search yields the empty list. */
  lemma {:induction false} FirstTaskArrayNone(ms: seq<Member>)
    requires forall j :: 0 <= j < |ms| ==> !IsTaskArray(ms[j].value)
    ensures FirstTaskArray(ms) == Array([])
  {
    if |ms| > 0 {
      assert !IsTaskArray(ms[0].value);
      forall j | 0 <= j < |ms| - 1 ensures !IsTaskArray(ms[1..][j].value) {
        assert ms[1..][j] == ms[j + 1];
      }
      FirstTaskArrayNone(ms[1..]);
    }
  }

  /**
   * Where the task collection is found, in this order: the value under `"tasks"`
   * of a dict, whatever its type; a list itself; the nested search; any other
   * value has no `.items()`.
   */
  function Collection(v: Json): (r: Result<Json, Failure>)
    ensures r.Ok? <==> v.Object? || v.Array?
    ensures r.Err? ==> r.error == NoItemsMethod(TypeName(v))
    ensures v.Array? ==> r == Ok(v)
    ensures v.Object? && !HasKey(v.members, "tasks") ==> r.Ok? && r.value.Array?
  {
    match v
    case Object(ms) =>
      if HasKey(ms, "tasks") then Ok(Get(ms, "tasks").value) else Ok(FirstTaskArray(ms))
    case Array(_) => Ok(v)
    case _ => Err(NoItemsMethod(TypeName(v)))
  }

  /** What `enumerate` walks over: a list's elements, a dict's keys, a string's characters. */
  function Elements(c: Json): (r: Result<seq<Json>, Failure>)
    ensures r.Ok? <==> (c.Array? || c.Object? || c.Str?)
    ensures c.Array? ==> r == Ok(c.elems)
    ensures c.Object? ==> r.Ok? && |r.value| == |c.members| &&
                          forall k :: 0 <= k < |c.members| ==> r.value[k] == Str(c.members[k].key)
    ensures c.Str? ==> r.Ok? && |r.value| == |c.s| &&
                       forall k :: 0 <= k < |c.s| ==> r.value[k] == Str([c.s[k]])
  {
    match c
    case Array(es) => Ok(es)
    case Object(ms) => Ok(seq(|ms|, k requires 0 <= k < |ms| => Str(ms[k].key)))
    case Str(s) => Ok(seq(|s|, k requires 0 <= k < |s| => Str([s[k]])))
    case _ => Err(NotIterable(TypeName(c)))
  }

  /**
   * One element at index `i` as a `TaskItem`. A dict supplies `step` (default the
   * label) and `task` (default its `description`, else a placeholder); both must be
   * strings for the record to validate. Anything else becomes the label and `str(e)`.
   */
  function ConvertItem(i: nat, e: Json): (r: Result<TaskItem, Failure>)
    ensures r.Err? ==> e.Object? && r.error == InvalidTaskItem(i)
  {
    match e
    case Object(ms) =>
      var step := Get(ms, "step").GetOr(Str(StepLabel(i)));
      var task := Get(ms, "task").GetOr(Get(ms, "description").GetOr(Str("Task description")));
      if step.Str? && task.Str? then Ok(TaskItem(step.s, task.s))
      else Err(InvalidTaskItem(i))
    case _ => Ok(TaskItem(StepLabel(i), Stringify(e)))
  }

  /** A JSON value that validates as a `str` field, or is absent. */
  predicate StringOrAbsent(ms: seq<Member>, key: string) {
    Get(ms, key).None? || Get(ms, key).value.Str?
  }

  /**
   * The fields a dict element supplies validate: `"step"` is a string or absent, and
   * so is whichever of `"task"` and `"description"` is consulted.
   */
  predicate ValidFields(ms: seq<Member>) {
    StringOrAbsent(ms, "step") && StringOrAbsent(ms, "task") &&
    (HasKey(ms, "task") || StringOrAbsent(ms, "description"))
  }

  /**
   * A dict element converts exactly when its fields validate. Then `step` is its
   * `"step"` or the index label, `task` its `"task"`, else its `"description"`,
   * else the placeholder, and other keys play no part; otherwise the record fails
   * validation at that index.
   */
  lemma ConvertObject(i: nat, ms: seq<Member>)
    ensures ConvertItem(i, Object(ms)).Ok? <==> ValidFields(ms)
    ensures ValidFields(ms) ==> ConvertItem(i, Object(ms)) == Ok(TaskItem(
              if HasKey(ms, "step") then Get(ms, "step").value.s else StepLabel(i),
              if HasKey(ms, "task") then Get(ms, "task").value.s
              else if HasKey(ms, "description") then Get(ms, "description").value.s
              else "Task description"))
    ensures !ValidFields(ms) ==> ConvertItem(i, Object(ms)) == Err(InvalidTaskItem(i))
  {
  }

  /** Any other element is the index label paired with its `str()`. */
  lemma ConvertScalar(i: nat, e: Json)
    requires !e.Object?
    ensures ConvertItem(i, e) == Ok(TaskItem(StepLabel(i), Stringify(e)))
    ensures e.Str? ==> ConvertItem(i, e) == Ok(TaskItem(StepLabel(i), e.s))
  {
  }

  /**
   * The conversion loop as a function, for a per-element conversion `f`: it
   * succeeds exactly when every element converts, keeping length and order;
   * otherwise it fails with the error of the first element that does not.
   */
  function ConvertWith(f: (nat, Json) -> Result<TaskItem, Failure>, es: seq<Json>)
    : (r: Result<seq<TaskItem>, Failure>)
    ensures r.Ok? <==> forall k :: 0 <= k < |es| ==> f(k, es[k]).Ok?
    ensures r.Ok? ==> |r.value| == |es| &&
                      forall k :: 0 <= k < |es| ==> f(k, es[k]) == Ok(r.value[k])
    ensures r.Err? ==> exists k :: 0 <= k < |es| && f(k, es[k]) == Err(r.error) &&
                                   forall j :: 0 <= j < k ==> f(j, es[j]).Ok?
  {
    if |es| == 0 then Ok([])
    else
      var n := |es| - 1;
      var front := es[..n];
      assert forall k :: 0 <= k < n ==> front[k] == es[k];
      match ConvertWith(f, front)
      case Err(e) => Err(e)
      case Ok(prefix) =>
        match f(n, es[n])
        case Err(e) => Err(e)
        case Ok(t) =>
          var r := prefix + [t];
          assert forall k :: 0 <= k < n ==> r[k] == prefix[k];
          Ok(r)
  }

  /** Every element converted by `ConvertItem`, the first failure winning. */
  function ConvertAll(es: seq<Json>): (r: Result<seq<TaskItem>, Failure>)
    ensures r.Ok? <==> forall k :: 0 <= k < |es| ==> ConvertItem(k, es[k]).Ok?
    ensures r.Ok? ==> |r.value| == |es| &&
                      forall k :: 0 <= k < |es| ==> ConvertItem(k, es[k]) == Ok(r.value[k])
    ensures r.Err? ==> exists k :: 0 <= k < |es| && ConvertItem(k, es[k]) == Err(r.error) &&
                                   forall j :: 0 <= j < k ==> ConvertItem(j, es[j]).Ok?
  {
    ConvertWith(ConvertItem, es)
  }

  /** The whole normalisation: collection, iteration, conversion, then the emptiness check. */
  function Normalize(v: Json): (r: Result<seq<TaskItem>, Failure>)
    ensures r.Ok? ==> |r.value| > 0
  {
    match Collection(v)
    case Err(e) => Err(e)
    case Ok(c) =>
      match Elements(c)
      case Err(e) => Err(e)
      case Ok(es) =>
        match ConvertAll(es)
        case Err(e) => Err(e)
        case Ok(items) => if |items| == 0 then Err(NoValidTasks) else Ok(items)
  }

  /** The loop over `json_data.items()` with its `break`. */
  method FindTaskArray(ms: seq<Member>) returns (c: Json)
    ensures c == FirstTaskArray(ms)
  {
    c := Array([]);
    var k := 0;
    while k < |ms|
      invariant 0 <= k <= |ms|
      invariant FirstTaskArray(ms[k..]) == FirstTaskArray(ms)
    {
      var value := ms[k].value;
      if value.Array? && |value.elems| > 0 {
        var first := value.elems[0];
        if first.Object? && (HasKey(first.members, "step") || HasKey(first.members, "task")) {
          c := value;
          break;
        }
      }
      assert ms[k..][1..] == ms[k + 1..];
      k := k + 1;
    }
  }

  /** Once a prefix converts and the next element fails, the whole conversion fails with that error. */
  lemma ConvertAllStopsAt(es: seq<Json>, i: int)
    requires 0 <= i < |es| && ConvertAll(es[..i]).Ok? && ConvertItem(i, es[i]).Err?
    ensures ConvertAll(es) == Err(ConvertItem(i, es[i]).error)
  {
    forall j | 0 <= j < i ensures ConvertItem(j, es[j]).Ok? {
      assert es[..i][j] == es[j];
    }
    var r := ConvertAll(es);
    assert r.Err?;
    var k :| 0 <= k < |es| && ConvertItem(k, es[k]) == Err(r.error) &&
             forall j :: 0 <= j < k ==> ConvertItem(j, es[j]).Ok?;
    assert k <= i;
    assert k >= i;
  }

  /** The `for i, task in enumerate(tasks_data)` loop appending to `task_items`. */
  method ConvertTasks(es: seq<Json>) returns (r: Result<seq<TaskItem>, Failure>)
    ensures r == ConvertAll(es)
  {
    var items: seq<TaskItem> := [];
    for i := 0 to |es|
      invariant ConvertAll(es[..i]) == Ok(items)
    {
      var t := ConvertItem(i, es[i]);
      if t.Err? {
        ConvertAllStopsAt(es, i);
        return Err(t.error);
      }
      assert es[..i + 1][..i] == es[..i];
      items := items + [t.value];
    }
    assert es[..|es|] == es;
    return Ok(items);
  }

  /** The normalisation as `run_agent` performs it, statement by statement. */
  method NormalizeTasks(v: Json) returns (r: Result<seq<TaskItem>, Failure>)
    ensures r == Normalize(v)
    ensures r.Ok? ==> |r.value| > 0
  {
    var tasksData: Json;
    if v.Object? && HasKey(v.members, "tasks") {
      tasksData := Get(v.members, "tasks").value;
    } else if v.Array? {
      tasksData := v;
    } else if v.Object? {
      tasksData := FindTaskArray(v.members);
    } else {
      return Err(NoItemsMethod(TypeName(v)));
    }
    var elems := Elements(tasksData);
    if elems.Err? {
      return Err(elems.error);
    }
    var items := ConvertTasks(elems.value);
    if items.Err? {
      return items;
    }
    if |items.value| == 0 {
      return Err(NoValidTasks);
    }
    return items;
  }

  /**
   * Once the collection is a list, the result keeps its length and order, element
   * `k` converted at index `k`; an empty list is the `NoValidTasks` error.
   */
  lemma NormalizeList(v: Json, es: seq<Json>)
    requires Collection(v) == Ok(Array(es))
    ensures Normalize(v).Ok? ==> |Normalize(v).value| == |es|
    ensures Normalize(v).Ok? ==>
              forall k :: 0 <= k < |es| ==> ConvertItem(k, es[k]) == Ok(Normalize(v).value[k])
    ensures Normalize(v).Ok? <==> |es| > 0 && forall k :: 0 <= k < |es| ==> ConvertItem(k, es[k]).Ok?
    ensures es == [] ==> Normalize(v) == Err(NoValidTasks)
  {
  }

  /** `{"tasks": []}` is refused as holding no valid tasks. */
  lemma EmptyTaskListRefused()
    ensures Normalize(Object([Member("tasks", Array([]))])) == Err(NoValidTasks)
  {
    var v := Object([Member("tasks", Array([]))]);
    assert Get(v.members, "tasks") == Some(Array([]));
    NormalizeList(v, []);
  }

  /**
   * The value under `"tasks"` is the collection whatever its type, and whatever
   * the other values are: a list there normalises on its own, and a scalar there
   * is the `TypeError` of `enumerate`.
   */
  lemma TasksKeyWins(ms: seq<Member>)
    requires HasKey(ms, "tasks")
    ensures Collection(Object(ms)) == Ok(Get(ms, "tasks").value)
    ensures Get(ms, "tasks").value.Array? ==> Normalize(Object(ms)) == Normalize(Get(ms, "tasks").value)
    ensures var t := Get(ms, "tasks").value;
            !(t.Array? || t.Object? || t.Str?) ==> Normalize(Object(ms)) == Err(NotIterable(TypeName(t)))
  {
  }

  /**
   * A dict under `"tasks"` is walked by its keys, each key becoming the task of
   * the record at its index; a string there is walked by its characters.
   */
  lemma TasksKeysAndChars(ms: seq<Member>)
    requires HasKey(ms, "tasks")
    ensures var t := Get(ms, "tasks").value;
            t.Object? && |t.members| > 0 ==>
              Normalize(Object(ms)).Ok? && |Normalize(Object(ms)).value| == |t.members| &&
              forall k :: 0 <= k < |t.members| ==>
                Normalize(Object(ms)).value[k] == TaskItem(StepLabel(k), t.members[k].key)
    ensures var t := Get(ms, "tasks").value;
            t.Str? && |t.s| > 0 ==>
              Normalize(Object(ms)).Ok? && |Normalize(Object(ms)).value| == |t.s| &&
              forall k :: 0 <= k < |t.s| ==>
                Normalize(Object(ms)).value[k] == TaskItem(StepLabel(k), [t.s[k]])
  {
    var t := Get(ms, "tasks").value;
    if (t.Object? && |t.members| > 0) || (t.Str? && |t.s| > 0) {
      StringElements(Object(ms), t, Elements(t).value);
    }
  }

  /** A collection walked as strings becomes the index labels paired with those strings. */
  lemma StringElements(v: Json, c: Json, es: seq<Json>)
    requires Collection(v) == Ok(c) && Elements(c) == Ok(es) && |es| > 0
    requires forall k :: 0 <= k < |es| ==> es[k].Str?
    ensures Normalize(v).Ok? && |Normalize(v).value| == |es|
    ensures forall k :: 0 <= k < |es| ==> Normalize(v).value[k] == TaskItem(StepLabel(k), es[k].s)
  {
    forall k | 0 <= k < |es| ensures ConvertItem(k, es[k]) == Ok(TaskItem(StepLabel(k), es[k].s)) {
      ConvertScalar(k, es[k]);
    }
  }

  /**
   * A dict without `"tasks"` normalises exactly like the first of its values, in
   * key order, that is a list of task dicts.
   */
  lemma NestedLikeBare(ms: seq<Member>, k: int)
    requires !HasKey(ms, "tasks")
    requires 0 <= k < |ms| && IsTaskArray(ms[k].value)
    requires forall j :: 0 <= j < k ==> !IsTaskArray(ms[j].value)
    ensures Normalize(Object(ms)) == Normalize(ms[k].value)
  {
    FirstTaskArrayAt(ms, k);
  }

  /** A dict with neither `"tasks"` nor a list of task dicts among its values is an error. */
  lemma NoCollectionIsError(ms: seq<Member>)
    requires !HasKey(ms, "tasks")
    requires forall j :: 0 <= j < |ms| ==> !IsTaskArray(ms[j].value)
    ensures Normalize(Object(ms)) == Err(NoValidTasks)
  {
    FirstTaskArrayNone(ms);
  }

  /** A task record written back as JSON: `{"step": ..., "task": ...}`. */
  function TaskJson(t: TaskItem): Json {
    Object([Member("step", Str(t.step)), Member("task", Str(t.task))])
  }

  /** A task list written back as `{"tasks": [...]}`. */
  function TaskListJson(ts: seq<TaskItem>): Json {
    Object([Member("tasks", Array(seq(|ts|, k requires 0 <= k < |ts| => TaskJson(ts[k]))))])
  }

  /** Each serialised record converts back to itself, at any index. */
  lemma ConvertTaskJson(i: nat, t: TaskItem)
    ensures ConvertItem(i, TaskJson(t)) == Ok(t)
  {
    var ms := [Member("step", Str(t.step)), Member("task", Str(t.task))];
    assert Get(ms, "step") == Some(Str(t.step));
    assert ms[1..] == [Member("task", Str(t.task))];
    assert Get(ms, "task") == Some(Str(t.task));
  }

  /**
   * Normalising a serialised task list gives the list back, so normalisation is
   * idempotent on its own output; the empty list is refused.
   */
  lemma NormalizeRoundTrip(ts: seq<TaskItem>)
    ensures Normalize(TaskListJson(ts)) == if |ts| == 0 then Err(NoValidTasks) else Ok(ts)
  {
    var es := seq(|ts|, k requires 0 <= k < |ts| => TaskJson(ts[k]));
    assert Get([Member("tasks", Array(es))], "tasks") == Some(Array(es));
    forall k | 0 <= k < |es| ensures ConvertItem(k, es[k]) == Ok(ts[k]) {
      ConvertTaskJson(k, ts[k]);
    }
    if |ts| > 0 {
      assert ConvertAll(es).value == ts;
    }
  }
}
