# AutoPilotPM goal decomposition: response post-processing

This project models the part of the `/react-agent` endpoint in
`backend/agents/react_split.py` that turns the language-model agent's answer
into the HTTP response:

- `extract_json_from_response` removes ```` ```json ```` and ```` ``` ```` fences
  (each with the whitespace that follows it), strips the text and cuts out the
  greedy span from the first `{` to the last `}`. It is modelled in `Extract`,
  on top of the string functions in `Text`.
- The task normalisation inside `run_agent` is modelled in `Tasks`. It locates
  the task collection in the parsed JSON: the value under `"tasks"`, else a bare
  list, else the first dict value that is a list of task dicts, else `[]`. It
  converts each element to `TaskItem(step, task)` with index-based defaults and
  refuses an empty result with `ValueError`. The pure specification is the
  function `Normalize`. The loops of the source are the methods `FindTaskArray`
  (the `for ... break` over `json_data.items()`), `ConvertTasks` (the
  `enumerate` loop appending to `task_items`) and `NormalizeTasks`, each proved
  equal to its specification function.
- The recovery chain is modelled in `Respond`. A timeout of the 60-second wait
  is a 408, and so is any other `TimeoutError` the agent raises, since from
  Python 3.11 on `asyncio.TimeoutError` is that built-in class and line 258
  catches it. Any other exception from the agent is a 500. Valid JSON that normalises is a
  200. Valid JSON that does not normalise is a 500, because only
  `json.JSONDecodeError` is caught; for the same reason any other exception
  from `json.loads` (a `RecursionError` on deeply nested input, the
  `ValueError` for an over-long integer literal) is a 500 with its message.
  A decode error goes to the repair parser.
  If that also fails, the response is a 200 with the five fixed records, a
  warning and the first 500 characters of the output.

`json.loads` and `OutputFixingParser.parse` are function parameters of
`Respond.Respond` (oracles), applied to the extracted text. The agent's run is
the input `AgentOutcome`.

Modelling decisions:

- Whitespace is Python's `str.isspace` set, written out in `Text.IsSpace`.
  Both `\s` in a `str` pattern and `str.strip()` use this set.
- JSON objects are ordered member lists, like a Python dict's insertion order.
  `Json.Get` returns the first member with the key. JSON numbers are integers
  only.
- `TaskItem` validation follows pydantic 2 in lax mode. A `str` field accepts
  only a string, so a dict element whose `step` or `task` value is not a string
  raises `ValidationError`, which ends in a 500 (`InvalidTaskItem`).
- `str()` of a non-dict element is `Json.Stringify`: a string is itself, and
  scalars are rendered as Python renders them (`None`, `True`, `42`). Lists and
  dicts are rendered as Python's `repr`. Quote choice is modelled, but escape
  sequences inside strings are not.
- `enumerate(tasks_data)` iterates whatever the `"tasks"` key holds: a list's
  elements, a dict's keys, or a string's characters. Any other value raises
  `TypeError`. When the parsed value is neither a dict nor a list, the
  `.items()` call raises `AttributeError`. Both errors end in a 500.

Facts about this revision of the code that the model keeps:

- An exception raised by the agent, other than a `TimeoutError`, is a 500; no
  fallback response is produced for it.
- An empty task collection is a 500 (the `ValueError` escapes the
  `JSONDecodeError` handler); no fallback response is produced for it either.
- The fallback is the fixed five-record list; the goal is never consulted and
  no keyword-based template is chosen.
- Records have only `step` and `task`.

One consequence of the code as written: the repair parser's result is returned
unchecked, so a 200 with an empty task list is possible on that path and only
there (`Respond.EmptySuccessOnlyFromRepair`).

## Model

| member | source | states |
|---|---|---|
| Text.TrimStart | backend/agents/react_split.py:145-147 | drops exactly the longest whitespace prefix: the result is a suffix, what was cut is all whitespace, and the result does not start with whitespace |
| Text.TrimEnd | backend/agents/react_split.py:147 | drops exactly the longest whitespace suffix, symmetrically |
| Text.Strip | backend/agents/react_split.py:147 | the stripped text is no longer than the input and neither of its ends is whitespace |
| Text.StripIsSlice | backend/agents/react_split.py:147 | the stripped text is a slice of the input, and everything removed on both sides is whitespace |
| Text.StripAfterTrimStart | backend/agents/react_split.py:147 | stripping text whose leading whitespace is already gone gives the same result |
| Text.RemoveMarker | backend/agents/react_split.py:145-146 | deleting every marker occurrence with its trailing whitespace never lengthens the text |
| Text.RemoveMarkerFree | backend/agents/react_split.py:145-146 | text with no occurrence of the marker is left unchanged by the substitution |
| Text.RemoveMarkerPrefix | backend/agents/react_split.py:145-146 | a prefix holding no character that starts the marker passes through the substitution unchanged |
| Text.IsSpace | backend/agents/react_split.py:145-147 | Python's whitespace set, which never contains a backtick or a brace, the characters the extraction looks for |
| Text.TrimStartSpaces | backend/agents/react_split.py:145-147 | whitespace in front of a text makes no difference to the greedy `\s*` or `lstrip` |
| Text.StripSpaces | backend/agents/react_split.py:147 | `strip()` of a text with extra leading whitespace is the same as without it |
| Text.TrimStartAppend | backend/agents/react_split.py:145 | the greedy `\s*` stops at the first non-whitespace character |
| Text.FirstIndexOf | backend/agents/react_split.py:150 | finds the first occurrence of a character: it is there and nothing before it matches, or the character does not occur |
| Text.LastIndexOf | backend/agents/react_split.py:150 | finds the last occurrence of a character: it is there and nothing after it matches, or the character does not occur |
| Text.NatToDecimal | backend/agents/react_split.py:218 | `str(n)` is a non-empty string of digits without a leading zero |
| Text.DecimalRoundTrip | backend/agents/react_split.py:218 | reading back the digits of `str(n)` gives `n` |
| Text.IntToDecimal | backend/agents/react_split.py:225 | `str(i)` of an integer is non-empty and starts with `-` exactly when `i` is negative |
| Text.IntDecimalRoundTrip | backend/agents/react_split.py:225 | after the optional minus sign, `str(i)` is digits that read back as `abs(i)` |
| Text.DecimalInjective | backend/agents/react_split.py:218 | different numbers have different decimal renderings |
| Json.Get | backend/agents/react_split.py:200-201 | `d.get(key)` finds a value exactly when `key in d`, and the value found is stored under that key |
| Json.QuoteString | backend/agents/react_split.py:225 | `repr` of a string puts it between two equal quotes, double quotes exactly when it holds `'` and no `"` |
| Json.Repr | backend/agents/react_split.py:225 | `repr` of a string is the string between matching quotes; a list renders inside `[...]`, a dict inside `{...}` |
| Json.Stringify | backend/agents/react_split.py:225 | `str()` of a string is the string itself |
| Extract.Cleaned | backend/agents/react_split.py:145-147 | fence deletion and stripping never lengthen the text |
| Extract.OuterSpanUnique | backend/agents/react_split.py:150 | a text has at most one first-`{`/last-`}` span |
| Extract.BraceSpan | backend/agents/react_split.py:150-151 | the `\{.*\}` search matches exactly when some `{` precedes some `}`, and its match runs from the first `{` to the last `}` |
| Extract.SpanOrSelf | backend/agents/react_split.py:150-154 | the result is the text itself or a span that starts with `{` and ends with `}`, never longer than the text |
| Extract.SpanOfOuter | backend/agents/react_split.py:150-152 | when there is an outer span, that span is returned |
| Extract.ExtractJsonText | backend/agents/react_split.py:144-154 | on a string, the result is no longer than the input, and it is either the cleaned text or starts with `{` and ends with `}` |
| Extract.ExtractJson | backend/agents/react_split.py:139-142 | a non-string argument is returned unchanged; a string gives a string no longer than it |
| Extract.ExtractSpan | backend/agents/react_split.py:145-152 | when the cleaned text has its first `{` before its last `}`, the result is exactly the substring between them, braces included |
| Extract.ExtractNoSpan | backend/agents/react_split.py:153-154 | without a `{` before a `}`, the result is the fence-free, stripped text |
| Extract.FreeOfJsonFence | backend/agents/react_split.py:145 | a closing fence after backtick-free text holds no tagged fence |
| Extract.FencesRemoved | backend/agents/react_split.py:145-146 | both substitutions on a fenced, backtick-free text leave the text minus its leading whitespace |
| Extract.OpeningFenceRemoved | backend/agents/react_split.py:145 | on a fenced text the `` ```json\s* `` substitution removes the opening fence and the whitespace after it, goes on through the rest of the text, and keeps the closing fence |
| Extract.JsonFenceBeforeFence | backend/agents/react_split.py:145 | a closing fence at the end of any text passes through the `` ```json\s* `` substitution unchanged and changes nothing before it |
| Extract.NoJsonFenceAcrossEnd | backend/agents/react_split.py:145 | no tagged fence can start in a text and run into a closing fence appended to it |
| Extract.FenceAbsorbed | backend/agents/react_split.py:146 | appending a closing fence to any text does not change the result of the `` ```\s* `` substitution |
| Extract.ClosingFenceRemoved | backend/agents/react_split.py:146 | the `` ```\s* `` substitution on a backtick-free text followed by a closing fence removes just the fence |
| Extract.NoFencesToRemove | backend/agents/react_split.py:145-146 | both substitutions leave backtick-free text unchanged |
| Extract.FencedCleaned | backend/agents/react_split.py:145-147 | for any text, wrapping it in a ```` ```json ... ``` ```` fence does not change its cleaned form |
| Extract.ExtractFenced | backend/agents/react_split.py:139-154 | for any text, wrapping it in a ```` ```json ... ``` ```` fence does not change what is extracted |
| Tasks.StepLabel | backend/agents/react_split.py:218 | `f"Step {i+1}"` is `"Step "` followed by digits that read back as `i + 1` |
| Tasks.StepLabelInjective | backend/agents/react_split.py:218 | the default labels `Step {i+1}` of different indices differ |
| Tasks.FirstTaskArray | backend/agents/react_split.py:205-211 | the nested search yields `[]` or one of the dict's values that is a non-empty list starting with a task dict |
| Tasks.FirstTaskArrayAt | backend/agents/react_split.py:205-211 | the nested search returns the first value, in key order, that is a non-empty list whose first element is a dict with `step` or `task` |
| Tasks.FirstTaskArrayNone | backend/agents/react_split.py:206-211 | with no such value, the nested search leaves `tasks_data` as `[]` |
| Tasks.Collection | backend/agents/react_split.py:200-211 | a collection is found exactly for a dict or a list, a list being its own collection and a dict without `"tasks"` always giving a list; any other value is the `AttributeError` of `.items()`, naming its Python type (`Json.TypeName`) |
| Tasks.TasksKeyWins | backend/agents/react_split.py:200-201 | the value under `"tasks"` is the collection whatever its type: a list there normalises on its own, a scalar there is the `enumerate` `TypeError` |
| Tasks.Elements | backend/agents/react_split.py:215 | `enumerate` succeeds exactly on lists, dicts and strings, and yields a list's elements, a dict's keys as strings in key order, or a string's one-character strings |
| Tasks.TasksKeysAndChars | backend/agents/react_split.py:200-229 | a non-empty dict under `"tasks"` gives one record per key, the key as its task; a non-empty string there gives one record per character |
| Tasks.StringElements | backend/agents/react_split.py:215-229 | a non-empty collection walked as strings becomes the index labels paired with those strings, in order |
| Tasks.ConvertItem | backend/agents/react_split.py:216-226 | converting one element fails only for a dict, and then with the validation error at that index |
| Tasks.ConvertObject | backend/agents/react_split.py:216-220 | a dict element converts exactly when the `step` and the consulted `task` or `description` values are strings or absent; it then gets its `step` or the index label, and its `task`, else its `description`, else `"Task description"`; otherwise it is the validation error at its index |
| Tasks.ConvertScalar | backend/agents/react_split.py:221-226 | a non-dict element gets the index label and its `str()`; a string element is kept as it is |
| Tasks.ConvertWith | backend/agents/react_split.py:213-226 | conversion succeeds exactly when every element converts, keeping length and order (element `k` converted at index `k`); otherwise it fails with the first failing element's error |
| Tasks.ConvertAll | backend/agents/react_split.py:213-226 | every element converted at its own index: success exactly when all convert, keeping length and order, else the first failing element's error |
| Tasks.Normalize | backend/agents/react_split.py:199-229 | a successful normalisation is never empty |
| Tasks.FindTaskArray | backend/agents/react_split.py:205-211 | the loop with `break` computes the nested search |
| Tasks.ConvertAllStopsAt | backend/agents/react_split.py:215-226 | once a prefix converts and the next element fails, the loop's result is that element's error |
| Tasks.ConvertTasks | backend/agents/react_split.py:213-226 | the `enumerate` loop computes the element-wise conversion |
| Tasks.NormalizeTasks | backend/agents/react_split.py:199-229 | the statement-by-statement normalisation equals `Normalize` and never returns an empty list |
| Tasks.NormalizeList | backend/agents/react_split.py:213-229 | once the collection is a list, the result has its length and order; it succeeds exactly when the list is non-empty and every element converts; an empty list is the `ValueError` |
| Tasks.NestedLikeBare | backend/agents/react_split.py:204-211 | a dict without `"tasks"` normalises exactly like its first list of task dicts |
| Tasks.NoCollectionIsError | backend/agents/react_split.py:204-229 | a dict with neither `"tasks"` nor a list of task dicts ends in the `ValueError` |
| Tasks.ConvertTaskJson | backend/agents/react_split.py:216-220 | a record written as `{"step": s, "task": t}` converts back to itself at any index |
| Tasks.NormalizeRoundTrip | backend/agents/react_split.py:199-232 | normalising `{"tasks": [...]}` written from a task list gives that list back, and the empty list is refused |
| Respond.FallbackTasks | backend/agents/react_split.py:244-250 | the last-resort breakdown has five records, none with an empty step or task |
| Respond.Detail | backend/agents/react_split.py:260-266 | every error detail the model words, except the timeout's, begins `"Agent execution failed: "`, an agent exception's followed by its message; the `AttributeError` and `TypeError` texts name the value's Python type (`Json.TypeName`); only a validation error has no modelled text |
| Respond.RawExcerpt | backend/agents/react_split.py:255 | `raw_output` is the first min(500, length) characters of the output |
| Respond.TypeErrorText | backend/agents/react_split.py:207-215 | the `AttributeError` and `TypeError` messages begin `'<type>' object` |
| Respond.LoadRaisedIs500 | backend/agents/react_split.py:196-266 | an exception from `json.loads` other than a decode error is a 500 carrying its message; neither the repair parser nor the fallback is used |
| Respond.Recover | backend/agents/react_split.py:194-256 | after the agent finished, the answer is a 200 or a 500; a warning is present exactly when both parsers failed |
| Respond.CleanedOutput | backend/agents/react_split.py:187-191 | the text both parsers see is extracted from the `output` entry, `""` when absent, and is never longer than it |
| Respond.Respond | backend/agents/react_split.py:174-266 | the status is 200, 408 or 500; it is 408 exactly on a timeout; a 200 needs a finished agent |
| Respond.TimeoutIs408 | backend/agents/react_split.py:258-263 | a timeout is a 408 with the fixed detail, whatever the parsers would do |
| Respond.AgentFailureIs500 | backend/agents/react_split.py:264-266 | an exception from the agent is a 500 carrying its message, with no parse and no fallback |
| Respond.DirectParseSucceeds | backend/agents/react_split.py:194-232 | a direct parse that normalises is a 200 with exactly those tasks, at least one, and no warning or raw output |
| Respond.ShapeErrorIs500 | backend/agents/react_split.py:228-266 | valid JSON that does not normalise is a 500 with that error; neither the repair parser nor the fallback is used |
| Tasks.EmptyTaskListRefused | backend/agents/react_split.py:213-229 | `{"tasks": []}` normalises to the "No valid tasks found in response" error |
| Respond.EmptyTasksIs500 | backend/agents/react_split.py:228-266 | a parsed `{"tasks": []}` is a 500 with detail "Agent execution failed: No valid tasks found in response" |
| Respond.RepairSucceeds | backend/agents/react_split.py:234-239 | a decode error rescued by the repair parser is a 200 with its tasks and no warning |
| Respond.BothParsesFail | backend/agents/react_split.py:240-256 | when both parsers fail, the answer is a 200 with the five fixed records, the fixed warning and the output's first 500 characters |
| Respond.WarningMeansFallback | backend/agents/react_split.py:234-256 | a warning appears exactly when the agent finished and both parsers failed, and then the records are the fallback ones |
| Respond.EmptySuccessOnlyFromRepair | backend/agents/react_split.py:228-239 | a 200 with no tasks arises only from the repair parser returning an empty list |

## Left out

- FastAPI application, CORS middleware, `uvicorn.run` and the `/` and `/health` endpoints (react_split.py lines 29-38, 131-137, 268-269): HTTP plumbing.
- Construction of the model client, tools, prompt, parsers and `AgentExecutor`, and `run_agent_sync` (lines 52-129, 156-170): foreign library calls and network. The agent's run is the input `AgentOutcome`, and its `output` entry is taken to be a string when present.
- The thread pool and `asyncio.wait_for` (lines 178-184): concurrency and wall-clock time. A timeout is only the outcome tag `TimedOut`, which stands for any `TimeoutError` that reaches line 258, whether from the 60-second wait or raised by the agent itself.
- `json.loads` and `OutputFixingParser.parse` (lines 196, 238): a library parser and a model-backed repair. They are oracle parameters of `Respond.Respond`.
- JSON floating-point numbers: `Json.Num` holds integers only.
- Duplicate keys in a JSON object: `json.loads` builds a dict with one entry per key, holding the last value given for it, while a `Json.Object` keeps every member and `Json.Get` finds the first. The model does not require parsed objects to have distinct keys, so on an object with a repeated key it can differ from the code everywhere an object is read: the `"tasks"` lookup, the nested search over `json_data.items()`, the walk over a dict's keys by `enumerate` (which yields the repeated key more than once), and the `step`/`task`/`description` lookups of a task dict.
- Pydantic's error message for an invalid record: `Respond.Detail` gives no text for `InvalidTaskItem`.
- Json.Stringify: escape sequences inside quoted strings in the rendering of lists and dicts are not produced.
- The `print` logging and the `[:500]`/`[:300]` slices used only in log lines (lines 26-27, 159-169, 175, 186, 188, 192, 197, 231, 235, 241, 259, 265).
- backend/models/planModel.js (Postgres queries), backend/agents/agent.js (HTTP client) and backend/server.js (Express routing, including its missing-goal check) are not part of this model.
