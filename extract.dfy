/**
 * `extract_json_from_response`: strip Markdown code fences and surrounding
 * whitespace from the agent's answer, then cut out the outermost `{ ... }` span.
 */
module Extract {
  import opened Wrappers
  import opened Text
  import opened Json

  /** The function's argument: a Python `str`, or some other object. */
  datatype Arg = PyStr(text: string) | NotStr(value: Json)

  /** The language-tagged opening fence, deleted first. */
  const JsonFence: string := "```json"
  /** The bare fence, deleted second. */
  const Fence: string := "```"

  /** The text after both fence substitutions and `strip()`. */
  function Cleaned(text: string): (r: string)
    ensures |r| <= |text|
  {
    Strip(RemoveMarker(RemoveMarker(text, JsonFence), Fence))
  }

  /** Some `{` comes before some `}`: the condition for `\{.*\}` to match at all. */
  predicate HasBracePair(s: string) {
    exists i, j :: 0 <= i < j < |s| && s[i] == '{' && s[j] == '}'
  }

  /** `i` is the first `{` of `s`, `j` its last `}`, and `i` comes before `j`. */
  predicate IsOuterSpan(s: string, i: int, j: int) {
    0 <= i < j < |s| && s[i] == '{' && '{' !in s[..i] && s[j] == '}' && '}' !in s[j + 1..]
  }

  /** There is at most one outer span. */
  lemma OuterSpanUnique(s: string, i: int, j: int, i': int, j': int)
    requires IsOuterSpan(s, i, j) && IsOuterSpan(s, i', j')
    ensures i == i' && j == j'
  {
  }

  /**
   * `re.search(r'\{.*\}', s, re.DOTALL)`: the leftmost match starts at the first `{`
   * and, `.*` being greedy, ends at the last `}`. The result is the match's bounds.
   */
  function BraceSpan(s: string): (r: Option<(int, int)>)
    ensures r.Some? <==> HasBracePair(s)
    ensures r.Some? ==> IsOuterSpan(s, r.value.0, r.value.1)
  {
    match (FirstIndexOf(s, '{'), LastIndexOf(s, '}'))
    case (Some(i), Some(j)) =>
      if i < j then Some((i as int, j as int))
      else
        assert !HasBracePair(s) by {
          forall i', j' | 0 <= i' < j' < |s| && s[i'] == '{' && s[j'] == '}' ensures false {
          }
        }
        None
    case _ => None
  }

  /** `s` starts with `{` and ends with `}`. */
  predicate Braced(s: string) {
    |s| >= 2 && s[0] == '{' && s[|s| - 1] == '}'
  }

  /** The JSON candidate cut from already cleaned text: the brace span if any, else the text. */
  function SpanOrSelf(s: string): (r: string)
    ensures |r| <= |s|
    ensures r == s || Braced(r)
  {
    match BraceSpan(s)
    case Some((i, j)) => s[i..j + 1]
    case None => s
  }

  /** `extract_json_from_response` on a string argument. */
  function ExtractJsonText(text: string): (r: string)
    ensures |r| <= |text|
    ensures r == Cleaned(text) || Braced(r)
  {
    var s := Cleaned(text);
    assert |s| <= |text|;
    SpanOrSelf(s)
  }

  /** `extract_json_from_response`: anything that is not a string comes back unchanged. */
  function ExtractJson(a: Arg): (r: Arg)
    ensures a.NotStr? ==> r == a
    ensures a.PyStr? ==> r.PyStr? && |r.text| <= |a.text|
  {
    match a
    case NotStr(_) => a
    case PyStr(t) => PyStr(ExtractJsonText(t))
  }

  /**
   * When the cleaned text has a first `{` at `i` and a last `}` at `j > i`, the result
   * is exactly that span, braces included.
   */
  lemma ExtractSpan(text: string, i: int, j: int)
    requires IsOuterSpan(Cleaned(text), i, j)
    ensures ExtractJsonText(text) == Cleaned(text)[i..j + 1]
    ensures ExtractJsonText(text)[0] == '{' && ExtractJsonText(text)[j - i] == '}'
  {
    SpanOfOuter(Cleaned(text), i, j);
  }

  /** `SpanOrSelf` picks exactly the outer span when there is one. */
  lemma SpanOfOuter(s: string, i: int, j: int)
    requires IsOuterSpan(s, i, j)
    ensures SpanOrSelf(s) == s[i..j + 1]
  {
    assert HasBracePair(s);
    var (i', j') := BraceSpan(s).value;
    OuterSpanUnique(s, i, j, i', j');
  }

  /** Without a `{` before a `}`, the result is the cleaned text itself. */
  lemma ExtractNoSpan(text: string)
    requires !HasBracePair(Cleaned(text))
    ensures ExtractJsonText(text) == Cleaned(text)
  {
  }

  /** The `"```"` left after the tagged fence is gone contains no tagged fence. */
  lemma FreeOfJsonFence(u: string)
    requires '`' !in u
    ensures Free(u + Fence, JsonFence)
  {
    var s := u + Fence;
    forall k | 0 <= k < |s| ensures !(JsonFence <= s[k..]) {
      if k < |u| {
        assert s[k..][0] == u[k] != JsonFence[0];
      } else {
        assert |s[k..]| <= 3;
      }
    }
  }

  /** Removing both fences from a fenced, backtick-free text leaves it with its leading whitespace gone. */
  lemma FencesRemoved(t: string)
    requires '`' !in t
    ensures RemoveMarker(RemoveMarker(JsonFence + t + Fence, JsonFence), Fence) == TrimStart(t)
  {
    var u := TrimStart(t);
    OpeningFenceRemoved(t);
    assert '`' !in u by {
      assert u == t[|t| - |u|..];
    }
    assert Free(u, JsonFence) by {
      forall k | 0 <= k < |u| ensures u[k..][0] == u[k] != '`' { }
    }
    RemoveMarkerFree(u, JsonFence);
    ClosingFenceRemoved(u);
  }

  /**
   * The opening fence goes, with the whitespace after it; the rest of the text is
   * scanned for further tagged fences, and the closing fence stays.
   */
  lemma OpeningFenceRemoved(t: string)
    ensures RemoveMarker(JsonFence + t + Fence, JsonFence) == RemoveMarker(TrimStart(t), JsonFence) + Fence
  {
    var s := JsonFence + t + Fence;
    assert JsonFence <= s && s[|JsonFence|..] == t + Fence;
    TrimStartAppend(t, Fence);
    RemoveMarkerAt(s, JsonFence);
    JsonFenceBeforeFence(TrimStart(t));
  }

  /** A closing fence at the end cannot take part in a tagged fence, so it passes through the first substitution. */
  lemma {:induction false} JsonFenceBeforeFence(u: string)
    ensures RemoveMarker(u + Fence, JsonFence) == RemoveMarker(u, JsonFence) + Fence
    decreases |u|
  {
    if |u| == 0 {
      assert u + Fence == Fence;
      FreeOfJsonFence(u);
      RemoveMarkerFree(u + Fence, JsonFence);
    } else if JsonFence <= u {
      JsonFenceBeforeFence(TrimStart(u[|JsonFence|..]));
      SkipJsonFence(u);
    } else {
      JsonFenceBeforeFence(u[1..]);
      KeepFirst(u);
    }
  }

  /** The step of `JsonFenceBeforeFence` for a text that starts with a tagged fence. */
  lemma SkipJsonFence(u: string)
    requires JsonFence <= u
    requires var rest := TrimStart(u[|JsonFence|..]);
             RemoveMarker(rest + Fence, JsonFence) == RemoveMarker(rest, JsonFence) + Fence
    ensures RemoveMarker(u + Fence, JsonFence) == RemoveMarker(u, JsonFence) + Fence
  {
    AppendCut(u, Fence, |JsonFence|);
    TrimStartAppend(u[|JsonFence|..], Fence);
    RemoveMarkerAt(u + Fence, JsonFence);
    RemoveMarkerAt(u, JsonFence);
  }

  /** The step of `JsonFenceBeforeFence` for a text that does not start with a tagged fence. */
  lemma KeepFirst(u: string)
    requires |u| > 0 && !(JsonFence <= u)
    requires RemoveMarker(u[1..] + Fence, JsonFence) == RemoveMarker(u[1..], JsonFence) + Fence
    ensures RemoveMarker(u + Fence, JsonFence) == RemoveMarker(u, JsonFence) + Fence
  {
    NoJsonFenceAcrossEnd(u);
    AppendSplit(u, Fence);
    AppendAssoc([u[0]], RemoveMarker(u[1..], JsonFence), Fence);
  }

  /** A tagged fence cannot begin in a text and end in the closing fence after it. */
  lemma NoJsonFenceAcrossEnd(u: string)
    requires !(JsonFence <= u)
    ensures !(JsonFence <= u + Fence)
  {
    var s := u + Fence;
    if |u| >= |JsonFence| {
      assert s[..|JsonFence|] == u[..|JsonFence|];
    } else if |u| >= 4 {
      assert s[|u|] == '`';
      assert JsonFence[4..] == "son";
    }
  }

  /** A backtick-free text followed by the closing fence loses just the fence. */
  lemma ClosingFenceRemoved(u: string)
    requires '`' !in u
    ensures RemoveMarker(u + Fence, Fence) == u
  {
    RemoveMarkerPrefix(u, Fence, Fence);
    RemoveMarkerAt(Fence, Fence);
    assert Fence[|Fence|..] == "";
    assert u + "" == u;
  }

  /**
   * A trailing fence makes no difference to the second substitution: it is either
   * deleted on its own, or it completes a run of backticks that the text already
   * ended with and leaves as many backticks as before.
   */
  lemma {:induction false} FenceAbsorbed(w: string)
    ensures RemoveMarker(w + Fence, Fence) == RemoveMarker(w, Fence)
    decreases |w|
  {
    var s := w + Fence;
    if |w| == 0 {
      assert s == Fence;
      RemoveMarkerAt(Fence, Fence);
      assert Fence[|Fence|..] == "";
    } else if Fence <= w {
      assert Fence <= s && s[|Fence|..] == w[|Fence|..] + Fence;
      TrimStartAppend(w[|Fence|..], Fence);
      FenceAbsorbed(TrimStart(w[|Fence|..]));
    } else if |w| >= |Fence| {
      assert !(Fence <= s) by {
        assert s[..|Fence|] == w[..|Fence|];
      }
      assert s[1..] == w[1..] + Fence;
      FenceAbsorbed(w[1..]);
    } else if forall k :: 0 <= k < |w| ==> w[k] == '`' {
      assert Fence <= s;
      assert s[|Fence|..] == w;
      assert TrimStart(w) == w;
    } else {
      var k :| 0 <= k < |w| && w[k] != '`';
      assert !(Fence <= s) by {
        assert s[k] == w[k] != Fence[k];
      }
      assert s[1..] == w[1..] + Fence;
      FenceAbsorbed(w[1..]);
    }
  }

  /** Backtick-free text holds no fence, so the substitutions leave it alone. */
  lemma NoFencesToRemove(t: string)
    requires '`' !in t
    ensures RemoveMarker(RemoveMarker(t, JsonFence), Fence) == t
  {
    assert Free(t, JsonFence) && Free(t, Fence) by {
      forall k | 0 <= k < |t| ensures t[k..][0] == t[k] != '`' { }
    }
    RemoveMarkerFree(t, JsonFence);
    RemoveMarkerFree(t, Fence);
  }

  /** Wrapping any text in a ```` ```json ... ``` ```` fence does not change its cleaned form. */
  lemma FencedCleaned(t: string)
    ensures Cleaned(JsonFence + t + Fence) == Cleaned(t)
  {
    var u := TrimStart(t);
    var ws := t[..|t| - |u|];
    assert t == ws + u;
    assert '`' !in ws by {
      forall k | 0 <= k < |ws| ensures ws[k] != '`' {
        assert IsSpace(ws[k]);
      }
    }
    var w := RemoveMarker(u, JsonFence);
    OpeningFenceRemoved(t);
    FenceAbsorbed(w);
    RemoveMarkerPrefix(ws, u, JsonFence);
    RemoveMarkerPrefix(ws, w, Fence);
    StripSpaces(ws, RemoveMarker(w, Fence));
  }

  /** Wrapping text in a ```` ```json ... ``` ```` fence does not change what is extracted from it. */
  lemma ExtractFenced(t: string)
    ensures ExtractJsonText(JsonFence + t + Fence) == ExtractJsonText(t)
  {
    FencedCleaned(t);
  }
}
