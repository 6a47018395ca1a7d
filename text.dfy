/**
 * The string operations the JSON extractor is built from: Python's notion of
 * whitespace, `str.strip`, the `re.sub(marker + r'\s*', '', text)` substitution,
 * first/last character search, and decimal rendering of integers (`str(n)`).
 */
module Text {
  import opened Wrappers

  /**
   * Python's `str.isspace`: the characters both `\s` (in a `str` pattern) and
   * `str.strip()` treat as whitespace.
   */
  predicate IsSpace(c: char)
    ensures IsSpace(c) ==> c != '`' && c != '{' && c != '}'
  {
    ('\t' <= c <= '\r') || ('\U{1C}' <= c <= '\U{1F}') || c == ' ' ||
    c == '\U{85}' || c == '\U{A0}' || c == '\U{1680}' ||
    ('\U{2000}' <= c <= '\U{200A}') || c == '\U{2028}' || c == '\U{2029}' ||
    c == '\U{202F}' || c == '\U{205F}' || c == '\U{3000}'
  }

  predicate AllSpace(s: string) {
    forall k :: 0 <= k < |s| ==> IsSpace(s[k])
  }

  /** Drops the longest all-whitespace prefix (`str.lstrip()`, or a greedy `\s*`). */
  function TrimStart(s: string): (r: string)
    ensures |r| <= |s| && r == s[|s| - |r|..]
    ensures AllSpace(s[..|s| - |r|])
    ensures r == [] || !IsSpace(r[0])
  {
    if |s| > 0 && IsSpace(s[0]) then
      var r := TrimStart(s[1..]);
      var cut := s[1..][..|s| - 1 - |r|];
      assert forall k :: 0 <= k < |cut| ==> IsSpace(cut[k]);
      assert s[..|s| - |r|] == [s[0]] + cut;
      r
    else s
  }

  /** Drops the longest all-whitespace suffix (`str.rstrip()`). */
  function TrimEnd(s: string): (r: string)
    ensures |r| <= |s| && r == s[..|r|]
    ensures AllSpace(s[|r|..])
    ensures r == [] || !IsSpace(r[|r| - 1])
  {
    if |s| > 0 && IsSpace(s[|s| - 1]) then
      var r := TrimEnd(s[..|s| - 1]);
      assert s[|r|..] == s[..|s| - 1][|r|..] + [s[|s| - 1]];
      r
    else s
  }

  /** `str.strip()`: neither end of a non-empty result is whitespace. */
  function Strip(s: string): (r: string)
    ensures |r| <= |s|
    ensures r == [] || (!IsSpace(r[0]) && !IsSpace(r[|r| - 1]))
  {
    TrimEnd(TrimStart(s))
  }

  /**
   * What `Strip` cuts off: the result is a slice of `s`, and everything removed on
   * either side of it is whitespace.
   */
  lemma StripIsSlice(s: string)
    ensures exists a :: 0 <= a <= |s| - |Strip(s)| && Strip(s) == s[a..a + |Strip(s)|] &&
                         AllSpace(s[..a]) && AllSpace(s[a + |Strip(s)|..])
  {
    TrimmedSlice(s, TrimStart(s), Strip(s));
  }

  /** A suffix cut down to a prefix of itself is a slice of the original, with whitespace on either side. */
  lemma TrimmedSlice(s: string, t: string, r: string)
    requires |t| <= |s| && t == s[|s| - |t|..] && AllSpace(s[..|s| - |t|])
    requires |r| <= |t| && r == t[..|r|] && AllSpace(t[|r|..])
    ensures exists a :: 0 <= a <= |s| - |r| && r == s[a..a + |r|] &&
                         AllSpace(s[..a]) && AllSpace(s[a + |r|..])
  {
    var a := |s| - |t|;
    assert s[a + |r|..] == t[|r|..];
    assert r == s[a..a + |r|];
  }


  /**
   * `re.sub(marker + r'\s*', '', s)`: scanning left to right, every occurrence of
   * `marker` is deleted together with the whitespace run that follows it, and the
   * scan resumes after the deleted text.
   */
  function RemoveMarker(s: string, marker: string): (r: string)
    requires |marker| > 0
    ensures |r| <= |s|
    decreases |s|
  {
    if |s| == 0 then s
    else if marker <= s then RemoveMarker(TrimStart(s[|marker|..]), marker)
    else [s[0]] + RemoveMarker(s[1..], marker)
  }

  /** A marker at the front is deleted with the whitespace after it. */
  lemma RemoveMarkerAt(s: string, marker: string)
    requires |marker| > 0 && marker <= s
    ensures RemoveMarker(s, marker) == RemoveMarker(TrimStart(s[|marker|..]), marker)
  {
  }

  /** No position of `s` starts an occurrence of `marker`. */
  predicate Free(s: string, marker: string) {
    forall k :: 0 <= k < |s| ==> !(marker <= s[k..])
  }

  /** Text that holds no occurrence of the marker is left as it is. */
  lemma {:induction false} RemoveMarkerFree(s: string, marker: string)
    requires |marker| > 0 && Free(s, marker)
    ensures RemoveMarker(s, marker) == s
    decreases |s|
  {
    if |s| > 0 {
      assert s[0..] == s;
      assert !(marker <= s);
      forall k | 0 <= k < |s[1..]| ensures !(marker <= s[1..][k..]) {
        assert s[1..][k..] == s[k + 1..];
      }
      RemoveMarkerFree(s[1..], marker);
      assert [s[0]] + s[1..] == s;
    }
  }

  /** A prefix holding no character that starts the marker passes through unchanged. */
  lemma {:induction false} RemoveMarkerPrefix(u: string, v: string, marker: string)
    requires |marker| > 0 && marker[0] !in u
    ensures RemoveMarker(u + v, marker) == u + RemoveMarker(v, marker)
    decreases |u|
  {
    if |u| > 0 {
      var s := u + v;
      assert s[0] == u[0] != marker[0];
      assert !(marker <= s);
      assert s[1..] == u[1..] + v;
      RemoveMarkerPrefix(u[1..], v, marker);
      assert [u[0]] + u[1..] == u;
    } else {
      assert u + v == v;
    }
  }

  /** The first character and the rest of a concatenation whose left part is not empty. */
  lemma AppendSplit(u: string, v: string)
    requires |u| > 0
    ensures (u + v)[0] == u[0] && (u + v)[1..] == u[1..] + v
  {
  }

  /** Cutting a concatenation inside its left part. */
  lemma AppendCut(u: string, v: string, n: nat)
    requires n <= |u|
    ensures (u + v)[..n] == u[..n] && (u + v)[n..] == u[n..] + v
  {
  }

  /** Concatenation regroups. */
  lemma AppendAssoc(a: string, b: string, c: string)
    ensures a + (b + c) == (a + b) + c
  {
  }

  /** Leading whitespace before a non-whitespace character is all that `TrimStart` removes. */
  lemma {:induction false} TrimStartAppend(u: string, v: string)
    requires |v| > 0 && !IsSpace(v[0])
    ensures TrimStart(u + v) == TrimStart(u) + v
    decreases |u|
  {
    if |u| == 0 {
      assert u + v == v;
    } else {
      assert (u + v)[1..] == u[1..] + v;
      TrimStartAppend(u[1..], v);
    }
  }

  /** `TrimStart` is idempotent. */
  lemma TrimStartTwice(s: string)
    ensures TrimStart(TrimStart(s)) == TrimStart(s)
  {
  }

  /** Stripping text whose leading whitespace is already gone gives the same result. */
  lemma StripAfterTrimStart(s: string)
    ensures Strip(TrimStart(s)) == Strip(s)
  {
    TrimStartTwice(s);
  }

  /** Whitespace in front of a text is all that `TrimStart` sees of it. */
  lemma {:induction false} TrimStartSpaces(ws: string, x: string)
    requires AllSpace(ws)
    ensures TrimStart(ws + x) == TrimStart(x)
    decreases |ws|
  {
    if |ws| == 0 {
      assert ws + x == x;
    } else {
      assert (ws + x)[0] == ws[0] && IsSpace(ws[0]);
      assert (ws + x)[1..] == ws[1..] + x;
      TrimStartSpaces(ws[1..], x);
    }
  }

  /** `strip()` does not see leading whitespace: removing it first changes nothing. */
  lemma StripSpaces(ws: string, x: string)
    requires AllSpace(ws)
    ensures Strip(ws + x) == Strip(x)
  {
    TrimStartSpaces(ws, x);
  }

  /** The index of the first `c` in `s`, if any. */
  function FirstIndexOf(s: string, c: char): (r: Option<nat>)
    ensures r.None? <==> c !in s
    ensures r.Some? ==> r.value < |s| && s[r.value] == c && c !in s[..r.value]
  {
    if |s| == 0 then None
    else if s[0] == c then Some(0)
    else match FirstIndexOf(s[1..], c)
      case None => None
      case Some(k) =>
        assert s[..k + 1] == [s[0]] + s[1..][..k];
        Some(k + 1)
  }

  /** The index of the last `c` in `s`, if any. */
  function LastIndexOf(s: string, c: char): (r: Option<nat>)
    ensures r.None? <==> c !in s
    ensures r.Some? ==> r.value < |s| && s[r.value] == c && c !in s[r.value + 1..]
  {
    if |s| == 0 then None
    else if s[|s| - 1] == c then Some(|s| - 1)
    else
      var r := LastIndexOf(s[..|s| - 1], c);
      assert s == s[..|s| - 1] + [s[|s| - 1]];
      match r
      case None => None
      case Some(k) =>
        assert s[k + 1..] == s[..|s| - 1][k + 1..] + [s[|s| - 1]];
        Some(k)
  }

  predicate IsDigit(c: char) {
    '0' <= c <= '9'
  }

  /** `str(n)` for a natural number: its shortest decimal digits. */
  function NatToDecimal(n: nat): (r: string)
    ensures |r| > 0 && forall k :: 0 <= k < |r| ==> IsDigit(r[k])
    ensures |r| > 1 ==> r[0] != '0'
  {
    var d := ['0' + ((n % 10) as char)];
    if n < 10 then d
    else
      var h := NatToDecimal(n / 10);
      h + d
  }

  /** `str(i)` for a Python `int`: a minus sign before the digits of a negative number. */
  function IntToDecimal(i: int): (r: string)
    ensures |r| > 0 && (r[0] == '-' <==> i < 0)
  {
    if i < 0 then "-" + NatToDecimal(-i) else NatToDecimal(i)
  }

  /** After an optional minus sign, `str(i)` is the digits of `abs(i)`, which read back as that number. */
  lemma IntDecimalRoundTrip(i: int)
    ensures i >= 0 ==> (forall k :: 0 <= k < |IntToDecimal(i)| ==> IsDigit(IntToDecimal(i)[k])) &&
                       DecimalValue(IntToDecimal(i)) == i
    ensures i < 0 ==> (forall k :: 1 <= k < |IntToDecimal(i)| ==> IsDigit(IntToDecimal(i)[k])) &&
                      DecimalValue(IntToDecimal(i)[1..]) == -i
  {
    var r := IntToDecimal(i);
    if i < 0 {
      var d := NatToDecimal(-i);
      assert r[1..] == d;
      DecimalRoundTrip(-i);
    } else {
      DecimalRoundTrip(i);
    }
  }

  /** The value of a string of decimal digits (`int(s)`), the inverse of `NatToDecimal`. */
  function DecimalValue(s: string): nat
    requires forall k :: 0 <= k < |s| ==> IsDigit(s[k])
  {
    if |s| == 0 then 0
    else
      var c := s[|s| - 1];
      assert IsDigit(c);
      DecimalValue(s[..|s| - 1]) * 10 + (c as int - '0' as int)
  }

  /** Reading back the digits `NatToDecimal` writes gives the number again. */
  lemma {:induction false} DecimalRoundTrip(n: nat)
    ensures DecimalValue(NatToDecimal(n)) == n
  {
    if n >= 10 {
      var h := NatToDecimal(n / 10);
      var r := NatToDecimal(n);
      assert r == h + ['0' + ((n % 10) as char)];
      assert r[..|r| - 1] == h;
      DecimalRoundTrip(n / 10);
    }
  }

  /** Distinct numbers have distinct decimal renderings. */
  lemma DecimalInjective(m: nat, n: nat)
    requires NatToDecimal(m) == NatToDecimal(n)
    ensures m == n
  {
    DecimalRoundTrip(m);
    DecimalRoundTrip(n);
  }
}
