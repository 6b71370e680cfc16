/**
 * The slice of ECMAScript string semantics the application relies on:
 * `String.prototype.trim`, the truthiness of a string, `slice(0, n)` and a
 * global regular-expression replacement of a literal followed by an optional
 * line feed (`/lit\n?/g`). Strings are sequences of characters.
 */
module JsText {

  import opened Optional

  /** The WhiteSpace and LineTerminator code points of ECMAScript: exactly what `trim` removes. */
  predicate IsWhitespace(c: char) {
    || c == '\t' || c == '\n' || c == '\U{000B}' || c == '\U{000C}' || c == '\r' || c == ' '
    || c == '\U{00A0}' || c == '\U{1680}' || ('\U{2000}' <= c <= '\U{200A}')
    || c == '\U{2028}' || c == '\U{2029}' || c == '\U{202F}' || c == '\U{205F}'
    || c == '\U{3000}' || c == '\U{FEFF}'
  }

  /** Every character of `s` is whitespace (vacuously true of the empty string). */
  predicate IsBlank(s: string) {
    forall i | 0 <= i < |s| :: IsWhitespace(s[i])
  }

  /** `s` neither starts nor ends with whitespace. */
  predicate IsTrimmed(s: string) {
    |s| > 0 ==> !IsWhitespace(s[0]) && !IsWhitespace(s[|s| - 1])
  }

  /** A JavaScript string is truthy exactly when it is not empty. */
  predicate Truthy(s: string) {
    |s| > 0
  }

  /** A nullable string column is truthy when it holds a non-empty string. */
  predicate TruthyOpt(v: Option<string>) {
    v.Some? && Truthy(v.value)
  }

  /** Leading whitespace removed: what remains is a suffix of `s`, and what went was whitespace. */
  function TrimStart(s: string): (r: string)
    ensures |r| <= |s| && r == s[|s| - |r|..]
    ensures IsBlank(s[..|s| - |r|])
    ensures |r| > 0 ==> !IsWhitespace(r[0])
  {
    if |s| > 0 && IsWhitespace(s[0]) then TrimStart(s[1..]) else s
  }

  /** Trailing whitespace removed: what remains is a prefix of `s`, and what went was whitespace. */
  function TrimEnd(s: string): (r: string)
    ensures |r| <= |s| && r == s[..|r|]
    ensures IsBlank(s[|r|..])
    ensures |r| > 0 ==> !IsWhitespace(r[|r| - 1])
  {
    if |s| > 0 && IsWhitespace(s[|s| - 1]) then TrimEnd(s[..|s| - 1]) else s
  }

  /** `String.prototype.trim`. */
  function Trim(s: string): (r: string)
    ensures IsTrimmed(r)
    ensures |r| <= |TrimEnd(s)| <= |s|
    ensures var i := |TrimEnd(s)| - |r|; r == s[i..i + |r|] && IsBlank(s[..i]) && IsBlank(s[i + |r|..])
  {
    var e := TrimEnd(s);
    var r := TrimStart(e);
    var i := |e| - |r|;
    assert r == s[i..i + |r|] by { assert r == e[i..] && e == s[..|e|]; }
    assert IsBlank(s[..i]) by { assert s[..i] == e[..i]; }
    assert IsBlank(s[i + |r|..]) by { assert i + |r| == |e|; }
    r
  }

  /** `s.slice(0, n)`: the longest prefix of `s` that has at most `n` characters. */
  function Prefix(s: string, n: nat): (r: string)
    ensures r <= s
    ensures |r| <= n
    ensures |s| <= n ==> r == s
    ensures |s| > n ==> |r| == n
  {
    if |s| <= n then s else s[..n]
  }

  /** `p` occurs somewhere in `s`. */
  predicate Contains(s: string, p: string)
    decreases |s|
  {
    p <= s || (|s| > 0 && Contains(s[1..], p))
  }

  /**
   * `s.replace(/lit\n?/g, '')` for a non-empty literal `lit`: scanning left to
   * right, every occurrence of `lit` is deleted together with one line feed
   * directly after it, if there is one, and the scan resumes after the match.
   */
  function StripAll(s: string, lit: string): (r: string)
    requires |lit| > 0
    ensures |r| <= |s|
    ensures !Contains(s, lit) ==> r == s
    decreases |s|
  {
    if lit <= s then
      var rest := s[|lit|..];
      StripAll(if |rest| > 0 && rest[0] == '\n' then rest[1..] else rest, lit)
    else if |s| == 0 then
      ""
    else
      [s[0]] + StripAll(s[1..], lit)
  }

  // ---------------------------------------------------------------------------
  // Trim: an independent characterisation and its consequences
  // ---------------------------------------------------------------------------

  lemma {:induction false} TrimEndAt(s: string, j: nat)
    requires j <= |s| && IsBlank(s[j..])
    requires j > 0 ==> !IsWhitespace(s[j - 1])
    ensures TrimEnd(s) == s[..j]
    decreases |s|
  {
    if |s| > j {
      assert IsWhitespace(s[|s| - 1]) by { assert s[|s| - 1] == s[j..][|s| - 1 - j]; }
      var t := s[..|s| - 1];
      assert t[j..] == s[j..][..|s| - 1 - j];
      TrimEndAt(t, j);
      assert t[..j] == s[..j];
    } else {
      assert s[..j] == s;
    }
  }

  lemma {:induction false} TrimStartAt(s: string, i: nat)
    requires i <= |s| && IsBlank(s[..i])
    requires i < |s| ==> !IsWhitespace(s[i])
    ensures TrimStart(s) == s[i..]
    decreases i
  {
    if i > 0 {
      assert IsWhitespace(s[0]) by { assert s[0] == s[..i][0]; }
      var t := s[1..];
      assert t[..i - 1] == s[..i][1..];
      TrimStartAt(t, i - 1);
      assert t[i - 1..] == s[i..];
    }
  }

  /**
   * The trimmed string is THE segment `s[i..j]` whose ends are not whitespace
   * and outside of which there is only whitespace.
   */
  lemma TrimIsCore(s: string, i: nat, j: nat)
    requires i < j <= |s|
    requires IsBlank(s[..i]) && IsBlank(s[j..])
    requires !IsWhitespace(s[i]) && !IsWhitespace(s[j - 1])
    ensures Trim(s) == s[i..j]
  {
    TrimEndAt(s, j);
    var e := s[..j];
    assert e[..i] == s[..i];
    TrimStartAt(e, i);
    assert e[i..] == s[i..j];
  }

  /** Trimming yields the empty string exactly for blank input. */
  lemma TrimEmptyIffBlank(s: string)
    ensures Trim(s) == "" <==> IsBlank(s)
  {
    if IsBlank(s) {
      TrimEndAt(s, 0);
    } else {
      var k :| 0 <= k < |s| && !IsWhitespace(s[k]);
    }
  }

  /** Trimming twice is trimming once. */
  lemma TrimIdempotent(s: string)
    ensures Trim(Trim(s)) == Trim(s)
  {
    var r := Trim(s);
    if |r| > 0 {
      TrimIsCore(r, 0, |r|);
    } else {
      TrimEndAt(r, 0);
    }
  }

  /** Trailing whitespace added to a string does not survive trimming. */
  lemma TrimDropsTrailingWhitespace(s: string, c: char)
    requires IsWhitespace(c)
    ensures Trim(s + [c]) == Trim(s)
  {
    assert (s + [c])[..|s|] == s;
  }

  // ---------------------------------------------------------------------------
  // Occurrences and fence stripping
  // ---------------------------------------------------------------------------

  /** A string without `p` has no occurrence of any string that begins with `p`. */
  lemma {:induction false} ContainsLonger(s: string, p: string, q: string)
    requires p <= q
    requires Contains(s, q)
    ensures Contains(s, p)
    decreases |s|
  {
    if q <= s {
      assert p <= s by { assert forall k | 0 <= k < |p| :: p[k] == q[k] == s[k]; }
    } else {
      ContainsLonger(s[1..], p, q);
    }
  }

  /** Under the conditions of `StripAllAppend`, no match starts at the front of `s + t`. */
  lemma NoMatchAtFront(s: string, t: string, lit: string)
    requires "```" <= lit
    requires !Contains(s, "```")
    requires |s| > 0 && |t| > 0 && t[0] != '`'
    ensures !(lit <= s + t)
  {
    var st := s + t;
    if |s| >= 3 {
      assert !("```" <= s);
      assert st[..3] == s[..3];
    } else {
      assert st[|s|] == t[0];
    }
  }

  /**
   * Stripping distributes over a concatenation `s + t` when no match can begin
   * inside `s`: `s` holds no triple backtick, every literal starts with one, and
   * `t` starts with a character that is not a backtick.
   */
  lemma {:induction false} StripAllAppend(s: string, t: string, lit: string)
    requires "```" <= lit
    requires !Contains(s, "```")
    requires |t| > 0 && t[0] != '`'
    ensures StripAll(s + t, lit) == s + StripAll(t, lit)
    decreases |s|
  {
    if |s| == 0 {
      assert s + t == t;
    } else {
      var st := s + t;
      NoMatchAtFront(s, t, lit);
      assert st[0] == s[0] && st[1..] == s[1..] + t;
      assert StripAll(st, lit) == [s[0]] + StripAll(s[1..] + t, lit);
      assert !Contains(s[1..], "```");
      StripAllAppend(s[1..], t, lit);
      assert [s[0]] + (s[1..] + StripAll(t, lit)) == s + StripAll(t, lit);
    }
  }
}
