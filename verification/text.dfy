/** String helpers used by the skill form and the fallback resources, restricted to
    ASCII: `\s` and `trim` see space, tab, line feed, vertical tab, form feed and
    carriage return; lower-casing maps `A`..`Z` to `a`..`z`. */
module Text {

  /** ASCII whitespace: ' ' or one of the control characters U+0009..U+000D. */
  predicate IsWs(c: char) {
    c == ' ' || '\t' <= c <= '\r'
  }

  /** Every character is whitespace (in particular, the empty string). */
  predicate IsBlank(s: string) {
    forall i :: 0 <= i < |s| ==> IsWs(s[i])
  }

  predicate NoWs(s: string) {
    forall i :: 0 <= i < |s| ==> !IsWs(s[i])
  }

  predicate IsUpper(c: char) {
    'A' <= c <= 'Z'
  }

  /** The first index at or after `i` that does not hold whitespace (or `|s|`). */
  function SkipWs(s: string, i: nat): (j: nat)
    requires i <= |s|
    ensures i <= j <= |s|
    ensures forall k :: i <= k < j ==> IsWs(s[k])
    ensures j < |s| ==> !IsWs(s[j])
    decreases |s| - i
  {
    if i < |s| && IsWs(s[i]) then SkipWs(s, i + 1) else i
  }

  /** The last index at or before `j` that does not follow whitespace (or 0). */
  function BackWs(s: string, j: nat): (e: nat)
    requires j <= |s|
    ensures e <= j
    ensures forall k :: e <= k < j ==> IsWs(s[k])
    ensures e > 0 ==> !IsWs(s[e - 1])
  {
    if j > 0 && IsWs(s[j - 1]) then BackWs(s, j - 1) else j
  }

  /** Drops the leading whitespace. */
  function TrimStart(s: string): string {
    s[SkipWs(s, 0)..]
  }

  /** Drops the trailing whitespace. */
  function TrimEnd(s: string): string {
    s[..BackWs(s, |s|)]
  }

  /** `String.prototype.trim`: the slice `s[k..k + |r|]` with only whitespace around it,
      whose first and last characters are not whitespace; empty exactly when `s` is blank. */
  function Trim(s: string): (r: string)
    ensures var k := SkipWs(s, 0);
      && k + |r| <= |s| && r == s[k..k + |r|]
      && forall i :: 0 <= i < |s| && !(k <= i < k + |r|) ==> IsWs(s[i])
    ensures |r| > 0 ==> !IsWs(r[0]) && !IsWs(r[|r| - 1])
    ensures |r| == 0 <==> IsBlank(s)
  {
    var k := SkipWs(s, 0);
    var t := TrimStart(s);
    var e := BackWs(t, |t|);
    assert forall i :: k <= i < |s| ==> s[i] == t[i - k];
    assert e > 0 ==> t[0] == s[k];
    TrimEnd(t)
  }

  function LowerChar(c: char): (d: char)
    ensures !IsUpper(d)
    ensures IsWs(d) <==> IsWs(c)
    ensures !IsUpper(c) ==> d == c
  {
    if IsUpper(c) then (c as int + 32) as char else c
  }

  /** `String.prototype.toLowerCase` on ASCII, position by position. */
  function Lower(s: string): (r: string)
    ensures |r| == |s|
    ensures forall i :: 0 <= i < |s| ==> r[i] == LowerChar(s[i])
  {
    if |s| == 0 then "" else [LowerChar(s[0])] + Lower(s[1..])
  }

  /** Lower-casing is idempotent and leaves no upper-case letter behind. */
  lemma LowerIdempotent(s: string)
    ensures Lower(Lower(s)) == Lower(s)
    ensures forall i :: 0 <= i < |s| ==> !IsUpper(Lower(s)[i])
  {
  }

  /** `s.replace(/\s+/g, sep)`: each maximal run of whitespace becomes one copy of `sep`;
      every other character is kept in place. So with a one-character separator the
      result is never longer than the input, and it is empty only for empty input. */
  function ReplaceWsRuns(s: string, sep: string): (r: string)
    ensures |sep| == 1 ==> |r| <= |s|
    ensures |sep| > 0 ==> (|r| == 0 <==> |s| == 0)
    decreases |s|
  {
    if |s| == 0 then ""
    else if IsWs(s[0]) then sep + ReplaceWsRuns(s[SkipWs(s, 0)..], sep)
    else [s[0]] + ReplaceWsRuns(s[1..], sep)
  }

  /** The replacement only emits non-whitespace characters of the input and characters of
      the separator. */
  lemma {:induction false} ReplaceWsRunsChars(s: string, sep: string)
    ensures forall c :: c in ReplaceWsRuns(s, sep) ==> (c in s && !IsWs(c)) || c in sep
    decreases |s|
  {
    if |s| == 0 {
    } else if IsWs(s[0]) {
      var k := SkipWs(s, 0);
      ReplaceWsRunsChars(s[k..], sep);
      SliceMembers(s, k);
    } else {
      ReplaceWsRunsChars(s[1..], sep);
      SliceMembers(s, 1);
    }
  }

  lemma SliceMembers(s: string, k: nat)
    requires k <= |s|
    ensures forall c :: c in s[k..] ==> c in s
  {
    forall c | c in s[k..]
      ensures c in s
    {
      var i :| 0 <= i < |s[k..]| && s[k..][i] == c;
      assert s[k + i] == c;
    }
  }

  /** Reference reading of the same replacement as a left-to-right scan that remembers
      whether it is inside a whitespace run. */
  function Scan(s: string, sep: string, inRun: bool): string
    decreases |s|
  {
    if |s| == 0 then ""
    else if IsWs(s[0]) then (if inRun then "" else sep) + Scan(s[1..], sep, true)
    else [s[0]] + Scan(s[1..], sep, false)
  }

  /** Inside a run, the scan skips the rest of the run and continues after it. */
  lemma {:induction false} ScanSkipsRun(s: string, sep: string)
    ensures Scan(s, sep, true) == Scan(s[SkipWs(s, 0)..], sep, true)
    decreases |s|
  {
    if |s| > 0 && IsWs(s[0]) {
      ScanSkipsRun(s[1..], sep);
      SkipWsShift(s);
    }
  }

  lemma {:induction false} SkipWsShift(s: string)
    requires |s| > 0 && IsWs(s[0])
    ensures s[SkipWs(s, 0)..] == s[1..][SkipWs(s[1..], 0)..]
  {
    var j := SkipWs(s, 0);
    var j' := SkipWs(s[1..], 0);
    assert j == j' + 1;
  }

  /** The run-by-run replacement and the flag-carrying scan agree on every input. */
  lemma {:induction false} ReplaceMatchesScan(s: string, sep: string)
    ensures ReplaceWsRuns(s, sep) == Scan(s, sep, false)
    decreases |s|
  {
    if |s| == 0 {
    } else if IsWs(s[0]) {
      var t := s[SkipWs(s, 0)..];
      ScanSkipsRun(s[1..], sep);
      SkipWsShift(s);
      ReplaceMatchesScan(t, sep);
      if |t| > 0 {
        assert !IsWs(t[0]);
      }
    } else {
      ReplaceMatchesScan(s[1..], sep);
    }
  }

  /** A string without whitespace is left unchanged. */
  lemma {:induction false} ReplaceWsRunsIdentity(s: string, sep: string)
    ensures NoWs(s) ==> ReplaceWsRuns(s, sep) == s
    decreases |s|
  {
    if |s| > 0 && NoWs(s) {
      assert NoWs(s[1..]) by {
        forall i | 0 <= i < |s[1..]|
          ensures !IsWs(s[1..][i])
        {
          assert s[1..][i] == s[i + 1];
        }
      }
      ReplaceWsRunsIdentity(s[1..], sep);
    }
  }

  /** With a whitespace-free separator the result has no whitespace at all. */
  lemma ReplaceWsRunsNoWs(s: string, sep: string)
    requires NoWs(sep)
    ensures NoWs(ReplaceWsRuns(s, sep))
  {
    var r := ReplaceWsRuns(s, sep);
    ReplaceWsRunsChars(s, sep);
    forall i | 0 <= i < |r|
      ensures !IsWs(r[i])
    {
      assert r[i] in r;
    }
  }
}
