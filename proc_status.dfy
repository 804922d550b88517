/** The memory sample of one process: the first match of `/VmRSS:\s+(\d+)\s+kB/` in the text of
    `/proc/<pid>/status`, read as a number of kilobytes. */
module ProcStatus {
  import opened Wrappers
  import opened JsStrings

  const VmRssLabel: string := "VmRSS:"
  const KbUnit: string := "kB"

  /** Length of the longest all-whitespace prefix (a greedy `\s*`). */
  function WhitespaceRun(s: string): (n: nat)
    ensures n <= |s| && AllWhitespace(s[..n])
    ensures n < |s| ==> !IsJsWhitespace(s[n])
  {
    if s != [] && IsJsWhitespace(s[0]) then
      var n := 1 + WhitespaceRun(s[1..]);
      assert s[..n] == [s[0]] + s[1..][..n - 1];
      n
    else 0
  }

  /** Length of the longest all-digit prefix (a greedy `\d*`). */
  function DigitRun(s: string): (n: nat)
    ensures n <= |s| && AllDigits(s[..n])
    ensures n < |s| ==> !IsDigit(s[n])
  {
    if s != [] && IsDigit(s[0]) then
      var n := 1 + DigitRun(s[1..]);
      assert s[..n] == [s[0]] + s[1..][..n - 1];
      n
    else 0
  }

  /** The match attempt anchored at the start of `u`, read left to right with each `+` taking as
      much as it can: `VmRSS:`, then `\s+(\d+)\s+kB`. */
  function MatchPrefix(u: string): Option<nat> {
    if StartsWith(u, VmRssLabel) then AfterLabel(u[|VmRssLabel|..]) else None
  }

  /** `\s+(\d+)\s+kB` */
  function AfterLabel(u: string): Option<nat> {
    var w := WhitespaceRun(u);
    if w > 0 then DigitGroup(u[w..]) else None
  }

  /** `(\d+)\s+kB`, giving the value of the group */
  function DigitGroup(u: string): Option<nat> {
    var d := DigitRun(u);
    if d > 0 && UnitFollows(u[d..]) then Some(DigitsValue(u[..d])) else None
  }

  /** `\s+kB` */
  predicate UnitFollows(u: string) {
    var w := WhitespaceRun(u);
    w > 0 && StartsWith(u[w..], KbUnit)
  }

  /* The regular expression's own reading, where `\s+` and `\d+` may stop anywhere
     (backtracking): each predicate says that some split of `u` fits its part of the pattern. */

  ghost predicate RegexUnit(u: string) {
    exists j :: 0 < j <= |u| && AllWhitespace(u[..j]) && StartsWith(u[j..], KbUnit)
  }

  ghost predicate RegexGroup(u: string, n: nat) {
    exists j :: 0 < j <= |u| && AllDigits(u[..j]) && n == DigitsValue(u[..j]) && RegexUnit(u[j..])
  }

  ghost predicate RegexAfterLabel(u: string, n: nat) {
    exists j :: 0 < j <= |u| && AllWhitespace(u[..j]) && RegexGroup(u[j..], n)
  }

  /** `/VmRSS:\s+(\d+)\s+kB/` matches at the start of `u` with the group reading `n`. */
  ghost predicate RegexMatchesPrefix(u: string, n: nat) {
    StartsWith(u, VmRssLabel) && RegexAfterLabel(u[|VmRssLabel|..], n)
  }

  /** A whitespace run up to a non-blank at `j` is exactly the greedy run. */
  lemma WhitespaceRunUpTo(u: string, j: nat)
    requires j < |u| && AllWhitespace(u[..j]) && !IsJsWhitespace(u[j])
    ensures WhitespaceRun(u) == j
  {
    var w := WhitespaceRun(u);
    assert forall k :: 0 <= k < j ==> u[k] == u[..j][k];
  }

  /** A digit run up to a non-digit at `j` is exactly the greedy run. */
  lemma DigitRunUpTo(u: string, j: nat)
    requires j < |u| && AllDigits(u[..j]) && !IsDigit(u[j])
    ensures DigitRun(u) == j
  {
    var w := DigitRun(u);
    assert forall k :: 0 <= k < j ==> u[k] == u[..j][k];
  }

  lemma UnitFollowsIff(u: string)
    ensures UnitFollows(u) <==> RegexUnit(u)
  {
    if RegexUnit(u) {
      var j :| 0 < j <= |u| && AllWhitespace(u[..j]) && StartsWith(u[j..], KbUnit);
      assert u[j] == u[j..][..|KbUnit|][0];
      WhitespaceRunUpTo(u, j);
    }
  }

  lemma DigitGroupIff(u: string, n: nat)
    ensures DigitGroup(u) == Some(n) <==> RegexGroup(u, n)
  {
    if DigitGroup(u) == Some(n) {
      DigitGroupSound(u, n);
    }
    if RegexGroup(u, n) {
      DigitGroupComplete(u, n);
    }
  }

  lemma DigitGroupSound(u: string, n: nat)
    requires DigitGroup(u) == Some(n)
    ensures RegexGroup(u, n)
  {
    var d := DigitRun(u);
    UnitFollowsIff(u[d..]);
    assert 0 < d <= |u| && AllDigits(u[..d]) && n == DigitsValue(u[..d]) && RegexUnit(u[d..]);
  }

  lemma DigitGroupComplete(u: string, n: nat)
    requires RegexGroup(u, n)
    ensures DigitGroup(u) == Some(n)
  {
    var j :| 0 < j <= |u| && AllDigits(u[..j]) && n == DigitsValue(u[..j]) && RegexUnit(u[j..]);
    var k :| 0 < k <= |u[j..]| && AllWhitespace(u[j..][..k]) && StartsWith(u[j..][k..], KbUnit);
    assert u[j] == u[j..][..k][0];
    DigitRunUpTo(u, j);
    UnitFollowsIff(u[j..]);
  }

  lemma AfterLabelIff(u: string, n: nat)
    ensures AfterLabel(u) == Some(n) <==> RegexAfterLabel(u, n)
  {
    if AfterLabel(u) == Some(n) {
      AfterLabelSound(u, n);
    }
    if RegexAfterLabel(u, n) {
      AfterLabelComplete(u, n);
    }
  }

  lemma AfterLabelSound(u: string, n: nat)
    requires AfterLabel(u) == Some(n)
    ensures RegexAfterLabel(u, n)
  {
    var w := WhitespaceRun(u);
    DigitGroupIff(u[w..], n);
    assert 0 < w <= |u| && AllWhitespace(u[..w]) && RegexGroup(u[w..], n);
  }

  lemma AfterLabelComplete(u: string, n: nat)
    requires RegexAfterLabel(u, n)
    ensures AfterLabel(u) == Some(n)
  {
    var j :| 0 < j <= |u| && AllWhitespace(u[..j]) && RegexGroup(u[j..], n);
    GroupStartsWithDigit(u[j..], n);
    assert u[j] == u[j..][0];
    WhitespaceRunUpTo(u, j);
    DigitGroupIff(u[j..], n);
  }

  /** The digit group opens with a digit, which is not whitespace. */
  lemma GroupStartsWithDigit(v: string, n: nat)
    requires RegexGroup(v, n)
    ensures v != [] && IsDigit(v[0]) && !IsJsWhitespace(v[0])
  {
    var k :| 0 < k <= |v| && AllDigits(v[..k]) && n == DigitsValue(v[..k]) && RegexUnit(v[k..]);
    assert v[0] == v[..k][0];
  }

  /** The greedy attempt agrees with the regular expression, both ways: a digit is never
      whitespace, so backtracking cannot move the digit group. */
  lemma MatchPrefixIff(u: string, n: nat)
    ensures MatchPrefix(u) == Some(n) <==> RegexMatchesPrefix(u, n)
  {
    if StartsWith(u, VmRssLabel) {
      AfterLabelIff(u[|VmRssLabel|..], n);
    }
  }

  /** The value of the first position at or after `i` where `matchAt` succeeds, scanning left to
      right as `String.match` does. */
  function FirstMatchFrom(s: string, i: nat, matchAt: string -> Option<nat>): Option<nat>
    requires i <= |s|
    decreases |s| - i
  {
    if i == |s| then matchAt(s[i..])
    else
      match matchAt(s[i..])
      case Some(v) => Some(v)
      case None => FirstMatchFrom(s, i + 1, matchAt)
  }

  /** The scan finds nothing only when no position matches. */
  lemma {:induction false} FirstMatchNone(s: string, i: nat, matchAt: string -> Option<nat>)
    requires i <= |s|
    decreases |s| - i
    ensures FirstMatchFrom(s, i, matchAt).None? <==> forall k :: i <= k <= |s| ==> matchAt(s[k..]).None?
  {
    if i < |s| {
      FirstMatchNone(s, i + 1, matchAt);
    }
  }

  /** A value found by the scan is the one at the first matching position. */
  lemma {:induction false} FirstMatchSome(s: string, i: nat, matchAt: string -> Option<nat>)
    requires i <= |s| && FirstMatchFrom(s, i, matchAt).Some?
    decreases |s| - i
    ensures exists k ::
      i <= k <= |s| && matchAt(s[k..]) == FirstMatchFrom(s, i, matchAt)
      && forall k' :: i <= k' < k ==> matchAt(s[k'..]).None?
  {
    if matchAt(s[i..]).Some? {
      assert matchAt(s[i..]) == FirstMatchFrom(s, i, matchAt);
    } else {
      FirstMatchSome(s, i + 1, matchAt);
      var k :| i + 1 <= k <= |s| && matchAt(s[k..]) == FirstMatchFrom(s, i + 1, matchAt)
        && forall k' :: i + 1 <= k' < k ==> matchAt(s[k'..]).None?;
      assert forall k' :: i <= k' < k ==> matchAt(s[k'..]).None?;
    }
  }

  /** When nothing matches before `i` and something matches at `i`, the scan returns that. */
  lemma {:induction false} FirstMatchReaches(s: string, from: nat, i: nat, matchAt: string -> Option<nat>)
    requires from <= i <= |s|
    requires forall k :: from <= k < i ==> matchAt(s[k..]).None?
    requires matchAt(s[i..]).Some?
    ensures FirstMatchFrom(s, from, matchAt) == matchAt(s[i..])
    decreases i - from
  {
    if from < i {
      FirstMatchReaches(s, from + 1, i, matchAt);
    }
  }

  /** The memory sample `parseInt(m[1])`, or None when the status text has no VmRSS line. */
  function ParseVmRss(status: string): Option<nat> {
    FirstMatchFrom(status, 0, MatchPrefix)
  }

  /** A status text whose only VmRSS line reports `n` kilobytes yields `n`, whatever whitespace
      pads the number. */
  lemma VmRssLineRoundTrip(pre: string, ws1: string, n: nat, ws2: string, post: string)
    requires !Contains(pre, VmRssLabel)
    requires ws1 != [] && AllWhitespace(ws1) && ws2 != [] && AllWhitespace(ws2)
    ensures ParseVmRss(pre + (VmRssLabel + (ws1 + (NatToString(n) + (ws2 + (KbUnit + post)))))) == Some(n)
  {
    var line := VmRssLabel + (ws1 + (NatToString(n) + (ws2 + (KbUnit + post))));
    var s := pre + line;
    LineMatches(ws1, n, ws2, post);
    assert s[|pre|..] == line;
    forall k | 0 <= k < |pre|
      ensures MatchPrefix(s[k..]).None?
    {
      NoLabelBefore(pre, line, k);
    }
    FirstMatchReaches(s, 0, |pre|, MatchPrefix);
  }

  /** The line `VmRSS:<ws1><n><ws2>kB...` is matched, with group value `n`. */
  lemma LineMatches(ws1: string, n: nat, ws2: string, post: string)
    requires ws1 != [] && AllWhitespace(ws1) && ws2 != [] && AllWhitespace(ws2)
    ensures MatchPrefix(VmRssLabel + (ws1 + (NatToString(n) + (ws2 + (KbUnit + post))))) == Some(n)
  {
    var digits := NatToString(n);
    var u3 := ws2 + (KbUnit + post);
    var u2 := digits + u3;
    var u1 := ws1 + u2;
    var u := VmRssLabel + u1;
    assert u3[..|ws2|] == ws2 && u3[|ws2|..] == KbUnit + post;
    assert (KbUnit + post)[..|KbUnit|] == KbUnit;
    assert RegexUnit(u3);
    assert u2[..|digits|] == digits && u2[|digits|..] == u3;
    DigitsValueOfNatToString(n);
    assert RegexGroup(u2, n);
    assert u1[..|ws1|] == ws1 && u1[|ws1|..] == u2;
    assert RegexAfterLabel(u1, n);
    assert u[..|VmRssLabel|] == VmRssLabel && u[|VmRssLabel|..] == u1;
    MatchPrefixIff(u, n);
  }

  /** The label's first character does not occur again in it. */
  lemma LabelStartsOnce()
    ensures |VmRssLabel| == 6 && VmRssLabel[0] == 'V'
    ensures forall m :: 1 <= m < |VmRssLabel| ==> VmRssLabel[m] != 'V'
  {
  }

  /** No match can start inside a prefix without the label, not even one running into the label
      that follows it. */
  lemma NoLabelBefore(pre: string, line: string, k: nat)
    requires !Contains(pre, VmRssLabel)
    requires StartsWith(line, VmRssLabel)
    requires k < |pre|
    ensures !StartsWith((pre + line)[k..], VmRssLabel)
  {
    if k + |VmRssLabel| <= |pre| {
      assert !OccursAt(pre, VmRssLabel, k);
      LabelInsidePrefix(pre, line, k);
    } else {
      LabelAcrossBoundary(pre, line, k);
    }
  }

  /** A window lying inside `pre` reads as `pre` does there. */
  lemma LabelInsidePrefix(pre: string, line: string, k: nat)
    requires k + |VmRssLabel| <= |pre| && !OccursAt(pre, VmRssLabel, k)
    ensures !StartsWith((pre + line)[k..], VmRssLabel)
  {
    var s := pre + line;
    var e := k + |VmRssLabel|;
    assert s[k..][..|VmRssLabel|] == s[k..e] == pre[k..e];
  }

  /** A window that starts in `pre` and runs into the label meets the label's `V` at a position
      where the label itself has another letter. */
  lemma LabelAcrossBoundary(pre: string, line: string, k: nat)
    requires StartsWith(line, VmRssLabel)
    requires k < |pre| < k + |VmRssLabel|
    ensures !StartsWith((pre + line)[k..], VmRssLabel)
  {
    var s := pre + line;
    LabelStartsOnce();
    if |VmRssLabel| <= |s[k..]| {
      var w := s[k..][..|VmRssLabel|];
      assert line[0] == line[..|VmRssLabel|][0] == 'V';
      assert w[|pre| - k] == s[|pre|] == line[0];
      assert VmRssLabel[|pre| - k] != 'V';
    }
  }
}
