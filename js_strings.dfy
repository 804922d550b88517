/** The JavaScript string operations the service relies on, on strings as sequences of characters:
    `trim`, `toLowerCase`, `includes`, `split("\n")`, `join`, `slice(0, n)`, `parseInt` of a digit
    run and the decimal text of an integer (template literals). */
module JsStrings {

  /** The characters `String.prototype.trim` removes: ECMAScript WhiteSpace and LineTerminator. */
  predicate IsJsWhitespace(c: char) {
    c == ' ' || c == '\t' || c == '\n' || c == '\r' || c == '\U{B}' || c == '\U{C}'
    || c == '\U{A0}' || c == '\U{1680}' || ('\U{2000}' <= c <= '\U{200A}')
    || c == '\U{2028}' || c == '\U{2029}' || c == '\U{202F}' || c == '\U{205F}'
    || c == '\U{3000}' || c == '\U{FEFF}'
  }

  predicate AllWhitespace(s: string) {
    forall i :: 0 <= i < |s| ==> IsJsWhitespace(s[i])
  }

  /** Drops leading whitespace: the result is a suffix of `s` that starts with a non-blank. */
  function TrimStart(s: string): (r: string)
    ensures |r| <= |s| && r == s[|s| - |r|..]
    ensures AllWhitespace(s[..|s| - |r|])
    ensures r == [] || !IsJsWhitespace(r[0])
  {
    if s != [] && IsJsWhitespace(s[0]) then TrimStart(s[1..]) else s
  }

  /** Drops trailing whitespace: the result is a prefix of `s` that ends with a non-blank. */
  function TrimEnd(s: string): (r: string)
    ensures |r| <= |s| && r == s[..|r|]
    ensures AllWhitespace(s[|r|..])
    ensures r == [] || !IsJsWhitespace(r[|r| - 1])
  {
    if s != [] && IsJsWhitespace(s[|s| - 1]) then TrimEnd(s[..|s| - 1]) else s
  }

  /** `s.trim()` */
  function Trim(s: string): (r: string)
    ensures |r| <= |s|
    ensures r == [] || (!IsJsWhitespace(r[0]) && !IsJsWhitespace(r[|r| - 1]))
  {
    TrimEnd(TrimStart(s))
  }

  /** `s.trim().length === 0` holds exactly of the strings made only of whitespace. */
  lemma TrimEmptyIff(s: string)
    ensures Trim(s) == [] <==> AllWhitespace(s)
  {
  }

  /** Trimming twice changes nothing. */
  lemma TrimIdempotent(s: string)
    ensures Trim(Trim(s)) == Trim(s)
  {
    var r := Trim(s);
    assert TrimStart(r) == r;
    assert TrimEnd(r) == r;
  }

  /** Removing whitespace from both ends keeps every character in between. */
  lemma TrimKeepsInterior(pre: string, mid: string, post: string)
    requires AllWhitespace(pre) && AllWhitespace(post)
    requires mid != [] && !IsJsWhitespace(mid[0]) && !IsJsWhitespace(mid[|mid| - 1])
    ensures Trim(pre + mid + post) == mid
  {
    TrimStartSkips(pre, mid + post);
    assert pre + mid + post == pre + (mid + post);
    TrimEndSkips(mid, post);
  }

  lemma {:induction false} TrimStartSkips(pre: string, rest: string)
    requires AllWhitespace(pre)
    requires rest != [] && !IsJsWhitespace(rest[0])
    ensures TrimStart(pre + rest) == rest
  {
    if pre != [] {
      assert (pre + rest)[1..] == pre[1..] + rest;
      TrimStartSkips(pre[1..], rest);
    }
  }

  lemma {:induction false} TrimEndSkips(rest: string, post: string)
    requires AllWhitespace(post)
    requires rest != [] && !IsJsWhitespace(rest[|rest| - 1])
    ensures TrimEnd(rest + post) == rest
  {
    if post != [] {
      assert (rest + post)[..|rest + post| - 1] == rest + post[..|post| - 1];
      TrimEndSkips(rest, post[..|post| - 1]);
    } else {
      assert rest + post == rest;
    }
  }

  /** Leading whitespace is stripped from the first part only when that part has a visible
      character. */
  lemma {:induction false} TrimStartBefore(x: string, rest: string)
    requires !AllWhitespace(x)
    ensures TrimStart(x + rest) == TrimStart(x) + rest
    decreases |x|
  {
    var i :| 0 <= i < |x| && !IsJsWhitespace(x[i]);
    if IsJsWhitespace(x[0]) {
      assert (x + rest)[1..] == x[1..] + rest;
      assert x[1..][i - 1] == x[i];
      TrimStartBefore(x[1..], rest);
    } else {
      assert (x + rest)[0] == x[0];
    }
  }

  /** Trailing whitespace is stripped from the last part only when that part has a visible
      character. */
  lemma {:induction false} TrimEndAfter(rest: string, x: string)
    requires !AllWhitespace(x)
    ensures TrimEnd(rest + x) == rest + TrimEnd(x)
    decreases |x|
  {
    var n := |x|;
    var i :| 0 <= i < n && !IsJsWhitespace(x[i]);
    if IsJsWhitespace(x[n - 1]) {
      assert (rest + x)[..|rest + x| - 1] == rest + x[..n - 1];
      assert x[..n - 1][i] == x[i];
      TrimEndAfter(rest, x[..n - 1]);
    } else {
      assert (rest + x)[|rest + x| - 1] == x[n - 1];
    }
  }

  /** `trimStart` keeps the visible characters of a text that has some. */
  lemma {:induction false} TrimStartVisible(x: string)
    requires !AllWhitespace(x)
    ensures !AllWhitespace(TrimStart(x))
    decreases |x|
  {
    var i :| 0 <= i < |x| && !IsJsWhitespace(x[i]);
    if IsJsWhitespace(x[0]) {
      assert x[1..][i - 1] == x[i];
      TrimStartVisible(x[1..]);
    }
  }

  /** Trimming either end adds no character. */
  lemma TrimKeepsNoChar(x: string, c: char)
    requires c !in x
    ensures c !in TrimStart(x) && c !in TrimEnd(x)
  {
    var r := TrimStart(x);
    assert r == x[|x| - |r|..];
    var e := TrimEnd(x);
    assert e == x[..|e|];
  }

  /** An occurrence of a text that starts with a visible character survives `trimStart`. */
  lemma TrimStartKeeps(s: string, p: string, i: int)
    requires OccursAt(s, p, i) && p != [] && !IsJsWhitespace(p[0])
    ensures Contains(TrimStart(s), p)
  {
    var r := TrimStart(s);
    var m := |s| - |r|;
    assert s[i] == p[0];
    assert r[i - m..i - m + |p|] == s[i..i + |p|];
    assert OccursAt(r, p, i - m);
  }

  /** An occurrence of a text that ends with a visible character survives `trimEnd`. */
  lemma TrimEndKeeps(s: string, p: string, i: int)
    requires OccursAt(s, p, i) && p != [] && !IsJsWhitespace(p[|p| - 1])
    ensures Contains(TrimEnd(s), p)
  {
    var r := TrimEnd(s);
    var last := i + |p| - 1;
    assert s[last] == p[|p| - 1];
    assert r[i..i + |p|] == s[i..i + |p|];
    assert OccursAt(r, p, i);
  }

  /** `toLowerCase` on the ASCII letters (every language name the service knows is ASCII). */
  function LowerChar(c: char): (r: char)
    ensures 'A' <= c <= 'Z' ==> r as int == c as int + 32
    ensures !('A' <= c <= 'Z') ==> r == c
  {
    if 'A' <= c <= 'Z' then (c as int + 32) as char else c
  }

  function ToLower(s: string): (r: string)
    ensures |r| == |s|
    ensures forall i :: 0 <= i < |s| ==> r[i] == LowerChar(s[i])
    ensures forall i :: 0 <= i < |r| ==> !('A' <= r[i] <= 'Z')
  {
    if s == [] then [] else [LowerChar(s[0])] + ToLower(s[1..])
  }

  /** Lower-casing an already lower-cased name changes nothing. */
  lemma ToLowerIdempotent(s: string)
    ensures ToLower(ToLower(s)) == ToLower(s)
  {
  }

  /** `s.startsWith(p)`. */
  predicate StartsWith(s: string, p: string) {
    |p| <= |s| && s[..|p|] == p
  }

  /** `s.endsWith(suffix)`. */
  predicate EndsWith(s: string, suffix: string) {
    |suffix| <= |s| && s[|s| - |suffix|..] == suffix
  }

  /** `p` occurs in `s` starting at index `i`. */
  predicate OccursAt(s: string, p: string, i: int) {
    0 <= i <= |s| - |p| && s[i..i + |p|] == p
  }

  /** `s.includes(p)` */
  function Contains(s: string, p: string): (b: bool)
    ensures b <==> exists i :: OccursAt(s, p, i)
  {
    if |p| > |s| then false
    else if s[..|p|] == p then assert OccursAt(s, p, 0); true
    else
      var b := Contains(s[1..], p);
      assert b ==> exists i :: OccursAt(s, p, i) by {
        if b {
          var j :| OccursAt(s[1..], p, j);
          assert OccursAt(s, p, j + 1);
        }
      }
      assert (exists i :: OccursAt(s, p, i)) ==> b by {
        if exists i :: OccursAt(s, p, i) {
          var i :| OccursAt(s, p, i);
          assert i != 0;
          assert OccursAt(s[1..], p, i - 1);
        }
      }
      b
  }

  /** `s.split(sep)` for a one-character separator: never empty, and no piece holds the separator. */
  function Split(s: string, sep: char): (r: seq<string>)
    ensures |r| >= 1
    ensures forall k :: 0 <= k < |r| ==> sep !in r[k]
  {
    if s == [] then [""]
    else
      var rest := Split(s[1..], sep);
      if s[0] == sep then [""] + rest else [[s[0]] + rest[0]] + rest[1..]
  }

  /** `xs.join(sep)` */
  function Join(xs: seq<string>, sep: string): string {
    if xs == [] then ""
    else if |xs| == 1 then xs[0]
    else xs[0] + sep + Join(xs[1..], sep)
  }

  /** Joining the pieces of a split gives back the string. */
  lemma {:induction false} JoinSplit(s: string, sep: char)
    ensures Join(Split(s, sep), [sep]) == s
  {
    if s != [] {
      var rest := Split(s[1..], sep);
      JoinSplit(s[1..], sep);
      if s[0] == sep {
        assert Split(s, sep) == [""] + rest;
        assert ([""] + rest)[1..] == rest;
      } else {
        var r := [[s[0]] + rest[0]] + rest[1..];
        if |rest| == 1 {
          assert Join(rest, [sep]) == rest[0];
        } else {
          assert r[1..] == rest[1..];
          assert Join(rest, [sep]) == rest[0] + [sep] + Join(rest[1..], [sep]);
        }
      }
    }
  }

  /** Splitting a join of separator-free pieces gives back the pieces. */
  lemma {:induction false} SplitJoin(xs: seq<string>, sep: char)
    requires xs != []
    requires forall k :: 0 <= k < |xs| ==> sep !in xs[k]
    ensures Split(Join(xs, [sep]), sep) == xs
  {
    if |xs| == 1 {
      SplitPiece(xs[0], [], sep);
      assert xs[0] + [] == xs[0];
    } else {
      SplitJoin(xs[1..], sep);
      var tail := Join(xs[1..], [sep]);
      SplitPiece(xs[0], [sep] + tail, sep);
      assert xs[0] + [sep] + tail == xs[0] + ([sep] + tail);
      assert Split([sep] + tail, sep) == [""] + xs[1..] by {
        assert ([sep] + tail)[1..] == tail;
      }
      assert xs[0] + "" == xs[0];
      assert [xs[0]] + xs[1..] == xs;
    }
  }

  /** A separator-free piece in front of `t` joins the first piece of `t`'s split. */
  lemma {:induction false} SplitPiece(piece: string, t: string, sep: char)
    requires sep !in piece
    ensures var st := Split(t, sep);
      Split(piece + t, sep) == [piece + st[0]] + st[1..]
  {
    if piece == [] {
      assert piece + t == t;
      var st := Split(t, sep);
      assert piece + st[0] == st[0];
      assert [st[0]] + st[1..] == st;
    } else {
      SplitPiece(piece[1..], t, sep);
      assert (piece + t)[1..] == piece[1..] + t;
      assert [piece[0]] + (piece[1..] + Split(t, sep)[0]) == piece + Split(t, sep)[0];
    }
  }

  /** `str.slice(0, n)` */
  function Take(s: string, n: nat): (r: string)
    ensures |r| <= n && |r| <= |s|
    ensures r == s[..|r|]
    ensures |s| <= n ==> r == s
  {
    if |s| <= n then s else s[..n]
  }

  predicate IsDigit(c: char) {
    '0' <= c <= '9'
  }

  predicate AllDigits(s: string) {
    forall i :: 0 <= i < |s| ==> IsDigit(s[i])
  }

  /** The value of a run of decimal digits (`parseInt` of a `\d+` match). */
  function DigitsValue(s: string): nat
    requires AllDigits(s)
  {
    if s == [] then 0 else 10 * DigitsValue(s[..|s| - 1]) + (s[|s| - 1] as int - '0' as int)
  }

  /** The decimal text of `n`, as a template literal prints it. */
  function NatToString(n: nat): (r: string)
    ensures r != [] && AllDigits(r)
    ensures |r| > 1 ==> r[0] != '0'
  {
    if n < 10 then [('0' as int + n) as char]
    else NatToString(n / 10) + [('0' as int + n % 10) as char]
  }

  /** Reading the decimal text of `n` gives `n` back. */
  lemma {:induction false} DigitsValueOfNatToString(n: nat)
    ensures DigitsValue(NatToString(n)) == n
  {
    var r := NatToString(n);
    if n >= 10 {
      DigitsValueOfNatToString(n / 10);
      assert r[..|r| - 1] == NatToString(n / 10);
    }
  }

  /** The decimal text of an integer, with a leading minus sign when negative. */
  function IntToString(i: int): (r: string)
    ensures r != []
    ensures i < 0 <==> r[0] == '-'
  {
    if i < 0 then "-" + NatToString(-i) else NatToString(i)
  }
}
