/** The line-list steps of the compiler-diagnostic filters: `lines.filter(keep)` and
    `[...new Set(lines)]`, which keeps each distinct line once, at its first occurrence. */
module Lines {

  /** `xs.filter(keep)`: the lines that pass, in their original order. */
  function Filter(xs: seq<string>, keep: string -> bool): (r: seq<string>)
    ensures |r| <= |xs|
    ensures forall k :: 0 <= k < |r| ==> keep(r[k])
    ensures forall x :: x in r <==> x in xs && keep(x)
  {
    if xs == [] then []
    else
      var init := Filter(xs[..|xs| - 1], keep);
      var last := xs[|xs| - 1];
      assert forall x :: x in xs <==> x in xs[..|xs| - 1] || x == last;
      if keep(last) then init + [last] else init
  }

  /** Filtering a concatenation filters each part: every passing occurrence is kept, in order. */
  lemma {:induction false} FilterAppend(a: seq<string>, b: seq<string>, keep: string -> bool)
    ensures Filter(a + b, keep) == Filter(a, keep) + Filter(b, keep)
    decreases |b|
  {
    if b == [] {
      assert a + b == a;
    } else {
      var init := b[..|b| - 1];
      var last := b[|b| - 1];
      var ab := a + b;
      assert ab[..|ab| - 1] == a + init;
      assert ab[|ab| - 1] == last;
      assert Filter(ab, keep) == Filter(a + init, keep) + (if keep(last) then [last] else []);
      assert Filter(b, keep) == Filter(init, keep) + (if keep(last) then [last] else []);
      FilterAppend(a, init, keep);
    }
  }

  /** Every passing line is kept as often as it occurs, and no other line is kept. */
  lemma {:induction false} FilterCount(xs: seq<string>, keep: string -> bool, x: string)
    ensures multiset(Filter(xs, keep))[x] == if keep(x) then multiset(xs)[x] else 0
    decreases |xs|
  {
    if xs != [] {
      var init := xs[..|xs| - 1];
      var last := xs[|xs| - 1];
      assert xs == init + [last];
      assert multiset(xs) == multiset(init) + multiset{last};
      assert Filter(xs, keep) == Filter(init, keep) + (if keep(last) then [last] else []);
      FilterCount(init, keep, x);
    }
  }

  /** A single line is kept exactly when it passes. */
  lemma FilterOne(x: string, keep: string -> bool)
    ensures Filter([x], keep) == if keep(x) then [x] else []
  {
    assert [x][..0] == [];
  }

  /** Filtering lines that all pass leaves them as they are. */
  lemma {:induction false} FilterAll(xs: seq<string>, keep: string -> bool)
    requires forall k :: 0 <= k < |xs| ==> keep(xs[k])
    ensures Filter(xs, keep) == xs
    decreases |xs|
  {
    if xs != [] {
      var init := xs[..|xs| - 1];
      FilterAll(init, keep);
      assert init + [xs[|xs| - 1]] == xs;
    }
  }

  /** Filtering keeps the relative order of first occurrences. */
  lemma {:induction false} FilterKeepsOrder(xs: seq<string>, keep: string -> bool, x: string, y: string)
    requires x in Filter(xs, keep) && y in Filter(xs, keep)
    requires FirstIndex(Filter(xs, keep), x) < FirstIndex(Filter(xs, keep), y)
    ensures FirstIndex(xs, x) < FirstIndex(xs, y)
    decreases |xs|
  {
    var init := xs[..|xs| - 1];
    var last := xs[|xs| - 1];
    var fi := Filter(init, keep);
    assert init + [last] == xs;
    if x in init && y in init {
      FirstIndexPrefix(init, last, x);
      FirstIndexPrefix(init, last, y);
      if keep(last) {
        FirstIndexPrefix(fi, last, x);
        FirstIndexPrefix(fi, last, y);
      }
      FilterKeepsOrder(init, keep, x, y);
    } else if x in init {
      FirstIndexPrefix(init, last, x);
      assert FirstIndex(xs, y) == |xs| - 1;
    }
  }

  /** The spread of an insertion-ordered `Set` built from `xs`: each element is added to the end
      the first time it is seen, and ignored afterwards. */
  function Dedup(xs: seq<string>): seq<string> {
    if xs == [] then []
    else
      var seen := Dedup(xs[..|xs| - 1]);
      var last := xs[|xs| - 1];
      if last in seen then seen else seen + [last]
  }

  predicate Distinct(xs: seq<string>) {
    forall i, j :: 0 <= i < j < |xs| ==> xs[i] != xs[j]
  }

  /** The position of the first occurrence of `x` in `xs`. */
  function FirstIndex(xs: seq<string>, x: string): (i: nat)
    requires x in xs
    ensures i < |xs| && xs[i] == x && x !in xs[..i]
  {
    if xs[0] == x then 0 else 1 + FirstIndex(xs[1..], x)
  }

  /** The de-duplicated list has exactly the lines of the input, each once, and lists them in the
      order of their first occurrence. */
  lemma {:induction false} DedupSpec(xs: seq<string>)
    ensures forall x :: x in Dedup(xs) <==> x in xs
    ensures Distinct(Dedup(xs))
    ensures forall i, j :: 0 <= i < j < |Dedup(xs)| ==>
      FirstIndex(xs, Dedup(xs)[i]) < FirstIndex(xs, Dedup(xs)[j])
  {
    if xs != [] {
      var init := xs[..|xs| - 1];
      var last := xs[|xs| - 1];
      var seen := Dedup(init);
      DedupSpec(init);
      assert forall x :: x in xs <==> x in init || x == last;
      forall x | x in init
        ensures FirstIndex(xs, x) == FirstIndex(init, x)
      {
        FirstIndexPrefix(init, last, x);
        assert init + [last] == xs;
      }
      if last !in seen {
        assert FirstIndex(xs, last) == |xs| - 1;
      }
    }
  }

  lemma FirstIndexPrefix(init: seq<string>, last: string, x: string)
    requires x in init
    ensures x in init + [last] && FirstIndex(init + [last], x) == FirstIndex(init, x)
  {
    var xs := init + [last];
    var i, j := FirstIndex(xs, x), FirstIndex(init, x);
    assert xs[j] == x;
  }

  /** A list without repeats is left as it is. */
  lemma {:induction false} DedupOfDistinct(xs: seq<string>)
    requires Distinct(xs)
    ensures Dedup(xs) == xs
  {
    if xs != [] {
      var init := xs[..|xs| - 1];
      DedupOfDistinct(init);
      assert xs[|xs| - 1] !in init;
      assert init + [xs[|xs| - 1]] == xs;
    }
  }

  /** De-duplicating twice is the same as once. */
  lemma DedupIdempotent(xs: seq<string>)
    ensures Dedup(Dedup(xs)) == Dedup(xs)
  {
    DedupSpec(xs);
    DedupOfDistinct(Dedup(xs));
  }
}
