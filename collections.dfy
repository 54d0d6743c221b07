/**
 * The collection operations the controller chains: Laravel's `map`, `filter`,
 * `unique` and `values`, and PHP's `implode`.  A Laravel collection keeps the
 * keys of the elements `filter` lets through; `KeptPositions` gives those keys,
 * and `values()` is what forgets them.
 */
module Collections {

  function Map<A, B>(xs: seq<A>, f: A -> B): (r: seq<B>)
    ensures |r| == |xs|
    ensures forall i :: 0 <= i < |xs| ==> r[i] == f(xs[i])
  {
    if xs == [] then [] else [f(xs[0])] + Map(xs[1..], f)
  }

  /** The elements of `xs` that `keep` accepts, in their original order. */
  function Filter<T>(xs: seq<T>, keep: T -> bool): seq<T>
  {
    if xs == [] then []
    else if keep(xs[0]) then [xs[0]] + Filter(xs[1..], keep)
    else Filter(xs[1..], keep)
  }

  /** The keys (positions in `xs`) of the elements that `keep` accepts. */
  function KeptPositions<T>(xs: seq<T>, keep: T -> bool): seq<nat>
  {
    KeptFrom(xs, keep, 0)
  }

  /** The kept positions from `i` on. */
  function KeptFrom<T>(xs: seq<T>, keep: T -> bool, i: nat): seq<nat>
    requires i <= |xs|
    decreases |xs| - i
  {
    if i == |xs| then []
    else if keep(xs[i]) then [i] + KeptFrom(xs, keep, i + 1)
    else KeptFrom(xs, keep, i + 1)
  }

  /** `idx` is a strictly increasing sequence of positions of `xs`. */
  predicate Increasing(idx: seq<nat>, n: nat)
  {
    (forall k :: 0 <= k < |idx| ==> idx[k] < n) &&
    (forall k, l :: 0 <= k < l < |idx| ==> idx[k] < idx[l])
  }

  /** `r` is `xs` read at the strictly increasing positions `idx`: an order-preserving subsequence. */
  ghost predicate Embeds<T>(r: seq<T>, xs: seq<T>, idx: seq<nat>)
  {
    |idx| == |r| && Increasing(idx, |xs|) &&
    forall k :: 0 <= k < |r| ==> r[k] == xs[idx[k]]
  }

  /** The elements of `xs` at the positions `idx`. */
  function Select<T>(xs: seq<T>, idx: seq<nat>): (r: seq<T>)
    requires forall k :: 0 <= k < |idx| ==> idx[k] < |xs|
    ensures |r| == |idx|
    ensures forall k :: 0 <= k < |idx| ==> r[k] == xs[idx[k]]
  {
    if idx == [] then [] else [xs[idx[0]]] + Select(xs, idx[1..])
  }

  /** The positions `KeptFrom` gives lie in `i .. |xs| - 1`, increase, and are exactly the accepted ones. */
  lemma {:induction false} KeptFromSpec<T>(xs: seq<T>, keep: T -> bool, i: nat)
    requires i <= |xs|
    ensures Increasing(KeptFrom(xs, keep, i), |xs|)
    ensures forall k :: 0 <= k < |KeptFrom(xs, keep, i)| ==> i <= KeptFrom(xs, keep, i)[k]
    ensures forall j :: i <= j < |xs| ==> (j in KeptFrom(xs, keep, i) <==> keep(xs[j]))
    decreases |xs| - i
  {
    if i < |xs| {
      var rest := KeptFrom(xs, keep, i + 1);
      KeptFromSpec(xs, keep, i + 1);
      assert i !in rest;
      if keep(xs[i]) {
        ConsBelow(i, rest, |xs|);
      }
    }
  }

  /** Putting `i` in front of increasing positions above `i` keeps them increasing. */
  lemma ConsBelow(i: nat, rest: seq<nat>, n: nat)
    requires i < n && Increasing(rest, n)
    requires forall k :: 0 <= k < |rest| ==> i < rest[k]
    ensures Increasing([i] + rest, n)
  {
    var r := [i] + rest;
    forall k, l | 0 <= k < l < |r| ensures r[k] < r[l] {
      assert r[l] == rest[l - 1];
      if k > 0 {
        assert r[k] == rest[k - 1];
      }
    }
  }

  lemma KeptPositionsSpec<T>(xs: seq<T>, keep: T -> bool)
    ensures Increasing(KeptPositions(xs, keep), |xs|)
    ensures forall i :: 0 <= i < |xs| ==> (i in KeptPositions(xs, keep) <==> keep(xs[i]))
  {
    KeptFromSpec(xs, keep, 0);
  }

  /** From position `i` on, `filter` reads `xs` at the kept positions. */
  lemma {:induction false} FilterFromIsSelect<T>(xs: seq<T>, keep: T -> bool, i: nat)
    requires i <= |xs|
    requires forall k :: 0 <= k < |KeptFrom(xs, keep, i)| ==> KeptFrom(xs, keep, i)[k] < |xs|
    ensures Filter(xs[i..], keep) == Select(xs, KeptFrom(xs, keep, i))
    decreases |xs| - i
  {
    if i < |xs| {
      var rest := KeptFrom(xs, keep, i + 1);
      KeptFromSpec(xs, keep, i + 1);
      FilterFromIsSelect(xs, keep, i + 1);
      assert xs[i..][0] == xs[i] && xs[i..][1..] == xs[i + 1..];
      if keep(xs[i]) {
        assert ([i] + rest)[1..] == rest;
      }
    }
  }

  lemma FilterIsSelect<T>(xs: seq<T>, keep: T -> bool)
    ensures forall k :: 0 <= k < |KeptPositions(xs, keep)| ==> KeptPositions(xs, keep)[k] < |xs|
    ensures Filter(xs, keep) == Select(xs, KeptPositions(xs, keep))
  {
    KeptFromSpec(xs, keep, 0);
    FilterFromIsSelect(xs, keep, 0);
    assert xs[0..] == xs;
  }

  /**
   * `filter` keeps exactly the accepted positions, in increasing order, and the
   * result is `xs` read at those positions.
   */
  lemma FilterAtKeptPositions<T>(xs: seq<T>, keep: T -> bool)
    ensures Increasing(KeptPositions(xs, keep), |xs|)
    ensures forall i :: 0 <= i < |xs| ==> (i in KeptPositions(xs, keep) <==> keep(xs[i]))
    ensures Embeds(Filter(xs, keep), xs, KeptPositions(xs, keep))
  {
    KeptPositionsSpec(xs, keep);
    FilterIsSelect(xs, keep);
  }

  lemma FilterLength<T>(xs: seq<T>, keep: T -> bool)
    ensures |Filter(xs, keep)| <= |xs|
  {
    FilterAtKeptPositions(xs, keep);
    IncreasingBound(KeptPositions(xs, keep), |xs|);
  }

  /** Everything `filter` returns is accepted, and every accepted element of `xs` is returned. */
  lemma FilterMembership<T>(xs: seq<T>, keep: T -> bool)
    ensures forall x :: x in Filter(xs, keep) <==> x in xs && keep(x)
  {
    FilterAtKeptPositions(xs, keep);
    var idx := KeptPositions(xs, keep);
    var r := Filter(xs, keep);
    forall x | x in xs && keep(x)
      ensures x in r
    {
      var i :| 0 <= i < |xs| && xs[i] == x;
      var k :| 0 <= k < |idx| && idx[k] == i;
      assert r[k] == x;
    }
  }

  /** A strictly increasing sequence of positions below `n` has at most `n` entries. */
  lemma {:induction false} IncreasingBound(idx: seq<nat>, n: nat)
    requires Increasing(idx, n)
    ensures |idx| <= n
    decreases n
  {
    if idx != [] {
      var last := idx[|idx| - 1];
      var init := idx[..|idx| - 1];
      assert Increasing(init, last);
      IncreasingBound(init, last);
    }
  }

  /** The keys are 0, 1, 2, ... in order. */
  predicate KeysAreIndices(idx: seq<nat>)
  {
    forall k :: 0 <= k < |idx| ==> idx[k] == k
  }

  /** No element that `keep` rejects comes before one it accepts. */
  ghost predicate DownClosed<T>(xs: seq<T>, keep: T -> bool)
  {
    forall i, j :: 0 <= i < j < |xs| && keep(xs[j]) ==> keep(xs[i])
  }

  /**
   * The kept keys are 0, 1, 2, ... exactly when no dropped element comes
   * before a kept one: only then is `values()` a no-op on the keys.
   */
  lemma KeysAreIndicesIffDownClosed<T>(xs: seq<T>, keep: T -> bool)
    ensures KeysAreIndices(KeptPositions(xs, keep)) <==> DownClosed(xs, keep)
  {
    ConsecutiveIffDownClosedFrom(xs, keep, 0);
  }

  /** The keys are `i`, `i + 1`, `i + 2`, ... in order. */
  predicate CountsFrom(idx: seq<nat>, i: nat)
  {
    forall k :: 0 <= k < |idx| ==> idx[k] == i + k
  }

  /** From position `i` on, no element that `keep` rejects comes before one it accepts. */
  ghost predicate DownClosedFrom<T>(xs: seq<T>, keep: T -> bool, i: nat)
  {
    forall a, b :: i <= a < b < |xs| && keep(xs[b]) ==> keep(xs[a])
  }

  lemma {:induction false} ConsecutiveIffDownClosedFrom<T>(xs: seq<T>, keep: T -> bool, i: nat)
    requires i <= |xs|
    ensures CountsFrom(KeptFrom(xs, keep, i), i) <==> DownClosedFrom(xs, keep, i)
    decreases |xs| - i
  {
    if i < |xs| {
      var rest := KeptFrom(xs, keep, i + 1);
      ConsecutiveIffDownClosedFrom(xs, keep, i + 1);
      KeptFromSpec(xs, keep, i + 1);
      if keep(xs[i]) {
        ConsCounts(i, rest);
        DownClosedFromKept(xs, keep, i);
      } else {
        DroppedAt(xs, keep, i);
      }
    }
  }

  lemma ConsCounts(i: nat, rest: seq<nat>)
    ensures CountsFrom([i] + rest, i) <==> CountsFrom(rest, i + 1)
  {
    var r := [i] + rest;
    forall k | 0 < k < |r| ensures r[k] == rest[k - 1] {}
    if CountsFrom(r, i) {
      forall k | 0 <= k < |rest| ensures rest[k] == i + 1 + k {
        assert r[k + 1] == i + k + 1;
      }
    }
  }

  lemma DownClosedFromKept<T>(xs: seq<T>, keep: T -> bool, i: nat)
    requires i < |xs| && keep(xs[i])
    ensures DownClosedFrom(xs, keep, i) <==> DownClosedFrom(xs, keep, i + 1)
  {
  }

  /** With the element at `i` dropped, both sides hold exactly when nothing after `i` is kept. */
  lemma DroppedAt<T>(xs: seq<T>, keep: T -> bool, i: nat)
    requires i < |xs| && !keep(xs[i])
    ensures CountsFrom(KeptFrom(xs, keep, i), i) <==> KeptFrom(xs, keep, i + 1) == []
    ensures DownClosedFrom(xs, keep, i) <==> KeptFrom(xs, keep, i + 1) == []
  {
    var rest := KeptFrom(xs, keep, i + 1);
    KeptFromSpec(xs, keep, i + 1);
    if rest != [] {
      var j := rest[0];
      assert j in rest;
      assert i < j < |xs| && keep(xs[j]);
    } else {
      forall j | i < j < |xs| ensures !keep(xs[j]) {
        assert j !in rest;
      }
    }
  }

  // ---------------------------------------------------------------------------
  // unique(): keep the first occurrence of each value.

  ghost predicate NoDuplicates<T>(xs: seq<T>)
  {
    forall i, j :: 0 <= i < j < |xs| ==> xs[i] != xs[j]
  }

  /** Left to right, dropping every value already in `seen`. */
  function UniqueFrom<T(==)>(xs: seq<T>, seen: set<T>): seq<T>
  {
    if xs == [] then []
    else if xs[0] in seen then UniqueFrom(xs[1..], seen)
    else [xs[0]] + UniqueFrom(xs[1..], seen + {xs[0]})
  }

  /** Laravel's `unique()` on a list of values. */
  function Unique<T(==)>(xs: seq<T>): seq<T>
  {
    UniqueFrom(xs, {})
  }

  /** Reference definition: the positions `i` whose value does not occur before `i`. */
  function FirstPositions<T(==)>(xs: seq<T>): seq<nat>
  {
    FirstFrom(xs, 0)
  }

  /** Those positions from `i` on. */
  function FirstFrom<T(==)>(xs: seq<T>, i: nat): seq<nat>
    requires i <= |xs|
    decreases |xs| - i
  {
    if i == |xs| then []
    else if xs[i] in xs[..i] then FirstFrom(xs, i + 1)
    else [i] + FirstFrom(xs, i + 1)
  }

  lemma {:induction false} FirstFromSpec<T>(xs: seq<T>, i: nat)
    requires i <= |xs|
    ensures Increasing(FirstFrom(xs, i), |xs|)
    ensures forall k :: 0 <= k < |FirstFrom(xs, i)| ==> i <= FirstFrom(xs, i)[k]
    ensures forall j :: i <= j < |xs| ==> (j in FirstFrom(xs, i) <==> xs[j] !in xs[..j])
    decreases |xs| - i
  {
    if i < |xs| {
      var rest := FirstFrom(xs, i + 1);
      FirstFromSpec(xs, i + 1);
      assert i !in rest;
      if xs[i] !in xs[..i] {
        ConsBelow(i, rest, |xs|);
      }
    }
  }

  lemma FirstPositionsSpec<T>(xs: seq<T>)
    ensures Increasing(FirstPositions(xs), |xs|)
    ensures forall i :: 0 <= i < |xs| ==> (i in FirstPositions(xs) <==> xs[i] !in xs[..i])
  {
    FirstFromSpec(xs, 0);
  }

  /** From position `i` on, with the values before `i` already seen, `unique()` reads `xs` at the first positions. */
  lemma {:induction false} UniqueFromIsSelect<T>(xs: seq<T>, i: nat, seen: set<T>)
    requires i <= |xs|
    requires forall x :: x in seen <==> x in xs[..i]
    requires forall k :: 0 <= k < |FirstFrom(xs, i)| ==> FirstFrom(xs, i)[k] < |xs|
    ensures UniqueFrom(xs[i..], seen) == Select(xs, FirstFrom(xs, i))
    decreases |xs| - i
  {
    if i < |xs| {
      FirstFromSpec(xs, i + 1);
      assert xs[i..][0] == xs[i] && xs[i..][1..] == xs[i + 1..];
      assert xs[i] in seen <==> xs[i] in xs[..i];
      if xs[i] in xs[..i] {
        SeenStep(xs, i, seen);
        UniqueFromIsSelect(xs, i + 1, seen);
      } else {
        SeenStep(xs, i, seen);
        UniqueFromIsSelect(xs, i + 1, seen + {xs[i]});
        SelectCons(xs, i, FirstFrom(xs, i + 1));
      }
    }
  }

  lemma SeenStep<T>(xs: seq<T>, i: nat, seen: set<T>)
    requires i < |xs|
    requires forall x :: x in seen <==> x in xs[..i]
    ensures xs[i] in xs[..i] ==> forall x :: x in seen <==> x in xs[..i + 1]
    ensures forall x :: x in seen + {xs[i]} <==> x in xs[..i + 1]
  {
    assert xs[..i + 1] == xs[..i] + [xs[i]];
  }

  lemma SelectCons<T>(xs: seq<T>, i: nat, rest: seq<nat>)
    requires i < |xs| && forall k :: 0 <= k < |rest| ==> rest[k] < |xs|
    ensures Select(xs, [i] + rest) == [xs[i]] + Select(xs, rest)
  {
    assert ([i] + rest)[1..] == rest;
  }

  /** `unique()` is `xs` read at the first occurrence of each value, in order. */
  lemma UniqueIsFirstOccurrences<T>(xs: seq<T>)
    ensures forall k :: 0 <= k < |FirstPositions(xs)| ==> FirstPositions(xs)[k] < |xs|
    ensures Unique(xs) == Select(xs, FirstPositions(xs))
  {
    FirstFromSpec(xs, 0);
    UniqueFromIsSelect(xs, 0, {});
    assert xs[0..] == xs;
  }

  /**
   * What `unique()` promises: no value twice, the same values as its input,
   * each kept at its first occurrence and in the input's order.
   */
  lemma UniqueSpec<T>(xs: seq<T>)
    ensures NoDuplicates(Unique(xs))
    ensures forall x :: x in Unique(xs) <==> x in xs
    ensures Embeds(Unique(xs), xs, FirstPositions(xs))
    ensures forall k :: 0 <= k < |Unique(xs)| ==> Unique(xs)[k] !in xs[..FirstPositions(xs)[k]]
    ensures |Unique(xs)| <= |xs|
  {
    UniqueIsFirstOccurrences(xs);
    FirstPositionsSpec(xs);
    var idx := FirstPositions(xs);
    var r := Unique(xs);
    IncreasingBound(idx, |xs|);
    forall i, j | 0 <= i < j < |r|
      ensures r[i] != r[j]
    {
      assert idx[i] < idx[j];
      assert xs[..idx[j]][idx[i]] == xs[idx[i]];
    }
    forall x | x in xs
      ensures x in r
    {
      var i := FirstIndex(xs, x);
      var k :| 0 <= k < |idx| && idx[k] == i;
      assert r[k] == x;
    }
  }

  /** The position of the first occurrence of `x` in `xs`. */
  lemma FirstIndex<T>(xs: seq<T>, x: T) returns (i: nat)
    requires x in xs
    ensures i < |xs| && xs[i] == x && x !in xs[..i]
  {
    if xs[0] == x {
      i := 0;
    } else {
      var j := FirstIndex(xs[1..], x);
      i := j + 1;
      assert xs[..i] == [xs[0]] + xs[1..][..j];
    }
  }

  /**
   * `filter()` then `unique()`: the kept values, none twice, in the order of
   * `xs`, each read at the position where it first occurs in `xs`.
   */
  lemma FilterThenUnique<T>(xs: seq<T>, keep: T -> bool) returns (idx: seq<nat>)
    ensures NoDuplicates(Unique(Filter(xs, keep)))
    ensures forall x :: x in Unique(Filter(xs, keep)) <==> x in xs && keep(x)
    ensures Embeds(Unique(Filter(xs, keep)), xs, idx)
    ensures forall k :: 0 <= k < |idx| ==> xs[idx[k]] !in xs[..idx[k]]
    ensures |Unique(Filter(xs, keep))| <= |xs|
  {
    var ys := Filter(xs, keep);
    var q := KeptPositions(xs, keep);
    var p := FirstPositions(ys);
    var r := Unique(ys);
    FilterAtKeptPositions(xs, keep);
    FilterMembership(xs, keep);
    FilterLength(xs, keep);
    UniqueSpec(ys);
    idx := EmbedsCompose(r, ys, xs, p, q);
    forall k | 0 <= k < |idx| ensures xs[idx[k]] !in xs[..idx[k]] {
      FirstKept(xs, ys, q, keep, p[k], r[k]);
    }
  }

  /** A subsequence of a subsequence of `xs` is a subsequence of `xs`. */
  lemma EmbedsCompose<T>(r: seq<T>, ys: seq<T>, xs: seq<T>, p: seq<nat>, q: seq<nat>) returns (idx: seq<nat>)
    requires Embeds(r, ys, p) && Embeds(ys, xs, q)
    ensures Embeds(r, xs, idx)
    ensures |idx| == |p| && forall k :: 0 <= k < |p| ==> idx[k] == q[p[k]]
  {
    idx := Select(q, p);
    forall k, l | 0 <= k < l < |idx| ensures idx[k] < idx[l] {
      assert p[k] < p[l];
    }
  }

  /**
   * If `ys` is `xs` read at the increasing positions `q`, which include every
   * position `keep` accepts, a kept value missing from the first `n` values of
   * `ys` does not occur in `xs` before position `q[n]`.
   */
  lemma FirstKept<T>(xs: seq<T>, ys: seq<T>, q: seq<nat>, keep: T -> bool, n: nat, x: T)
    requires Embeds(ys, xs, q) && n < |q|
    requires forall i :: 0 <= i < |xs| && keep(xs[i]) ==> i in q
    requires keep(x) && x !in ys[..n]
    ensures x !in xs[..q[n]]
  {
    forall i | 0 <= i < q[n] ensures xs[i] != x {
      if keep(xs[i]) {
        assert i in q;
        var m :| 0 <= m < |q| && q[m] == i;
        assert m < n;
        assert ys[..n][m] == xs[i];
      }
    }
  }

  // ---------------------------------------------------------------------------
  // implode() and substrings.

  /** PHP's `implode(sep, xs)`. */
  function Join(sep: string, xs: seq<string>): string
  {
    if xs == [] then ""
    else if |xs| == 1 then xs[0]
    else xs[0] + sep + Join(sep, xs[1..])
  }

  ghost predicate OccursAt(t: string, s: string, i: int)
  {
    0 <= i && i + |t| <= |s| && s[i..i + |t|] == t
  }

  /** `t` is a substring of `s`. */
  ghost predicate Occurs(t: string, s: string)
  {
    exists i :: OccursAt(t, s, i)
  }

  lemma OccursInside(t: string, a: string, b: string)
    ensures OccursAt(t, a + t + b, |a|)
  {
    assert (a + t + b)[|a|..|a| + |t|] == t;
  }

  lemma OccursWithin(t: string, s: string, a: string, b: string)
    requires Occurs(t, s)
    ensures Occurs(t, a + s + b)
  {
    var i :| OccursAt(t, s, i);
    var w := a + s + b;
    assert w[|a| + i..|a| + i + |t|] == s[i..i + |t|];
    assert OccursAt(t, w, |a| + i);
  }

  /** The joined string starts each element at a known position, so every element occurs in it. */
  lemma {:induction false} JoinContainsEach(sep: string, xs: seq<string>)
    ensures forall k :: 0 <= k < |xs| ==> Occurs(xs[k], Join(sep, xs))
  {
    if |xs| == 1 {
      OccursInside(xs[0], "", "");
      assert "" + xs[0] + "" == Join(sep, xs);
    } else if |xs| > 1 {
      JoinContainsEach(sep, xs[1..]);
      var rest := Join(sep, xs[1..]);
      forall k | 0 <= k < |xs|
        ensures Occurs(xs[k], Join(sep, xs))
      {
        if k == 0 {
          OccursInside(xs[0], "", sep + rest);
          assert "" + xs[0] + (sep + rest) == Join(sep, xs);
        } else {
          assert xs[k] == xs[1..][k - 1];
          OccursWithin(xs[k], rest, xs[0] + sep, "");
          assert xs[0] + sep + rest + "" == Join(sep, xs);
        }
      }
    }
  }

  lemma JoinEmpty(sep: string, xs: seq<string>)
    requires forall k :: 0 <= k < |xs| ==> xs[k] != ""
    ensures Join(sep, xs) == "" <==> xs == []
  {
    if xs != [] {
      assert |Join(sep, xs)| >= |xs[0]|;
    }
  }
}
