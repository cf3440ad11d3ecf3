/**
 * The list arithmetic of `processHoists` (plugin/macro/transformer.ts): each
 * origin's statements form a group with an optional anchor index; groups are
 * sorted by anchor, descending, unresolved last, and spliced one after another.
 */
module Splice {
  import opened Options

  datatype Group<T> = Group(anchor: Option<nat>, stmts: seq<T>)

  /** The sort key: the anchor, or -1 for an unresolved group (`[a = -1]`). */
  function Key<T>(g: Group<T>): int {
    if g.anchor.Some? then g.anchor.value else -1
  }

  /** Where a group is spliced: its anchor, or 0 (`[index = 0, nodes]`). */
  function InsertionIndex<T>(g: Group<T>): nat {
    if g.anchor.Some? then g.anchor.value else 0
  }

  predicate SortedDesc<T>(s: seq<Group<T>>) {
    forall i, j :: 0 <= i < j < |s| ==> Key(s[i]) >= Key(s[j])
  }

  /** Places `g` before the first element whose key is not larger than its own. */
  function InsertDesc<T(==)>(g: Group<T>, s: seq<Group<T>>): (r: seq<Group<T>>)
    requires SortedDesc(s)
    ensures SortedDesc(r)
    ensures multiset(r) == multiset(s) + multiset{g}
  {
    if s == [] then [g]
    else if Key(s[0]) <= Key(g) then
      assert s == [s[0]] + s[1..];
      [g] + s
    else
      var rest := InsertDesc(g, s[1..]);
      InsertBelowHead(g, s, rest);
      assert s == [s[0]] + s[1..];
      [s[0]] + rest
  }

  /** Every element of the re-sorted tail stays at or below the head's key. */
  lemma InsertBelowHead<T>(g: Group<T>, s: seq<Group<T>>, rest: seq<Group<T>>)
    requires SortedDesc(s) && s != [] && Key(s[0]) > Key(g)
    requires SortedDesc(rest) && multiset(rest) == multiset(s[1..]) + multiset{g}
    ensures SortedDesc([s[0]] + rest)
  {
    forall i | 0 <= i < |rest| ensures Key(rest[i]) <= Key(s[0]) {
      assert rest[i] in multiset(rest);
      if rest[i] != g {
        assert rest[i] in multiset(s[1..]);
        var k :| 0 <= k < |s[1..]| && s[1..][k] == rest[i];
        assert s[k + 1] == rest[i];
      }
    }
    var r := [s[0]] + rest;
    forall i, j | 0 <= i < j < |r| ensures Key(r[i]) >= Key(r[j]) {
      if i > 0 {
        assert r[i] == rest[i - 1] && r[j] == rest[j - 1];
      } else {
        assert r[j] == rest[j - 1];
      }
    }
  }

  /** `.sort(([a = -1], [b = -1]) => b - a)`: a stable sort by key, descending. */
  function SortDesc<T(==)>(gs: seq<Group<T>>): (r: seq<Group<T>>)
    ensures SortedDesc(r)
    ensures multiset(r) == multiset(gs)
  {
    if gs == [] then []
    else
      assert gs == [gs[0]] + gs[1..];
      InsertDesc(gs[0], SortDesc(gs[1..]))
  }

  /** `[...xs.slice(0, i), ...ys, ...xs.slice(i)]`, with `slice` clamping `i` to the length. */
  function SpliceAt<T>(xs: seq<T>, i: nat, ys: seq<T>): (r: seq<T>)
    ensures |r| == |xs| + |ys|
  {
    var k := if i <= |xs| then i else |xs|;
    xs[..k] + ys + xs[k..]
  }

  /** The list after splicing the groups of `s` one after another, in order. */
  function ApplyGroups<T>(xs: seq<T>, s: seq<Group<T>>): seq<T> {
    if s == [] then xs
    else
      var g := s[|s| - 1];
      SpliceAt(ApplyGroups(xs, s[..|s| - 1]), InsertionIndex(g), g.stmts)
  }

  /** The groups with key `a`, in their order in `gs`. */
  function WithKey<T>(gs: seq<Group<T>>, a: int): seq<Group<T>> {
    if gs == [] then []
    else (if Key(gs[0]) == a then [gs[0]] else []) + WithKey(gs[1..], a)
  }

  /** The statements of `gs`, last group first, each group in its own order. */
  function RevConcat<T>(gs: seq<Group<T>>): seq<T> {
    if gs == [] then [] else gs[|gs| - 1].stmts + RevConcat(gs[..|gs| - 1])
  }

  /** What lands in front of anchor `a` (or, for -1, at the very front): the groups with that key, latest registered first. */
  function AnchoredAt<T>(gs: seq<Group<T>>, a: int): seq<T> {
    RevConcat(WithKey(gs, a))
  }

  /** From position `j` on: each statement preceded by the groups anchored at it. */
  function Woven<T>(xs: seq<T>, gs: seq<Group<T>>, j: nat): seq<T>
    decreases |xs| - j
  {
    if j >= |xs| then [] else AnchoredAt(gs, j) + [xs[j]] + Woven(xs, gs, j + 1)
  }

  /**
   * The intended outcome: unresolved groups at the very front, then every original
   * statement preceded by the groups anchored at it; groups that share a place
   * appear latest-registered first.
   */
  function Expected<T>(xs: seq<T>, gs: seq<Group<T>>): seq<T> {
    AnchoredAt(gs, -1) + Woven(xs, gs, 0)
  }

  predicate AnchorsWithin<T>(gs: seq<Group<T>>, n: nat) {
    forall i :: 0 <= i < |gs| && gs[i].anchor.Some? ==> gs[i].anchor.value < n
  }

  /**
   * The ordering theorem: sorting the groups by anchor, descending, and splicing
   * them in that order yields `Expected`, provided every anchor points into the list.
   */
  lemma {:induction false} MaterializedOrder<T>(xs: seq<T>, gs: seq<Group<T>>)
    requires AnchorsWithin(gs, |xs|)
    ensures ApplyGroups(xs, SortDesc(gs)) == Expected(xs, gs)
  {
    var s := SortDesc(gs);
    forall i | 0 <= i < |s| && s[i].anchor.Some? ensures s[i].anchor.value < |xs| {
      assert s[i] in multiset(gs);
      var j :| 0 <= j < |gs| && gs[j] == s[i];
    }
    ApplySorted(xs, s);
    forall a: int ensures AnchoredAt(s, a) == AnchoredAt(gs, a) {
      SortKeepsKeyOrder(gs, a);
    }
    WovenExt(xs, s, gs, 0);
  }

  /** Sorting keeps the relative order of groups with equal keys (the sort is stable). */
  lemma {:induction false} SortKeepsKeyOrder<T>(gs: seq<Group<T>>, a: int)
    ensures WithKey(SortDesc(gs), a) == WithKey(gs, a)
  {
    if gs != [] {
      SortKeepsKeyOrder(gs[1..], a);
      InsertKeepsKeyOrder(gs[0], SortDesc(gs[1..]), a);
      assert ([gs[0]] + gs[1..])[1..] == gs[1..];
      assert gs == [gs[0]] + gs[1..];
    }
  }

  lemma {:induction false} InsertKeepsKeyOrder<T>(g: Group<T>, s: seq<Group<T>>, a: int)
    requires SortedDesc(s)
    ensures WithKey(InsertDesc(g, s), a) == WithKey([g] + s, a)
  {
    if s != [] && Key(s[0]) > Key(g) {
      var rest := InsertDesc(g, s[1..]);
      InsertKeepsKeyOrder(g, s[1..], a);
      InsertPasses(g, s);
      PassKeyOrder(g, s[0], s[1..], rest, a);
      assert [s[0]] + s[1..] == s;
    } else if s == [] {
      WithKeyCons([], g, a);
    }
  }

  lemma InsertPasses<T>(g: Group<T>, s: seq<Group<T>>)
    requires SortedDesc(s) && s != [] && Key(s[0]) > Key(g)
    ensures InsertDesc(g, s) == [s[0]] + InsertDesc(g, s[1..])
  {
  }

  /** `g` passing a group of larger key leaves the groups of each key in their order. */
  lemma PassKeyOrder<T>(g: Group<T>, x: Group<T>, tail: seq<Group<T>>, rest: seq<Group<T>>, a: int)
    requires Key(x) > Key(g) && WithKey(rest, a) == WithKey([g] + tail, a)
    ensures WithKey([x] + rest, a) == WithKey([g] + ([x] + tail), a)
  {
    WithKeyCons(rest, x, a);
    WithKeyCons(tail, g, a);
    WithKeyCons(tail, x, a);
    WithKeyCons([x] + tail, g, a);
  }

  lemma WithKeyCons<T>(gs: seq<Group<T>>, x: Group<T>, a: int)
    ensures WithKey([x] + gs, a) == (if Key(x) == a then [x] else []) + WithKey(gs, a)
  {
    assert ([x] + gs)[1..] == gs;
  }

  /** Splicing groups already sorted by key, descending, gives `Expected`. */
  lemma {:induction false} ApplySorted<T>(xs: seq<T>, s: seq<Group<T>>)
    requires SortedDesc(s)
    requires AnchorsWithin(s, |xs|)
    ensures ApplyGroups(xs, s) == Expected(xs, s)
  {
    if s == [] {
      WovenPrefix(xs, s, 0, |xs|);
      assert xs[0..|xs|] == xs;
    } else {
      var p, g := s[..|s| - 1], s[|s| - 1];
      assert s == p + [g];
      assert SortedDesc(p) && AnchorsWithin(p, |xs|) by {
        forall i | 0 <= i < |p| ensures p[i] == s[i] { }
      }
      ApplySorted(xs, p);
      forall i | 0 <= i < |p| ensures Key(p[i]) >= Key(g) {
        assert p[i] == s[i];
      }
      if g.anchor.None? {
        SpliceUnresolved(xs, p, g);
      } else {
        SpliceResolved(xs, p, g);
      }
    }
  }

  /** An unresolved group, spliced last, goes in front of everything already there. */
  lemma SpliceUnresolved<T>(xs: seq<T>, p: seq<Group<T>>, g: Group<T>)
    requires g.anchor.None?
    ensures SpliceAt(Expected(xs, p), InsertionIndex(g), g.stmts) == Expected(xs, p + [g])
  {
    var e := Expected(xs, p);
    SpliceInFront(e, [], e, g.stmts);
    AnchoredAtSnocSame(p, g, -1);
    WovenSnocBeyond(xs, p, g, 0);
    Reassociate3(g.stmts, AnchoredAt(p, -1), Woven(xs, p, 0));
  }

  /** Regrouping kept out of the splice proof, whose context is costly to search. */
  lemma Reassociate3<T>(a: seq<T>, b: seq<T>, c: seq<T>)
    ensures [] + a + (b + c) == (a + b) + c
  {
  }

  /** A group anchored at `a`, spliced after every group anchored at or after `a`, lands right before statement `a`. */
  lemma SpliceResolved<T>(xs: seq<T>, p: seq<Group<T>>, g: Group<T>)
    requires g.anchor.Some? && g.anchor.value < |xs|
    requires forall i :: 0 <= i < |p| ==> Key(p[i]) >= Key(g)
    ensures SpliceAt(Expected(xs, p), InsertionIndex(g), g.stmts) == Expected(xs, p + [g])
  {
    var a := g.anchor.value;
    var s := p + [g];
    NothingBelow(p, g, a);
    ExpectedFrom(xs, p, a);
    ExpectedFrom(xs, s, a);
    var mid := AnchoredAt(p, a) + [xs[a]];
    var tail := Woven(xs, p, a + 1);
    WovenAtAnchor(xs, p, g);
    SpliceInFront(Expected(xs, p), xs[..a], mid + tail, g.stmts);
  }

  /** At its anchor, the new group comes first, ahead of the groups spliced there before it. */
  lemma WovenAtAnchor<T>(xs: seq<T>, p: seq<Group<T>>, g: Group<T>)
    requires g.anchor.Some? && g.anchor.value < |xs|
    ensures var a := g.anchor.value;
      Woven(xs, p + [g], a) == g.stmts + (AnchoredAt(p, a) + [xs[a]] + Woven(xs, p, a + 1))
  {
    var a := g.anchor.value;
    WovenSnocBeyond(xs, p, g, a + 1);
    AnchoredAtSnocSame(p, g, a);
    WovenAt(xs, p + [g], a, g.stmts, AnchoredAt(p, a), Woven(xs, p, a + 1));
  }

  lemma AnchoredAtSnocSame<T>(p: seq<Group<T>>, g: Group<T>, a: int)
    requires Key(g) == a
    ensures AnchoredAt(p + [g], a) == g.stmts + AnchoredAt(p, a)
  {
    AnchoredAtSnoc(p, g, a);
  }

  lemma WovenAt<T>(xs: seq<T>, s: seq<Group<T>>, j: nat, ys: seq<T>, zs: seq<T>, w: seq<T>)
    requires j < |xs| && AnchoredAt(s, j) == ys + zs && Woven(xs, s, j + 1) == w
    ensures Woven(xs, s, j) == ys + (zs + [xs[j]] + w)
  {
    WovenUnfold(xs, s, j);
    Reassociate(ys, zs, [xs[j]], w);
  }

  lemma WovenUnfold<T>(xs: seq<T>, gs: seq<Group<T>>, j: nat)
    requires j < |xs|
    ensures Woven(xs, gs, j) == AnchoredAt(gs, j) + [xs[j]] + Woven(xs, gs, j + 1)
  {
  }

  lemma Reassociate<T>(a: seq<T>, b: seq<T>, c: seq<T>, d: seq<T>)
    ensures (a + b) + c + d == a + (b + c + d)
  {
  }

  /** A group added last changes nothing after its own key. */
  lemma {:induction false} WovenSnocBeyond<T>(xs: seq<T>, p: seq<Group<T>>, g: Group<T>, j: nat)
    requires Key(g) < j
    ensures Woven(xs, p + [g], j) == Woven(xs, p, j)
    decreases |xs| - j
  {
    if j < |xs| {
      AnchoredAtSnocOther(p, g, j);
      WovenSnocBeyond(xs, p, g, j + 1);
      WovenCongruent(xs, p + [g], p, j);
    }
  }

  lemma AnchoredAtSnocOther<T>(p: seq<Group<T>>, g: Group<T>, a: int)
    requires Key(g) != a
    ensures AnchoredAt(p + [g], a) == AnchoredAt(p, a)
  {
    AnchoredAtSnoc(p, g, a);
  }

  /** One position of `Woven`: equal groups there and equal rest give equal lists. */
  lemma WovenCongruent<T>(xs: seq<T>, s: seq<Group<T>>, p: seq<Group<T>>, j: nat)
    requires j < |xs| && AnchoredAt(s, j) == AnchoredAt(p, j) && Woven(xs, s, j + 1) == Woven(xs, p, j + 1)
    ensures Woven(xs, s, j) == Woven(xs, p, j)
  {
  }

  /** With nothing unresolved and nothing anchored before `a`, the list starts with its first `a` statements. */
  lemma ExpectedFrom<T>(xs: seq<T>, gs: seq<Group<T>>, a: nat)
    requires a <= |xs|
    requires forall k: int :: k < a ==> AnchoredAt(gs, k) == []
    ensures Expected(xs, gs) == xs[..a] + Woven(xs, gs, a)
  {
    WovenPrefix(xs, gs, 0, a);
    assert xs[0..a] == xs[..a];
    assert AnchoredAt(gs, -1) == [];
  }

  lemma SpliceInFront<T>(cur: seq<T>, pre: seq<T>, post: seq<T>, ys: seq<T>)
    requires cur == pre + post
    ensures SpliceAt(cur, |pre|, ys) == pre + ys + post
  {
    assert cur[..|pre|] == pre;
    assert cur[|pre|..] == post;
  }

  /** Below the anchor of the last group of a descending run, nothing is anchored. */
  lemma NothingBelow<T>(p: seq<Group<T>>, g: Group<T>, a: nat)
    requires g.anchor == Some(a)
    requires forall i :: 0 <= i < |p| ==> Key(p[i]) >= Key(g)
    ensures forall k: int :: k < a ==> AnchoredAt(p, k) == [] && AnchoredAt(p + [g], k) == []
  {
    forall k: int | k < a ensures AnchoredAt(p, k) == [] && AnchoredAt(p + [g], k) == [] {
      forall x | x in p ensures Key(x) != k {
        var i :| 0 <= i < |p| && p[i] == x;
      }
      AnchoredAtAbsent(p, k);
      AnchoredAtSnoc(p, g, k);
    }
  }

  lemma {:induction false} WithKeyAppend<T>(a: seq<Group<T>>, b: seq<Group<T>>, k: int)
    ensures WithKey(a + b, k) == WithKey(a, k) + WithKey(b, k)
  {
    if a != [] {
      assert (a + b)[1..] == a[1..] + b;
      WithKeyAppend(a[1..], b, k);
    } else {
      assert a + b == b;
    }
  }

  lemma AnchoredAtSnoc<T>(p: seq<Group<T>>, g: Group<T>, a: int)
    ensures AnchoredAt(p + [g], a) == (if Key(g) == a then g.stmts else []) + AnchoredAt(p, a)
  {
    WithKeyAppend(p, [g], a);
    assert WithKey([g], a) == (if Key(g) == a then [g] else []) + WithKey([], a);
    var w := WithKey(p, a);
    if Key(g) == a {
      assert (w + [g])[..|w|] == w;
    } else {
      assert w + [] == w;
    }
  }

  lemma {:induction false} AnchoredAtAbsent<T>(gs: seq<Group<T>>, a: int)
    requires forall g :: g in gs ==> Key(g) != a
    ensures AnchoredAt(gs, a) == []
  {
    WithKeyAbsent(gs, a);
  }

  lemma {:induction false} WithKeyAbsent<T>(gs: seq<Group<T>>, a: int)
    requires forall g :: g in gs ==> Key(g) != a
    ensures WithKey(gs, a) == []
  {
    if gs != [] {
      assert forall g :: g in gs[1..] ==> g in gs;
      WithKeyAbsent(gs[1..], a);
    }
  }

  /** `Woven` depends on the groups only through what is anchored at each later position. */
  lemma {:induction false} WovenExt<T>(xs: seq<T>, s: seq<Group<T>>, p: seq<Group<T>>, j: nat)
    requires forall k: int :: j <= k < |xs| ==> AnchoredAt(s, k) == AnchoredAt(p, k)
    ensures Woven(xs, s, j) == Woven(xs, p, j)
    decreases |xs| - j
  {
    if j < |xs| {
      WovenExt(xs, s, p, j + 1);
    }
  }

  /** Positions with nothing anchored contribute their statement alone. */
  lemma {:induction false} WovenPrefix<T>(xs: seq<T>, gs: seq<Group<T>>, j: nat, a: nat)
    requires j <= a <= |xs|
    requires forall k: int :: j <= k < a ==> AnchoredAt(gs, k) == []
    ensures Woven(xs, gs, j) == xs[j..a] + Woven(xs, gs, a)
    decreases a - j
  {
    if j < a {
      WovenStep(xs, gs, j);
      WovenPrefix(xs, gs, j + 1, a);
      ConsSlice(xs, j, a, Woven(xs, gs, a));
    }
  }

  lemma WovenStep<T>(xs: seq<T>, gs: seq<Group<T>>, j: nat)
    requires j < |xs| && AnchoredAt(gs, j) == []
    ensures Woven(xs, gs, j) == [xs[j]] + Woven(xs, gs, j + 1)
  {
  }

  lemma ConsSlice<T>(xs: seq<T>, j: nat, a: nat, w: seq<T>)
    requires j < a <= |xs|
    ensures xs[j..a] + w == [xs[j]] + (xs[j + 1..a] + w)
  {
    assert xs[j..a] == [xs[j]] + xs[j + 1..a];
  }

  /**
   * The file-level hoists of a two-function file `[foo, bar]`: `foo`'s carrier
   * anchored at `foo`, then in `bar` a `stack!` pair followed by `bar`'s carrier,
   * both anchored at `bar`. The later group lands ahead of the earlier one.
   */
  lemma SharedAnchorOrder<T>(foo: T, bar: T, g0: Group<T>, g1: Group<T>, g2: Group<T>)
    requires g0.anchor == Some(0) && g1.anchor == Some(1) && g2.anchor == Some(1)
    ensures ApplyGroups([foo, bar], SortDesc([g0, g1, g2])) == g0.stmts + [foo] + g2.stmts + g1.stmts + [bar]
  {
    var gs := [g0, g1, g2];
    var xs := [foo, bar];
    assert Expected(xs, gs) == g0.stmts + [foo] + g2.stmts + g1.stmts + [bar] by {
      ExpectedTwoStatements(foo, bar, g0, g1, g2);
    }
    MaterializedOrder(xs, gs);
  }

  lemma ExpectedTwoStatements<T>(foo: T, bar: T, g0: Group<T>, g1: Group<T>, g2: Group<T>)
    requires g0.anchor == Some(0) && g1.anchor == Some(1) && g2.anchor == Some(1)
    ensures Expected([foo, bar], [g0, g1, g2]) == g0.stmts + [foo] + g2.stmts + g1.stmts + [bar]
  {
    var gs := [g0, g1, g2];
    var xs := [foo, bar];
    AnchoredAtThree(g0, g1, g2);
    assert Woven(xs, gs, 2) == [];
    WovenAt(xs, gs, 1, g2.stmts, g1.stmts, []);
    var w1 := Woven(xs, gs, 1);
    WovenAt(xs, gs, 0, g0.stmts, [], w1);
    FlattenFive(g0.stmts, [foo], g2.stmts, g1.stmts, [bar]);
  }

  /** Regrouping kept out of `ExpectedTwoStatements`, whose context is costly to search. */
  lemma FlattenFive<T>(a: seq<T>, b: seq<T>, c: seq<T>, d: seq<T>, e: seq<T>)
    ensures [] + (a + ([] + b + (c + (d + e + [])))) == a + b + c + d + e
  {
  }

  /** What each key gathers from three groups anchored at 0, 1 and 1. */
  lemma AnchoredAtThree<T>(g0: Group<T>, g1: Group<T>, g2: Group<T>)
    requires g0.anchor == Some(0) && g1.anchor == Some(1) && g2.anchor == Some(1)
    ensures AnchoredAt([g0, g1, g2], -1) == []
    ensures AnchoredAt([g0, g1, g2], 0) == g0.stmts + []
    ensures AnchoredAt([g0, g1, g2], 1) == g2.stmts + g1.stmts
  {
    var gs := [g0, g1, g2];
    assert WithKey(gs, -1) == [] by {
      WithKeyThree(g0, g1, g2, -1);
    }
    assert WithKey(gs, 0) == [g0] by {
      WithKeyThree(g0, g1, g2, 0);
    }
    assert WithKey(gs, 1) == [g1, g2] by {
      WithKeyThree(g0, g1, g2, 1);
    }
    RevConcatOne(g0);
    RevConcatTwo(g1, g2);
  }

  lemma RevConcatOne<T>(g: Group<T>)
    ensures RevConcat([g]) == g.stmts + []
  {
    assert [g][..0] == [];
  }

  lemma RevConcatTwo<T>(g1: Group<T>, g2: Group<T>)
    ensures RevConcat([g1, g2]) == g2.stmts + g1.stmts
  {
    assert [g1, g2][..1] == [g1];
    RevConcatOne(g1);
  }

  lemma WithKeyThree<T>(g0: Group<T>, g1: Group<T>, g2: Group<T>, k: int)
    ensures WithKey([g0, g1, g2], k) ==
      (if Key(g0) == k then [g0] else []) + (if Key(g1) == k then [g1] else []) + (if Key(g2) == k then [g2] else [])
  {
    assert [g0, g1, g2][1..] == [g1, g2];
    assert [g1, g2][1..] == [g2];
    assert [g2][1..] == [];
    assert WithKey([g2], k) == (if Key(g2) == k then [g2] else []) + WithKey([], k);
    assert WithKey([g1, g2], k) == (if Key(g1) == k then [g1] else []) + WithKey([g2], k);
  }
}
