/** A collection's display order, said of its members themselves. */
module Display {
  import opened Results
  import opened Workshop

  /** The first sortorder is smaller; a member without one counts as the largest u32. */
  predicate SortsBefore(a: Option<nat>, b: Option<nat>) {
    match (a, b)
    case (Some(x), Some(y)) => x < y
    case (Some(x), None) => x < 4294967295
    case (None, Some(y)) => 4294967295 < y
    case (None, None) => false
  }

  /** Of two members, the one at `i` comes first: by sortorder, and by response order on ties. */
  ghost predicate ComesFirst(children: seq<Child>, i: nat, j: nat) {
    && i < |children| && j < |children|
    && (SortsBefore(children[i].sortorder, children[j].sortorder)
        || (!SortsBefore(children[j].sortorder, children[i].sortorder) && i < j))
  }

  ghost predicate HasId(children: seq<Child>, k: nat, id: Id) {
    k < |children| && children[k].id == Some(id)
  }

  /** `perm` holds the position of every member that has an id exactly once, in display order,
    * and `ids` are their ids. */
  ghost predicate InDisplayOrder(children: seq<Child>, perm: seq<nat>, ids: seq<Id>) {
    && (forall k: nat :: k in perm <==> k < |children| && children[k].id.Some?)
    && (forall i, j :: 0 <= i < j < |perm| ==> perm[i] != perm[j])
    && |ids| == |perm|
    && (forall i :: 0 <= i < |perm| ==> HasId(children, perm[i], ids[i]))
    && (forall i, j :: 0 <= i < j < |perm| ==> ComesFirst(children, perm[i], perm[j]))
  }

  /** The positions from `k` on of members that have an id, in response order. */
  ghost function Positions(children: seq<Child>, k: nat): (ps: seq<nat>)
    requires k <= |children|
    ensures forall i :: 0 <= i < |ps| ==> k <= ps[i] < |children|
    ensures forall i, j :: 0 <= i < j < |ps| ==> ps[i] < ps[j]
    decreases |children| - k
  {
    if k == |children| then [] else
      var rest := Positions(children, k + 1);
      if children[k].id.Some? then [k] + rest else rest
  }

  lemma {:induction false} PositionsAreAll(children: seq<Child>, k: nat, p: nat)
    requires k <= |children|
    ensures p in Positions(children, k) <==> k <= p < |children| && children[p].id.Some?
    decreases |children| - k
  {
    if k < |children| {
      PositionsAreAll(children, k + 1, p);
      var rest := Positions(children, k + 1);
      assert p in [k] + rest <==> p == k || p in rest;
    }
  }

  /** The key and id of the member at `k`. */
  ghost predicate KeyedAt(children: seq<Child>, k: nat, x: Keyed) {
    && HasId(children, k, x.1)
    && x.0 == match children[k].sortorder case Some(order) => order case None => 4294967295
  }

  lemma {:induction false} AsManyKeyed(children: seq<Child>, k: nat)
    requires k <= |children|
    ensures |Positions(children, k)| == |KeyedChildren(children[k..])|
    decreases |children| - k
  {
    if k < |children| {
      AsManyKeyed(children, k + 1);
      assert children[k..][0] == children[k] && children[k..][1..] == children[k + 1..];
    }
  }

  lemma {:induction false} PositionIsKeyed(children: seq<Child>, k: nat, i: nat)
    requires k <= |children| && i < |Positions(children, k)|
    ensures i < |KeyedChildren(children[k..])|
    ensures KeyedAt(children, Positions(children, k)[i], KeyedChildren(children[k..])[i])
    decreases |children| - k
  {
    AsManyKeyed(children, k);
    if k < |children| {
      assert children[k..][0] == children[k] && children[k..][1..] == children[k + 1..];
      if children[k].id.None? {
        PositionIsKeyed(children, k + 1, i);
      } else if i > 0 {
        PositionIsKeyed(children, k + 1, i - 1);
      }
    }
  }

  // ---------------------------------------------------------------------------------------
  // Where a stable sort takes each element

  lemma {:induction false} InsertedAt(x: Keyed, xs: seq<Keyed>) returns (p: nat)
    ensures p <= |xs| && InsertByKey(x, xs) == xs[..p] + [x] + xs[p..]
    ensures (forall i :: 0 <= i < p ==> xs[i].0 < x.0) && (p < |xs| ==> x.0 <= xs[p].0)
  {
    if xs == [] || x.0 <= xs[0].0 {
      p := 0;
    } else {
      var q := InsertedAt(x, xs[1..]);
      p := q + 1;
      assert xs[..p] == [xs[0]] + xs[1..][..q] && xs[p..] == xs[1..][q..];
    }
  }

  /** By key, and by position on ties. */
  ghost predicate KeyFirst(xs: seq<Keyed>, i: nat, j: nat) {
    i < |xs| && j < |xs| && (xs[i].0 < xs[j].0 || (xs[i].0 == xs[j].0 && i < j))
  }

  /** `perm` lists the positions of `xs` from `k` on, each once, by key; `ys` are the elements. */
  ghost predicate Arranges(xs: seq<Keyed>, k: nat, perm: seq<nat>, ys: seq<Keyed>) {
    && |perm| == |ys| == |xs| - k
    && (forall i :: 0 <= i < |perm| ==> k <= perm[i] < |xs| && ys[i] == xs[perm[i]])
    && (forall q: nat :: k <= q < |xs| ==> q in perm)
    && (forall i, j :: 0 <= i < j < |perm| ==> KeyFirst(xs, perm[i], perm[j]))
  }

  lemma {:induction false} InsertKeepsOrder(xs: seq<Keyed>, k: nat, perm: seq<nat>, ys: seq<Keyed>, p: nat, i: nat, j: nat)
    requires k < |xs| && Arranges(xs, k + 1, perm, ys) && p <= |ys|
    requires (forall i :: 0 <= i < p ==> ys[i].0 < xs[k].0) && (p < |ys| ==> xs[k].0 <= ys[p].0)
    requires i < j <= |perm|
    ensures var perm' := perm[..p] + [k] + perm[p..]; KeyFirst(xs, perm'[i], perm'[j])
  {
    var perm' := perm[..p] + [k] + perm[p..];
    if i == p {
      assert perm'[j] == perm[j - 1];
      assert j - 1 > p ==> KeyFirst(xs, perm[p], perm[j - 1]);
    } else if j == p {
      assert perm'[i] == perm[i] && ys[i] == xs[perm[i]];
    } else {
      var i', j' := if i < p then i else i - 1, if j < p then j else j - 1;
      assert perm'[i] == perm[i'] && perm'[j] == perm[j'] && KeyFirst(xs, perm[i'], perm[j']);
    }
  }

  lemma {:induction false} InsertArranges(xs: seq<Keyed>, k: nat, perm: seq<nat>, ys: seq<Keyed>, p: nat)
    requires k < |xs| && Arranges(xs, k + 1, perm, ys) && p <= |ys|
    requires (forall i :: 0 <= i < p ==> ys[i].0 < xs[k].0) && (p < |ys| ==> xs[k].0 <= ys[p].0)
    ensures Arranges(xs, k, perm[..p] + [k] + perm[p..], ys[..p] + [xs[k]] + ys[p..])
  {
    var perm' := perm[..p] + [k] + perm[p..];
    forall q: nat | k <= q < |xs| ensures q in perm' {
      assert perm == perm[..p] + perm[p..];
      assert q == k || q in perm;
    }
    forall i, j | 0 <= i < j < |perm'| ensures KeyFirst(xs, perm'[i], perm'[j]) {
      InsertKeepsOrder(xs, k, perm, ys, p, i, j);
    }
  }

  lemma {:induction false} SortArranges(xs: seq<Keyed>, k: nat) returns (perm: seq<nat>)
    requires k <= |xs|
    ensures Arranges(xs, k, perm, SortByKey(xs[k..]))
    decreases |xs| - k
  {
    if k == |xs| {
      perm := [];
    } else {
      var rest := SortArranges(xs, k + 1);
      assert xs[k..][0] == xs[k] && xs[k..][1..] == xs[k + 1..];
      var p := InsertedAt(xs[k], SortByKey(xs[k + 1..]));
      InsertArranges(xs, k, rest, SortByKey(xs[k + 1..]), p);
      perm := rest[..p] + [k] + rest[p..];
    }
  }

  // ---------------------------------------------------------------------------------------
  // Both together

  ghost function Composed(ps: seq<nat>, perm: seq<nat>): (r: seq<nat>)
    requires forall i :: 0 <= i < |perm| ==> perm[i] < |ps|
    ensures |r| == |perm| && forall i :: 0 <= i < |perm| ==> r[i] == ps[perm[i]]
  {
    if perm == [] then [] else [ps[perm[0]]] + Composed(ps, perm[1..])
  }

  lemma {:induction false} ComposedHolds(ps: seq<nat>, perm: seq<nat>, k: nat)
    requires forall i :: 0 <= i < |perm| ==> perm[i] < |ps|
    requires forall q: nat :: q < |ps| ==> q in perm
    ensures k in Composed(ps, perm) <==> k in ps
  {
    var r := Composed(ps, perm);
    if k in ps {
      var q: nat :| q < |ps| && ps[q] == k;
      assert q in perm;
      var i :| 0 <= i < |perm| && perm[i] == q;
      assert r[i] == k;
    }
    if k in r {
      var i :| 0 <= i < |r| && r[i] == k;
      assert ps[perm[i]] == k;
    }
  }

  /** The members of a collection that have an id come out exactly once each, by sortorder, those
    * without one as if they had the largest, and in response order on ties. */
  lemma {:induction false} OrderedChildrenInDisplayOrder(children: seq<Child>) returns (perm: seq<nat>)
    ensures InDisplayOrder(children, perm, OrderedChildren(children))
  {
    var ps, xs := Positions(children, 0), KeyedChildren(children);
    assert children[0..] == children;
    AsManyKeyed(children, 0);
    forall i | 0 <= i < |ps| ensures KeyedAt(children, ps[i], xs[i]) {
      PositionIsKeyed(children, 0, i);
    }
    var sorted := SortArranges(xs, 0);
    assert xs[0..] == xs;
    perm := Composed(ps, sorted);
    forall k: nat ensures k in perm <==> k < |children| && children[k].id.Some? {
      ComposedHolds(ps, sorted, k);
      PositionsAreAll(children, 0, k);
    }
    var ids := OrderedChildren(children);
    forall i | 0 <= i < |perm| ensures HasId(children, perm[i], ids[i]) {
      assert KeyedAt(children, ps[sorted[i]], xs[sorted[i]]);
    }
    forall i, j | 0 <= i < j < |perm| ensures ComesFirst(children, perm[i], perm[j]) && perm[i] != perm[j] {
      assert KeyedAt(children, ps[sorted[i]], xs[sorted[i]]) && KeyedAt(children, ps[sorted[j]], xs[sorted[j]]);
      assert KeyFirst(xs, sorted[i], sorted[j]);
    }
  }
}
