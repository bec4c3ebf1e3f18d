/** Resolution of Workshop ids into an ordered, duplicate-free list of mods.
  *
  * `resolve_source_ids` asks Steam about a possibly cyclic graph of collections, breadth
  * first and under a depth limit; `flatten_in_order` then rebuilds the operator's order by a
  * depth-first walk over what was fetched. This module models both, and the orderings and
  * graph notions they are proved against.
  */
module Workshop {
  import opened Results

  /** A u64 Workshop id; nothing is ever computed from one. */
  type Id = nat

  const MAX_COLLECTION_DEPTH: nat := 8
  const FILE_TYPE_COLLECTION: nat := 2

  /** u32::MAX, the sort key of a member that carries no sortorder. */
  const UNSORTED: nat := 0xFFFF_FFFF

  datatype Child = Child(id: Option<Id>, sortorder: Option<nat>)

  /** One row of a GetDetails response. */
  datatype Details = Details(eresult: nat, fileType: nat, title: string, fileSize: nat, children: seq<Child>)

  /** What Steam would say about each id, for the duration of one resolution. */
  type Catalogue = map<Id, Details>

  predicate Answers(cat: Catalogue, id: Id) {
    id in cat && cat[id].eresult == 1
  }

  predicate IsCollection(cat: Catalogue, id: Id) {
    Answers(cat, id) && cat[id].fileType == FILE_TYPE_COLLECTION
  }

  predicate IsMod(cat: Catalogue, id: Id) {
    Answers(cat, id) && cat[id].fileType != FILE_TYPE_COLLECTION
  }

  /** Collections and their members, the only links a resolution follows: a mod's own children
    * are its Required Items and are left alone. */
  type Graph = map<Id, seq<Id>>

  function Collections(cat: Catalogue): Graph {
    map id | id in cat && IsCollection(cat, id) :: OrderedChildren(cat[id].children)
  }

  // ---------------------------------------------------------------------------------------
  // A collection's own display order

  type Keyed = (nat, Id)

  function KeyedChildren(children: seq<Child>): seq<Keyed> {
    if children == [] then [] else
      var rest := KeyedChildren(children[1..]);
      match children[0]
      case Child(Some(id), Some(order)) => [(order, id)] + rest
      case Child(Some(id), None) => [(UNSORTED, id)] + rest
      case Child(None, _) => rest
  }

  function InsertByKey(x: Keyed, xs: seq<Keyed>): seq<Keyed> {
    if xs == [] || x.0 <= xs[0].0 then [x] + xs else [xs[0]] + InsertByKey(x, xs[1..])
  }

  function SortByKey(xs: seq<Keyed>): seq<Keyed> {
    if xs == [] then [] else InsertByKey(xs[0], SortByKey(xs[1..]))
  }

  function SecondOf(xs: seq<Keyed>): (ids: seq<Id>)
    ensures |ids| == |xs| && forall i :: 0 <= i < |xs| ==> ids[i] == xs[i].1
  {
    if xs == [] then [] else [xs[0].1] + SecondOf(xs[1..])
  }

  function OrderedChildren(children: seq<Child>): seq<Id> {
    SecondOf(SortByKey(KeyedChildren(children)))
  }

  ghost predicate SortedByKey(xs: seq<Keyed>) {
    forall i, j :: 0 <= i < j < |xs| ==> xs[i].0 <= xs[j].0
  }

  /** The subsequence of `xs` carrying key `k`. */
  ghost function WithKey(xs: seq<Keyed>, k: nat): seq<Keyed> {
    if xs == [] then [] else (if xs[0].0 == k then [xs[0]] else []) + WithKey(xs[1..], k)
  }

  lemma {:induction false} InsertKeepsSorted(x: Keyed, xs: seq<Keyed>)
    requires SortedByKey(xs)
    ensures SortedByKey(InsertByKey(x, xs))
    ensures forall y :: y in InsertByKey(x, xs) ==> y == x || y in xs
  {
    if xs != [] && x.0 > xs[0].0 {
      InsertKeepsSorted(x, xs[1..]);
      var rest := InsertByKey(x, xs[1..]);
      forall i | 0 <= i < |rest| ensures xs[0].0 <= rest[i].0 {
        assert rest[i] in rest;
      }
    }
  }

  lemma {:induction false} InsertIsStable(x: Keyed, xs: seq<Keyed>, k: nat)
    ensures WithKey(InsertByKey(x, xs), k) == WithKey([x] + xs, k)
  {
    assert ([x] + xs)[1..] == xs;
    if xs != [] && x.0 > xs[0].0 {
      InsertIsStable(x, xs[1..], k);
      var rest := InsertByKey(x, xs[1..]);
      assert ([xs[0]] + rest)[1..] == rest;
      assert ([x] + xs[1..])[1..] == xs[1..];
    }
  }

  /** `ordered_children` is a stable sort by sortorder: sorted, and within each sortorder the
    * response's own order is kept. Those two facts determine it (`StableSortIsUnique`). */
  lemma {:induction false} OrderedChildrenIsStable(children: seq<Child>, k: nat)
    ensures SortedByKey(SortByKey(KeyedChildren(children)))
    ensures WithKey(SortByKey(KeyedChildren(children)), k) == WithKey(KeyedChildren(children), k)
    ensures OrderedChildren(children) == SecondOf(SortByKey(KeyedChildren(children)))
  {
    SortIsStable(KeyedChildren(children), k);
  }

  lemma {:induction false} SortIsStable(xs: seq<Keyed>, k: nat)
    ensures SortedByKey(SortByKey(xs))
    ensures WithKey(SortByKey(xs), k) == WithKey(xs, k)
  {
    if xs != [] {
      SortIsStable(xs[1..], k);
      var rest := SortByKey(xs[1..]);
      InsertKeepsSorted(xs[0], rest);
      InsertIsStable(xs[0], rest, k);
      assert ([xs[0]] + rest)[1..] == rest;
    }
  }

  lemma {:induction false} StableSortIsUnique(xs: seq<Keyed>, ys: seq<Keyed>)
    requires SortedByKey(xs) && SortedByKey(ys)
    requires forall k: nat :: WithKey(xs, k) == WithKey(ys, k)
    ensures xs == ys
  {
    if xs == [] {
      var k := if ys == [] then 0 else ys[0].0;
      assert WithKey(xs, k) == WithKey(ys, k);
    } else {
      HeadHasLeastKey(ys, xs[0].0);
      HeadHasLeastKey(xs, xs[0].0);
      assert WithKey(xs, xs[0].0)[0] == xs[0];
      assert ys != [];
      HeadHasLeastKey(xs, ys[0].0);
      assert WithKey(ys, ys[0].0)[0] == ys[0];
      assert xs[0] == ys[0];
      forall k: nat ensures WithKey(xs[1..], k) == WithKey(ys[1..], k) {
        assert WithKey(xs, k) == WithKey(ys, k);
        var head := if xs[0].0 == k then [xs[0]] else [];
        assert WithKey(xs, k) == head + WithKey(xs[1..], k);
        assert WithKey(ys, k) == head + WithKey(ys[1..], k);
        assert WithKey(xs[1..], k) == WithKey(xs, k)[|head|..];
      }
      StableSortIsUnique(xs[1..], ys[1..]);
    }
  }

  lemma {:induction false} HeadHasLeastKey(xs: seq<Keyed>, k: nat)
    requires SortedByKey(xs)
    ensures WithKey(xs, k) != [] ==> xs != [] && xs[0].0 <= k
    ensures WithKey(xs, k) == [] ==> xs == [] || xs[0].0 != k
  {
    if xs != [] {
      HeadHasLeastKey(xs[1..], k);
    }
  }

  // ---------------------------------------------------------------------------------------
  // Reachability, as levels and as chains of memberships

  ghost function Expand(graph: Graph, s: set<Id>): set<Id> {
    s + set c, m | c in s && c in graph && m in graph[c] :: m
  }

  /** The ids at most `depth` memberships away from `start`. */
  ghost function Reach(graph: Graph, start: set<Id>, depth: nat): set<Id> {
    if depth == 0 then start else Expand(graph, Reach(graph, start, depth - 1))
  }

  /** `p` follows collection-to-member links, so it has `|p| - 1` of them. */
  ghost predicate IsChain(graph: Graph, p: seq<Id>) {
    |p| == 1 || (|p| > 1 && p[|p| - 2] in graph && p[|p| - 1] in graph[p[|p| - 2]] && IsChain(graph, p[..|p| - 1]))
  }

  ghost predicate ChainTo(graph: Graph, start: set<Id>, p: seq<Id>, x: Id, depth: nat) {
    IsChain(graph, p) && p[0] in start && p[|p| - 1] == x && |p| - 1 <= depth
  }

  /** The levels of the breadth-first search are exactly the ends of chains of bounded length. */
  lemma {:induction false} ReachIffChain(graph: Graph, start: set<Id>, depth: nat, x: Id)
    ensures x in Reach(graph, start, depth) <==> exists p :: ChainTo(graph, start, p, x, depth)
  {
    if x in Reach(graph, start, depth) {
      var p := ChainOf(graph, start, depth, x);
    }
    forall p | ChainTo(graph, start, p, x, depth) ensures x in Reach(graph, start, depth) {
      ChainIsReached(graph, start, p, x, depth);
    }
  }

  lemma {:induction false} ChainOf(graph: Graph, start: set<Id>, depth: nat, x: Id) returns (p: seq<Id>)
    requires x in Reach(graph, start, depth)
    ensures ChainTo(graph, start, p, x, depth)
  {
    if depth == 0 {
      p := [x];
    } else if x in Reach(graph, start, depth - 1) {
      p := ChainOf(graph, start, depth - 1, x);
    } else {
      var c := MemberOfWhom(graph, Reach(graph, start, depth - 1), x);
      var q := ChainOf(graph, start, depth - 1, c);
      p := q + [x];
      assert p[..|p| - 1] == q;
    }
  }

  lemma MemberOfWhom(graph: Graph, s: set<Id>, x: Id) returns (c: Id)
    requires x in Expand(graph, s) && x !in s
    ensures c in s && c in graph && x in graph[c]
  {
    c :| c in s && c in graph && x in graph[c];
  }

  lemma {:induction false} ChainIsReached(graph: Graph, start: set<Id>, p: seq<Id>, x: Id, depth: nat)
    requires ChainTo(graph, start, p, x, depth)
    ensures x in Reach(graph, start, depth)
    decreases depth
  {
    if depth == 0 {
    } else if |p| == 1 {
      ChainIsReached(graph, start, p, x, depth - 1);
    } else {
      var q := p[..|p| - 1];
      ChainIsReached(graph, start, q, p[|p| - 2], depth - 1);
    }
  }

  lemma {:induction false} ReachIsStable(graph: Graph, start: set<Id>, d: nat, e: nat)
    requires d <= e
    requires Expand(graph, Reach(graph, start, d)) == Reach(graph, start, d)
    ensures Reach(graph, start, e) == Reach(graph, start, d)
  {
    if d < e {
      ReachIsStable(graph, start, d, e - 1);
    }
  }

  // ---------------------------------------------------------------------------------------
  // The depth-first walk over what was fetched

  type ModTable = map<Id, (string, nat)>

  datatype ResolvedMod = ResolvedMod(modId: Id, title: string, fileSize: nat)

  function Ids(s: seq<Id>): set<Id> {
    set x | x in s
  }

  datatype Walked = Walked(leaves: seq<Id>, seen: set<Id>)

  /** The walk with its shared `seen` set: each id is visited once, collections are descended
    * into, everything else is a leaf. */
  function WalkFrom(ids: seq<Id>, graph: Graph, seen: set<Id>): (w: Walked)
    ensures seen <= w.seen
    decreases graph.Keys - seen, |ids|
  {
    if ids == [] then
      Walked([], seen)
    else if ids[0] in seen then
      WalkFrom(ids[1..], graph, seen)
    else if ids[0] in graph then
      assert graph.Keys - (seen + {ids[0]}) < graph.Keys - seen by {
        assert ids[0] in graph.Keys - seen && ids[0] !in graph.Keys - (seen + {ids[0]});
      }
      var inner := WalkFrom(graph[ids[0]], graph, seen + {ids[0]});
      assert graph.Keys - inner.seen < graph.Keys - seen by {
        assert ids[0] in graph.Keys - seen && ids[0] !in graph.Keys - inner.seen;
      }
      var rest := WalkFrom(ids[1..], graph, inner.seen);
      Walked(inner.leaves + rest.leaves, rest.seen)
    else
      assert graph.Keys - (seen + {ids[0]}) == graph.Keys - seen;
      var rest := WalkFrom(ids[1..], graph, seen + {ids[0]});
      Walked([ids[0]] + rest.leaves, rest.seen)
  }

  /** The plain expansion: every collection is replaced by its members every time it occurs,
    * except inside itself. */
  function Expansion(ids: seq<Id>, graph: Graph, inside: set<Id>): (leaves: seq<Id>)
    decreases graph.Keys - inside, |ids|
  {
    if ids == [] then
      []
    else
      var rest := Expansion(ids[1..], graph, inside);
      if ids[0] !in graph then
        [ids[0]] + rest
      else if ids[0] in inside then
        rest
      else
        assert graph.Keys - (inside + {ids[0]}) < graph.Keys - inside by {
          assert ids[0] in graph.Keys - inside && ids[0] !in graph.Keys - (inside + {ids[0]});
        }
        Expansion(graph[ids[0]], graph, inside + {ids[0]}) + rest
  }

  /** `xs` without anything in `known` and with only the first of each repeated element. */
  function FirstNew(xs: seq<Id>, known: set<Id>): (ys: seq<Id>)
    ensures Ids(ys) == Ids(xs) - known
    ensures forall i, j :: 0 <= i < j < |ys| ==> ys[i] != ys[j]
  {
    if xs == [] then
      []
    else if xs[0] in known then
      FirstNew(xs[1..], known)
    else
      var rest := FirstNew(xs[1..], known + {xs[0]});
      assert forall y :: y in rest ==> y in Ids(rest);
      assert Ids(xs) == {xs[0]} + Ids(xs[1..]);
      assert Ids([xs[0]] + rest) == {xs[0]} + Ids(rest);
      [xs[0]] + rest
  }

  lemma {:induction false} FirstNewOfConcat(xs: seq<Id>, ys: seq<Id>, known: set<Id>)
    ensures FirstNew(xs + ys, known) == FirstNew(xs, known) + FirstNew(ys, known + Ids(xs))
  {
    if xs == [] {
      assert xs + ys == ys;
      assert known + Ids(xs) == known;
    } else {
      assert (xs + ys)[1..] == xs[1..] + ys;
      assert Ids(xs) == {xs[0]} + Ids(xs[1..]);
      if xs[0] in known {
        FirstNewOfConcat(xs[1..], ys, known);
        assert known + Ids(xs) == known + Ids(xs[1..]);
      } else {
        FirstNewOfConcat(xs[1..], ys, known + {xs[0]});
        assert known + Ids(xs) == known + {xs[0]} + Ids(xs[1..]);
      }
    }
  }

  lemma {:induction false} FirstNewDependsOnOverlap(xs: seq<Id>, known: set<Id>, known': set<Id>)
    requires forall x :: x in xs ==> (x in known <==> x in known')
    ensures FirstNew(xs, known) == FirstNew(xs, known')
  {
    if xs == [] {
    } else if xs[0] in known {
      FirstNewDependsOnOverlap(xs[1..], known, known');
    } else {
      FirstNewDependsOnOverlap(xs[1..], known + {xs[0]}, known' + {xs[0]});
    }
  }

  lemma {:induction false} FirstNewOfKnown(xs: seq<Id>, known: set<Id>)
    requires Ids(xs) <= known
    ensures FirstNew(xs, known) == []
  {
    if xs != [] {
      assert xs[0] in Ids(xs);
      FirstNewOfKnown(xs[1..], known);
    }
  }

  lemma {:induction false} ExpansionHasLeavesOnly(ids: seq<Id>, graph: Graph, inside: set<Id>)
    ensures forall x :: x in Expansion(ids, graph, inside) ==> x !in graph
    decreases graph.Keys - inside, |ids|
  {
    if ids != [] {
      ExpansionHasLeavesOnly(ids[1..], graph, inside);
      if ids[0] in graph && ids[0] !in inside {
        assert ids[0] in graph.Keys - inside && ids[0] !in graph.Keys - (inside + {ids[0]});
        ExpansionHasLeavesOnly(graph[ids[0]], graph, inside + {ids[0]});
      }
    }
  }

  /** Every collection in `seen` that the walk has finished with has had its members seen. */
  ghost predicate Settled(graph: Graph, seen: set<Id>, open: set<Id>) {
    open <= seen && forall c :: c in seen && c in graph && c !in open ==> Ids(graph[c]) <= seen
  }

  /** Expanding a finished collection again yields nothing new: the expansion cannot leave the
    * settled region without passing through an open collection, where it is cut. */
  lemma {:induction false} SettledExpandsToSeen(ids: seq<Id>, graph: Graph, seen: set<Id>, open: set<Id>, inside: set<Id>)
    requires Settled(graph, seen, open) && open <= inside
    requires Ids(ids) <= seen
    ensures Ids(Expansion(ids, graph, inside)) <= seen
    decreases graph.Keys - inside, |ids|
  {
    if ids != [] {
      assert ids[0] in Ids(ids);
      assert Ids(ids[1..]) <= Ids(ids);
      SettledExpandsToSeen(ids[1..], graph, seen, open, inside);
      if ids[0] in graph && ids[0] !in inside {
        assert ids[0] in graph.Keys - inside && ids[0] !in graph.Keys - (inside + {ids[0]});
        SettledExpandsToSeen(graph[ids[0]], graph, seen, open, inside + {ids[0]});
      }
    }
  }

  /** The fast walk and the plain expansion agree from any state the walk can be in. */
  lemma {:induction false} WalkMatchesExpansionFrom(ids: seq<Id>, graph: Graph, seen: set<Id>, open: set<Id>)
    requires Settled(graph, seen, open)
    ensures var w := WalkFrom(ids, graph, seen);
            && w.leaves == FirstNew(Expansion(ids, graph, open), seen)
            && Ids(ids) <= w.seen
            && Settled(graph, w.seen, open)
            && (forall x :: x !in graph ==> (x in w.seen <==> x in seen || x in w.leaves))
    decreases graph.Keys - seen, |ids|
  {
    if ids != [] {
      var id, tail := ids[0], ids[1..];
      assert Ids(ids) == {id} + Ids(tail);
      var later := Expansion(tail, graph, open);
      if id in seen {
        WalkMatchesExpansionFrom(tail, graph, seen, open);
        if id !in graph {
          assert ([id] + later)[1..] == later;
        } else if id !in open {
          var again := Expansion(graph[id], graph, open + {id});
          SettledExpandsToSeen(graph[id], graph, seen, open, open + {id});
          FirstNewOfConcat(again, later, seen);
          FirstNewOfKnown(again, seen);
          assert seen + Ids(again) == seen;
        }
      } else if id in graph {
        WalkIntoCollection(ids, graph, seen, open);
      } else {
        assert graph.Keys - (seen + {id}) == graph.Keys - seen;
        WalkMatchesExpansionFrom(tail, graph, seen + {id}, open);
        assert ([id] + later)[1..] == later;
      }
    }
  }

  lemma {:induction false} WalkIntoCollection(ids: seq<Id>, graph: Graph, seen: set<Id>, open: set<Id>)
    requires Settled(graph, seen, open)
    requires ids != [] && ids[0] !in seen && ids[0] in graph
    ensures var w := WalkFrom(ids, graph, seen);
            && w.leaves == FirstNew(Expansion(ids, graph, open), seen)
            && Ids(ids[1..]) <= w.seen && ids[0] in w.seen
            && Settled(graph, w.seen, open)
            && (forall x :: x !in graph ==> (x in w.seen <==> x in seen || x in w.leaves))
    decreases graph.Keys - seen, |ids|, 0
  {
    var id, tail := ids[0], ids[1..];
    assert id in graph.Keys - seen && id !in graph.Keys - (seen + {id});
    WalkMatchesExpansionFrom(graph[id], graph, seen + {id}, open + {id});
    var inner := WalkFrom(graph[id], graph, seen + {id});
    assert id !in graph.Keys - inner.seen;
    WalkMatchesExpansionFrom(tail, graph, inner.seen, open);

    var here := Expansion(graph[id], graph, open + {id});
    var later := Expansion(tail, graph, open);
    FirstNewOfConcat(here, later, seen);
    ExpansionHasLeavesOnly(graph[id], graph, open + {id});
    ExpansionHasLeavesOnly(tail, graph, open);
    FirstNewDependsOnOverlap(here, seen, seen + {id});
    forall x | x in later ensures x in seen + Ids(here) <==> x in inner.seen {
      assert x in inner.leaves <==> x in Ids(FirstNew(here, seen + {id}));
    }
    FirstNewDependsOnOverlap(later, seen + Ids(here), inner.seen);
  }

  /** `flatten_in_order` is "expand every collection in place, left to right, and keep first
    * occurrences", on every graph, cyclic or not. */
  lemma {:induction false} WalkMatchesExpansion(ids: seq<Id>, graph: Graph)
    ensures WalkFrom(ids, graph, {}).leaves == FirstNew(Expansion(ids, graph, {}), {})
  {
    WalkMatchesExpansionFrom(ids, graph, {}, {});
  }

  // ---------------------------------------------------------------------------------------
  // Acyclic graphs: the plain expansion is never cut

  /** `rank` orders the collections so that each one comes after those it contains. */
  ghost predicate Ranked(graph: Graph, rank: map<Id, nat>) {
    && graph.Keys <= rank.Keys
    && forall c, m :: c in graph && m in graph[c] && m in graph ==> rank[m] < rank[c]
  }

  ghost predicate Below(ids: seq<Id>, graph: Graph, rank: map<Id, nat>, bound: nat)
    requires Ranked(graph, rank)
  {
    forall id :: id in ids && id in graph ==> rank[id] < bound
  }

  /** Full expansion with no cycle test at all, possible because the graph is acyclic. */
  ghost function FullExpansion(ids: seq<Id>, graph: Graph, rank: map<Id, nat>, bound: nat): seq<Id>
    requires Ranked(graph, rank) && Below(ids, graph, rank, bound)
    decreases bound, |ids|
  {
    if ids == [] then
      []
    else
      var rest := FullExpansion(ids[1..], graph, rank, bound);
      if ids[0] !in graph then
        [ids[0]] + rest
      else
        FullExpansion(graph[ids[0]], graph, rank, rank[ids[0]]) + rest
  }

  lemma {:induction false} AcyclicExpansionIsFull(ids: seq<Id>, graph: Graph, rank: map<Id, nat>, bound: nat, inside: set<Id>)
    requires Ranked(graph, rank) && Below(ids, graph, rank, bound)
    requires forall c :: c in inside && c in graph ==> bound <= rank[c]
    ensures Expansion(ids, graph, inside) == FullExpansion(ids, graph, rank, bound)
    decreases bound, |ids|
  {
    if ids != [] {
      assert ids[0] in ids;
      AcyclicExpansionIsFull(ids[1..], graph, rank, bound, inside);
      if ids[0] in graph {
        AcyclicExpansionIsFull(graph[ids[0]], graph, rank, rank[ids[0]], inside + {ids[0]});
      }
    }
  }

  /** No chain leads from a collection back to itself. */
  ghost predicate Acyclic(graph: Graph) {
    forall p {:trigger IsChain(graph, p)} :: IsChain(graph, p) && |p| > 1 ==> p[0] != p[|p| - 1]
  }

  ghost predicate ChainBetween(graph: Graph, p: seq<Id>, c: Id, d: Id) {
    IsChain(graph, p) && p[0] == c && p[|p| - 1] == d
  }

  ghost predicate Leads(graph: Graph, c: Id, d: Id) {
    exists p :: ChainBetween(graph, p, c, d)
  }

  lemma {:induction false} ChainBefore(graph: Graph, c: Id, p: seq<Id>)
    requires c in graph && IsChain(graph, p) && p[0] in graph[c]
    ensures IsChain(graph, [c] + p)
  {
    var q := [c] + p;
    if |p| == 1 {
      assert q[..1] == [c];
    } else {
      ChainBefore(graph, c, p[..|p| - 1]);
      assert q[..|q| - 1] == [c] + p[..|p| - 1];
    }
  }

  /** The collections that chains from `c` lead to, itself among them. */
  ghost function Contained(graph: Graph, c: Id): set<Id> {
    set d | d in graph.Keys && Leads(graph, c, d)
  }

  lemma {:induction false} MemberContainsLess(graph: Graph, c: Id, m: Id)
    requires Acyclic(graph) && c in graph && m in graph[c]
    ensures Contained(graph, m) < Contained(graph, c)
  {
    forall d | d in Contained(graph, m) ensures d in Contained(graph, c) && d != c {
      var p :| ChainBetween(graph, p, m, d);
      ChainBefore(graph, c, p);
      assert ChainBetween(graph, [c] + p, c, d);
    }
    assert ChainBetween(graph, [c], c, c);
    assert c in Contained(graph, c) && c !in Contained(graph, m);
  }

  lemma {:induction false} SmallerSet(a: set<Id>, b: set<Id>)
    requires a < b
    ensures |a| < |b|
  {
    assert |b - a| > 0 && b == a + (b - a);
  }

  /** Counting what a collection contains ranks the collections of an acyclic graph; */
  lemma {:induction false} AcyclicHasRank(graph: Graph) returns (rank: map<Id, nat>)
    requires Acyclic(graph)
    ensures Ranked(graph, rank) && forall c :: c in rank ==> rank[c] <= |graph.Keys|
  {
    rank := map c | c in graph :: |Contained(graph, c)|;
    forall c, m | c in graph && m in graph[c] && m in graph ensures rank[m] < rank[c] {
      MemberContainsLess(graph, c, m);
      SmallerSet(Contained(graph, m), Contained(graph, c));
    }
    forall c | c in rank ensures rank[c] <= |graph.Keys| {
      if Contained(graph, c) != graph.Keys {
        SmallerSet(Contained(graph, c), graph.Keys);
      }
    }
  }

  /** and a graph that has a rank is acyclic. */
  lemma {:induction false} RankedIsAcyclic(graph: Graph, rank: map<Id, nat>)
    requires Ranked(graph, rank)
    ensures Acyclic(graph)
  {
    forall p | IsChain(graph, p) && |p| > 1 ensures p[0] != p[|p| - 1] {
      RankFalls(graph, rank, p);
    }
  }

  lemma {:induction false} RankFalls(graph: Graph, rank: map<Id, nat>, p: seq<Id>)
    requires Ranked(graph, rank) && IsChain(graph, p) && |p| > 1
    ensures p[0] in graph && (p[|p| - 1] in graph ==> rank[p[|p| - 1]] < rank[p[0]])
  {
    if |p| > 2 {
      RankFalls(graph, rank, p[..|p| - 1]);
    }
  }

  /** On every graph without a cycle the walk is the full expansion, with no cycle test at all,
    * with later duplicates dropped. */
  lemma {:induction false} AcyclicWalkIsFullExpansion(ids: seq<Id>, graph: Graph) returns (rank: map<Id, nat>, bound: nat)
    requires Acyclic(graph)
    ensures Ranked(graph, rank) && Below(ids, graph, rank, bound)
    ensures WalkFrom(ids, graph, {}).leaves == FirstNew(FullExpansion(ids, graph, rank, bound), {})
  {
    rank := AcyclicHasRank(graph);
    bound := |graph.Keys| + 1;
    WalkMatchesExpansion(ids, graph);
    AcyclicExpansionIsFull(ids, graph, rank, bound, {});
  }

  // ---------------------------------------------------------------------------------------
  // What the walk visits

  /** Anything closed under membership that holds the walk's start holds all it visits. */
  lemma {:induction false} WalkStaysInside(ids: seq<Id>, graph: Graph, seen: set<Id>, region: set<Id>)
    requires seen <= region && Ids(ids) <= region
    requires forall c :: c in region && c in graph ==> Ids(graph[c]) <= region
    ensures WalkFrom(ids, graph, seen).seen <= region
    decreases graph.Keys - seen, |ids|
  {
    if ids != [] {
      var id, tail := ids[0], ids[1..];
      assert Ids(ids) == {id} + Ids(tail);
      if id in seen {
        WalkStaysInside(tail, graph, seen, region);
      } else if id in graph {
        assert id in graph.Keys - seen && id !in graph.Keys - (seen + {id});
        WalkStaysInside(graph[id], graph, seen + {id}, region);
        var inner := WalkFrom(graph[id], graph, seen + {id});
        assert id !in graph.Keys - inner.seen;
        WalkStaysInside(tail, graph, inner.seen, region);
      } else {
        assert graph.Keys - (seen + {id}) == graph.Keys - seen;
        WalkStaysInside(tail, graph, seen + {id}, region);
      }
    }
  }

  /** The walk visits the least set that contains the candidates and the members of every
    * collection in it: exactly what is reachable, cycles included. */
  lemma {:induction false} WalkVisitsReachable(ids: seq<Id>, graph: Graph)
    ensures var seen := WalkFrom(ids, graph, {}).seen;
            && Ids(ids) <= seen
            && (forall c :: c in seen && c in graph ==> Ids(graph[c]) <= seen)
            && (forall region: set<Id> ::
                  Ids(ids) <= region && (forall c :: c in region && c in graph ==> Ids(graph[c]) <= region)
                  ==> seen <= region)
  {
    WalkMatchesExpansionFrom(ids, graph, {}, {});
    forall region: set<Id> |
      Ids(ids) <= region && (forall c :: c in region && c in graph ==> Ids(graph[c]) <= region)
      ensures WalkFrom(ids, graph, {}).seen <= region
    {
      WalkStaysInside(ids, graph, {}, region);
    }
  }
}
