/** `resolve_source_ids` and `flatten_in_order` as the loops the source runs, proved against
  * the graph notions of `Workshop`.
  */
module Resolve {
  import opened Results
  import opened Workshop

  datatype ResolveOutcome = ResolveOutcome(
    mods: seq<ResolvedMod>,
    unresolved: seq<Id>,
    candidateTitles: map<Id, string>,
    candidateIsCollection: map<Id, bool>)

  // ---------------------------------------------------------------------------------------
  // Flattening

  function ModOf(id: Id, mods: ModTable): ResolvedMod
    requires id in mods
  {
    ResolvedMod(id, mods[id].0, mods[id].1)
  }

  /** The mods among `leaves`, in order. */
  function Known(leaves: seq<Id>, mods: ModTable): seq<ResolvedMod> {
    if leaves == [] then []
    else if leaves[0] in mods then [ModOf(leaves[0], mods)] + Known(leaves[1..], mods)
    else Known(leaves[1..], mods)
  }

  /** The leaves that are not mods, in order. */
  function Unknown(leaves: seq<Id>, mods: ModTable): seq<Id> {
    if leaves == [] then []
    else if leaves[0] in mods then Unknown(leaves[1..], mods)
    else [leaves[0]] + Unknown(leaves[1..], mods)
  }

  lemma {:induction false} SplitOfConcat(xs: seq<Id>, ys: seq<Id>, mods: ModTable)
    ensures Known(xs + ys, mods) == Known(xs, mods) + Known(ys, mods)
    ensures Unknown(xs + ys, mods) == Unknown(xs, mods) + Unknown(ys, mods)
  {
    if xs == [] {
      assert xs + ys == ys;
    } else {
      assert (xs + ys)[1..] == xs[1..] + ys;
      SplitOfConcat(xs[1..], ys, mods);
    }
  }

  lemma {:induction false} SplitIgnoresOthers(xs: seq<Id>, mods: ModTable, gone: set<Id>)
    requires Ids(xs) !! gone
    ensures Known(xs, mods - gone) == Known(xs, mods)
    ensures Unknown(xs, mods - gone) == Unknown(xs, mods)
  {
    if xs != [] {
      assert xs[0] in Ids(xs);
      SplitIgnoresOthers(xs[1..], mods, gone);
    }
  }

  /** The leaves a walk reports were not seen before it and are seen after it. */
  lemma {:induction false} WalkLeavesAreNew(ids: seq<Id>, graph: Graph, seen: set<Id>)
    ensures Ids(WalkFrom(ids, graph, seen).leaves) !! seen
    ensures Ids(WalkFrom(ids, graph, seen).leaves) <= WalkFrom(ids, graph, seen).seen
    decreases graph.Keys - seen, |ids|
  {
    if ids != [] {
      var id, tail := ids[0], ids[1..];
      if id in seen {
        WalkLeavesAreNew(tail, graph, seen);
      } else if id in graph {
        assert id in graph.Keys - seen && id !in graph.Keys - (seen + {id});
        WalkLeavesAreNew(graph[id], graph, seen + {id});
        var inner := WalkFrom(graph[id], graph, seen + {id});
        assert id !in graph.Keys - inner.seen;
        WalkLeavesAreNew(tail, graph, inner.seen);
        var rest := WalkFrom(tail, graph, inner.seen);
        assert Ids(inner.leaves + rest.leaves) == Ids(inner.leaves) + Ids(rest.leaves);
      } else {
        assert graph.Keys - (seen + {id}) == graph.Keys - seen;
        WalkLeavesAreNew(tail, graph, seen + {id});
        var rest := WalkFrom(tail, graph, seen + {id});
        assert Ids([id] + rest.leaves) == {id} + Ids(rest.leaves);
      }
    }
  }

  /** The state `walk` threads through its recursion by mutable reference. */
  datatype Progress = Progress(mods: ModTable, seen: set<Id>, out: seq<ResolvedMod>, unresolved: seq<Id>)

  /** What a walk that reports `w` makes of that state. */
  function After(p: Progress, w: Walked): Progress {
    Progress(p.mods - Ids(w.leaves), w.seen,
             p.out + Known(w.leaves, p.mods), p.unresolved + Unknown(w.leaves, p.mods))
  }

  lemma AppendedInTurn<T>(a: seq<T>, b: seq<T>, c: seq<T>)
    ensures (a + b) + c == a + (b + c)
  {
  }

  lemma {:induction false} AfterBoth(p: Progress, w1: Walked, w2: Walked)
    requires Ids(w1.leaves) !! Ids(w2.leaves)
    ensures After(After(p, w1), w2) == After(p, Walked(w1.leaves + w2.leaves, w2.seen))
  {
    var l1, l2 := w1.leaves, w2.leaves;
    SplitOfConcat(l1, l2, p.mods);
    SplitIgnoresOthers(l2, p.mods, Ids(l1));
    assert Ids(l1 + l2) == Ids(l1) + Ids(l2);
    AppendedInTurn(p.out, Known(l1, p.mods), Known(l2, p.mods));
    AppendedInTurn(p.unresolved, Unknown(l1, p.mods), Unknown(l2, p.mods));
  }

  /** Visiting the head of `ids` and then walking the rest is walking `ids`. */
  lemma {:induction false} AfterHead(p: Progress, ids: seq<Id>, graph: Graph, here: Walked)
    requires ids != [] && ids[0] !in p.seen
    requires here == if ids[0] in graph then WalkFrom(graph[ids[0]], graph, p.seen + {ids[0]})
                     else Walked([ids[0]], p.seen + {ids[0]})
    ensures After(p, WalkFrom(ids, graph, p.seen)) == After(After(p, here), WalkFrom(ids[1..], graph, here.seen))
  {
    var rest := WalkFrom(ids[1..], graph, here.seen);
    WalkLeavesAreNew(ids[1..], graph, here.seen);
    if ids[0] in graph {
      WalkLeavesAreNew(graph[ids[0]], graph, p.seen + {ids[0]});
    }
    AfterBoth(p, here, rest);
  }

  lemma AfterLeaf(p: Progress, id: Id)
    ensures After(p, Walked([id], p.seen + {id})) ==
            if id in p.mods then Progress(p.mods - {id}, p.seen + {id}, p.out + [ModOf(id, p.mods)], p.unresolved)
            else Progress(p.mods, p.seen + {id}, p.out, p.unresolved + [id])
  {
    assert [id][1..] == [];
    assert Ids([id]) == {id};
    if id in p.mods {
      assert Known([id], p.mods) == [ModOf(id, p.mods)];
      assert Unknown([id], p.mods) == [];
      assert p.unresolved + [] == p.unresolved;
    } else {
      assert Unknown([id], p.mods) == [id];
      assert Known([id], p.mods) == [];
      assert p.out + [] == p.out;
      assert p.mods - {id} == p.mods;
    }
  }

  class Flattening {
    var mods: ModTable
    var seen: set<Id>
    var out: seq<ResolvedMod>
    var unresolved: seq<Id>

    constructor (mods: ModTable)
      ensures Now() == Progress(mods, {}, [], [])
    {
      this.mods, seen, out, unresolved := mods, {}, [], [];
    }

    ghost function Now(): Progress
      reads this
    {
      Progress(mods, seen, out, unresolved)
    }

    method Walk(ids: seq<Id>, graph: Graph)
      modifies this
      ensures Now() == After(old(Now()), WalkFrom(ids, graph, old(seen)))
      decreases graph.Keys - seen
    {
      assert ids[0..] == ids;
      for i := 0 to |ids|
        invariant old(seen) <= seen
        invariant After(Now(), WalkFrom(ids[i..], graph, seen)) == After(old(Now()), WalkFrom(ids, graph, old(seen)))
      {
        var id := ids[i];
        ghost var before := Now();
        assert ids[i..][0] == id && ids[i..][1..] == ids[i + 1..];
        if id !in seen {
          ghost var here := if id in graph then WalkFrom(graph[id], graph, seen + {id}) else Walked([id], seen + {id});
          AfterHead(before, ids[i..], graph, here);
          AfterLeaf(before, id);
          seen := seen + {id};
          if id in graph {
            assert id in graph.Keys - before.seen && id !in graph.Keys - seen;
            Walk(graph[id], graph);
          } else if id in mods {
            out := out + [ModOf(id, mods)];
            mods := mods - {id};
          } else {
            unresolved := unresolved + [id];
          }
          assert Now() == After(before, here);
        }
      }
    }
  }

  method FlattenInOrder(candidates: seq<Id>, graph: Graph, mods: ModTable)
    returns (out: seq<ResolvedMod>, unresolved: seq<Id>, left: ModTable)
    ensures var leaves := FirstNew(Expansion(candidates, graph, {}), {});
            && out == Known(leaves, mods)
            && unresolved == Unknown(leaves, mods)
            && left == mods - Ids(leaves)
  {
    var f := new Flattening(mods);
    f.Walk(candidates, graph);
    WalkMatchesExpansion(candidates, graph);
    out, unresolved, left := f.out, f.unresolved, f.mods;
  }

  // ---------------------------------------------------------------------------------------
  // One request round

  /** Steam answers only for ids asked about, says what the catalogue holds, and answers every
    * id it can; in what order, and how often, is left open. */
  ghost predicate IsResponse(cat: Catalogue, asked: seq<Id>, resp: seq<(Id, Details)>) {
    && (forall row :: row in resp && row.1.eresult == 1 ==> row.0 in asked && row.0 in cat && cat[row.0] == row.1)
    && (forall id :: id in asked && Answers(cat, id) ==> (id, cat[id]) in resp)
  }

  /** PublishedFile.GetDetails with includechildren; `reaches` says whether the call gets through. */
  method GetDetails(cat: Catalogue, asked: seq<Id>, reaches: bool) returns (r: Result<seq<(Id, Details)>>)
    ensures r.Ok? <==> reaches
    ensures r.Ok? ==> IsResponse(cat, asked, r.value)
  {
    if !reaches {
      return Err;
    }
    var resp: seq<(Id, Details)> := [];
    for i := 0 to |asked|
      invariant IsResponse(cat, asked[..i], resp)
    {
      assert asked[..i + 1] == asked[..i] + [asked[i]];
      if asked[i] in cat {
        resp := resp + [(asked[i], cat[asked[i]])];
      }
    }
    assert asked[..|asked|] == asked;
    r := Ok(resp);
  }

  /** What the rounds accumulate. */
  datatype Gathered = Gathered(
    resolved: ModTable,
    childrenOf: Graph,
    answered: set<Id>,
    titles: map<Id, string>,
    isCollection: map<Id, bool>)

  /** What asking Steam about exactly the ids `asked` has to accumulate. */
  ghost function Gather(cat: Catalogue, asked: set<Id>, candidates: seq<Id>): Gathered {
    Gathered(
      map id | id in asked && IsMod(cat, id) :: (cat[id].title, cat[id].fileSize),
      map id | id in asked && IsCollection(cat, id) :: OrderedChildren(cat[id].children),
      set id | id in asked && Answers(cat, id),
      map id | id in asked && id in candidates && Answers(cat, id) :: cat[id].title,
      map id | id in asked && id in candidates && Answers(cat, id) :: IsCollection(cat, id))
  }

  method PushNew(members: seq<Id>, answered: set<Id>, next: seq<Id>) returns (next': seq<Id>)
    ensures Ids(next') == Ids(next) + (Ids(members) - answered)
  {
    next' := next;
    for i := 0 to |members|
      invariant Ids(next') == Ids(next) + (Ids(members[..i]) - answered)
    {
      assert Ids(members[..i + 1]) == Ids(members[..i]) + {members[i]};
      assert Ids(next' + [members[i]]) == Ids(next') + {members[i]};
      if members[i] !in answered && members[i] !in next' {
        next' := next' + [members[i]];
      }
    }
    assert members[..|members|] == members;
  }

  /** Records one answered row, as the body of the response loop does. */
  function Record(g: Gathered, id: Id, d: Details, first: bool): Gathered {
    var isCollection := d.fileType == FILE_TYPE_COLLECTION;
    Gathered(
      if isCollection then g.resolved else g.resolved[id := (d.title, d.fileSize)],
      if isCollection then g.childrenOf[id := OrderedChildren(d.children)] else g.childrenOf,
      g.answered + {id},
      if first then g.titles[id := d.title] else g.titles,
      if first then g.isCollection[id := isCollection] else g.isCollection)
  }

  lemma RecordGathersContent(cat: Catalogue, asked: set<Id>, candidates: seq<Id>, id: Id, first: bool)
    requires Answers(cat, id)
    ensures var g := Record(Gather(cat, asked, candidates), id, cat[id], first);
            var g' := Gather(cat, asked + {id}, candidates);
            g.resolved == g'.resolved && g.childrenOf == g'.childrenOf && g.answered == g'.answered
  {
    var g, g' := Record(Gather(cat, asked, candidates), id, cat[id], first), Gather(cat, asked + {id}, candidates);
    assert g.resolved == g'.resolved;
    assert g.childrenOf == g'.childrenOf;
  }

  lemma RecordGathers(cat: Catalogue, asked: set<Id>, candidates: seq<Id>, id: Id, first: bool)
    requires Answers(cat, id)
    requires first ==> id in candidates
    requires !first ==> Ids(candidates) <= asked
    ensures Record(Gather(cat, asked, candidates), id, cat[id], first) == Gather(cat, asked + {id}, candidates)
  {
    RecordGathersContent(cat, asked, candidates, id, first);
    var g, g' := Record(Gather(cat, asked, candidates), id, cat[id], first), Gather(cat, asked + {id}, candidates);
    assert id in candidates ==> id in Ids(candidates);
    if first {
      assert g.titles == g'.titles;
      assert g.isCollection == g'.isCollection;
    } else {
      assert g.titles == g'.titles;
      assert g.isCollection == g'.isCollection;
    }
  }

  /** Of the ids `read` so far, every member is answered, about to be asked, or read itself. */
  ghost predicate RoundSoFar(graph: Graph, frontier: set<Id>, read: set<Id>, answered: set<Id>, next: set<Id>) {
    && read <= frontier
    && next <= Expand(graph, frontier)
    && Expand(graph, read) <= read + answered + next
  }

  lemma RowKeepsRound(graph: Graph, frontier: set<Id>, read: set<Id>, answered: set<Id>, next: set<Id>, id: Id, next': set<Id>)
    requires RoundSoFar(graph, frontier, read, answered, next)
    requires id in frontier
    requires next' == if id in graph then next + (Ids(graph[id]) - (answered + {id})) else next
    ensures RoundSoFar(graph, frontier, read + {id}, answered + {id}, next')
  {
    assert Expand(graph, read + {id}) == Expand(graph, read) + {id} + (if id in graph then Ids(graph[id]) else {});
  }

  /** Once every answered id of the frontier is read, the round is complete. */
  lemma RoundIsComplete(cat: Catalogue, asked: set<Id>, candidates: seq<Id>, frontier: set<Id>, read: set<Id>)
    requires read <= frontier
    requires forall id :: id in frontier && Answers(cat, id) ==> id in read
    ensures Gather(cat, asked + read, candidates) == Gather(cat, asked + frontier, candidates)
    ensures Expand(Collections(cat), frontier) <= frontier + Expand(Collections(cat), read)
  {
    var g, g' := Gather(cat, asked + read, candidates), Gather(cat, asked + frontier, candidates);
    assert g.resolved == g'.resolved;
    assert g.childrenOf == g'.childrenOf;
    assert g.answered == g'.answered;
    assert g.titles == g'.titles;
    assert g.isCollection == g'.isCollection;
  }

  /** One row of the response. */
  method ReadRow(cat: Catalogue, candidates: seq<Id>, id: Id, d: Details, first: bool, g0: Gathered, next0: seq<Id>,
                 ghost asked: set<Id>, ghost frontier: seq<Id>, ghost read: set<Id>)
    returns (g: Gathered, next: seq<Id>)
    requires d.eresult == 1 && id in frontier && id in cat && cat[id] == d
    requires first ==> frontier == candidates
    requires !first ==> Ids(candidates) <= asked
    requires g0 == Gather(cat, asked + read, candidates)
    requires RoundSoFar(Collections(cat), Ids(frontier), read, g0.answered, Ids(next0))
    ensures g == Gather(cat, asked + (read + {id}), candidates)
    ensures RoundSoFar(Collections(cat), Ids(frontier), read + {id}, g.answered, Ids(next))
  {
    RecordGathers(cat, asked + read, candidates, id, first);
    assert asked + (read + {id}) == (asked + read) + {id};
    g, next := Record(g0, id, d, first), next0;
    if d.fileType == FILE_TYPE_COLLECTION {
      next := PushNew(OrderedChildren(d.children), g.answered, next);
    }
    RowKeepsRound(Collections(cat), Ids(frontier), read, g0.answered, Ids(next0), id, Ids(next));
  }

  method ReadRound(cat: Catalogue, candidates: seq<Id>, resp: seq<(Id, Details)>, first: bool, g0: Gathered,
                   ghost asked: set<Id>, ghost frontier: seq<Id>)
    returns (g: Gathered, next: seq<Id>)
    requires g0 == Gather(cat, asked, candidates)
    requires IsResponse(cat, frontier, resp)
    requires first ==> frontier == candidates
    requires !first ==> Ids(candidates) <= asked
    ensures g == Gather(cat, asked + Ids(frontier), candidates)
    ensures Ids(next) <= Expand(Collections(cat), Ids(frontier))
    ensures Expand(Collections(cat), Ids(frontier)) <= Ids(frontier) + g.answered + Ids(next)
  {
    g, next := g0, [];
    ghost var read: set<Id> := {};
    assert asked + read == asked;
    for i := 0 to |resp|
      invariant g == Gather(cat, asked + read, candidates)
      invariant forall row :: row in resp[..i] && row.1.eresult == 1 ==> row.0 in read
      invariant RoundSoFar(Collections(cat), Ids(frontier), read, g.answered, Ids(next))
    {
      assert resp[i] in resp;
      assert resp[..i + 1] == resp[..i] + [resp[i]];
      if resp[i].1.eresult == 1 {
        g, next := ReadRow(cat, candidates, resp[i].0, resp[i].1, first, g, next, asked, frontier, read);
        read := read + {resp[i].0};
      }
    }
    assert resp[..|resp|] == resp;
    RoundIsComplete(cat, asked, candidates, Ids(frontier), read);
  }

  lemma RoundAdvances(graph: Graph, asked: set<Id>, frontier: set<Id>, answered: set<Id>, next: set<Id>)
    requires Expand(graph, asked) <= asked + frontier
    requires answered <= asked + frontier
    requires next <= Expand(graph, frontier)
    requires Expand(graph, frontier) <= frontier + answered + next
    ensures Expand(graph, asked + frontier) == asked + frontier + next
  {
    assert Expand(graph, asked + frontier) == Expand(graph, asked) + Expand(graph, frontier);
  }

  // ---------------------------------------------------------------------------------------
  // The whole resolution

  function ModIds(mods: seq<ResolvedMod>): (ids: seq<Id>)
    ensures |ids| == |mods| && forall i :: 0 <= i < |mods| ==> ids[i] == mods[i].modId
  {
    if mods == [] then [] else [mods[0].modId] + ModIds(mods[1..])
  }

  ghost predicate Distinct(xs: seq<Id>) {
    forall i, j :: 0 <= i < j < |xs| ==> xs[i] != xs[j]
  }

  /** Splitting distinct leaves keeps them distinct and loses none. */
  lemma {:induction false} SplitOfDistinct(leaves: seq<Id>, mods: ModTable)
    requires Distinct(leaves)
    ensures Distinct(ModIds(Known(leaves, mods))) && Distinct(Unknown(leaves, mods))
    ensures forall m :: m in Known(leaves, mods) <==> m.modId in leaves && m.modId in mods && m == ModOf(m.modId, mods)
    ensures forall id :: id in Unknown(leaves, mods) <==> id in leaves && id !in mods
    ensures forall id :: id in ModIds(Known(leaves, mods)) <==> id in leaves && id in mods
  {
    if leaves != [] {
      SplitOfDistinct(leaves[1..], mods);
      assert leaves == [leaves[0]] + leaves[1..];
      assert leaves[0] !in leaves[1..];
    }
  }

  /** The collections the rounds fetch: those fewer than MAX_COLLECTION_DEPTH memberships away. */
  ghost function Fetched(cat: Catalogue, candidates: seq<Id>): Graph {
    var near := Reach(Collections(cat), Ids(candidates), MAX_COLLECTION_DEPTH - 1);
    map id | id in near && id in Collections(cat) :: Collections(cat)[id]
  }

  lemma ExpandIsVisited(graph: Graph, fetched: Graph, level: set<Id>, seen: set<Id>)
    requires level <= seen
    requires forall c :: c in level && c in graph ==> c in fetched && fetched[c] == graph[c]
    requires forall c :: c in seen && c in fetched ==> Ids(fetched[c]) <= seen
    ensures Expand(graph, level) <= seen
  {
    forall x | x in Expand(graph, level) ensures x in seen {
      if x !in level {
        var c := MemberOfWhom(graph, level, x);
        assert x in Ids(fetched[c]);
      }
    }
  }

  lemma {:induction false} ReachIsVisited(graph: Graph, fetched: Graph, start: set<Id>, seen: set<Id>, top: nat, depth: nat)
    requires depth <= top + 1
    requires start <= seen
    requires forall c :: c in seen && c in fetched ==> Ids(fetched[c]) <= seen
    requires forall c :: c in Reach(graph, start, top) && c in graph ==> c in fetched && fetched[c] == graph[c]
    ensures Reach(graph, start, depth) <= seen
  {
    if depth > 0 {
      ReachIsVisited(graph, fetched, start, seen, top, depth - 1);
      ReachGrows(graph, start, depth - 1, top);
      ExpandIsVisited(graph, fetched, Reach(graph, start, depth - 1), seen);
    }
  }

  lemma {:induction false} ReachGrows(graph: Graph, start: set<Id>, d: nat, e: nat)
    requires d <= e
    ensures Reach(graph, start, d) <= Reach(graph, start, e)
  {
    if d < e {
      ReachGrows(graph, start, d, e - 1);
    }
  }

  /** The depth-first walk over the fetched part visits exactly what the breadth-first rounds
    * reached, one membership further. */
  lemma {:induction false} WalkVisitsReach(cat: Catalogue, candidates: seq<Id>)
    ensures WalkFrom(candidates, Fetched(cat, candidates), {}).seen
         == Reach(Collections(cat), Ids(candidates), MAX_COLLECTION_DEPTH)
  {
    var graph, fetched, start := Collections(cat), Fetched(cat, candidates), Ids(candidates);
    var top := MAX_COLLECTION_DEPTH - 1;
    var all := Reach(graph, start, top + 1);
    WalkVisitsReachable(candidates, fetched);
    ReachIsVisited(graph, fetched, start, WalkFrom(candidates, fetched, {}).seen, top, top + 1);
    ReachGrows(graph, start, 0, top + 1);
    assert start <= all;
    forall c | c in all && c in fetched ensures Ids(fetched[c]) <= all {
      assert all == Expand(graph, Reach(graph, start, top));
    }
    WalkStaysInside(candidates, fetched, {}, all);
  }

  /** The ids at most `depth` memberships away from a candidate. */
  ghost function Within(cat: Catalogue, candidates: seq<Id>, depth: nat): set<Id> {
    Reach(Collections(cat), Ids(candidates), depth)
  }

  /** Every answered mod near enough is returned, once, with Steam's own title and size. */
  ghost predicate ModsAreRight(cat: Catalogue, candidates: seq<Id>, mods: seq<ResolvedMod>) {
    && (forall m :: m in mods <==>
          && m.modId in Within(cat, candidates, MAX_COLLECTION_DEPTH - 1)
          && IsMod(cat, m.modId)
          && m == ResolvedMod(m.modId, cat[m.modId].title, cat[m.modId].fileSize))
    && Distinct(ModIds(mods))
  }

  /** Everything else that was met and not expanded is reported, once. */
  ghost predicate UnresolvedIsRight(cat: Catalogue, candidates: seq<Id>, unresolved: seq<Id>) {
    && (forall id :: id in unresolved <==>
          && id in Within(cat, candidates, MAX_COLLECTION_DEPTH)
          && !(id in Within(cat, candidates, MAX_COLLECTION_DEPTH - 1) && Answers(cat, id)))
    && Distinct(unresolved)
  }

  /** Both lists follow the plain expansion of the candidates and together exhaust it. */
  ghost predicate InExpansionOrder(leaves: seq<Id>, mods: seq<ResolvedMod>, unresolved: seq<Id>) {
    && (forall id :: id in leaves <==> id in ModIds(mods) || id in unresolved)
    && IsSubsequence(ModIds(mods), leaves)
    && IsSubsequence(unresolved, leaves)
  }

  /** The candidates' own titles and kinds, for those Steam answered. */
  ghost predicate CandidatesAreRight(cat: Catalogue, candidates: seq<Id>, o: ResolveOutcome) {
    && o.candidateTitles.Keys == o.candidateIsCollection.Keys
    && (forall id :: id in o.candidateTitles <==> id in candidates && Answers(cat, id))
    && (forall id :: id in o.candidateTitles ==>
          o.candidateTitles[id] == cat[id].title && o.candidateIsCollection[id] == IsCollection(cat, id))
  }

  ghost predicate ResolvesTo(cat: Catalogue, candidates: seq<Id>, o: ResolveOutcome) {
    && ModsAreRight(cat, candidates, o.mods)
    && UnresolvedIsRight(cat, candidates, o.unresolved)
    && InExpansionOrder(FirstNew(Expansion(candidates, Fetched(cat, candidates), {}), {}), o.mods, o.unresolved)
    && CandidatesAreRight(cat, candidates, o)
  }

  ghost predicate IsSubsequence(xs: seq<Id>, ys: seq<Id>) {
    if xs == [] then true
    else ys != [] && (IsSubsequence(xs, ys[1..]) || (xs[0] == ys[0] && IsSubsequence(xs[1..], ys[1..])))
  }

  lemma {:induction false} SplitKeepsOrder(leaves: seq<Id>, mods: ModTable)
    ensures IsSubsequence(ModIds(Known(leaves, mods)), leaves)
    ensures IsSubsequence(Unknown(leaves, mods), leaves)
  {
    if leaves != [] {
      SplitKeepsOrder(leaves[1..], mods);
      var known, unknown := Known(leaves, mods), Unknown(leaves, mods);
      if leaves[0] in mods {
        assert known[1..] == Known(leaves[1..], mods);
        assert ModIds(known)[1..] == ModIds(known[1..]);
      } else {
        assert unknown[1..] == Unknown(leaves[1..], mods);
      }
    }
  }

  /** The leaves of the walk over the fetched part: all that was reached and not expanded. */
  lemma {:induction false} LeavesOfFetched(cat: Catalogue, candidates: seq<Id>, leaves: seq<Id>)
    requires leaves == FirstNew(Expansion(candidates, Fetched(cat, candidates), {}), {})
    ensures forall id :: id in leaves <==>
              && id in Within(cat, candidates, MAX_COLLECTION_DEPTH)
              && !(id in Within(cat, candidates, MAX_COLLECTION_DEPTH - 1) && IsCollection(cat, id))
  {
    var fetched := Fetched(cat, candidates);
    WalkMatchesExpansionFrom(candidates, fetched, {}, {});
    WalkVisitsReach(cat, candidates);
    ExpansionHasLeavesOnly(candidates, fetched, {});
    forall id ensures id in leaves <==> id in Ids(leaves) {}
    ReachGrows(Collections(cat), Ids(candidates), MAX_COLLECTION_DEPTH - 1, MAX_COLLECTION_DEPTH);
  }

  lemma {:induction false} SplitResolves(cat: Catalogue, candidates: seq<Id>, leaves: seq<Id>, mods: ModTable)
    requires leaves == FirstNew(Expansion(candidates, Fetched(cat, candidates), {}), {})
    requires forall id :: id in mods <==> id in Within(cat, candidates, MAX_COLLECTION_DEPTH - 1) && IsMod(cat, id)
    requires forall id :: id in mods ==> id in cat && mods[id] == (cat[id].title, cat[id].fileSize)
    ensures ModsAreRight(cat, candidates, Known(leaves, mods))
    ensures UnresolvedIsRight(cat, candidates, Unknown(leaves, mods))
  {
    LeavesOfFetched(cat, candidates, leaves);
    ReachGrows(Collections(cat), Ids(candidates), MAX_COLLECTION_DEPTH - 1, MAX_COLLECTION_DEPTH);
    SplitOfDistinct(leaves, mods);
  }

  lemma {:induction false} SplitExhausts(leaves: seq<Id>, mods: ModTable)
    requires Distinct(leaves)
    ensures InExpansionOrder(leaves, Known(leaves, mods), Unknown(leaves, mods))
  {
    SplitOfDistinct(leaves, mods);
    SplitKeepsOrder(leaves, mods);
  }

  lemma {:induction false} CandidatesAreGathered(cat: Catalogue, candidates: seq<Id>, o: ResolveOutcome)
    requires var g := Gather(cat, Within(cat, candidates, MAX_COLLECTION_DEPTH - 1), candidates);
             o.candidateTitles == g.titles && o.candidateIsCollection == g.isCollection
    ensures CandidatesAreRight(cat, candidates, o)
  {
    ReachGrows(Collections(cat), Ids(candidates), 0, MAX_COLLECTION_DEPTH - 1);
    assert forall id :: id in candidates ==> id in Ids(candidates);
  }

  lemma {:induction false} FlattenResolves(cat: Catalogue, candidates: seq<Id>, g: Gathered, o: ResolveOutcome)
    requires g == Gather(cat, Within(cat, candidates, MAX_COLLECTION_DEPTH - 1), candidates)
    requires var leaves := FirstNew(Expansion(candidates, g.childrenOf, {}), {});
             o == ResolveOutcome(Known(leaves, g.resolved), Unknown(leaves, g.resolved), g.titles, g.isCollection)
    ensures ResolvesTo(cat, candidates, o)
  {
    assert g.childrenOf == Fetched(cat, candidates);
    var leaves := FirstNew(Expansion(candidates, Fetched(cat, candidates), {}), {});
    SplitResolves(cat, candidates, leaves, g.resolved);
    SplitExhausts(leaves, g.resolved);
    CandidatesAreGathered(cat, candidates, o);
  }

  /** The mods of a resolution, told by chains: a mod Steam answers for is among them if and only
    * if it has a chain of at most seven collection-to-member links from a candidate. */
  lemma {:induction false} ModsByChain(cat: Catalogue, candidates: seq<Id>, o: ResolveOutcome, id: Id)
    requires ResolvesTo(cat, candidates, o)
    ensures id in ModIds(o.mods) <==>
            IsMod(cat, id) && exists p :: ChainTo(Collections(cat), Ids(candidates), p, id, 7)
  {
    ReachIffChain(Collections(cat), Ids(candidates), 7, id);
    if id in ModIds(o.mods) {
      var i :| 0 <= i < |o.mods| && ModIds(o.mods)[i] == id;
      assert o.mods[i] in o.mods;
    }
    if IsMod(cat, id) && id in Within(cat, candidates, 7) {
      var m := ResolvedMod(id, cat[id].title, cat[id].fileSize);
      assert m in o.mods;
      var i :| 0 <= i < |o.mods| && o.mods[i] == m;
      assert ModIds(o.mods)[i] == id;
    }
  }

  /** Between rounds: the ids within `depth - 1` memberships have been asked about, and
    * `frontier` adds those within `depth`. */
  ghost predicate AtDepth(cat: Catalogue, candidates: seq<Id>, g: Gathered, asked: set<Id>, frontier: seq<Id>, depth: nat) {
    && g == Gather(cat, asked, candidates)
    && (depth == 0 ==> asked == {} && frontier == candidates)
    && (depth > 0 ==> Ids(candidates) <= asked && asked == Within(cat, candidates, depth - 1))
    && asked + Ids(frontier) == Within(cat, candidates, depth)
    && Expand(Collections(cat), asked) <= asked + Ids(frontier)
  }

  lemma FirstRound(cat: Catalogue, candidates: seq<Id>)
    ensures AtDepth(cat, candidates, Gathered(map[], map[], {}, map[], map[]), {}, candidates, 0)
  {
    assert {} + Ids(candidates) == Ids(candidates);
  }

  lemma NextRound(cat: Catalogue, candidates: seq<Id>, g: Gathered, asked: set<Id>, frontier: seq<Id>, depth: nat,
                  g': Gathered, next: seq<Id>)
    requires AtDepth(cat, candidates, g, asked, frontier, depth)
    requires g' == Gather(cat, asked + Ids(frontier), candidates)
    requires Ids(next) <= Expand(Collections(cat), Ids(frontier))
    requires Expand(Collections(cat), Ids(frontier)) <= Ids(frontier) + g'.answered + Ids(next)
    ensures AtDepth(cat, candidates, g', asked + Ids(frontier), next, depth + 1)
  {
    RoundAdvances(Collections(cat), asked, Ids(frontier), g'.answered, Ids(next));
  }

  lemma LastRound(cat: Catalogue, candidates: seq<Id>, g: Gathered, asked: set<Id>, frontier: seq<Id>, depth: nat)
    requires AtDepth(cat, candidates, g, asked, frontier, depth)
    requires depth == MAX_COLLECTION_DEPTH || (depth < MAX_COLLECTION_DEPTH && frontier == [])
    ensures g == Gather(cat, Within(cat, candidates, MAX_COLLECTION_DEPTH - 1), candidates)
  {
    if depth < MAX_COLLECTION_DEPTH {
      assert asked + Ids(frontier) == asked;
      ReachIsStable(Collections(cat), Ids(candidates), if depth == 0 then 0 else depth - 1, MAX_COLLECTION_DEPTH - 1);
    }
  }

  /** All the rounds there can be get through. */
  ghost predicate AllRounds(up: nat -> bool) {
    forall round: nat :: round < MAX_COLLECTION_DEPTH ==> up(round)
  }

  method ResolveSourceIds(cat: Catalogue, candidates: seq<Id>, up: nat -> bool) returns (r: Result<ResolveOutcome>)
    ensures AllRounds(up) ==> r.Ok?
    ensures r.Ok? ==> ResolvesTo(cat, candidates, r.value)
  {
    var g := Gathered(map[], map[], {}, map[], map[]);
    var frontier, depth := candidates, 0;
    ghost var asked: set<Id> := {};
    FirstRound(cat, candidates);
    while frontier != []
      invariant depth <= MAX_COLLECTION_DEPTH && AtDepth(cat, candidates, g, asked, frontier, depth)
      decreases MAX_COLLECTION_DEPTH - depth
    {
      if depth >= MAX_COLLECTION_DEPTH {
        break;
      }
      var resp := GetDetails(cat, frontier, up(depth));
      if resp.Err? {
        return Err;
      }
      var g', next := ReadRound(cat, candidates, resp.value, depth == 0, g, asked, frontier);
      NextRound(cat, candidates, g, asked, frontier, depth, g', next);
      asked := asked + Ids(frontier);
      g, frontier, depth := g', next, depth + 1;
    }
    LastRound(cat, candidates, g, asked, frontier, depth);
    var mods, unresolved, _ := FlattenInOrder(candidates, g.childrenOf, g.resolved);
    var o := ResolveOutcome(mods, unresolved, g.titles, g.isCollection);
    FlattenResolves(cat, candidates, g, o);
    r := Ok(o);
  }
}
