/** The finishing pass over a synced depot: one flat, contents-first walk that renames entries
  * and sums file sizes, shown to build the same tree as the recursive fold.
  */
module Finalize {
  import opened Results
  import opened CaseFold
  import opened Repair

  type Path = seq<Name>

  // ---------------------------------------------------------------------------------------
  // The loop

  /** A directory once the name of `n` is dealt with: kept if it is lowercase or its lowercase
    * form is taken. */
  function RenameIn(e: map<Name, Node>, n: Name): map<Name, Node>
    requires n in e
  {
    if IsLower(n) || Lower(n) in e then e else (e - {n})[Lower(n) := e[n]]
  }

  function Size(x: Node): nat {
    if x.File? then |x.content| else 0
  }

  /** One round of the loop: renames the entry at `p` and gives its size. A path that is no
    * longer there is an error. */
  function Visit(x: Node, p: Path): Result<(Node, nat)> {
    if p == [] || x.File? || p[0] !in x.entries then Err
    else if |p| == 1 then Ok((Dir(RenameIn(x.entries, p[0])), Size(x.entries[p[0]])))
    else
      match Visit(x.entries[p[0]], p[1..])
      case Err => Err
      case Ok((y, size)) => Ok((Dir(x.entries[p[0] := y]), size))
  }

  /** All rounds, with `bytes` counted before them. */
  function Run(x: Node, bytes: nat, paths: seq<Path>): Result<(Node, nat)>
    decreases |paths|
  {
    if paths == [] then Ok((x, bytes))
    else
      match Visit(x, paths[0])
      case Err => Err
      case Ok((y, size)) => Run(y, bytes + size, paths[1..])
  }

  // ---------------------------------------------------------------------------------------
  // The walk

  function Under(n: Name, paths: seq<Path>): seq<Path> {
    if paths == [] then [] else [[n] + paths[0]] + Under(n, paths[1..])
  }

  /** `paths` lists everything below `x`, contents first, siblings in listing order. */
  ghost predicate IsWalk(x: Node, paths: seq<Path>)
    decreases x, 1, 0
  {
    if x.File? then paths == []
    else exists list :: Listed(x.entries.Keys, list) && IsLevelWalk(x, list, paths)
  }

  ghost predicate IsLevelWalk(x: Node, list: seq<Name>, paths: seq<Path>)
    requires x.Dir?
    decreases x, 0, |list|
  {
    if list == [] then paths == []
    else
      && list[0] in x.entries
      && exists below, rest ::
           && IsWalk(x.entries[list[0]], below) && IsLevelWalk(x, list[1..], rest)
           && paths == Under(list[0], below) + [[list[0]]] + rest
  }

  /** `WalkDir::contents_first`, below the root. */
  method Walk(x: Node) returns (paths: seq<Path>)
    ensures IsWalk(x, paths)
    decreases x
  {
    paths := [];
    if x.File? {
      return;
    }
    var list := ListDir(x.entries.Keys);
    ListedIsThere(x.entries.Keys, list);
    for i := |list| downto 0
      invariant IsLevelWalk(x, list[i..], paths)
    {
      var n := list[i];
      var below := Walk(x.entries[n]);
      assert list[i..][0] == n && list[i..][1..] == list[i + 1..];
      paths := Under(n, below) + [[n]] + paths;
    }
    assert list[0..] == list;
  }

  lemma {:induction false} ListedIsThere(names: set<Name>, list: seq<Name>)
    requires Listed(names, list)
    ensures forall i :: 0 <= i < |list| ==> list[i] in names
  {
    if list != [] {
      ListedIsThere(names - {list[0]}, list[1..]);
    }
  }

  // ---------------------------------------------------------------------------------------
  // The flat walk folds

  lemma {:induction false} RunConcat(x: Node, bytes: nat, a: seq<Path>, b: seq<Path>)
    ensures Run(x, bytes, a + b) == match Run(x, bytes, a) case Err => Err case Ok((y, n)) => Run(y, n, b)
    decreases |a|
  {
    if a == [] {
      assert a + b == b;
    } else {
      assert (a + b)[0] == a[0] && (a + b)[1..] == a[1..] + b;
      match Visit(x, a[0])
      case Err =>
      case Ok((y, size)) => RunConcat(y, bytes + size, a[1..], b);
    }
  }

  /** Visits below one entry change that entry and nothing else. */
  lemma {:induction false} RunUnder(e: map<Name, Node>, n: Name, bytes: nat, paths: seq<Path>)
    requires n in e && Run(e[n], bytes, paths).Ok?
    ensures var (y, total) := Run(e[n], bytes, paths).value;
            Run(Dir(e), bytes, Under(n, paths)) == Ok((Dir(e[n := y]), total))
    decreases |paths|
  {
    if paths == [] {
      assert e[n := e[n]] == e;
    } else {
      var p := [n] + paths[0];
      assert p[0] == n && p[1..] == paths[0];
      var (y, size) := Visit(e[n], paths[0]).value;
      assert paths[0] != [];
      var e' := e[n := y];
      assert Visit(Dir(e), p) == Ok((Dir(e'), size));
      RunUnder(e', n, bytes + size, paths[1..]);
      var z := Run(y, bytes + size, paths[1..]).value.0;
      assert e'[n := z] == e[n := z];
      assert Under(n, paths)[0] == p && Under(n, paths)[1..] == Under(n, paths[1..]);
    }
  }

  lemma RunOne(e: map<Name, Node>, n: Name, bytes: nat)
    requires n in e
    ensures Run(Dir(e), bytes, [[n]]) == Ok((Dir(RenameIn(e, n)), bytes + Size(e[n])))
  {
    assert [[n]][1..] == [];
  }

  /** One entry: the visits below it, then its own. */
  lemma {:induction false} EntryRuns(cur: map<Name, Node>, n: Name, below: seq<Path>, bytes: nat, inner: Node, total: nat)
    requires n in cur && Run(cur[n], bytes, below) == Ok((inner, total))
    ensures Run(Dir(cur), bytes, Under(n, below) + [[n]]) == Ok((Dir(RenameIn(cur[n := inner], n)), total + Size(inner)))
  {
    RunUnder(cur, n, bytes, below);
    RunConcat(Dir(cur), bytes, Under(n, below), [[n]]);
    RunOne(cur[n := inner], n, total);
  }

  /** The loop over one directory's listing, whose entries' contents become `inner`. */
  ghost function Loop(cur: map<Name, Node>, inner: map<Name, Node>, list: seq<Name>): map<Name, Node>
    decreases |list|
  {
    if list == [] || list[0] !in inner then cur
    else Loop(RenameIn(cur[list[0] := inner[list[0]]], list[0]), inner, list[1..])
  }

  /** Every listed entry is still as in `e` when its turn comes. */
  ghost predicate InTurn(cur: map<Name, Node>, e: map<Name, Node>, inner: map<Name, Node>, list: seq<Name>)
    decreases |list|
  {
    list == []
    || (&& list[0] in e && list[0] in inner && list[0] in cur && cur[list[0]] == e[list[0]]
        && InTurn(RenameIn(cur[list[0] := inner[list[0]]], list[0]), e, inner, list[1..]))
  }

  /** Every walk of `x` leaves `y` and counts `weight`. */
  ghost predicate Runs(x: Node, y: Node, weight: nat) {
    forall paths, bytes: nat {:trigger Run(x, bytes, paths)} ::
      IsWalk(x, paths) ==> Run(x, bytes, paths) == Ok((y, bytes + weight))
  }

  ghost predicate EntriesRun(e: map<Name, Node>, inner: map<Name, Node>, weights: map<Name, nat>) {
    e.Keys == inner.Keys == weights.Keys && forall n :: n in e ==> Runs(e[n], inner[n], weights[n])
  }

  ghost function Weight(inner: map<Name, Node>, weights: map<Name, nat>, list: seq<Name>): nat
    requires inner.Keys == weights.Keys
    decreases |list|
  {
    if list == [] || list[0] !in inner then 0
    else weights[list[0]] + Size(inner[list[0]]) + Weight(inner, weights, list[1..])
  }

  lemma {:induction false} LevelRuns(x: Node, cur: map<Name, Node>, inner: map<Name, Node>, weights: map<Name, nat>,
                                     list: seq<Name>, paths: seq<Path>, bytes: nat)
    requires x.Dir? && EntriesRun(x.entries, inner, weights)
    requires InTurn(cur, x.entries, inner, list) && IsLevelWalk(x, list, paths)
    ensures Run(Dir(cur), bytes, paths) == Ok((Dir(Loop(cur, inner, list)), bytes + Weight(inner, weights, list)))
    decreases |list|
  {
    if list != [] {
      var n := list[0];
      var below, rest :| IsWalk(x.entries[n], below) && IsLevelWalk(x, list[1..], rest)
                         && paths == Under(n, below) + [[n]] + rest;
      assert Runs(x.entries[n], inner[n], weights[n]);
      var total := bytes + weights[n];
      EntryRuns(cur, n, below, bytes, inner[n], total);
      RunConcat(Dir(cur), bytes, Under(n, below) + [[n]], rest);
      LevelRuns(x, RenameIn(cur[n := inner[n]], n), inner, weights, list[1..], rest, total + Size(inner[n]));
    }
  }

  /** `inner` holds what `out` holds, under the old names. */
  ghost predicate Matches(inner: map<Name, Node>, out: map<Name, Node>, rename: map<Name, Name>) {
    inner.Keys == rename.Keys && forall n :: n in rename ==> rename[n] in out && out[rename[n]] == inner[n]
  }

  /** The name step of the walk is that of the fold loop. */
  lemma RenameAdvances(e: map<Name, Node>, out: map<Name, Node>, rename: map<Name, Name>, back: map<Name, Name>,
                       done: set<Name>, n: Name)
    requires FoldsTo(e, out, rename, back) && n in e && n !in done && FirstSpelling(e.Keys - done, n)
    ensures n in rename && rename[n] in out
    ensures RenameIn(Midway(e, out, back, done)[n := out[rename[n]]], n) == Midway(e, out, back, done + {n})
  {
    var cur := Midway(e, out, back, done);
    FoldOne(e, out, rename, back, done, n);
    var inner := out[rename[n]];
    assert FoldsAt(e, out, rename, n);
    PutAgain(cur, n, inner);
    if !IsLower(n) {
      TakenIffNotWinner(e, out, rename, back, done, n);
      assert Lower(n) in cur[n := inner] <==> Lower(n) in cur;
      assert cur[n := inner] - {n} == cur - {n};
    }
  }

  lemma {:induction false} LoopFolds(e: map<Name, Node>, out: map<Name, Node>, rename: map<Name, Name>, back: map<Name, Name>,
                                     inner: map<Name, Node>, done: set<Name>, list: seq<Name>)
    requires FoldsTo(e, out, rename, back) && Matches(inner, out, rename)
    requires done <= e.Keys && Listed(e.Keys - done, list)
    ensures InTurn(Midway(e, out, back, done), e, inner, list)
    ensures Loop(Midway(e, out, back, done), inner, list) == out
    decreases |list|
  {
    if list == [] {
      assert done == e.Keys - (e.Keys - done);
      MidwayEnds(e, out, rename, back);
    } else {
      var n := list[0];
      FoldOne(e, out, rename, back, done, n);
      RenameAdvances(e, out, rename, back, done, n);
      assert e.Keys - done - {n} == e.Keys - (done + {n});
      LoopFolds(e, out, rename, back, inner, done + {n}, list[1..]);
    }
  }

  lemma {:induction false} WeightOfListing(e: map<Name, Node>, inner: map<Name, Node>, weights: map<Name, nat>,
                                           done: set<Name>, list: seq<Name>)
    requires e.Keys == inner.Keys == weights.Keys && done <= e.Keys && Listed(e.Keys - done, list)
    requires forall n :: n in e ==> weights[n] == Count(Bytes, e[n]) && Size(inner[n]) == Size(e[n])
    ensures Weight(inner, weights, list) == Count(Bytes, Dir(e - done))
    decreases |list|
  {
    if list == [] {
      assert e - done == map[];
    } else {
      var n := list[0];
      assert e.Keys - done - {n} == e.Keys - (done + {n}) && (e - done) - {n} == e - (done + {n});
      CountSplit(Bytes, e - done, n);
      WeightOfListing(e, inner, weights, done + {n}, list[1..]);
    }
  }

  ghost function FoldedContents(e: map<Name, Node>): (r: map<Name, Node>)
    ensures r.Keys == e.Keys
    ensures forall n :: n in e ==> Size(r[n]) == Size(e[n])
  {
    map n | n in e :: Fold(e[n])
  }

  ghost function ByteCounts(e: map<Name, Node>): (r: map<Name, nat>)
    ensures r.Keys == e.Keys
    ensures forall n :: n in e ==> r[n] == Count(Bytes, e[n])
  {
    map n | n in e :: Count(Bytes, e[n])
  }

  lemma ContentsMatch(x: Node)
    requires x.Dir?
    ensures Matches(FoldedContents(x.entries), Fold(x).entries, NewNames(x))
  {
    forall n | n in x.entries
      ensures NewNames(x)[n] in Fold(x).entries && Fold(x).entries[NewNames(x)[n]] == FoldedContents(x.entries)[n]
    {
      FoldAt(x, n);
    }
  }

  /** Every listing of `e` takes it to `out` and weighs `weight`. */
  ghost predicate Settles(e: map<Name, Node>, inner: map<Name, Node>, weights: map<Name, nat>, out: map<Name, Node>, weight: nat)
    requires inner.Keys == weights.Keys
  {
    forall list {:trigger Listed(e.Keys, list)} :: Listed(e.Keys, list) ==>
      InTurn(e, e, inner, list) && Loop(e, inner, list) == out && Weight(inner, weights, list) == weight
  }

  lemma {:induction false} DirSettles(x: Node, out: map<Name, Node>, rename: map<Name, Name>, back: map<Name, Name>,
                                      inner: map<Name, Node>, weights: map<Name, nat>)
    requires x.Dir? && FoldsTo(x.entries, out, rename, back) && Matches(inner, out, rename)
    requires Midway(x.entries, out, back, {}) == x.entries && weights.Keys == x.entries.Keys
    requires forall n :: n in x.entries ==> weights[n] == Count(Bytes, x.entries[n]) && Size(inner[n]) == Size(x.entries[n])
    ensures Settles(x.entries, inner, weights, out, Count(Bytes, x))
  {
    var e := x.entries;
    assert e.Keys - {} == e.Keys && e - {} == e && Dir(e) == x;
    forall list | Listed(e.Keys, list)
      ensures InTurn(e, e, inner, list) && Loop(e, inner, list) == out
      ensures Weight(inner, weights, list) == Count(Bytes, x)
    {
      LoopFolds(e, out, rename, back, inner, {}, list);
      WeightOfListing(e, inner, weights, {}, list);
    }
  }

  lemma {:induction false} SettledDirRuns(x: Node, inner: map<Name, Node>, weights: map<Name, nat>, out: map<Name, Node>, weight: nat)
    requires x.Dir? && EntriesRun(x.entries, inner, weights) && Settles(x.entries, inner, weights, out, weight)
    ensures Runs(x, Dir(out), weight)
  {
    forall paths, bytes: nat | IsWalk(x, paths) ensures Run(x, bytes, paths) == Ok((Dir(out), bytes + weight)) {
      var list :| Listed(x.entries.Keys, list) && IsLevelWalk(x, list, paths);
      LevelRuns(x, x.entries, inner, weights, list, paths, bytes);
      assert Dir(x.entries) == x;
    }
  }

  lemma FoldSettles(x: Node)
    requires x.Dir?
    ensures Settles(x.entries, FoldedContents(x.entries), ByteCounts(x.entries), Fold(x).entries, Count(Bytes, x))
  {
    FoldIsFoldsTo(x);
    ContentsMatch(x);
    TalliesStart(x.entries, Fold(x).entries, OldNames(x));
    DirSettles(x, Fold(x).entries, NewNames(x), OldNames(x), FoldedContents(x.entries), ByteCounts(x.entries));
  }

  /** Every contents-first walk, with siblings of different names in any order, finds each path
    * where it was listed, leaves exactly the folded tree, and counts every byte of file content once. */
  lemma {:induction false} WalkFolds(x: Node)
    ensures Runs(x, Fold(x), Count(Bytes, x))
  {
    if x.File? {
    } else {
      var inner, weights := FoldedContents(x.entries), ByteCounts(x.entries);
      forall n | n in x.entries ensures Runs(x.entries[n], inner[n], weights[n]) {
        WalkFolds(x.entries[n]);
      }
      FoldSettles(x);
      SettledDirRuns(x, inner, weights, Fold(x).entries, Count(Bytes, x));
    }
  }

  method RunAll(x: Node, paths: seq<Path>) returns (r: Result<(Node, nat)>)
    ensures r == Run(x, 0, paths)
  {
    var cur, total := x, 0;
    assert paths[0..] == paths;
    for i := 0 to |paths|
      invariant Run(cur, total, paths[i..]) == Run(x, 0, paths)
    {
      assert paths[i..][0] == paths[i] && paths[i..][1..] == paths[i + 1..];
      var seen := Visit(cur, paths[i]);
      if seen.Err? {
        return Err;
      }
      cur, total := seen.value.0, total + seen.value.1;
    }
    r := Ok((cur, total));
  }

  /** `finalize_synced_tree_blocking`: never fails, folds the tree, and returns its total size. */
  method FinalizeSyncedTree(x: Node) returns (r: Result<(Node, nat)>)
    ensures r == Ok((Fold(x), Count(Bytes, x)))
  {
    var paths := Walk(x);
    r := RunAll(x, paths);
    WalkFolds(x);
  }
}
