/** The repair pass over a synced tree: the loops of `lowercase.rs`, what they count, and how
  * repeated passes converge.
  */
module Repair {
  import opened Results
  import opened Totals
  import opened CaseFold

  // ---------------------------------------------------------------------------------------
  // Tallies over a tree

  /** What is tallied: entries, mixed-case names, bytes of file content, or the renames a fold
    * would make. */
  datatype Tally = Entries | Mixed | Bytes | Renames

  /** What the entry `n` of a directory holding `names` counts for by itself. */
  ghost function Own(t: Tally, names: set<Name>, n: Name, x: Node): nat {
    match t
    case Entries => 1
    case Mixed => OneIf(!IsLower(n))
    case Bytes => if x.File? then |x.content| else 0
    case Renames => OneIf(!IsLower(n) && IsWinner(names, n))
  }

  /** The tally of everything below `x`. */
  ghost function Count(t: Tally, x: Node): nat
    decreases x, 1
  {
    if x.File? then 0 else Total(Weights(t, x))
  }

  ghost function Weights(t: Tally, x: Node): map<Name, nat>
    requires x.Dir?
    decreases x, 0
  {
    map n | n in x.entries :: Own(t, x.entries.Keys, n, x.entries[n]) + Count(t, x.entries[n])
  }

  lemma {:induction false} CountSplit(t: Tally, e: map<Name, Node>, n: Name)
    requires n in e && t != Renames
    ensures Count(t, Dir(e)) == Own(t, {}, n, e[n]) + Count(t, e[n]) + Count(t, Dir(e - {n}))
  {
    TotalSplit(Weights(t, Dir(e)), n);
    assert Weights(t, Dir(e)) - {n} == Weights(t, Dir(e - {n}));
  }

  lemma {:induction false} CountOfUpdate(t: Tally, e: map<Name, Node>, n: Name, y: Node)
    requires t != Renames
    ensures Count(t, Dir(e[n := y])) == Own(t, {}, n, y) + Count(t, y) + Count(t, Dir(e - {n}))
  {
    CountSplit(t, e[n := y], n);
    assert e[n := y] - {n} == e - {n};
  }

  /** The byte tally is the bytes of the files: each entry adds its own, if it is a file, or those
    * of everything below it. */
  lemma {:induction false} BytesAreThoseOfFiles(e: map<Name, Node>, n: Name)
    requires n in e
    ensures Count(Bytes, Dir(e)) ==
            (match e[n] case File(content) => |content| case Dir(_) => Count(Bytes, e[n])) + Count(Bytes, Dir(e - {n}))
    ensures Count(Bytes, EMPTY) == 0
  {
    CountSplit(Bytes, e, n);
  }

  /** Removing entries lowers both counts, and the entry count strictly unless nothing went. */
  lemma {:induction false} FewerCounts(y: Node, x: Node)
    requires Fewer(y, x)
    ensures Count(Entries, y) <= Count(Entries, x) && Count(Mixed, y) <= Count(Mixed, x)
    ensures Count(Entries, y) == Count(Entries, x) ==> y == x
  {
    if y.Dir? {
      forall n | n in y.entries
        ensures Count(Entries, y.entries[n]) <= Count(Entries, x.entries[n])
        ensures Count(Mixed, y.entries[n]) <= Count(Mixed, x.entries[n])
        ensures Count(Entries, y.entries[n]) == Count(Entries, x.entries[n]) ==> y.entries[n] == x.entries[n]
      {
        FewerCounts(y.entries[n], x.entries[n]);
      }
      var after, before := Weights(Entries, y), Weights(Entries, x);
      TotalFewer(after, before);
      if Total(after) == Total(before) {
        forall n | n in x.entries ensures n in y.entries && y.entries[n] == x.entries[n] {
          TotalSame(after, before, n);
        }
      }
      TotalFewer(Weights(Mixed, y), Weights(Mixed, x));
    }
  }

  /** What folding is to take away from tally `t`: the renames from the mixed-case names, and
    * nothing from the rest. */
  ghost function Taken(t: Tally, x: Node): nat {
    if t == Mixed then Count(Renames, x) else 0
  }

  /** The entry of `x` that folding puts at `k`. */
  ghost function FoldedFrom(x: Node, k: Name): (n: Name)
    requires x.Dir? && k in Fold(x).entries
    ensures n in x.entries && FoldedName(x.entries.Keys, n) == k
  {
    assert exists n :: n in x.entries && FoldedName(x.entries.Keys, n) == k by {
      var n := FoldFrom(x, k);
    }
    var n :| n in x.entries && FoldedName(x.entries.Keys, n) == k;
    n
  }

  ghost function NewNames(x: Node): (r: map<Name, Name>)
    requires x.Dir?
    ensures r.Keys == x.entries.Keys
  {
    map n | n in x.entries :: FoldedName(x.entries.Keys, n)
  }

  ghost function OldNames(x: Node): (r: map<Name, Name>)
    requires x.Dir?
    ensures r.Keys == Fold(x).entries.Keys
  {
    map k | k in Fold(x).entries :: FoldedFrom(x, k)
  }

  lemma {:induction false} RenamesAreInverse(x: Node)
    requires x.Dir?
    ensures Inverse(NewNames(x), OldNames(x))
  {
    forall n | n in NewNames(x) ensures NewNames(x)[n] in OldNames(x) && OldNames(x)[NewNames(x)[n]] == n {
      FoldAt(x, n);
      FoldedNameIsInjective(x.entries.Keys, n, OldNames(x)[NewNames(x)[n]]);
    }
  }

  /** The entry `n` of `e` is found in `moved` at `n'`, and tallies the same but for `taken`. */
  ghost predicate MovedAt(t: Tally, e: map<Name, Node>, moved: map<Name, Node>, n: Name, n': Name, taken: nat) {
    && n in e && n' in moved
    && Own(t, e.Keys, n, e[n]) + Count(t, e[n]) == Own(t, moved.Keys, n', moved[n']) + Count(t, moved[n']) + taken
  }

  lemma {:induction false} MovedTotals(t: Tally, e: map<Name, Node>, moved: map<Name, Node>,
                                       rename: map<Name, Name>, back: map<Name, Name>, taken: map<Name, nat>)
    requires e.Keys == rename.Keys == taken.Keys && moved.Keys == back.Keys && Inverse(rename, back)
    requires forall n :: n in e ==> MovedAt(t, e, moved, n, rename[n], taken[n])
    ensures Count(t, Dir(e)) == Count(t, Dir(moved)) + Total(taken)
  {
    TotalRekey(Weights(t, Dir(e)), rename, back, Weights(t, Dir(moved)), taken);
  }

  ghost function TakenAt(t: Tally, x: Node): (r: map<Name, nat>)
    requires x.Dir?
    ensures r.Keys == x.entries.Keys
  {
    if t == Mixed then Weights(Renames, x) else map n | n in x.entries :: 0
  }

  lemma FoldBalancesAt(t: Tally, x: Node, n: Name)
    requires x.Dir? && n in x.entries && t != Renames
    requires Count(t, x.entries[n]) == Count(t, Fold(x.entries[n])) + Taken(t, x.entries[n])
    ensures MovedAt(t, x.entries, Fold(x).entries, n, NewNames(x)[n], TakenAt(t, x)[n])
  {
    FoldAt(x, n);
  }

  /** Folding keeps every entry and every byte, and lowers the mixed-case names by its renames. */
  lemma {:induction false} FoldCounts(t: Tally, x: Node)
    requires t != Renames
    ensures Count(t, x) == Count(t, Fold(x)) + Taken(t, x)
    decreases x
  {
    if x.Dir? {
      var moved, rename, taken := Fold(x).entries, NewNames(x), TakenAt(t, x);
      forall n | n in x.entries ensures MovedAt(t, x.entries, moved, n, rename[n], taken[n]) {
        FoldCounts(t, x.entries[n]);
        FoldBalancesAt(t, x, n);
      }
      RenamesAreInverse(x);
      MovedTotals(t, x.entries, moved, rename, OldNames(x), taken);
      assert Dir(moved) == Fold(x);
      if t != Mixed {
        TotalIsZero(taken);
      }
    }
  }

  lemma {:induction false} NoRenamesIsFixed(x: Node)
    requires Count(Renames, x) == 0
    ensures Fold(x) == x
  {
    if x.Dir? {
      TotalIsZero(Weights(Renames, x));
      forall n | n in x.entries ensures Fold(x.entries[n]) == x.entries[n] && FoldedName(x.entries.Keys, n) == n {
        assert Weights(Renames, x)[n] == 0;
        NoRenamesIsFixed(x.entries[n]);
      }
      assert (map n | n in x.entries :: Fold(x.entries[n])) == x.entries;
      RenamedIsSame(x.entries);
    }
  }

  // ---------------------------------------------------------------------------------------
  // The loops

  /** Of the mixed-case spellings of its name in `names`, `n` is the first. */
  ghost predicate FirstSpelling(names: set<Name>, n: Name) {
    IsLower(n) || forall m :: m in names && m.folded == n.folded && !IsLower(m) ==> n.spelling <= m.spelling
  }

  /** A directory listing: every name once, the spellings of one name in order. */
  ghost predicate Listed(names: set<Name>, list: seq<Name>) {
    if list == [] then names == {}
    else list[0] in names && FirstSpelling(names, list[0]) && Listed(names - {list[0]}, list[1..])
  }

  lemma {:induction false} LeastSpelling(names: set<Name>) returns (n: Name)
    requires names != {}
    ensures n in names && forall m :: m in names ==> n.spelling <= m.spelling
  {
    n :| n in names;
    var rest := names - {n};
    if rest != {} {
      var m := LeastSpelling(rest);
      if m.spelling < n.spelling {
        n := m;
      }
    }
  }

  method ListDir(names: set<Name>) returns (list: seq<Name>)
    ensures Listed(names, list)
    decreases |names|
  {
    if names == {} {
      return [];
    }
    ghost var least := LeastSpelling(names);
    var n :| n in names && forall m :: m in names ==> n.spelling <= m.spelling;
    var rest := ListDir(names - {n});
    list := [n] + rest;
  }

  /** What is at `n` in `e`. */
  ghost predicate Holds(e: map<Name, Node>, n: Name, o: Option<Node>) {
    (n in e <==> o.Some?) && (n in e ==> e[n] == o.value)
  }

  /** `cur` is `e` with the entries listed so far replaced by what `left` says. */
  ghost predicate Between(cur: map<Name, Node>, e: map<Name, Node>, left: map<Name, Option<Node>>, done: set<Name>) {
    && left.Keys == e.Keys && done <= e.Keys && cur.Keys <= e.Keys
    && (forall n :: n in done ==> Holds(cur, n, left[n]))
    && (forall n :: n in e && n !in done ==> Holds(cur, n, Some(e[n])))
  }

  /** `cur` with what `left` says put at `n`. */
  function Put(cur: map<Name, Node>, n: Name, left: Option<Node>): map<Name, Node> {
    if left.Some? then cur[n := left.value] else cur - {n}
  }

  lemma BetweenStep(cur: map<Name, Node>, e: map<Name, Node>, left: map<Name, Option<Node>>, done: set<Name>, n: Name)
    requires Between(cur, e, left, done) && n in e
    ensures Between(Put(cur, n, left[n]), e, left, done + {n})
  {
  }

  lemma BetweenEnds(cur: map<Name, Node>, r: map<Name, Node>, e: map<Name, Node>, left: map<Name, Option<Node>>)
    requires Between(cur, e, left, e.Keys) && Between(r, e, left, e.Keys)
    ensures cur == r
  {
    forall n | n in e ensures Holds(cur, n, left[n]) && Holds(r, n, left[n]) {
    }
  }

  /** Replacing one entry moves the count by what that entry lost. */
  lemma PutCounts(cur: map<Name, Node>, n: Name, left: Option<Node>, pruned: nat)
    requires n in cur
    requires 1 + Count(Entries, cur[n]) == (if left.Some? then 1 + Count(Entries, left.value) else 0) + pruned
    ensures Count(Entries, Dir(cur)) == Count(Entries, Dir(Put(cur, n, left))) + pruned
  {
    CountSplit(Entries, cur, n);
    if left.Some? {
      CountOfUpdate(Entries, cur, n, left.value);
    }
  }

  ghost function LeftOfInto(d: Node, twin: Node): map<Name, Option<Node>>
    requires d.Dir?
  {
    map n | n in d.entries :: Unaccounted(d.entries[n], Counterpart(twin, n))
  }

  lemma PruneIntoEndsBetween(d: Node, twin: Node)
    requires d.Dir?
    ensures Between(PruneInto(d, twin).entries, d.entries, LeftOfInto(d, twin), d.entries.Keys)
  {
    forall n | n in d.entries ensures Holds(PruneInto(d, twin).entries, n, LeftOfInto(d, twin)[n]) {
    }
  }

  /** One entry of `prune_into_twin`. */
  method PruneEntryIntoTwin(x: Node, counterpart: Option<Node>) returns (left: Option<Node>, pruned: nat)
    ensures left == Unaccounted(x, counterpart)
    ensures 1 + Count(Entries, x) == (if left.Some? then 1 + Count(Entries, left.value) else 0) + pruned
    decreases x, 1
  {
    if counterpart.None? {
      return Some(x), 0;
    }
    var c := counterpart.value;
    if x.Dir? && c.Dir? {
      var rest, p := PruneIntoTwin(x, c);
      if rest.entries == map[] {
        left, pruned := None, p + 1;
      } else {
        left, pruned := Some(rest), p;
      }
    } else if x.Dir? != c.Dir? {
      left, pruned := Some(x), 0;
    } else {
      left, pruned := None, 1;
    }
  }

  /** `prune_into_twin`; the count is exactly the entries that went. */
  method PruneIntoTwin(d: Node, twin: Node) returns (r: Node, pruned: nat)
    requires d.Dir?
    ensures r == PruneInto(d, twin)
    ensures Count(Entries, d) == Count(Entries, r) + pruned
    decreases d, 0
  {
    var list := ListDir(d.entries.Keys);
    var cur := d.entries;
    pruned := 0;
    ghost var done: set<Name> := {};
    ghost var left := LeftOfInto(d, twin);
    assert d.entries.Keys - done == d.entries.Keys && list[0..] == list;
    for i := 0 to |list|
      invariant Listed(d.entries.Keys - done, list[i..])
      invariant Between(cur, d.entries, left, done)
      invariant Count(Entries, d) == Count(Entries, Dir(cur)) + pruned
    {
      var n := list[i];
      assert list[i..][0] == n && list[i..][1..] == list[i + 1..];
      assert d.entries.Keys - done - {n} == d.entries.Keys - (done + {n});
      assert Holds(cur, n, Some(d.entries[n]));
      var l, p := PruneEntryIntoTwin(cur[n], Counterpart(twin, n));
      PutCounts(cur, n, l, p);
      BetweenStep(cur, d.entries, left, done, n);
      cur, pruned, done := Put(cur, n, l), pruned + p, done + {n};
    }
    assert list[|list|..] == [] && done == d.entries.Keys - (d.entries.Keys - done);
    PruneIntoEndsBetween(d, twin);
    BetweenEnds(cur, PruneInto(d, twin).entries, d.entries, left);
    r := Dir(cur);
  }

  /** What `prune_dir` leaves of an entry, given the lowercase sibling if there is one. */
  ghost function KeptFrom(x: Node, n: Name, twin: Option<Node>): Option<Node> {
    if IsLower(n) || twin.None? then Some(Prune(x))
    else if x.File? then None
    else
      var rest := PruneInto(Prune(x), twin.value);
      if rest == EMPTY then None else Some(rest)
  }

  lemma KeptFromSibling(d: Node, n: Name, twin: Option<Node>)
    requires d.Dir? && n in d.entries
    requires if Lower(n) in d.entries then twin == Some(d.entries[Lower(n)]) || twin == Some(Prune(d.entries[Lower(n)]))
             else twin == None
    ensures KeptFrom(d.entries[n], n, twin) == KeptAt(d, n)
  {
    if !IsLower(n) && Lower(n) in d.entries && d.entries[n].Dir? {
      var t := d.entries[Lower(n)];
      PruneKeepsLowerPart(t);
      PruneIntoSeesLowerPart(Prune(d.entries[n]), t);
      PruneIntoSeesLowerPart(Prune(d.entries[n]), Prune(t));
    }
  }

  /** One entry of `prune_dir`: its own contents first, then the entry itself. */
  method PruneEntry(x: Node, n: Name, twin: Option<Node>) returns (left: Option<Node>, pruned: nat)
    ensures left == KeptFrom(x, n, twin)
    ensures 1 + Count(Entries, x) == (if left.Some? then 1 + Count(Entries, left.value) else 0) + pruned
    decreases x, 1
  {
    var inner;
    inner, pruned := PruneTree(x);
    if IsLower(n) || twin.None? {
      left := Some(inner);
    } else if x.Dir? {
      var rest, p := PruneIntoTwin(inner, twin.value);
      pruned := pruned + p;
      if rest.entries == map[] {
        left, pruned := None, pruned + 1;
      } else {
        left := Some(rest);
      }
    } else {
      left, pruned := None, pruned + 1;
    }
  }

  ghost function LeftOf(d: Node): map<Name, Option<Node>>
    requires d.Dir?
  {
    map n | n in d.entries :: KeptAt(d, n)
  }

  lemma PruneEndsBetween(d: Node)
    requires d.Dir?
    ensures Between(Prune(d).entries, d.entries, LeftOf(d), d.entries.Keys)
  {
    forall n | n in d.entries ensures Holds(Prune(d).entries, n, LeftOf(d)[n]) {
    }
  }

  /** The lowercase sibling is always there, pruned already or not. */
  lemma TwinIsThere(cur: map<Name, Node>, d: Node, done: set<Name>, n: Name, twin: Option<Node>)
    requires d.Dir? && n in d.entries && Between(cur, d.entries, LeftOf(d), done)
    requires twin == if Lower(n) in cur then Some(cur[Lower(n)]) else None
    ensures KeptFrom(d.entries[n], n, twin) == KeptAt(d, n)
  {
    var t := Lower(n);
    if t in d.entries {
      assert Holds(cur, t, LeftOf(d)[t]) || Holds(cur, t, Some(d.entries[t]));
      assert KeptAt(d, t) == Some(Prune(d.entries[t]));
    }
    KeptFromSibling(d, n, twin);
  }

  /** `prune_mixed_case_duplicates`; the count is exactly the entries that went. */
  method PruneTree(x: Node) returns (r: Node, pruned: nat)
    ensures r == Prune(x)
    ensures Count(Entries, x) == Count(Entries, r) + pruned
    decreases x, 0
  {
    if x.File? {
      return x, 0;
    }
    var list := ListDir(x.entries.Keys);
    var cur := x.entries;
    pruned := 0;
    ghost var done: set<Name> := {};
    ghost var left := LeftOf(x);
    assert x.entries.Keys - done == x.entries.Keys && list[0..] == list;
    for i := 0 to |list|
      invariant Listed(x.entries.Keys - done, list[i..])
      invariant Between(cur, x.entries, left, done)
      invariant Count(Entries, x) == Count(Entries, Dir(cur)) + pruned
    {
      var n := list[i];
      assert list[i..][0] == n && list[i..][1..] == list[i + 1..];
      assert x.entries.Keys - done - {n} == x.entries.Keys - (done + {n});
      assert Holds(cur, n, Some(x.entries[n]));
      var twin := if Lower(n) in cur then Some(cur[Lower(n)]) else None;
      TwinIsThere(cur, x, done, n, twin);
      var l, p := PruneEntry(cur[n], n, twin);
      PutCounts(cur, n, l, p);
      BetweenStep(cur, x.entries, left, done, n);
      cur, pruned, done := Put(cur, n, l), pruned + p, done + {n};
    }
    assert list[|list|..] == [] && done == x.entries.Keys - (x.entries.Keys - done);
    PruneEndsBetween(x);
    BetweenEnds(cur, Prune(x).entries, x.entries, left);
    r := Dir(cur);
  }

  // ---------------------------------------------------------------------------------------
  // The fold loop

  /** Of the folded directory `out`, whose entry at `k` comes from `back[k]`, the part that
    * comes from the entries `done`. */
  ghost function Settled(out: map<Name, Node>, back: map<Name, Name>, done: set<Name>): map<Name, Node>
    requires out.Keys == back.Keys
  {
    map k | k in out && back[k] in done :: out[k]
  }

  /** The directory `e` once the entries `done` have been folded and the others not yet. */
  ghost function Midway(e: map<Name, Node>, out: map<Name, Node>, back: map<Name, Name>, done: set<Name>): map<Name, Node>
    requires out.Keys == back.Keys
  {
    (e - done) + Settled(out, back, done)
  }

  /** Entries are renamed one-to-one, and never onto a name in use. */
  ghost predicate Renaming(names: set<Name>, out: map<Name, Node>, rename: map<Name, Name>, back: map<Name, Name>) {
    && names == rename.Keys && out.Keys == back.Keys && Inverse(rename, back)
    && (forall n :: n in rename ==> rename[n] == n || rename[n] !in names)
  }

  /** `out` holds the entry `n` of `e`, folded, at its folded name. */
  ghost predicate FoldsAt(e: map<Name, Node>, out: map<Name, Node>, rename: map<Name, Name>, n: Name) {
    && n in e && n in rename && rename[n] == FoldedName(e.Keys, n)
    && rename[n] in out && out[rename[n]] == Fold(e[n])
  }

  /** `out` holds every entry of `e`, folded, at its folded name, and nothing else. */
  ghost predicate FoldsTo(e: map<Name, Node>, out: map<Name, Node>, rename: map<Name, Name>, back: map<Name, Name>) {
    && Renaming(e.Keys, out, rename, back)
    && forall n {:trigger FoldsAt(e, out, rename, n)} :: n in e ==> FoldsAt(e, out, rename, n)
  }

  lemma FoldIsFoldsTo(x: Node)
    requires x.Dir?
    ensures FoldsTo(x.entries, Fold(x).entries, NewNames(x), OldNames(x))
  {
    RenamesAreInverse(x);
    forall n | n in x.entries ensures FoldsAt(x.entries, Fold(x).entries, NewNames(x), n) {
      FoldAt(x, n);
    }
  }

  lemma SettleOne(names: set<Name>, out: map<Name, Node>, rename: map<Name, Name>, back: map<Name, Name>, done: set<Name>, n: Name)
    requires Renaming(names, out, rename, back) && n in names && n !in done
    ensures rename[n] in out && rename[n] !in Settled(out, back, done)
    ensures Settled(out, back, done + {n}) == Settled(out, back, done)[rename[n] := out[rename[n]]]
  {
  }

  /** Renaming or keeping one entry takes the directory one step on. */
  lemma FoldOne(e: map<Name, Node>, out: map<Name, Node>, rename: map<Name, Name>, back: map<Name, Name>, done: set<Name>, n: Name)
    requires Renaming(e.Keys, out, rename, back) && n in e && n !in done
    ensures rename[n] in out
    ensures Midway(e, out, back, done + {n}) == (Midway(e, out, back, done) - {n})[rename[n] := out[rename[n]]]
    ensures n in Midway(e, out, back, done) && Midway(e, out, back, done)[n] == e[n]
  {
    SettleOne(e.Keys, out, rename, back, done, n);
    assert n !in Settled(out, back, done);
    assert e - (done + {n}) == (e - done) - {n};
    assert rename[n] !in e - (done + {n});
  }

  /** A mixed-case entry finds its folded name taken exactly when it is not the winner. */
  lemma TakenIffNotWinner(e: map<Name, Node>, out: map<Name, Node>, rename: map<Name, Name>, back: map<Name, Name>, done: set<Name>, n: Name)
    requires FoldsTo(e, out, rename, back)
    requires n in e && n !in done && !IsLower(n) && FirstSpelling(e.Keys - done, n)
    ensures Lower(n) in Midway(e, out, back, done) <==> !IsWinner(e.Keys, n)
  {
    if IsWinner(e.Keys, n) {
      assert FoldsAt(e, out, rename, n);
    } else if Lower(n) in e {
      assert FoldsAt(e, out, rename, Lower(n));
    } else {
      var w := ClassHasWinner(e.Keys, n);
      assert FoldsAt(e, out, rename, w);
    }
  }

  lemma CountOfNew(e: map<Name, Node>, n: Name, x: Node)
    requires n !in e
    ensures Count(Mixed, Dir(e[n := x])) == OneIf(!IsLower(n)) + Count(Mixed, x) + Count(Mixed, Dir(e))
  {
    CountOfUpdate(Mixed, e, n, x);
    assert e - {n} == e;
  }

  /** What one step of the fold loop does to the tallies. */
  lemma FoldOneCounts(x: Node, y: Node, read: map<Name, Node>, settled: map<Name, Node>, n: Name, k: Name)
    requires n !in read && k !in settled && Count(Mixed, x) == Count(Mixed, y) + Count(Renames, x)
    ensures Count(Mixed, Dir(read[n := x])) == OneIf(!IsLower(n)) + Count(Mixed, y) + Count(Renames, x) + Count(Mixed, Dir(read))
    ensures Count(Mixed, Dir(settled[k := y])) == OneIf(!IsLower(k)) + Count(Mixed, y) + Count(Mixed, Dir(settled))
  {
    CountOfNew(read, n, x);
    CountOfNew(settled, k, y);
  }

  ghost function ReadSoFar(e: map<Name, Node>, done: set<Name>): map<Name, Node> {
    map n | n in e && n in done :: e[n]
  }

  lemma ReadOne(e: map<Name, Node>, done: set<Name>, n: Name)
    requires n in e
    ensures ReadSoFar(e, done + {n}) == ReadSoFar(e, done)[n := e[n]]
  {
  }

  /** The tallies of the fold loop after the entries `done`. */
  ghost predicate TalliesSoFar(e: map<Name, Node>, out: map<Name, Node>, back: map<Name, Name>, done: set<Name>,
                               renamed: nat, collisions: nat)
    requires out.Keys == back.Keys
  {
    && collisions == Count(Mixed, Dir(Settled(out, back, done)))
    && renamed + collisions == Count(Mixed, Dir(ReadSoFar(e, done)))
  }

  lemma TalliesStart(e: map<Name, Node>, out: map<Name, Node>, back: map<Name, Name>)
    requires out.Keys == back.Keys
    ensures TalliesSoFar(e, out, back, {}, 0, 0)
    ensures Midway(e, out, back, {}) == e
  {
    assert Settled(out, back, {}) == map[];
    assert ReadSoFar(e, {}) == map[];
  }

  lemma TalliesEnd(e: map<Name, Node>, out: map<Name, Node>, rename: map<Name, Name>, back: map<Name, Name>, renamed: nat, collisions: nat)
    requires Renaming(e.Keys, out, rename, back) && TalliesSoFar(e, out, back, e.Keys, renamed, collisions)
    ensures collisions == Count(Mixed, Dir(out)) && renamed + collisions == Count(Mixed, Dir(e))
  {
    assert Settled(out, back, e.Keys) == out;
    assert ReadSoFar(e, e.Keys) == e;
  }

  lemma MidwayEnds(e: map<Name, Node>, out: map<Name, Node>, rename: map<Name, Name>, back: map<Name, Name>)
    requires Renaming(e.Keys, out, rename, back)
    ensures Midway(e, out, back, e.Keys) == out
  {
    assert Settled(out, back, e.Keys) == out;
  }

  lemma TalliesStep(e: map<Name, Node>, out: map<Name, Node>, rename: map<Name, Name>, back: map<Name, Name>,
                    done: set<Name>, n: Name, renamed: nat, collisions: nat, moves: bool)
    requires Renaming(e.Keys, out, rename, back) && TalliesSoFar(e, out, back, done, renamed, collisions)
    requires n !in done && FoldsAt(e, out, rename, n) && moves == (!IsLower(n) && IsWinner(e.Keys, n))
    ensures TalliesSoFar(e, out, back, done + {n},
                         renamed + Count(Renames, e[n]) + OneIf(moves),
                         collisions + Count(Mixed, Fold(e[n])) + OneIf(!IsLower(n) && !moves))
  {
    SettleOne(e.Keys, out, rename, back, done, n);
    FoldCounts(Mixed, e[n]);
    FoldOneCounts(e[n], Fold(e[n]), ReadSoFar(e, done), Settled(out, back, done), n, rename[n]);
    ReadOne(e, done, n);
  }

  lemma PutAgain(cur: map<Name, Node>, n: Name, x: Node)
    ensures cur[n := x] == (cur - {n})[n := x]
  {
  }

  /** The name of one entry, once its own contents are folded. */
  method FoldName(cur: map<Name, Node>, n: Name, inner: Node, ghost e: map<Name, Node>, ghost out: map<Name, Node>,
                   ghost rename: map<Name, Name>, ghost back: map<Name, Name>, ghost done: set<Name>)
    returns (cur': map<Name, Node>, moved: bool, collided: bool)
    requires FoldsTo(e, out, rename, back) && cur == Midway(e, out, back, done)
    requires n in e && n !in done && FirstSpelling(e.Keys - done, n) && inner == Fold(e[n])
    ensures cur' == Midway(e, out, back, done + {n})
    ensures moved == (!IsLower(n) && IsWinner(e.Keys, n)) && collided == (!IsLower(n) && !moved)
  {
    assert FoldsAt(e, out, rename, n);
    FoldOne(e, out, rename, back, done, n);
    moved, collided := false, false;
    if IsLower(n) {
      cur' := cur[n := inner];
    } else {
      TakenIffNotWinner(e, out, rename, back, done, n);
      if Lower(n) in cur {
        collided := true;
        cur' := cur[n := inner];
      } else {
        cur' := (cur - {n})[Lower(n) := inner];
        moved := true;
      }
    }
    PutAgain(cur, n, inner);
  }

  /** One entry of the loop. */
  method FoldEntry(cur: map<Name, Node>, n: Name, renamed: nat, collisions: nat, ghost e: map<Name, Node>, ghost out: map<Name, Node>,
                   ghost rename: map<Name, Name>, ghost back: map<Name, Name>, ghost done: set<Name>)
    returns (cur': map<Name, Node>, renamed': nat, collisions': nat)
    requires FoldsTo(e, out, rename, back) && cur == Midway(e, out, back, done)
    requires n in e && n !in done && FirstSpelling(e.Keys - done, n)
    requires TalliesSoFar(e, out, back, done, renamed, collisions)
    ensures cur' == Midway(e, out, back, done + {n})
    ensures TalliesSoFar(e, out, back, done + {n}, renamed', collisions')
    decreases Dir(e), 0
  {
    FoldOne(e, out, rename, back, done, n);
    assert FoldsAt(e, out, rename, n);
    assert e[n] == Dir(e).entries[n];
    var inner, re, co := FoldTree(cur[n]);
    var moved, collided;
    cur', moved, collided := FoldName(cur, n, inner, e, out, rename, back, done);
    TalliesStep(e, out, rename, back, done, n, renamed, collisions, moved);
    renamed' := renamed + re + (if moved then 1 else 0);
    collisions' := collisions + co + (if collided then 1 else 0);
  }

  /** The loop of `fold_dir`: contents first, then each name unless its folded form is taken. */
  method FoldDir(e: map<Name, Node>, ghost out: map<Name, Node>, ghost rename: map<Name, Name>, ghost back: map<Name, Name>)
    returns (cur: map<Name, Node>, renamed: nat, collisions: nat)
    requires FoldsTo(e, out, rename, back)
    ensures cur == out && collisions == Count(Mixed, Dir(out)) && renamed + collisions == Count(Mixed, Dir(e))
    decreases Dir(e), 1
  {
    var list := ListDir(e.Keys);
    cur, renamed, collisions := e, 0, 0;
    ghost var done: set<Name> := {};
    assert e.Keys - done == e.Keys && list[0..] == list;
    TalliesStart(e, out, back);
    for i := 0 to |list|
      invariant done <= e.Keys && Listed(e.Keys - done, list[i..])
      invariant cur == Midway(e, out, back, done)
      invariant TalliesSoFar(e, out, back, done, renamed, collisions)
    {
      var n := list[i];
      assert list[i..][0] == n && list[i..][1..] == list[i + 1..];
      assert e.Keys - done - {n} == e.Keys - (done + {n});
      cur, renamed, collisions := FoldEntry(cur, n, renamed, collisions, e, out, rename, back, done);
      done := done + {n};
    }
    assert list[|list|..] == [] && done == e.Keys - (e.Keys - done);
    MidwayEnds(e, out, rename, back);
    TalliesEnd(e, out, rename, back, renamed, collisions);
  }

  /** `lowercase_tree`. The renames reported are those a fold makes, the collisions the
    * mixed-case names left. */
  method FoldTree(x: Node) returns (r: Node, renamed: nat, collisions: nat)
    ensures r == Fold(x)
    ensures renamed == Count(Renames, x)
    ensures collisions == Count(Mixed, r)
    decreases x, 2
  {
    if x.File? {
      return x, 0, 0;
    }
    FoldIsFoldsTo(x);
    FoldCounts(Mixed, x);
    var cur;
    assert Dir(x.entries) == x;
    cur, renamed, collisions := FoldDir(x.entries, Fold(x).entries, NewNames(x), OldNames(x));
    r := Dir(cur);
  }

  // ---------------------------------------------------------------------------------------
  // Whole passes

  ghost function Repaired(x: Node): Node {
    Fold(Prune(x))
  }

  /** Entries plus mixed-case names: what a pass uses up. */
  ghost function Disorder(x: Node): nat {
    Count(Entries, x) + Count(Mixed, x)
  }

  /** `repair_folded_tree`: prune, then fold. A pass that reports nothing changed nothing; any
    * other lowers the disorder by at least what it reports. */
  method RepairFoldedTree(x: Node) returns (r: Node, pruned: nat, renamed: nat, collisions: nat)
    ensures r == Repaired(x)
    ensures pruned == 0 && renamed == 0 ==> r == x
    ensures Disorder(r) + pruned + renamed <= Disorder(x)
    ensures collisions == Count(Mixed, r)
  {
    var p;
    p, pruned := PruneTree(x);
    r, renamed, collisions := FoldTree(p);
    PruneAccounts(x, pruned);
    FoldAccounts(p);
  }

  lemma {:induction false} PruneAccounts(x: Node, pruned: nat)
    requires Count(Entries, x) == Count(Entries, Prune(x)) + pruned
    ensures Disorder(Prune(x)) + pruned <= Disorder(x)
    ensures pruned == 0 ==> Prune(x) == x
  {
    PruneIsFewer(x);
    FewerCounts(Prune(x), x);
  }

  lemma {:induction false} FoldAccounts(x: Node)
    ensures Disorder(Fold(x)) + Count(Renames, x) == Disorder(x)
    ensures Count(Renames, x) == 0 ==> Fold(x) == x
  {
    FoldCounts(Entries, x);
    FoldCounts(Mixed, x);
    if Count(Renames, x) == 0 {
      NoRenamesIsFixed(x);
    }
  }

  lemma {:induction false} PruneLowersDisorder(x: Node)
    ensures Disorder(Prune(x)) <= Disorder(x)
    ensures Disorder(Prune(x)) == Disorder(x) ==> Prune(x) == x
  {
    PruneIsFewer(x);
    FewerCounts(Prune(x), x);
  }

  lemma {:induction false} RepairLowersDisorder(x: Node)
    ensures Disorder(Repaired(x)) <= Disorder(x)
    ensures Disorder(Repaired(x)) == Disorder(x) ==> Prune(x) == x && Fold(x) == x
  {
    PruneLowersDisorder(x);
    FoldAccounts(Prune(x));
  }

  /** A tree is left alone by a pass exactly when no mixed-case entry is accounted for by its
    * twin and every mixed-case name left is blocked by its lowercase form. */
  lemma {:induction false} SettledTreeIff(x: Node)
    ensures Repaired(x) == x <==> Pruned(x) && Folded(x)
  {
    if Repaired(x) == x {
      RepairLowersDisorder(x);
      PruneIsPruned(x);
      FoldIsFolded(x);
    }
    if Pruned(x) && Folded(x) {
      PrunedIsFixed(x);
      FoldedIsFixed(x);
    }
  }

  ghost function Iterate<T>(step: T -> T, x: T, k: nat): T
    decreases k
  {
    if k == 0 then x else Iterate(step, step(x), k - 1)
  }

  /** A step that changes nothing unless it lowers a measure reaches a fixed point. */
  lemma {:induction false} IterationConverges<T(!new)>(step: T -> T, measure: T -> nat, x: T, bound: nat) returns (k: nat)
    requires forall y :: measure(step(y)) < measure(y) || step(y) == y
    requires measure(x) <= bound
    ensures k <= bound && step(Iterate(step, x, k)) == Iterate(step, x, k)
    decreases bound
  {
    if step(x) == x {
      k := 0;
    } else {
      var j := IterationConverges(step, measure, step(x), bound - 1);
      k := j + 1;
    }
  }

  /** Repeated passes reach a tree that no further pass changes, within `Disorder(x)` passes. */
  lemma {:induction false} RepairConverges(x: Node) returns (k: nat)
    ensures k <= Disorder(x)
    ensures Repaired(Iterate(Repaired, x, k)) == Iterate(Repaired, x, k)
  {
    forall y: Node ensures Disorder(Repaired(y)) < Disorder(y) || Repaired(y) == y {
      RepairLowersDisorder(y);
    }
    k := IterationConverges(Repaired, Disorder, x, Disorder(x));
  }
}
