/** Directory trees and the two case-folding passes over them, as functions of the tree.
  *
  * `Prune` is what `prune_mixed_case_duplicates` leaves, `Fold` what `lowercase_tree` leaves.
  * Both are defined entry by entry, with no traversal order in them; `Repair` shows that the
  * in-order loops compute them.
  */
module CaseFold {
  import opened Results

  /** A file name, as its lowercased form and which spelling of it this is. Spelling 0 is the
    * lowercase form itself; the others are numbered in directory-listing order. Every
    * idempotent lowercasing has this shape. */
  datatype Name = Name(folded: string, spelling: nat)

  function Lower(n: Name): Name {
    Name(n.folded, 0)
  }

  predicate IsLower(n: Name) {
    n.spelling == 0
  }

  /** A symlink is a leaf like any file: neither pass follows one. */
  datatype Node = File(content: string) | Dir(entries: map<Name, Node>)

  const EMPTY := Dir(map[])

  // ---------------------------------------------------------------------------------------
  // Prune

  /** What `twin` holds under the folded name of `n`. */
  function Counterpart(twin: Node, n: Name): Option<Node> {
    if twin.Dir? && Lower(n) in twin.entries then Some(twin.entries[Lower(n)]) else None
  }

  /** What is left of an entry once whatever its counterpart already accounts for is dropped. */
  function Unaccounted(x: Node, counterpart: Option<Node>): Option<Node>
    decreases x, 2
  {
    match counterpart
    case None => Some(x)
    case Some(c) =>
      if x.Dir? && c.Dir? then
        var rest := PruneInto(x, c);
        if rest == EMPTY then None else Some(rest)
      else if x.Dir? != c.Dir? then
        Some(x)
      else
        None
  }

  /** `prune_into_twin`: drop from `d` everything `twin` holds under the folded name. */
  function PruneInto(d: Node, twin: Node): (r: Node)
    requires d.Dir?
    ensures r.Dir?
    decreases d, 1
  {
    Dir(map n | n in d.entries && Unaccounted(d.entries[n], Counterpart(twin, n)).Some?
          :: Unaccounted(d.entries[n], Counterpart(twin, n)).value)
  }

  /** What `prune_dir` leaves at `n` of the directory `d`. */
  function KeptAt(d: Node, n: Name): Option<Node>
    requires d.Dir? && n in d.entries
    decreases d, 0
  {
    var x := Prune(d.entries[n]);
    if IsLower(n) || Lower(n) !in d.entries then
      Some(x)
    else if x.File? then
      None
    else
      var rest := PruneInto(x, d.entries[Lower(n)]);
      if rest == EMPTY then None else Some(rest)
  }

  function Prune(x: Node): (r: Node)
    ensures r.Dir? == x.Dir?
    decreases x, 1
  {
    match x
    case File(_) => x
    case Dir(_) => Dir(map n | n in x.entries && KeptAt(x, n).Some? :: KeptAt(x, n).value)
  }

  /** The part of the tree reached through lowercase names only. */
  function LowerPart(x: Node): (r: Node)
    ensures r.Dir? == x.Dir?
  {
    match x
    case File(_) => x
    case Dir(e) => Dir(map n | n in e && IsLower(n) :: LowerPart(e[n]))
  }

  /** A twin matters only through its lowercase part, */
  lemma {:induction false} PruneIntoSeesLowerPart(d: Node, twin: Node)
    requires d.Dir?
    ensures PruneInto(d, twin) == PruneInto(d, LowerPart(twin))
    decreases d
  {
    forall n | n in d.entries
      ensures Unaccounted(d.entries[n], Counterpart(twin, n)) == Unaccounted(d.entries[n], Counterpart(LowerPart(twin), n))
    {
      if twin.Dir? && Lower(n) in twin.entries && d.entries[n].Dir? {
        PruneIntoSeesLowerPart(d.entries[n], twin.entries[Lower(n)]);
      }
    }
  }

  /** and pruning never touches the lowercase part, so it cannot matter whether the twin has
    * been pruned yet. */
  lemma {:induction false} PruneKeepsLowerPart(x: Node)
    ensures LowerPart(Prune(x)) == LowerPart(x)
  {
    if x.Dir? {
      forall n | n in x.entries && IsLower(n) ensures LowerPart(Prune(x.entries[n])) == LowerPart(x.entries[n]) {
        PruneKeepsLowerPart(x.entries[n]);
      }
    }
  }

  // ---------------------------------------------------------------------------------------
  // Prune keeps every folded file path that is not shadowed

  /** Some file of `x` has the component-wise lowercased path `p`. */
  ghost predicate HasFile(x: Node, p: seq<string>) {
    match x
    case File(_) => p == []
    case Dir(e) => p != [] && exists n :: n in e && n.folded == p[0] && HasFile(e[n], p[1..])
  }

  /** A mixed-case file beside a directory that bears its lowercase name. */
  predicate Shadowed(e: map<Name, Node>, n: Name) {
    n in e && e[n].File? && !IsLower(n) && Lower(n) in e && e[Lower(n)].Dir?
  }

  /** Some file of `x` that is not shadowed has the component-wise lowercased path `p`. */
  ghost predicate HasUnshadowedFile(x: Node, p: seq<string>) {
    match x
    case File(_) => p == []
    case Dir(e) =>
      p != [] && exists n :: n in e && n.folded == p[0] && !Shadowed(e, n) && HasUnshadowedFile(e[n], p[1..])
  }

  lemma {:induction false} LowerPartHasFewer(x: Node, p: seq<string>)
    requires HasFile(LowerPart(x), p)
    ensures HasFile(x, p)
  {
    if x.Dir? {
      var n :| n in LowerPart(x).entries && n.folded == p[0] && HasFile(LowerPart(x).entries[n], p[1..]);
      LowerPartHasFewer(x.entries[n], p[1..]);
    }
  }

  /** Pruning into a twin adds nothing and drops only what the twin's lowercase part has. */
  lemma {:induction false} PruneIntoKeeps(d: Node, twin: Node, p: seq<string>)
    requires d.Dir?
    ensures HasFile(PruneInto(d, twin), p) ==> HasFile(d, p)
    ensures HasFile(d, p) ==> HasFile(PruneInto(d, twin), p) || HasFile(LowerPart(twin), p)
    decreases d
  {
    var r := PruneInto(d, twin);
    if HasFile(r, p) {
      var n :| n in r.entries && n.folded == p[0] && HasFile(r.entries[n], p[1..]);
      assert Unaccounted(d.entries[n], Counterpart(twin, n)) == Some(r.entries[n]);
      if d.entries[n].Dir? && Counterpart(twin, n).Some? {
        PruneIntoKeeps(d.entries[n], twin.entries[Lower(n)], p[1..]);
      }
    }
    if HasFile(d, p) {
      var n :| n in d.entries && n.folded == p[0] && HasFile(d.entries[n], p[1..]);
      if Counterpart(twin, n).Some? {
        var c := twin.entries[Lower(n)];
        assert LowerPart(twin).entries[Lower(n)] == LowerPart(c);
        if d.entries[n].Dir? {
          PruneIntoKeeps(d.entries[n], c, p[1..]);
        }
      }
    }
  }

  /** Exactly the folded paths of unshadowed files survive a prune. */
  lemma {:induction false} PruneKeepsUnshadowed(x: Node, p: seq<string>)
    ensures HasFile(Prune(x), p) <==> HasUnshadowedFile(x, p)
  {
    if x.Dir? {
      var r := Prune(x);
      if HasFile(r, p) {
        var n :| n in r.entries && n.folded == p[0] && HasFile(r.entries[n], p[1..]);
        PruneKeepsUnshadowed(x.entries[n], p[1..]);
        assert KeptAt(x, n) == Some(r.entries[n]);
        if !IsLower(n) && Lower(n) in x.entries {
          PruneIntoKeeps(Prune(x.entries[n]), x.entries[Lower(n)], p[1..]);
        }
      }
      if HasUnshadowedFile(x, p) {
        var n :| n in x.entries && n.folded == p[0] && !Shadowed(x.entries, n) && HasUnshadowedFile(x.entries[n], p[1..]);
        PruneKeepsUnshadowed(x.entries[n], p[1..]);
        SurvivesSomewhere(x, n, p[1..]);
      }
    }
  }

  lemma {:induction false} SurvivesSomewhere(x: Node, n: Name, q: seq<string>)
    requires x.Dir? && n in x.entries && !Shadowed(x.entries, n) && HasFile(Prune(x.entries[n]), q)
    ensures HasFile(Prune(x), [n.folded] + q)
  {
    var r, p := Prune(x), [n.folded] + q;
    assert p[1..] == q;
    if n !in r.entries || !HasFile(r.entries[n], q) {
      var t := Lower(n);
      assert KeptAt(x, n) == None || KeptAt(x, n) == Some(r.entries[n]);
      assert KeptAt(x, t) == Some(Prune(x.entries[t]));
      assert t in r.entries && r.entries[t] == Prune(x.entries[t]);
      if x.entries[n].Dir? {
        PruneIntoKeeps(Prune(x.entries[n]), x.entries[t], q);
        PruneKeepsLowerPart(x.entries[t]);
        LowerPartHasFewer(Prune(x.entries[t]), q);
      }
      assert HasFile(r.entries[t], q);
    }
  }

  /** Pruning loses no folded path if and only if every shadowed file has an unshadowed one
    * under the same folded path. */
  lemma {:induction false} PruneLosesNothingIff(x: Node)
    ensures (forall p :: HasFile(x, p) ==> HasFile(Prune(x), p)) <==>
            (forall p :: HasFile(x, p) ==> HasUnshadowedFile(x, p))
    ensures forall p :: HasFile(Prune(x), p) ==> HasFile(x, p)
  {
    forall p ensures HasFile(Prune(x), p) <==> HasUnshadowedFile(x, p) {
      PruneKeepsUnshadowed(x, p);
    }
    forall p | HasUnshadowedFile(x, p) ensures HasFile(x, p) {
      UnshadowedIsFile(x, p);
    }
  }

  lemma {:induction false} UnshadowedIsFile(x: Node, p: seq<string>)
    requires HasUnshadowedFile(x, p)
    ensures HasFile(x, p)
  {
    if x.Dir? {
      var n :| n in x.entries && n.folded == p[0] && !Shadowed(x.entries, n) && HasUnshadowedFile(x.entries[n], p[1..]);
      UnshadowedIsFile(x.entries[n], p[1..]);
    }
  }

  ghost predicate NothingShadowed(x: Node) {
    x.Dir? ==> forall n :: n in x.entries ==> !Shadowed(x.entries, n) && NothingShadowed(x.entries[n])
  }

  /** In particular nothing is lost when no mixed-case file sits beside a directory that bears
    * its lowercase name. */
  lemma {:induction false} PruneLosesNothing(x: Node, p: seq<string>)
    requires NothingShadowed(x)
    ensures HasFile(Prune(x), p) <==> HasFile(x, p)
  {
    PruneKeepsUnshadowed(x, p);
    NothingShadowedFiles(x, p);
  }

  lemma {:induction false} NothingShadowedFiles(x: Node, p: seq<string>)
    requires NothingShadowed(x)
    ensures HasUnshadowedFile(x, p) <==> HasFile(x, p)
  {
    if x.Dir? && p != [] {
      forall n | n in x.entries ensures HasUnshadowedFile(x.entries[n], p[1..]) <==> HasFile(x.entries[n], p[1..]) {
        NothingShadowedFiles(x.entries[n], p[1..]);
      }
    }
  }

  /** A shadowed file really is lost: the file arm of `prune_dir` does not compare kinds. */
  lemma ShadowedFileIsLost()
    ensures var x := Dir(map[Name("a", 0) := EMPTY, Name("a", 1) := File("only copy")]);
            HasFile(x, ["a"]) && !HasFile(Prune(x), ["a"])
  {
    var x := Dir(map[Name("a", 0) := EMPTY, Name("a", 1) := File("only copy")]);
    assert x.entries[Name("a", 1)] == File("only copy");
    PruneKeepsUnshadowed(x, ["a"]);
    assert Shadowed(x.entries, Name("a", 1));
  }

  // ---------------------------------------------------------------------------------------
  // Prune is idempotent

  /** `y` is `x` with some entries removed. */
  ghost predicate Fewer(y: Node, x: Node) {
    match y
    case File(_) => y == x
    case Dir(e) => x.Dir? && e.Keys <= x.entries.Keys && forall n :: n in e ==> Fewer(e[n], x.entries[n])
  }

  lemma {:induction false} FewerSame(x: Node)
    ensures Fewer(x, x)
  {
    if x.Dir? {
      forall n | n in x.entries ensures Fewer(x.entries[n], x.entries[n]) {
        FewerSame(x.entries[n]);
      }
    }
  }

  lemma {:induction false} FewerStill(z: Node, y: Node, x: Node)
    requires Fewer(z, y) && Fewer(y, x)
    ensures Fewer(z, x)
  {
    if z.Dir? {
      forall n | n in z.entries ensures Fewer(z.entries[n], x.entries[n]) {
        FewerStill(z.entries[n], y.entries[n], x.entries[n]);
      }
    }
  }

  lemma {:induction false} PruneIntoIsFewer(d: Node, twin: Node)
    requires d.Dir?
    ensures Fewer(PruneInto(d, twin), d)
    decreases d
  {
    var r := PruneInto(d, twin);
    forall n | n in r.entries ensures Fewer(r.entries[n], d.entries[n]) {
      assert Unaccounted(d.entries[n], Counterpart(twin, n)) == Some(r.entries[n]);
      FewerSame(d.entries[n]);
      if d.entries[n].Dir? && Counterpart(twin, n).Some? {
        PruneIntoIsFewer(d.entries[n], twin.entries[Lower(n)]);
      }
    }
  }

  lemma {:induction false} PruneIsFewer(x: Node)
    ensures Fewer(Prune(x), x)
  {
    if x.Dir? {
      var r := Prune(x);
      forall n | n in r.entries ensures Fewer(r.entries[n], x.entries[n]) {
        assert KeptAt(x, n) == Some(r.entries[n]);
        PruneIsFewer(x.entries[n]);
        if !IsLower(n) && Lower(n) in x.entries {
          PruneIntoIsFewer(Prune(x.entries[n]), x.entries[Lower(n)]);
          FewerStill(r.entries[n], Prune(x.entries[n]), x.entries[n]);
        }
      }
    }
  }

  /** Nothing of `d` is accounted for by `twin`. */
  ghost predicate Reduced(d: Node, twin: Node)
    requires d.Dir?
  {
    forall n :: n in d.entries && Counterpart(twin, n).Some? ==>
      var x, c := d.entries[n], twin.entries[Lower(n)];
      x.Dir? != c.Dir? || (x.Dir? && x != EMPTY && Reduced(x, c))
  }

  /** No mixed-case entry is accounted for by its lowercase twin, at any level. */
  ghost predicate Pruned(x: Node) {
    x.Dir? ==> forall n :: n in x.entries ==>
      && Pruned(x.entries[n])
      && (!IsLower(n) && Lower(n) in x.entries ==>
            x.entries[n].Dir? && x.entries[n] != EMPTY && Reduced(x.entries[n], x.entries[Lower(n)]))
  }

  lemma {:induction false} ReducedIsFixed(d: Node, twin: Node)
    requires d.Dir? && Reduced(d, twin)
    ensures PruneInto(d, twin) == d
    decreases d
  {
    forall n | n in d.entries ensures Unaccounted(d.entries[n], Counterpart(twin, n)) == Some(d.entries[n]) {
      if Counterpart(twin, n).Some? && d.entries[n].Dir? && twin.entries[Lower(n)].Dir? {
        ReducedIsFixed(d.entries[n], twin.entries[Lower(n)]);
      }
    }
  }

  lemma {:induction false} PrunedIsFixed(x: Node)
    requires Pruned(x)
    ensures Prune(x) == x
  {
    if x.Dir? {
      forall n | n in x.entries ensures KeptAt(x, n) == Some(x.entries[n]) {
        PrunedIsFixed(x.entries[n]);
        if !IsLower(n) && Lower(n) in x.entries {
          ReducedIsFixed(x.entries[n], x.entries[Lower(n)]);
        }
      }
    }
  }

  lemma {:induction false} PruneIntoReduces(d: Node, twin: Node)
    requires d.Dir?
    ensures Reduced(PruneInto(d, twin), twin)
    decreases d
  {
    var r := PruneInto(d, twin);
    forall n | n in r.entries && Counterpart(twin, n).Some?
      ensures var x, c := r.entries[n], twin.entries[Lower(n)];
              x.Dir? != c.Dir? || (x.Dir? && x != EMPTY && Reduced(x, c))
    {
      assert Unaccounted(d.entries[n], Counterpart(twin, n)) == Some(r.entries[n]);
      if d.entries[n].Dir? && twin.entries[Lower(n)].Dir? {
        PruneIntoReduces(d.entries[n], twin.entries[Lower(n)]);
      }
    }
  }

  /** Being reduced survives fewer entries in the twin */
  lemma {:induction false} ReducedByFewer(d: Node, twin: Node, twin': Node)
    requires d.Dir? && Reduced(d, twin) && Fewer(twin', twin)
    ensures Reduced(d, twin')
    decreases d
  {
    forall n | n in d.entries && Counterpart(twin', n).Some?
      ensures var x, c := d.entries[n], twin'.entries[Lower(n)];
              x.Dir? != c.Dir? || (x.Dir? && x != EMPTY && Reduced(x, c))
    {
      assert Counterpart(twin, n).Some?;
      assert Fewer(twin'.entries[Lower(n)], twin.entries[Lower(n)]);
      if d.entries[n].Dir? && twin'.entries[Lower(n)].Dir? {
        ReducedByFewer(d.entries[n], twin.entries[Lower(n)], twin'.entries[Lower(n)]);
      }
    }
  }

  /** and pruning the directory into some other twin as well. */
  lemma {:induction false} StillReduced(d: Node, twin: Node, other: Node)
    requires d.Dir? && Reduced(d, twin)
    ensures Reduced(PruneInto(d, other), twin)
    decreases d
  {
    var r := PruneInto(d, other);
    forall n | n in r.entries && Counterpart(twin, n).Some?
      ensures var x, c := r.entries[n], twin.entries[Lower(n)];
              x.Dir? != c.Dir? || (x.Dir? && x != EMPTY && Reduced(x, c))
    {
      assert Unaccounted(d.entries[n], Counterpart(other, n)) == Some(r.entries[n]);
      if d.entries[n].Dir? && twin.entries[Lower(n)].Dir? && Counterpart(other, n).Some? && other.entries[Lower(n)].Dir? {
        StillReduced(d.entries[n], twin.entries[Lower(n)], other.entries[Lower(n)]);
      }
    }
  }

  lemma {:induction false} PruneIntoStaysPruned(d: Node, twin: Node)
    requires d.Dir? && Pruned(d)
    ensures Pruned(PruneInto(d, twin))
    decreases d
  {
    var r := PruneInto(d, twin);
    forall n | n in r.entries
      ensures Pruned(r.entries[n])
      ensures !IsLower(n) && Lower(n) in r.entries ==>
                r.entries[n].Dir? && r.entries[n] != EMPTY && Reduced(r.entries[n], r.entries[Lower(n)])
    {
      assert Unaccounted(d.entries[n], Counterpart(twin, n)) == Some(r.entries[n]);
      assert Pruned(d.entries[n]);
      if d.entries[n].Dir? && Counterpart(twin, n).Some? && twin.entries[Lower(n)].Dir? {
        PruneIntoStaysPruned(d.entries[n], twin.entries[Lower(n)]);
      }
      if !IsLower(n) && Lower(n) in r.entries {
        PruneIntoIsFewer(d, twin);
        assert Fewer(r.entries[Lower(n)], d.entries[Lower(n)]);
        if d.entries[n].Dir? && Counterpart(twin, n).Some? && twin.entries[Lower(n)].Dir? {
          StillReduced(d.entries[n], d.entries[Lower(n)], twin.entries[Lower(n)]);
        }
        ReducedByFewer(r.entries[n], d.entries[Lower(n)], r.entries[Lower(n)]);
      }
    }
  }

  lemma {:induction false} PruneIsPruned(x: Node)
    ensures Pruned(Prune(x))
  {
    if x.Dir? {
      var r := Prune(x);
      forall n | n in r.entries
        ensures Pruned(r.entries[n])
        ensures !IsLower(n) && Lower(n) in r.entries ==>
                  r.entries[n].Dir? && r.entries[n] != EMPTY && Reduced(r.entries[n], r.entries[Lower(n)])
      {
        assert KeptAt(x, n) == Some(r.entries[n]);
        PruneIsPruned(x.entries[n]);
        if !IsLower(n) && Lower(n) in x.entries {
          PruneIntoStaysPruned(Prune(x.entries[n]), x.entries[Lower(n)]);
          PruneIntoReduces(Prune(x.entries[n]), x.entries[Lower(n)]);
          PruneIsFewer(x.entries[Lower(n)]);
          assert KeptAt(x, Lower(n)) == Some(Prune(x.entries[Lower(n)]));
          ReducedByFewer(r.entries[n], x.entries[Lower(n)], Prune(x.entries[Lower(n)]));
        }
      }
    }
  }

  lemma {:induction false} PruneIsIdempotent(x: Node)
    ensures Prune(Prune(x)) == Prune(x)
  {
    PruneIsPruned(x);
    PrunedIsFixed(Prune(x));
  }

  // ---------------------------------------------------------------------------------------
  // Fold

  /** `n` is the entry that ends up under its folded name: the lowercase one if there is one,
    * else the first spelling listed. */
  predicate IsWinner(names: set<Name>, n: Name) {
    && n in names
    && (IsLower(n) || (Lower(n) !in names && forall m :: m in names && m.folded == n.folded ==> n.spelling <= m.spelling))
  }

  function FoldedName(names: set<Name>, n: Name): Name {
    if IsWinner(names, n) then Lower(n) else n
  }

  lemma FoldedNameIsInjective(names: set<Name>, n: Name, m: Name)
    requires n in names && m in names && FoldedName(names, n) == FoldedName(names, m)
    ensures n == m
  {
  }

  /** The entries `e` with every winner moved to its folded name. */
  function Renamed(e: map<Name, Node>): map<Name, Node> {
    assert forall n, m :: n in e && m in e && FoldedName(e.Keys, n) == FoldedName(e.Keys, m) ==> n == m by {
      forall n, m | n in e && m in e && FoldedName(e.Keys, n) == FoldedName(e.Keys, m) ensures n == m {
        FoldedNameIsInjective(e.Keys, n, m);
      }
    }
    map n | n in e :: FoldedName(e.Keys, n) := e[n]
  }

  lemma RenamedFrom(e: map<Name, Node>, k: Name) returns (n: Name)
    requires k in Renamed(e)
    ensures n in e && FoldedName(e.Keys, n) == k && Renamed(e)[k] == e[n]
  {
    n :| n in e && FoldedName(e.Keys, n) == k && Renamed(e)[k] == e[n];
  }

  lemma RenamedAt(e: map<Name, Node>, n: Name)
    requires n in e
    ensures FoldedName(e.Keys, n) in Renamed(e) && Renamed(e)[FoldedName(e.Keys, n)] == e[n]
  {
    var m := RenamedFrom(e, FoldedName(e.Keys, n));
    FoldedNameIsInjective(e.Keys, n, m);
  }

  /** `lowercase_tree`: contents first, then the names of this directory. */
  function Fold(x: Node): (r: Node)
    ensures r.Dir? == x.Dir?
  {
    match x
    case File(_) => x
    case Dir(e) => Dir(Renamed(map n | n in e :: Fold(e[n])))
  }

  lemma FoldAt(x: Node, n: Name)
    requires x.Dir? && n in x.entries
    ensures FoldedName(x.entries.Keys, n) in Fold(x).entries
    ensures Fold(x).entries[FoldedName(x.entries.Keys, n)] == Fold(x.entries[n])
  {
    var inner := map m | m in x.entries :: Fold(x.entries[m]);
    assert inner.Keys == x.entries.Keys;
    RenamedAt(inner, n);
  }

  lemma FoldFrom(x: Node, k: Name) returns (n: Name)
    requires x.Dir? && k in Fold(x).entries
    ensures n in x.entries && FoldedName(x.entries.Keys, n) == k && Fold(x).entries[k] == Fold(x.entries[n])
  {
    var inner := map m | m in x.entries :: Fold(x.entries[m]);
    assert inner.Keys == x.entries.Keys;
    n := RenamedFrom(inner, k);
  }

  /** Every class of spellings in a directory has a winner, listed no later than any other. */
  lemma {:induction false} ClassHasWinner(names: set<Name>, n: Name) returns (w: Name)
    requires n in names
    ensures IsWinner(names, w) && w.folded == n.folded
    ensures IsLower(w) || (Lower(n) !in names && w.spelling <= n.spelling)
    decreases n.spelling
  {
    if IsWinner(names, n) {
      w := n;
    } else if Lower(n) in names {
      w := Lower(n);
    } else {
      var m :| m in names && m.folded == n.folded && m.spelling < n.spelling;
      w := ClassHasWinner(names, m);
    }
  }

  /** Where folding puts the entry at path `p`. */
  ghost function FoldPath(x: Node, p: seq<Name>): seq<Name> {
    if p == [] || x.File? || p[0] !in x.entries then p
    else [FoldedName(x.entries.Keys, p[0])] + FoldPath(x.entries[p[0]], p[1..])
  }

  ghost function Lookup(x: Node, p: seq<Name>): Option<Node> {
    if p == [] then Some(x)
    else if x.Dir? && p[0] in x.entries then Lookup(x.entries[p[0]], p[1..])
    else None
  }

  ghost function FoldedParts(p: seq<Name>): seq<string> {
    if p == [] then [] else [p[0].folded] + FoldedParts(p[1..])
  }

  /** Every entry is found again, folded, where `FoldPath` says, under the same lowercased path: */
  lemma {:induction false} FoldKeepsEntry(x: Node, p: seq<Name>)
    requires Lookup(x, p).Some?
    ensures Lookup(Fold(x), FoldPath(x, p)) == Some(Fold(Lookup(x, p).value))
    ensures FoldedParts(FoldPath(x, p)) == FoldedParts(p)
  {
    if p != [] {
      FoldKeepsEntry(x.entries[p[0]], p[1..]);
      var q := FoldPath(x, p);
      assert q[1..] == FoldPath(x.entries[p[0]], p[1..]);
      FoldAt(x, p[0]);
    }
  }

  /** no two entries end up in one place, */
  lemma {:induction false} FoldMergesNothing(x: Node, p: seq<Name>, q: seq<Name>)
    requires Lookup(x, p).Some? && Lookup(x, q).Some? && FoldPath(x, p) == FoldPath(x, q)
    ensures p == q
  {
    if p != [] {
      assert FoldPath(x, p)[0] == FoldedName(x.entries.Keys, p[0]);
      assert FoldPath(x, q)[0] == FoldedName(x.entries.Keys, q[0]);
      FoldedNameIsInjective(x.entries.Keys, p[0], q[0]);
      assert FoldPath(x, p)[1..] == FoldPath(x.entries[p[0]], p[1..]);
      assert FoldPath(x, q)[1..] == FoldPath(x.entries[q[0]], q[1..]);
      FoldMergesNothing(x.entries[p[0]], p[1..], q[1..]);
    }
  }

  /** and nothing else is there. Together: the multiset of (lowercased path, content) is kept. */
  lemma {:induction false} FoldAddsNothing(x: Node, q: seq<Name>) returns (p: seq<Name>)
    requires Lookup(Fold(x), q).Some?
    ensures Lookup(x, p).Some? && FoldPath(x, p) == q
  {
    if q == [] {
      p := [];
    } else {
      var n := FoldFrom(x, q[0]);
      var rest := FoldAddsNothing(x.entries[n], q[1..]);
      p := [n] + rest;
      assert p[1..] == rest;
      assert FoldPath(x, p) == [q[0]] + q[1..];
    }
  }

  /** The only mixed-case names left are those whose lowercase form is taken. */
  ghost predicate Folded(x: Node) {
    x.Dir? ==> forall n :: n in x.entries ==> (IsLower(n) || Lower(n) in x.entries) && Folded(x.entries[n])
  }

  lemma {:induction false} FoldIsFolded(x: Node)
    ensures Folded(Fold(x))
  {
    if x.Dir? {
      var r := Fold(x);
      forall k | k in r.entries ensures (IsLower(k) || Lower(k) in r.entries) && Folded(r.entries[k]) {
        var n := FoldFrom(x, k);
        FoldIsFolded(x.entries[n]);
        var w := ClassHasWinner(x.entries.Keys, n);
        FoldAt(x, w);
      }
    }
  }

  lemma RenamedIsSame(e: map<Name, Node>)
    requires forall n :: n in e ==> FoldedName(e.Keys, n) == n
    ensures Renamed(e) == e
  {
    assert Renamed(e) == map n | n in e :: e[n];
  }

  lemma {:induction false} FoldedIsFixed(x: Node)
    requires Folded(x)
    ensures Fold(x) == x
  {
    if x.Dir? {
      forall n | n in x.entries ensures Fold(x.entries[n]) == x.entries[n] {
        FoldedIsFixed(x.entries[n]);
      }
      forall n | n in x.entries ensures FoldedName(x.entries.Keys, n) == n {
      }
      assert (map n | n in x.entries :: Fold(x.entries[n])) == x.entries;
      RenamedIsSame(x.entries);
    }
  }

  lemma {:induction false} FoldIsIdempotent(x: Node)
    ensures Fold(Fold(x)) == Fold(x)
  {
    FoldIsFolded(x);
    FoldedIsFixed(Fold(x));
  }

  // ---------------------------------------------------------------------------------------
  // Two classes of tree that one pass repairs completely

  /** Every entry of `x` has an entry of the same kind at its lowercased path in `twin`. */
  ghost predicate Covered(x: Node, twin: Node) {
    && x.Dir? == twin.Dir?
    && (x.Dir? ==> forall n :: n in x.entries ==>
          Lower(n) in twin.entries && Covered(x.entries[n], twin.entries[Lower(n)]))
  }

  lemma {:induction false} FewerIsCovered(y: Node, x: Node, twin: Node)
    requires Fewer(y, x) && Covered(x, twin)
    ensures Covered(y, twin)
  {
    if y.Dir? {
      forall n | n in y.entries ensures Lower(n) in twin.entries && Covered(y.entries[n], twin.entries[Lower(n)]) {
        FewerIsCovered(y.entries[n], x.entries[n], twin.entries[Lower(n)]);
      }
    }
  }

  lemma {:induction false} CoveredIsAbsorbed(d: Node, twin: Node)
    requires d.Dir? && Covered(d, twin)
    ensures PruneInto(d, twin) == EMPTY
    decreases d
  {
    forall n | n in d.entries ensures Unaccounted(d.entries[n], Counterpart(twin, n)) == None {
      if d.entries[n].Dir? {
        CoveredIsAbsorbed(d.entries[n], twin.entries[Lower(n)]);
      }
    }
  }

  /** If every entry also exists, with the same kind, at its lowercased path, one prune leaves
    * exactly the all-lowercase part, and there is nothing left to fold. */
  lemma {:induction false} CoveredTreeIsRepaired(x: Node)
    requires Covered(x, x)
    ensures Prune(x) == LowerPart(x)
    ensures Fold(Prune(x)) == LowerPart(x)
  {
    CoveredTreeIsPruned(x);
    LowerPartIsFolded(x);
    FoldedIsFixed(LowerPart(x));
  }

  lemma {:induction false} CoveredTreeIsPruned(x: Node)
    requires Covered(x, x)
    ensures Prune(x) == LowerPart(x)
  {
    if x.Dir? {
      forall n | n in x.entries
        ensures KeptAt(x, n) == if IsLower(n) then Some(LowerPart(x.entries[n])) else None
      {
        if IsLower(n) {
          assert Lower(n) == n;
          CoveredTreeIsPruned(x.entries[n]);
        } else if x.entries[n].Dir? {
          PruneIsFewer(x.entries[n]);
          FewerIsCovered(Prune(x.entries[n]), x.entries[n], x.entries[Lower(n)]);
          CoveredIsAbsorbed(Prune(x.entries[n]), x.entries[Lower(n)]);
        }
      }
    }
  }

  lemma {:induction false} LowerPartIsFolded(x: Node)
    ensures Folded(LowerPart(x))
  {
    if x.Dir? {
      forall n | n in x.entries && IsLower(n) ensures Folded(LowerPart(x.entries[n])) {
        LowerPartIsFolded(x.entries[n]);
      }
    }
  }

  ghost predicate SameFold(n: Name, m: Name) {
    n.folded == m.folded
  }

  ghost predicate Unclashing(names: set<Name>) {
    forall n, m {:trigger SameFold(n, m)} :: n in names && m in names && SameFold(n, m) ==> n == m
  }

  /** No two siblings fold to one name, at any level. */
  ghost predicate NoClash(x: Node) {
    x.Dir? ==> Unclashing(x.entries.Keys) && forall n :: n in x.entries ==> NoClash(x.entries[n])
  }

  /** `y` is `x` with every name lowercased. */
  ghost predicate Lowercases(y: Node, x: Node) {
    match x
    case File(_) => y == x
    case Dir(e) =>
      && y.Dir?
      && (forall n :: n in e ==> Lower(n) in y.entries && Lowercases(y.entries[Lower(n)], e[n]))
      && (forall k :: k in y.entries ==> IsLower(k) && exists n :: n in e && n.folded == k.folded)
  }

  /** If no two siblings fold to one name, nothing is pruned and every name is lowercased. */
  lemma {:induction false} ClashFreeTreeIsRepaired(x: Node)
    requires NoClash(x)
    ensures Prune(x) == x
    ensures Lowercases(Fold(x), x)
  {
    ClashFreeIsPruned(x);
    PrunedIsFixed(x);
    ClashFreeFolds(x);
  }

  lemma {:induction false} ClashFreeIsPruned(x: Node)
    requires NoClash(x)
    ensures Pruned(x)
  {
    if x.Dir? {
      forall n | n in x.entries ensures Pruned(x.entries[n]) && (IsLower(n) || Lower(n) !in x.entries) {
        ClashFreeIsPruned(x.entries[n]);
        assert SameFold(n, Lower(n));
      }
    }
  }

  lemma UnclashingWins(names: set<Name>, n: Name)
    requires Unclashing(names) && n in names
    ensures FoldedName(names, n) == Lower(n)
  {
    forall m | m in names && m.folded == n.folded ensures m == n {
      assert SameFold(m, n);
    }
  }

  lemma ClashFreeFoldsAt(x: Node, n: Name)
    requires x.Dir? && Unclashing(x.entries.Keys) && n in x.entries
    ensures Lower(n) in Fold(x).entries && Fold(x).entries[Lower(n)] == Fold(x.entries[n])
  {
    UnclashingWins(x.entries.Keys, n);
    FoldAt(x, n);
  }

  lemma ClashFreeFoldsFrom(x: Node, k: Name)
    requires x.Dir? && Unclashing(x.entries.Keys) && k in Fold(x).entries
    ensures IsLower(k) && exists n :: n in x.entries && n.folded == k.folded
  {
    var n := FoldFrom(x, k);
    UnclashingWins(x.entries.Keys, n);
  }

  lemma ClashFreeLevel(x: Node, y: Node)
    requires x.Dir? && y == Fold(x) && Unclashing(x.entries.Keys)
    requires forall n :: n in x.entries ==> Lowercases(Fold(x.entries[n]), x.entries[n])
    ensures Lowercases(y, x)
  {
    forall k | k in y.entries ensures IsLower(k) && exists n :: n in x.entries && n.folded == k.folded {
      ClashFreeFoldsFrom(x, k);
    }
    forall n | n in x.entries ensures Lower(n) in y.entries && Lowercases(y.entries[Lower(n)], x.entries[n]) {
      ClashFreeFoldsAt(x, n);
    }
  }

  lemma {:induction false} ClashFreeFolds(x: Node)
    requires NoClash(x)
    ensures Lowercases(Fold(x), x)
  {
    if x.Dir? {
      forall n | n in x.entries ensures Lowercases(Fold(x.entries[n]), x.entries[n]) {
        ClashFreeFolds(x.entries[n]);
      }
      ClashFreeLevel(x, Fold(x));
    }
  }
}
