/** When one repair pass is enough. */
module OnePass {
  import opened Results
  import opened Totals
  import opened CaseFold
  import opened Repair

  /** `w` is the entry of `t` that a fold puts under the folded name of `n`. */
  ghost predicate Wins(t: Node, n: Name, w: Name) {
    t.Dir? && IsWinner(t.entries.Keys, w) && w.folded == n.folded
  }

  /** Once both are folded, nothing of `d` is accounted for by `t`: no entry stands beside the
    * winner of its own folded name in `t`, unless of the other kind or, as directories, with
    * something left in it that is apart in turn. */
  ghost predicate Apart(d: Node, t: Node)
    requires d.Dir?
  {
    forall n, w {:trigger Wins(t, n, w)} :: n in d.entries && Wins(t, n, w) ==>
      var x, c := d.entries[n], t.entries[w];
      x.Dir? != c.Dir? || (x.Dir? && x != EMPTY && Apart(x, c))
  }

  /** At every level, each entry that loses its folded name to another is a directory that is
    * not empty and apart from the winner. */
  ghost predicate OneShot(x: Node) {
    x.Dir? ==>
      && (forall n :: n in x.entries ==> OneShot(x.entries[n]))
      && (forall n, w {:trigger Wins(x, n, w)} :: n in x.entries && Wins(x, n, w) && n != w ==>
            x.entries[n].Dir? && x.entries[n] != EMPTY && Apart(x.entries[n], x.entries[w]))
  }

  /** The counterpart in a folded directory is the folded winner. */
  lemma CounterpartOfFold(t: Node, n: Name, w: Name)
    requires Wins(t, n, w)
    ensures Counterpart(Fold(t), n) == Some(Fold(t.entries[w]))
  {
    FoldAt(t, w);
  }

  lemma CounterpartHasWinner(t: Node, n: Name) returns (w: Name)
    requires Counterpart(Fold(t), n).Some?
    ensures Wins(t, n, w)
  {
    var m := FoldFrom(t, Lower(n));
    w := ClassHasWinner(t.entries.Keys, m);
  }

  lemma FoldedEmpty(x: Node)
    requires x.Dir?
    ensures Fold(x) == EMPTY <==> x == EMPTY
  {
    if x != EMPTY {
      var n :| n in x.entries;
      FoldAt(x, n);
    }
  }

  /** What `Reduced` asks of one entry and its counterpart. */
  ghost predicate Clear(x: Node, c: Node) {
    x.Dir? != c.Dir? || (x.Dir? && x != EMPTY && Reduced(x, c))
  }

  ghost predicate ApartPair(x: Node, c: Node) {
    x.Dir? != c.Dir? || (x.Dir? && x != EMPTY && Apart(x, c))
  }

  lemma {:induction false} ClearOfFold(x: Node, c: Node)
    ensures Clear(Fold(x), Fold(c)) <==> ApartPair(x, c)
    decreases x, 2
  {
    if x.Dir? && c.Dir? {
      FoldedEmpty(x);
      ReducedOfFold(x, c);
    }
  }

  lemma ApartAt(d: Node, t: Node, n: Name, w: Name)
    requires d.Dir? && Apart(d, t) && n in d.entries && Wins(t, n, w)
    ensures ApartPair(d.entries[n], t.entries[w])
  {
  }

  lemma IsReduced(d: Node, t: Node)
    requires d.Dir?
    requires forall k :: k in d.entries && Counterpart(t, k).Some? ==> Clear(d.entries[k], Counterpart(t, k).value)
    ensures Reduced(d, t)
  {
  }

  /** One folded entry, given that the directories are apart, */
  lemma {:induction false} FoldedEntryIsClear(d: Node, t: Node, k: Name)
    requires d.Dir? && Apart(d, t) && k in Fold(d).entries && Counterpart(Fold(t), k).Some?
    ensures Clear(Fold(d).entries[k], Counterpart(Fold(t), k).value)
    decreases d, 0
  {
    var n := FoldFrom(d, k);
    var w := CounterpartHasWinner(t, k);
    CounterpartOfFold(t, k, w);
    ApartAt(d, t, n, w);
    ClearOfFold(d.entries[n], t.entries[w]);
  }

  /** and one entry, given that folding leaves nothing accounted for. */
  lemma {:induction false} EntryIsApart(d: Node, t: Node, n: Name, w: Name)
    requires d.Dir? && Reduced(Fold(d), Fold(t)) && n in d.entries && Wins(t, n, w)
    ensures ApartPair(d.entries[n], t.entries[w])
    decreases d, 0
  {
    var k := FoldedName(d.entries.Keys, n);
    FoldAt(d, n);
    CounterpartOfFold(t, k, w);
    ClearOfFold(d.entries[n], t.entries[w]);
  }

  /** Folding leaves nothing of `d` accounted for by `t` exactly when they are apart. */
  lemma {:induction false} ReducedOfFold(d: Node, t: Node)
    requires d.Dir?
    ensures Reduced(Fold(d), Fold(t)) <==> Apart(d, t)
    decreases d, 1
  {
    if Apart(d, t) {
      forall k | k in Fold(d).entries && Counterpart(Fold(t), k).Some?
        ensures Clear(Fold(d).entries[k], Counterpart(Fold(t), k).value)
      {
        FoldedEntryIsClear(d, t, k);
      }
      IsReduced(Fold(d), Fold(t));
    }
    if Reduced(Fold(d), Fold(t)) {
      forall n, w | n in d.entries && Wins(t, n, w) ensures ApartPair(d.entries[n], t.entries[w]) {
        EntryIsApart(d, t, n, w);
      }
    }
  }

  // ---------------------------------------------------------------------------------------
  // The exact condition

  /** What `Pruned` asks of one entry. */
  ghost predicate PrunedAt(e: map<Name, Node>, k: Name)
    requires k in e
  {
    && Pruned(e[k])
    && (!IsLower(k) && Lower(k) in e ==> e[k].Dir? && e[k] != EMPTY && Reduced(e[k], e[Lower(k)]))
  }

  /** What `OneShot` asks of an entry and the winner of its class. */
  ghost predicate Yields(x: Node, n: Name, w: Name)
    requires x.Dir? && n in x.entries && w in x.entries
  {
    x.entries[n].Dir? && x.entries[n] != EMPTY && Apart(x.entries[n], x.entries[w])
  }

  lemma YieldsIff(x: Node, n: Name, w: Name)
    requires x.Dir? && n in x.entries && w in x.entries
    ensures var y, c := Fold(x.entries[n]), Fold(x.entries[w]);
            Yields(x, n, w) <==> y.Dir? && y != EMPTY && Reduced(y, c)
  {
    if x.entries[n].Dir? {
      FoldedEmpty(x.entries[n]);
      ReducedOfFold(x.entries[n], x.entries[w]);
    }
  }

  lemma OneShotAt(x: Node, n: Name, w: Name)
    requires x.Dir? && OneShot(x) && n in x.entries && Wins(x, n, w) && n != w
    ensures Yields(x, n, w)
  {
  }

  lemma {:induction false} FoldedIsPrunedAt(x: Node, k: Name)
    requires x.Dir? && OneShot(x) && k in Fold(x).entries
    ensures PrunedAt(Fold(x).entries, k)
    decreases x, 0
  {
    var n := FoldFrom(x, k);
    PrunedOfFold(x.entries[n]);
    if !IsLower(k) {
      var w := ClassHasWinner(x.entries.Keys, n);
      OneShotAt(x, n, w);
      YieldsIff(x, n, w);
      FoldAt(x, w);
    }
  }

  lemma {:induction false} LoserYields(x: Node, n: Name, w: Name)
    requires x.Dir? && n in x.entries && Wins(x, n, w) && n != w
    requires forall k :: k in Fold(x).entries ==> PrunedAt(Fold(x).entries, k)
    ensures Yields(x, n, w)
  {
    var names := x.entries.Keys;
    if IsWinner(names, n) {
    }
    assert FoldedName(names, n) == n && FoldedName(names, w) == Lower(n) && !IsLower(n);
    FoldAt(x, n);
    FoldAt(x, w);
    assert PrunedAt(Fold(x).entries, n);
    YieldsIff(x, n, w);
  }

  lemma {:induction false} InnerIsOneShot(x: Node, n: Name)
    requires x.Dir? && n in x.entries
    requires forall k :: k in Fold(x).entries ==> PrunedAt(Fold(x).entries, k)
    ensures OneShot(x.entries[n])
    decreases x, 0
  {
    FoldAt(x, n);
    assert PrunedAt(Fold(x).entries, FoldedName(x.entries.Keys, n));
    PrunedOfFold(x.entries[n]);
  }

  lemma {:induction false} OneShotFoldsPruned(x: Node)
    requires x.Dir? && OneShot(x)
    ensures Pruned(Fold(x))
    decreases x, 1
  {
    forall k | k in Fold(x).entries ensures PrunedAt(Fold(x).entries, k) {
      FoldedIsPrunedAt(x, k);
    }
  }

  lemma {:induction false} PrunedFoldIsOneShot(x: Node)
    requires x.Dir? && Pruned(Fold(x))
    ensures OneShot(x)
    decreases x, 1
  {
    forall n | n in x.entries ensures OneShot(x.entries[n]) {
      InnerIsOneShot(x, n);
    }
    forall n, w | n in x.entries && Wins(x, n, w) && n != w ensures Yields(x, n, w) {
      LoserYields(x, n, w);
    }
  }

  /** A folded tree has nothing left to prune exactly when every entry that lost its folded
    * name yields nothing to the winner. */
  lemma {:induction false} PrunedOfFold(x: Node)
    ensures Pruned(Fold(x)) <==> OneShot(x)
    decreases x, 2
  {
    if x.Dir? {
      if OneShot(x) {
        OneShotFoldsPruned(x);
      }
      if Pruned(Fold(x)) {
        PrunedFoldIsOneShot(x);
      }
    }
  }

  /** One pass suffices if and only if, in what the prune leaves, every entry that will lose its
    * folded name to a sibling is a directory sharing nothing with that sibling. */
  lemma {:induction false} OnePassSufficesIff(x: Node)
    ensures Repaired(Repaired(x)) == Repaired(x) <==> OneShot(Prune(x))
  {
    SettledTreeIff(Repaired(x));
    FoldIsFolded(Prune(x));
    PrunedOfFold(Prune(x));
  }

  // ---------------------------------------------------------------------------------------
  // The two classes one pass repairs completely

  lemma {:induction false} LowerPartIsPruned(x: Node)
    ensures Pruned(LowerPart(x))
  {
    if x.Dir? {
      forall n | n in x.entries && IsLower(n) ensures Pruned(LowerPart(x.entries[n])) {
        LowerPartIsPruned(x.entries[n]);
      }
    }
  }

  lemma {:induction false} LowerPartHasNoMixed(x: Node)
    ensures Count(Mixed, LowerPart(x)) == 0
  {
    if x.Dir? {
      forall n | n in x.entries && IsLower(n) ensures Count(Mixed, LowerPart(x.entries[n])) == 0 {
        LowerPartHasNoMixed(x.entries[n]);
      }
      TotalIsZero(Weights(Mixed, LowerPart(x)));
    }
  }

  /** A tree whose every entry has one of its kind at its lowercased path is done after one pass,
    * which reports no collision. */
  lemma {:induction false} CoveredNeedsOnePass(x: Node)
    requires Covered(x, x)
    ensures Repaired(x) == LowerPart(x) && Count(Mixed, Repaired(x)) == 0
    ensures Repaired(Repaired(x)) == Repaired(x)
  {
    CoveredTreeIsRepaired(x);
    LowerPartHasNoMixed(x);
    LowerPartIsPruned(x);
    LowerPartIsFolded(x);
    SettledTreeIff(LowerPart(x));
  }

  lemma {:induction false} ClashFreeIsOneShot(x: Node)
    requires NoClash(x)
    ensures OneShot(x)
  {
    if x.Dir? {
      forall n | n in x.entries ensures OneShot(x.entries[n]) {
        ClashFreeIsOneShot(x.entries[n]);
      }
      forall n, w | n in x.entries && Wins(x, n, w) ensures n == w {
        assert SameFold(n, w);
      }
    }
  }

  /** So is a tree in which no two siblings fold to one name. */
  lemma {:induction false} ClashFreeNeedsOnePass(x: Node)
    requires NoClash(x)
    ensures Repaired(Repaired(x)) == Repaired(x)
  {
    ClashFreeTreeIsRepaired(x);
    ClashFreeIsOneShot(x);
    OnePassSufficesIff(x);
  }

  // ---------------------------------------------------------------------------------------
  // A family that needs a second pass

  /** Two spellings of one name, the second a file, and not its lowercase form. */
  ghost predicate TwoSpellings(x: Node, n1: Name, n2: Name) {
    && x.Dir? && n1 in x.entries && n2 in x.entries && x.entries[n2].File?
    && n1.folded == n2.folded && 0 < n1.spelling < n2.spelling && Lower(n1) !in x.entries
  }

  lemma {:induction false} NotOneShotBelow(x: Node, p: seq<Name>, n1: Name, n2: Name)
    requires Lookup(x, p).Some? && TwoSpellings(Lookup(x, p).value, n1, n2)
    ensures !OneShot(x)
  {
    if p == [] {
      var w := ClassHasWinner(x.entries.Keys, n1);
      assert Wins(x, n2, w) && w != n2;
    } else {
      NotOneShotBelow(x.entries[p[0]], p[1..], n1, n2);
    }
  }

  /** One pass is not enough for any tree in which the prune leaves, at any depth, two such
    * spellings, whatever else is there. They collide only once the first has been folded, so
    * the second goes in the next pass. */
  lemma {:induction false} OnePassMayNotSuffice(x: Node, p: seq<Name>, n1: Name, n2: Name)
    requires Lookup(Prune(x), p).Some? && TwoSpellings(Lookup(Prune(x), p).value, n1, n2)
    ensures Repaired(Repaired(x)) != Repaired(x)
  {
    OnePassSufficesIff(x);
    NotOneShotBelow(Prune(x), p, n1, n2);
  }

  /** A prune leaves such spellings of the top directory alone. */
  lemma TwoSpellingsAreKept(x: Node, n1: Name, n2: Name)
    requires TwoSpellings(x, n1, n2)
    ensures TwoSpellings(Prune(x), n1, n2)
    ensures Repaired(Repaired(x)) != Repaired(x)
  {
    assert KeptAt(x, n1) == Some(Prune(x.entries[n1])) && KeptAt(x, n2) == Some(x.entries[n2]);
    OnePassMayNotSuffice(x, [], n1, n2);
  }
}
