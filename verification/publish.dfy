/** Publishing, editing and deleting Workshop collections as the cluster's own account.
  *
  * `Steam` holds what Steam stores. `up` says which calls get through; one that does not changes
  * nothing. Steam itself enforces no ownership here, so what protects other accounts is the
  * daemon's own check.
  */
module Publish {
  import opened Results
  import opened Workshop
  import opened Resolve

  const MAX_CHILDREN: nat := 1000

  type Account = nat

  datatype Visibility = Public | FriendsOnly | Private | Unlisted

  /** A published file: what GetDetails reports, and what the daemon edits. */
  datatype Item = Item(details: Details, creator: Account, description: string, visibility: Visibility)

  type Store = map<Id, Item>

  function CatalogueOf(store: Store): Catalogue {
    map id | id in store :: store[id].details
  }

  /** Steam numbers a collection's members by their position in the list it was given. */
  function Numbered(ids: seq<Id>, from: nat): seq<Child> {
    if ids == [] then [] else [Child(Some(ids[0]), Some(from))] + Numbered(ids[1..], from + 1)
  }

  function NewCollection(account: Account, title: string, description: string, visibility: Visibility): Item {
    Item(Details(1, FILE_TYPE_COLLECTION, title, 0, []), account, description, visibility)
  }

  function WithMembers(item: Item, ids: seq<Id>): Item {
    item.(details := item.details.(children := Numbered(ids, 0)))
  }

  function Renamed(item: Item, title: string, description: string, visibility: Visibility): Item {
    item.(details := item.details.(title := title), description := description, visibility := visibility)
  }

  // ---------------------------------------------------------------------------------------
  // Checks made before anything is sent

  /** `text` without the blanks it starts and ends with; which characters are blank is left to
    * `blank`. */
  function Trimmed(blank: char -> bool, text: string): string
    decreases |text|
  {
    if text == [] then []
    else if blank(text[0]) then Trimmed(blank, text[1..])
    else if blank(text[|text| - 1]) then Trimmed(blank, text[..|text| - 1])
    else text
  }

  function ValidateTitle(blank: char -> bool, title: string): Result<string> {
    var title := Trimmed(blank, title);
    if title == [] then Err else Ok(title)
  }

  /** A title is refused exactly when it is blank throughout. */
  lemma {:induction false} TitleIsRefusedIff(blank: char -> bool, title: string)
    ensures ValidateTitle(blank, title).Err? <==> forall c :: c in title ==> blank(c)
    decreases |title|
  {
    if title != [] {
      var first, last := title[0], title[|title| - 1];
      if blank(first) {
        assert title == [first] + title[1..];
        TitleIsRefusedIff(blank, title[1..]);
      } else if blank(last) {
        assert title == title[..|title| - 1] + [last];
        TitleIsRefusedIff(blank, title[..|title| - 1]);
      } else {
        assert first in title;
      }
    }
  }

  /** Trimming cuts blanks off both ends, and all of them. */
  lemma {:induction false} TrimmedCutsBlanks(blank: char -> bool, text: string) returns (i: nat, j: nat)
    ensures i <= j <= |text| && Trimmed(blank, text) == text[i..j]
    ensures (forall k :: 0 <= k < i || j <= k < |text| ==> blank(text[k]))
    ensures i < j ==> !blank(text[i]) && !blank(text[j - 1])
    decreases |text|
  {
    if text == [] {
      i, j := 0, 0;
    } else if blank(text[0]) {
      var i', j' := TrimmedCutsBlanks(blank, text[1..]);
      i, j := i' + 1, j' + 1;
      forall k | 0 <= k < i || j <= k < |text| ensures blank(text[k]) {
        assert k > 0 ==> text[k] == text[1..][k - 1];
      }
    } else if blank(text[|text| - 1]) {
      i, j := TrimmedCutsBlanks(blank, text[..|text| - 1]);
      forall k | 0 <= k < i || j <= k < |text| ensures blank(text[k]) {
        assert k < |text| - 1 ==> text[k] == text[..|text| - 1][k];
      }
    } else {
      i, j := 0, |text|;
    }
  }

  /** Duplicates collapse to their first occurrence; an empty or an over-long list is refused. */
  method ValidateChildren(children: seq<Id>) returns (r: Result<seq<Id>>)
    ensures r.Ok? <==> children != [] && |FirstNew(children, {})| <= MAX_CHILDREN
    ensures r.Ok? ==> r.value == FirstNew(children, {})
  {
    var seen: set<Id>, kept: seq<Id> := {}, [];
    for i := 0 to |children|
      invariant seen == Ids(children[..i])
      invariant kept == FirstNew(children[..i], {})
    {
      var id := children[i];
      assert children[..i + 1] == children[..i] + [id];
      FirstNewOfConcat(children[..i], [id], {});
      FirstNewOfOne(id, {} + Ids(children[..i]));
      if id !in seen {
        seen := seen + {id};
        kept := kept + [id];
      }
    }
    assert children[..|children|] == children;
    assert children != [] ==> children[0] in Ids(children);
    if kept == [] || |kept| > MAX_CHILDREN {
      return Err;
    }
    return Ok(kept);
  }

  lemma FirstNewOfOne(id: Id, known: set<Id>)
    ensures FirstNew([id], known) == if id in known then [] else [id]
  {
    assert [id][1..] == [];
  }

  /** A list without duplicates passes unchanged, up to the size limit. */
  lemma {:induction false} FirstNewOfDistinct(xs: seq<Id>, known: set<Id>)
    requires Distinct(xs) && Ids(xs) !! known
    ensures FirstNew(xs, known) == xs
  {
    if xs != [] {
      assert xs[0] in Ids(xs);
      assert forall x :: x in Ids(xs[1..]) ==> x in xs[1..] && x in Ids(xs);
      FirstNewOfDistinct(xs[1..], known + {xs[0]});
    }
  }

  // ---------------------------------------------------------------------------------------
  // Steam

  datatype Call =
    | LookupCall(id: Id)
    | PublishCall
    | SetChildrenCall(id: Id)
    | UpdateCall(id: Id)
    | DeleteCall(id: Id)

  class Steam {
    var items: Store

    constructor (items: Store)
      ensures this.items == items
    {
      this.items := items;
    }

    /** Publishes a new, empty collection under the id `drawn`; an answer without an id, which
      * reads as 0, is an error. */
    method PublishCollection(
        up: Call -> bool, drawn: Id, blank: char -> bool, account: Account, title: string, description: string,
        visibility: Visibility)
        returns (r: Result<Id>)
      requires drawn !in items
      modifies this
      ensures r.Ok? <==> Trimmed(blank, title) != [] && up(PublishCall) && drawn != 0
      ensures r.Ok? ==>
                && r.value == drawn
                && items == old(items)[drawn := NewCollection(account, Trimmed(blank, title), description, visibility)]
      ensures r.Err? ==> items == old(items)
    {
      var valid := ValidateTitle(blank, title);
      if valid.Err? || !up(PublishCall) || drawn == 0 {
        return Err;
      }
      items := items[drawn := NewCollection(account, valid.value, description, visibility)];
      r := Ok(drawn);
    }

    /** Replaces a collection's membership. */
    method SetCollectionChildren(up: Call -> bool, id: Id, children: seq<Id>) returns (ok: bool)
      modifies this
      ensures ok <==>
                && children != [] && |FirstNew(children, {})| <= MAX_CHILDREN
                && up(SetChildrenCall(id)) && id in old(items)
      ensures items == if ok then old(items)[id := WithMembers(old(items)[id], FirstNew(children, {}))] else old(items)
    {
      var valid := ValidateChildren(children);
      if valid.Err? || !up(SetChildrenCall(id)) || id !in items {
        return false;
      }
      items := items[id := WithMembers(items[id], valid.value)];
      ok := true;
    }

    /** Changes a collection's title, description and visibility. */
    method UpdateCollection(
        up: Call -> bool, blank: char -> bool, id: Id, title: string, description: string, visibility: Visibility)
        returns (ok: bool)
      modifies this
      ensures ok <==> Trimmed(blank, title) != [] && up(UpdateCall(id)) && id in old(items)
      ensures items == if ok then old(items)[id := Renamed(old(items)[id], Trimmed(blank, title), description, visibility)]
                       else old(items)
    {
      var valid := ValidateTitle(blank, title);
      if valid.Err? || !up(UpdateCall(id)) || id !in items {
        return false;
      }
      items := items[id := Renamed(items[id], valid.value, description, visibility)];
      ok := true;
    }

    method DeleteCollection(up: Call -> bool, id: Id) returns (ok: bool)
      modifies this
      ensures ok <==> up(DeleteCall(id)) && id in old(items)
      ensures items == if ok then old(items) - {id} else old(items)
    {
      if !up(DeleteCall(id)) || id !in items {
        return false;
      }
      items := items - {id};
      ok := true;
    }

    /** One collection's details, for an id Steam answers for and that is a collection. */
    method GetCollectionDetails(up: Call -> bool, id: Id) returns (r: Result<Item>)
      ensures r.Ok? <==> up(LookupCall(id)) && IsCollection(CatalogueOf(items), id)
      ensures r.Ok? ==> r.value == items[id]
    {
      if !up(LookupCall(id)) || id !in items {
        return Err;
      }
      if items[id].details.eresult != 1 || items[id].details.fileType != FILE_TYPE_COLLECTION {
        return Err;
      }
      r := Ok(items[id]);
    }
  }

  // ---------------------------------------------------------------------------------------
  // The daemon's operations

  datatype PublishOutcome = PublishOutcome(
    collectionId: Id, created: bool, mods: seq<ResolvedMod>, unresolved: seq<Id>)

  predicate EnsureOwned(item: Item, account: Account) {
    item.creator == account
  }

  /** What other accounts published is as it was. */
  ghost predicate OnlyOwnChanged(before: Store, after: Store, account: Account) {
    forall id :: id in before && before[id].creator != account ==> id in after && after[id] == before[id]
  }

  ghost predicate OnlyChanged(before: Store, after: Store, id: Id) {
    before - {id} == after - {id}
  }

  /** What a caller asks to be published. */
  datatype Request = Request(
    existing: Option<Id>, title: string, description: string, visibility: Visibility, candidates: seq<Id>)

  /** `id` is a collection of `account` holding exactly `ids`, in order, under the title
    * `title` and the request's other metadata. */
  ghost predicate Holds(store: Store, id: Id, ids: seq<Id>, account: Account, title: string, q: Request) {
    && id in store && IsCollection(CatalogueOf(store), id)
    && OrderedChildren(store[id].details.children) == ids
    && store[id].creator == account && store[id].details.title == title
    && store[id].description == q.description && store[id].visibility == q.visibility
  }

  /** What was returned is what the candidates resolve to. */
  ghost predicate Resolved(store: Store, candidates: seq<Id>, p: PublishOutcome) {
    exists o :: ResolvesTo(CatalogueOf(store), candidates, o) && o.mods == p.mods && o.unresolved == p.unresolved
  }

  /** A publish that succeeded. */
  ghost predicate Published(before: Store, after: Store, account: Account, title: string, q: Request, p: PublishOutcome) {
    && Resolved(before, q.candidates, p)
    && Holds(after, p.collectionId, ModIds(p.mods), account, title, q)
    && p.mods != [] && |p.mods| <= MAX_CHILDREN && Distinct(ModIds(p.mods))
    && p.created == q.existing.None?
    && (p.collectionId in before <==> !p.created)
    && (q.existing.Some? ==> p.collectionId == q.existing.value)
    && (!p.created ==> IsCollection(CatalogueOf(before), p.collectionId) && before[p.collectionId].creator == account)
    && OnlyChanged(before, after, p.collectionId)
  }

  /** The account owns the collection, and the lookup gets through. */
  predicate MayEdit(store: Store, up: Call -> bool, account: Account, id: Id) {
    up(LookupCall(id)) && IsCollection(CatalogueOf(store), id) && EnsureOwned(store[id], account)
  }

  /** The membership is set. */
  predicate SetsMembers(store: Store, up: Call -> bool, account: Account, id: Id, ids: seq<Id>) {
    MayEdit(store, up, account, id) && |ids| <= MAX_CHILDREN && up(SetChildrenCall(id))
  }

  /** What an edit makes of the store. */
  function Edited(
    store: Store, up: Call -> bool, account: Account, id: Id, ids: seq<Id>, title: string, q: Request): (bool, Store)
  {
    if !SetsMembers(store, up, account, id, ids) then
      (false, store)
    else
      var item := WithMembers(store[id], ids);
      if title == [] || !up(UpdateCall(id)) then (false, store[id := item])
      else (true, store[id := Renamed(item, title, q.description, q.visibility)])
  }

  /** What publishing a new collection under the id `drawn` makes of the store. */
  function Created(
    store: Store, up: Call -> bool, account: Account, drawn: Id, ids: seq<Id>, title: string, q: Request): (bool, Store)
  {
    if title == [] || !up(PublishCall) || drawn == 0 then
      (false, store)
    else
      var item := NewCollection(account, title, q.description, q.visibility);
      if |ids| <= MAX_CHILDREN && up(SetChildrenCall(drawn)) then (true, store[drawn := WithMembers(item, ids)])
      else if up(DeleteCall(drawn)) then (false, store)
      else (false, store[drawn := item])
  }

  /** An edit or a publish succeeds exactly when every check passes and every call gets through. */
  lemma RequestSucceedsIff(
      store: Store, up: Call -> bool, account: Account, id: Id, ids: seq<Id>, title: string, q: Request)
    ensures Edited(store, up, account, id, ids, title, q).0 <==>
            && id in store && store[id].details.eresult == 1 && store[id].details.fileType == 2
            && store[id].creator == account && |ids| <= 1000 && title != []
            && up(LookupCall(id)) && up(SetChildrenCall(id)) && up(UpdateCall(id))
    ensures Created(store, up, account, id, ids, title, q).0 <==>
            id != 0 && |ids| <= 1000 && title != [] && up(PublishCall) && up(SetChildrenCall(id))
  {
  }

  /** A failed edit never touches title, description, visibility or owner, nor any other item; it
    * changes nothing at all if and only if the membership was not set or was that list already. */
  lemma {:induction false} FailedEditChangesNothingIff(
      store: Store, up: Call -> bool, account: Account, id: Id, ids: seq<Id>, title: string, q: Request)
    requires !Edited(store, up, account, id, ids, title, q).0
    ensures var after := Edited(store, up, account, id, ids, title, q).1;
            && OnlyChanged(store, after, id) && after.Keys == store.Keys
            && (id in store ==> after[id].(details := store[id].details) == store[id]
                                && after[id].details.(children := store[id].details.children) == store[id].details)
            && (after == store <==>
                  !SetsMembers(store, up, account, id, ids) || store[id].details.children == Numbered(ids, 0))
  {
    var after := Edited(store, up, account, id, ids, title, q).1;
    if SetsMembers(store, up, account, id, ids) {
      assert after[id] == WithMembers(store[id], ids);
      assert after == store ==> after[id].details.children == Numbered(ids, 0);
      if store[id].details.children == Numbered(ids, 0) {
        assert WithMembers(store[id], ids) == store[id];
      }
    }
  }

  /** A failed edit really can change something: with only the last call failing, an owned
    * collection of one mod is left holding another under its old title. */
  lemma FailedEditReplacesMembership(account: Account, id: Id, was: Id, now: Id, q: Request)
    requires was != now
    ensures var store: Store := map[id := WithMembers(NewCollection(account, "Old", "", Unlisted), [was])];
            var (ok, after) := Edited(store, (c: Call) => c != UpdateCall(id), account, id, [now], "New", q);
            && !ok && id in after && after[id].details.title == "Old"
            && OrderedChildren(store[id].details.children) == [was]
            && OrderedChildren(after[id].details.children) == [now]
  {
    MembersKeepTheirOrder([was]);
    MembersKeepTheirOrder([now]);
  }

  /** A failed new publish leaves nothing behind unless it got as far as the clean-up and that
    * failed too; then it leaves one empty collection. */
  lemma {:induction false} FailedPublishLeavesNothingIff(
      store: Store, up: Call -> bool, account: Account, drawn: Id, ids: seq<Id>, title: string, q: Request)
    requires drawn !in store && !Created(store, up, account, drawn, ids, title, q).0
    ensures var after := Created(store, up, account, drawn, ids, title, q).1;
            && (after == store <==> title == [] || !up(PublishCall) || drawn == 0 || up(DeleteCall(drawn)))
            && (after != store ==>
                  && after == store[drawn := NewCollection(account, title, q.description, q.visibility)]
                  && after[drawn].details.children == [] && after[drawn].creator == account
                  && after[drawn].details.title == title)
  {
    var after := Created(store, up, account, drawn, ids, title, q).1;
    assert drawn in after ==> after != store;
  }

  lemma {:induction false} NumberedKeys(ids: seq<Id>, from: nat)
    ensures var keyed := KeyedChildren(Numbered(ids, from));
            |keyed| == |ids| && forall i :: 0 <= i < |ids| ==> keyed[i] == (from + i, ids[i])
  {
    if ids != [] {
      NumberedKeys(ids[1..], from + 1);
      var keyed := KeyedChildren(Numbered(ids, from));
      assert Numbered(ids, from)[1..] == Numbered(ids[1..], from + 1);
      assert keyed == [(from, ids[0])] + KeyedChildren(Numbered(ids[1..], from + 1));
    }
  }

  lemma {:induction false} SortOfSorted(xs: seq<Keyed>)
    requires forall i, j :: 0 <= i < j < |xs| ==> xs[i].0 <= xs[j].0
    ensures SortByKey(xs) == xs
  {
    if xs != [] {
      SortOfSorted(xs[1..]);
      assert |xs| > 1 ==> xs[0].0 <= xs[1].0;
    }
  }

  /** A collection's display order is the order its members were set in. */
  lemma {:induction false} MembersKeepTheirOrder(ids: seq<Id>)
    ensures OrderedChildren(Numbered(ids, 0)) == ids
  {
    NumberedKeys(ids, 0);
    SortOfSorted(KeyedChildren(Numbered(ids, 0)));
  }

  method PublishNew(
      steam: Steam, up: Call -> bool, drawn: Id, account: Account, blank: char -> bool, q: Request, ids: seq<Id>)
      returns (ok: bool)
    requires drawn !in steam.items && ids != [] && Distinct(ids)
    modifies steam
    ensures (ok, steam.items) == Created(old(steam.items), up, account, drawn, ids, Trimmed(blank, q.title), q)
  {
    FirstNewOfDistinct(ids, {});
    ghost var before := steam.items;
    var made := steam.PublishCollection(up, drawn, blank, account, q.title, q.description, q.visibility);
    if made.Err? {
      return false;
    }
    ok := steam.SetCollectionChildren(up, made.value, ids);
    if ok {
      assert steam.items == before[drawn := steam.items[drawn]];
    } else {
      var gone := steam.DeleteCollection(up, made.value);
      assert gone ==> steam.items == before;
    }
  }

  method EditExisting(
      steam: Steam, up: Call -> bool, account: Account, blank: char -> bool, id: Id, q: Request, ids: seq<Id>)
      returns (ok: bool)
    requires ids != [] && Distinct(ids)
    modifies steam
    ensures (ok, steam.items) == Edited(old(steam.items), up, account, id, ids, Trimmed(blank, q.title), q)
  {
    FirstNewOfDistinct(ids, {});
    ghost var before := steam.items;
    var details := steam.GetCollectionDetails(up, id);
    if details.Err? || !EnsureOwned(details.value, account) {
      return false;
    }
    ok := steam.SetCollectionChildren(up, id, ids);
    if ok {
      ok := steam.UpdateCollection(up, blank, id, q.title, q.description, q.visibility);
      assert steam.items == before[id := steam.items[id]];
    }
  }

  lemma StoredIsHeld(before: Store, id: Id, item: Item, ids: seq<Id>, account: Account, title: string, q: Request)
    requires item.details.eresult == 1 && item.details.fileType == FILE_TYPE_COLLECTION
    requires item == Renamed(WithMembers(item, ids), title, q.description, q.visibility) && item.creator == account
    ensures Holds(before[id := item], id, ids, account, title, q)
    ensures OnlyChanged(before, before[id := item], id)
  {
    MembersKeepTheirOrder(ids);
  }

  /** What the request makes of the store once its candidates have resolved to `ids`. */
  function Outcome(
    store: Store, up: Call -> bool, drawn: Id, account: Account, ids: seq<Id>, title: string, q: Request): (bool, Store)
  {
    match q.existing
    case Some(id) => Edited(store, up, account, id, ids, title, q)
    case None => Created(store, up, account, drawn, ids, title, q)
  }

  /** No request changes what another account published. */
  lemma {:induction false} OthersAreSafe(
      store: Store, up: Call -> bool, drawn: Id, account: Account, ids: seq<Id>, title: string, q: Request)
    requires drawn !in store
    ensures OnlyOwnChanged(store, Outcome(store, up, drawn, account, ids, title, q).1, account)
  {
  }

  /** A failed request is answered without a change, or stops on the way as `Outcome` says. */
  ghost predicate Stopped(
    before: Store, after: Store, up: Call -> bool, drawn: Id, account: Account, title: string, q: Request)
  {
    || after == before
    || exists o :: && ResolvesTo(CatalogueOf(before), q.candidates, o) && o.mods != []
                   && Outcome(before, up, drawn, account, ModIds(o.mods), title, q) == (false, after)
  }

  lemma {:induction false} IsPublished(
      before: Store, after: Store, up: Call -> bool, drawn: Id, account: Account, title: string, q: Request,
      o: ResolveOutcome, p: PublishOutcome)
    requires drawn !in before && ResolvesTo(CatalogueOf(before), q.candidates, o) && o.mods != []
    requires Outcome(before, up, drawn, account, ModIds(o.mods), title, q) == (true, after)
    requires p == PublishOutcome(if q.existing.Some? then q.existing.value else drawn, q.existing.None?, o.mods, o.unresolved)
    ensures Published(before, after, account, title, q, p)
  {
    var id := p.collectionId;
    assert after == before[id := after[id]];
    StoredIsHeld(before, id, after[id], ModIds(o.mods), account, title, q);
  }

  /** With every round of the resolution getting through, a request succeeds exactly when its
    * candidates resolve to some mod and `Outcome` is a success. */
  ghost predicate SucceedsIff(
    ok: bool, before: Store, up: Call -> bool, drawn: Id, account: Account, title: string, q: Request)
  {
    exists o :: && ResolvesTo(CatalogueOf(before), q.candidates, o)
                && (ok <==> o.mods != [] && Outcome(before, up, drawn, account, ModIds(o.mods), title, q).0)
  }

  method PublishCollectionImpl(
      steam: Steam, rounds: nat -> bool, up: Call -> bool, drawn: Id, account: Option<Account>, blank: char -> bool, q: Request)
      returns (r: Result<PublishOutcome>)
    requires drawn !in steam.items
    modifies steam
    ensures account.None? ==> r.Err? && steam.items == old(steam.items)
    ensures account.Some? ==> OnlyOwnChanged(old(steam.items), steam.items, account.value)
    ensures r.Ok? ==> Published(old(steam.items), steam.items, account.value, Trimmed(blank, q.title), q, r.value)
    ensures account.Some? && AllRounds(rounds) ==>
              SucceedsIff(r.Ok?, old(steam.items), up, drawn, account.value, Trimmed(blank, q.title), q)
    ensures r.Err? && account.Some? ==>
              Stopped(old(steam.items), steam.items, up, drawn, account.value, Trimmed(blank, q.title), q)
  {
    if account.None? {
      return Err;
    }
    var resolved := ResolveSourceIds(CatalogueOf(steam.items), q.candidates, rounds);
    if resolved.Err? {
      return Err;
    }
    ghost var before, title := steam.items, Trimmed(blank, q.title);
    var ids := ModIds(resolved.value.mods);
    if ids == [] {
      return Err;
    }
    OthersAreSafe(before, up, drawn, account.value, ids, title, q);
    var id, ok := drawn, false;
    match q.existing {
      case Some(known) =>
        id := known;
        ok := EditExisting(steam, up, account.value, blank, known, q, ids);
      case None =>
        ok := PublishNew(steam, up, drawn, account.value, blank, q, ids);
    }
    if !ok {
      return Err;
    }
    r := Ok(PublishOutcome(id, q.existing.None?, resolved.value.mods, resolved.value.unresolved));
    IsPublished(before, steam.items, up, drawn, account.value, title, q, resolved.value, r.value);
  }

  method DeleteCollectionImpl(steam: Steam, up: Call -> bool, account: Option<Account>, id: Id) returns (ok: bool)
    modifies steam
    ensures ok <==> account.Some? && MayEdit(old(steam.items), up, account.value, id) && up(DeleteCall(id))
    ensures steam.items == if ok then old(steam.items) - {id} else old(steam.items)
  {
    if account.None? {
      return false;
    }
    var details := steam.GetCollectionDetails(up, id);
    if details.Err? || !EnsureOwned(details.value, account.value) {
      return false;
    }
    ok := steam.DeleteCollection(up, id);
  }

  // ---------------------------------------------------------------------------------------
  // Resolving what was published

  lemma {:induction false} ExpansionOfLeaves(ids: seq<Id>, graph: Graph, inside: set<Id>)
    requires forall id :: id in ids ==> id !in graph
    ensures Expansion(ids, graph, inside) == ids
  {
    if ids != [] {
      ExpansionOfLeaves(ids[1..], graph, inside);
    }
  }

  lemma {:induction false} FullSubsequence(xs: seq<Id>, ys: seq<Id>)
    requires IsSubsequence(xs, ys) && Distinct(ys)
    requires forall y :: y in ys ==> y in xs
    ensures xs == ys
  {
    if ys != [] {
      assert ys[0] in xs && ys[0] !in ys[1..];
      if IsSubsequence(xs, ys[1..]) {
        SubsequenceMembers(xs, ys[1..]);
      }
      forall y | y in ys[1..] ensures y in xs[1..] {
        assert y in ys && y != ys[0];
      }
      FullSubsequence(xs[1..], ys[1..]);
    }
  }

  lemma {:induction false} SubsequenceMembers(xs: seq<Id>, ys: seq<Id>)
    requires IsSubsequence(xs, ys)
    ensures forall x :: x in xs ==> x in ys
  {
    if xs != [] {
      if IsSubsequence(xs, ys[1..]) {
        SubsequenceMembers(xs, ys[1..]);
      } else {
        SubsequenceMembers(xs[1..], ys[1..]);
        assert xs == [xs[0]] + xs[1..];
      }
    }
  }

  lemma ExpansionOfOne(cid: Id, graph: Graph)
    requires cid in graph && forall id :: id in graph[cid] ==> id !in graph
    ensures Expansion([cid], graph, {}) == graph[cid]
  {
    ExpansionOfLeaves(graph[cid], graph, {} + {cid});
    assert [cid][1..] == [];
    assert Expansion([cid], graph, {}) == Expansion(graph[cid], graph, {} + {cid}) + Expansion([], graph, {});
  }

  /** A collection of mods is fetched whole and expands to its members. */
  lemma {:induction false} CollectionOfMods(cat: Catalogue, cid: Id, ids: seq<Id>)
    requires IsCollection(cat, cid) && OrderedChildren(cat[cid].children) == ids && Distinct(ids)
    requires forall id :: id in ids ==> IsMod(cat, id)
    ensures FirstNew(Expansion([cid], Fetched(cat, [cid]), {}), {}) == ids
    ensures forall id :: id in ids ==> id in Within(cat, [cid], MAX_COLLECTION_DEPTH - 1)
  {
    var graph, fetched := Collections(cat), Fetched(cat, [cid]);
    assert Ids([cid]) == {cid};
    ReachGrows(graph, {cid}, 0, MAX_COLLECTION_DEPTH - 1);
    ReachGrows(graph, {cid}, 1, MAX_COLLECTION_DEPTH - 1);
    assert cid in fetched && fetched[cid] == ids;
    ExpansionOfOne(cid, fetched);
    FirstNewOfDistinct(ids, {});
    forall id | id in ids ensures id in Within(cat, [cid], MAX_COLLECTION_DEPTH - 1) {
      assert id in Reach(graph, {cid}, 1);
    }
  }

  lemma NoMembersIsEmpty(xs: seq<Id>)
    ensures (forall x :: x !in xs) ==> xs == []
  {
    assert xs == [] || xs[0] in xs;
  }

  /** Resolving a collection of mods gives those mods in its own order and nothing else. */
  lemma {:induction false} CollectionOfModsResolves(cat: Catalogue, cid: Id, ids: seq<Id>, o: ResolveOutcome)
    requires IsCollection(cat, cid) && OrderedChildren(cat[cid].children) == ids && Distinct(ids)
    requires forall id :: id in ids ==> IsMod(cat, id)
    requires ResolvesTo(cat, [cid], o)
    ensures ModIds(o.mods) == ids && o.unresolved == []
  {
    CollectionOfMods(cat, cid, ids);
    SubsequenceMembers(o.unresolved, ids);
    NoMembersIsEmpty(o.unresolved);
    FullSubsequence(ModIds(o.mods), ids);
  }

  /** The published link resolves to exactly the mods that were returned: same ids, same order,
    * same titles and sizes, nothing unresolved. */
  lemma {:induction false} PublishedCollectionResolves(
      before: Store, after: Store, account: Account, title: string, q: Request, p: PublishOutcome, o: ResolveOutcome)
    requires Published(before, after, account, title, q, p)
    requires ResolvesTo(CatalogueOf(after), [p.collectionId], o)
    ensures o.mods == p.mods && o.unresolved == []
  {
    var cid, ids := p.collectionId, ModIds(p.mods);
    forall i | 0 <= i < |p.mods| ensures IsReported(CatalogueOf(after), p.mods[i]) {
      MemberIsKept(before, after, account, title, q, p, p.mods[i]);
    }
    forall id | id in ids ensures IsMod(CatalogueOf(after), id) {
      var i :| 0 <= i < |ids| && ids[i] == id;
      assert IsReported(CatalogueOf(after), p.mods[i]);
    }
    CollectionOfModsResolves(CatalogueOf(after), cid, ids, o);
    SameReports(CatalogueOf(after), [cid], o, p.mods);
  }

  /** Mods reported for the same ids are the same. */
  lemma {:induction false} SameReports(cat: Catalogue, candidates: seq<Id>, o: ResolveOutcome, mods: seq<ResolvedMod>)
    requires ModsAreRight(cat, candidates, o.mods) && ModIds(o.mods) == ModIds(mods)
    requires forall i :: 0 <= i < |mods| ==> IsReported(cat, mods[i])
    ensures o.mods == mods
  {
    assert |o.mods| == |ModIds(o.mods)| == |mods|;
    forall i | 0 <= i < |mods| ensures o.mods[i] == mods[i] {
      assert o.mods[i].modId == ModIds(o.mods)[i] == mods[i].modId;
      assert IsReported(cat, mods[i]);
      assert o.mods[i] in o.mods;
    }
  }

  ghost predicate IsReported(cat: Catalogue, m: ResolvedMod) {
    IsMod(cat, m.modId) && m == ResolvedMod(m.modId, cat[m.modId].title, cat[m.modId].fileSize)
  }

  lemma MemberIsKept(
      before: Store, after: Store, account: Account, title: string, q: Request, p: PublishOutcome, m: ResolvedMod)
    requires Published(before, after, account, title, q, p) && m in p.mods
    ensures IsReported(CatalogueOf(after), m)
  {
    var cid := p.collectionId;
    assert m.modId != cid;
    OtherItemIsKept(before, after, cid, m);
  }

  lemma OtherItemIsKept(before: Store, after: Store, cid: Id, m: ResolvedMod)
    requires OnlyChanged(before, after, cid) && IsReported(CatalogueOf(before), m) && m.modId != cid
    ensures IsReported(CatalogueOf(after), m)
  {
    assert m.modId in before - {cid} && (before - {cid})[m.modId] == (after - {cid})[m.modId];
  }
}
