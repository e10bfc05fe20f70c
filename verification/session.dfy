/**
 * The renderer's tab session (`electron/renderer/state.js`, `tabs.js` and the
 * tab handlers of `electron/renderer/main.js`): the ordered open tabs, the
 * active id, the multi-selection used for stacking, the drag source, and the
 * rule that groups tabs into stacks for display.
 *
 * Calls into the other window (`window.api.tabs.*`, `window.api.notes.open`,
 * `window.api.notes.get`) are recorded in the `calls` log; their answers are
 * parameters of the operations that await them.
 */
module Session {
  import opened Wrappers
  import opened Strings
  import opened Seqs

  /** One entry of `state.openTabs`: `{ id, title, stackId }`. */
  datatype Tab = Tab(id: string, title: string, stackId: Option<string>)

  function Ids(tabs: seq<Tab>): (r: seq<string>)
    ensures |r| == |tabs| && forall i :: 0 <= i < |tabs| ==> r[i] == tabs[i].id
  {
    seq(|tabs|, i requires 0 <= i < |tabs| => tabs[i].id)
  }

  predicate UniqueIds(tabs: seq<Tab>) {
    Distinct(Ids(tabs))
  }

  /** `openTabs.findIndex(t => t.id === id)`. */
  function FindIndex(tabs: seq<Tab>, id: string): (i: int)
    ensures -1 <= i < |tabs|
    ensures i >= 0 ==> tabs[i].id == id
    ensures forall j :: 0 <= j < |tabs| && (i < 0 || j < i) ==> tabs[j].id != id
  {
    if tabs == [] then -1
    else if tabs[0].id == id then 0
    else
      var k := FindIndex(tabs[1..], id);
      if k < 0 then -1 else k + 1
  }

  /** `findTab(id)`: the first tab with that id, or undefined. */
  function FindTab(tabs: seq<Tab>, id: string): (r: Option<Tab>)
    ensures r.Some? <==> id in Ids(tabs)
    ensures r.Some? ==> r.value.id == id && r.value in tabs
    ensures r.Some? ==> exists i :: 0 <= i < |tabs| && tabs[i] == r.value && forall j :: 0 <= j < i ==> tabs[j].id != id
  {
    var i := FindIndex(tabs, id);
    if i < 0 then None else Some(tabs[i])
  }

  /** `getActive()`: the tab whose id is `activeId`, or null. */
  function GetActive(tabs: seq<Tab>, activeId: Option<string>): (r: Option<Tab>)
    ensures r.Some? <==> activeId.Some? && activeId.value in Ids(tabs)
    ensures r.Some? ==> r.value.id == activeId.value && r.value in tabs
  {
    if activeId.None? then None else FindTab(tabs, activeId.value)
  }

  /** `t.stackId || null`: the bucket a tab belongs to. */
  function StackKey(t: Tab): Option<string> {
    if Truthy(t.stackId) then t.stackId else None
  }

  /** One record `persistTabs` sends: `{ note_id, stack_id, position }`. */
  datatype PersistedTab = PersistedTab(noteId: string, stackId: Option<string>, position: nat)

  /** The records `persistTabs` builds from `openTabs`. */
  function Persisted(tabs: seq<Tab>): (r: seq<PersistedTab>)
    ensures |r| == |tabs|
    ensures forall i :: 0 <= i < |tabs| ==>
      r[i].noteId == tabs[i].id && r[i].position == i
      && (r[i].stackId.None? <==> !Truthy(tabs[i].stackId))
  {
    seq(|tabs|, i requires 0 <= i < |tabs| => PersistedTab(tabs[i].id, StackKey(tabs[i]), i))
  }

  /** Requests sent to the main process. */
  datatype Call =
    | SaveSession(session: string, tabs: seq<PersistedTab>)
    | RegisterOpen(noteId: string, windowId: string)
    | RegisterClose(noteId: string, windowId: string)
    | FetchNote(noteId: string)
    | OpenRequest(noteId: string)

  /** The tabs left when every tab whose id is in `gone` is removed. */
  function Without(tabs: seq<Tab>, gone: set<string>): (r: seq<Tab>)
    ensures |r| <= |tabs|
  {
    if tabs == [] then []
    else
      var rest := Without(tabs[1..], gone);
      if tabs[0].id in gone then rest else [tabs[0]] + rest
  }

  lemma {:induction false} WithoutNone(tabs: seq<Tab>, gone: set<string>)
    requires forall i :: 0 <= i < |tabs| ==> tabs[i].id !in gone
    ensures Without(tabs, gone) == tabs
  {
    if tabs != [] {
      WithoutNone(tabs[1..], gone);
      assert tabs == [tabs[0]] + tabs[1..];
    }
  }

  lemma UniqueTail(tabs: seq<Tab>)
    requires tabs != [] && UniqueIds(tabs)
    ensures UniqueIds(tabs[1..])
    ensures forall i :: 0 <= i < |tabs| - 1 ==> tabs[1..][i].id != tabs[0].id
  {
    var ids := Ids(tabs);
    var tl := Ids(tabs[1..]);
    assert tl == ids[1..];
    forall i | 0 <= i < |tabs| - 1 ensures tabs[1..][i].id != tabs[0].id {
      assert ids[0] != ids[i + 1];
    }
  }

  /** Removing the first tab with `id` removes every tab with `id` when ids are unique. */
  lemma {:induction false} RemoveFirstIsWithout(tabs: seq<Tab>, id: string)
    requires UniqueIds(tabs) && FindIndex(tabs, id) >= 0
    ensures RemoveAt(tabs, FindIndex(tabs, id)) == Without(tabs, {id})
  {
    UniqueTail(tabs);
    var tl := tabs[1..];
    if tabs[0].id == id {
      WithoutNone(tl, {id});
    } else {
      var k := FindIndex(tl, id);
      RemoveFirstIsWithout(tl, id);
      RemoveAtTail(tabs, k);
    }
  }

  /** The state change of `closeTab` keeps the ids unique and the active id open. */
  /** Tab ids are unique and the active id, if any, names an open tab. */
  ghost predicate Consistent(tabs: seq<Tab>, active: Option<string>) {
    UniqueIds(tabs) && (active.Some? ==> active.value in Ids(tabs))
  }

  lemma CloseStep(tabs: seq<Tab>, active: Option<string>, id: string)
    requires Consistent(tabs, active)
    ensures var idx := FindIndex(tabs, id);
      Without(tabs, {id}) == if idx >= 0 then RemoveAt(tabs, idx) else tabs
    ensures UniqueIds(Without(tabs, {id}))
    ensures var r := Without(tabs, {id});
      Consistent(r, if active == Some(id) then FirstActive(r) else active)
  {
    var idx := FindIndex(tabs, id);
    WithoutUnique(tabs, {id});
    if idx >= 0 {
      RemoveFirstIsWithout(tabs, id);
    } else {
      WithoutAbsent(tabs, id);
    }
    var r := Without(tabs, {id});
    if active == Some(id) && FirstActive(r).Some? {
      assert Ids(r)[0] == r[0].id;
    }
  }

  /** Without a tab carrying `id`, removing `id` changes nothing. */
  lemma WithoutAbsent(tabs: seq<Tab>, id: string)
    requires FindIndex(tabs, id) < 0
    ensures Without(tabs, {id}) == tabs
  {
    WithoutNone(tabs, {id});
  }

  lemma {:induction false} WithoutUnion(tabs: seq<Tab>, a: set<string>, b: set<string>)
    ensures Without(Without(tabs, a), b) == Without(tabs, a + b)
  {
    if tabs != [] {
      var t := tabs[0];
      var tl := tabs[1..];
      WithoutUnion(tl, a, b);
      var wa := Without(tl, a);
      if t.id !in a {
        var w := [t] + wa;
        assert Without(tabs, a) == w;
        assert w[1..] == wa && w[0] == t;
        assert Without(w, b) == if t.id in b then Without(wa, b) else [t] + Without(wa, b);
      }
    }
  }

  /** Removing tabs keeps the ids unique, and the ids left are the old ones not removed. */
  lemma {:induction false} WithoutUnique(tabs: seq<Tab>, gone: set<string>)
    requires UniqueIds(tabs)
    ensures UniqueIds(Without(tabs, gone))
    ensures forall x :: x in Ids(Without(tabs, gone)) <==> x in Ids(tabs) && x !in gone
  {
    if tabs != [] {
      var t := tabs[0];
      var tl := tabs[1..];
      UniqueTail(tabs);
      WithoutUnique(tl, gone);
      assert Ids(tabs) == [t.id] + Ids(tl);
      var w1 := Without(tl, gone);
      if t.id !in gone {
        var w := [t] + w1;
        assert Ids(w) == [t.id] + Ids(w1);
        assert t.id !in Ids(tl);
        assert t.id !in Ids(w1);
      }
    }
  }

  lemma IdsConcat(a: seq<Tab>, b: seq<Tab>)
    ensures Ids(a + b) == Ids(a) + Ids(b)
  {
  }

  lemma IdsSlice(s: seq<Tab>, i: nat, j: nat)
    requires i <= j <= |s|
    ensures Ids(s[i..j]) == Ids(s)[i..j]
  {
  }

  lemma IdsRemoveAt(tabs: seq<Tab>, i: nat)
    requires i < |tabs|
    ensures Ids(RemoveAt(tabs, i)) == RemoveAt(Ids(tabs), i)
  {
    IdsSlice(tabs, 0, i);
    IdsSlice(tabs, i + 1, |tabs|);
    assert tabs[..i] == tabs[0..i] && tabs[i + 1..] == tabs[i + 1..|tabs|];
    IdsConcat(tabs[..i], tabs[i + 1..]);
  }

  lemma IdsInsertAt(tabs: seq<Tab>, i: nat, t: Tab)
    requires i <= |tabs|
    ensures Ids(InsertAt(tabs, i, t)) == InsertAt(Ids(tabs), i, t.id)
  {
    var a, b := Ids(InsertAt(tabs, i, t)), InsertAt(Ids(tabs), i, t.id);
    forall k | 0 <= k < |a| ensures a[k] == b[k] {
      InsertAtIndex(tabs, i, t, k);
      InsertAtIndex(Ids(tabs), i, t.id, k);
    }
  }

  lemma IdsMove(tabs: seq<Tab>, from: nat, to: nat)
    requires from < |tabs| && to < |tabs|
    ensures Ids(Move(tabs, from, to)) == Move(Ids(tabs), from, to)
  {
    IdsRemoveAt(tabs, from);
    IdsInsertAt(RemoveAt(tabs, from), to, tabs[from]);
  }

  /** A drag-reorder keeps the ids unique. */
  lemma MoveKeepsUnique(tabs: seq<Tab>, from: nat, to: nat)
    requires from < |tabs| && to < |tabs|
    ensures UniqueIds(tabs) ==> UniqueIds(Move(tabs, from, to))
    ensures multiset(Move(tabs, from, to)) == multiset(tabs)
    ensures forall x :: x in Ids(Move(tabs, from, to)) <==> x in Ids(tabs)
  {
    var ids := Ids(tabs);
    IdsMove(tabs, from, to);
    if Distinct(ids) {
      DistinctPermutation(ids, Move(ids, from, to));
    }
    assert multiset(Move(ids, from, to)) == multiset(ids);
    forall x ensures x in Move(ids, from, to) <==> x in ids {
      assert x in Move(ids, from, to) <==> x in multiset(Move(ids, from, to));
      assert x in ids <==> x in multiset(ids);
    }
  }

  /** A drop on `id` reorders when a tab is dragged, it is not the target, and both are open. */
  predicate DropMoves(tabs: seq<Tab>, dragged: Option<string>, id: string) {
    Truthy(dragged) && dragged.value != id && FindIndex(tabs, dragged.value) >= 0 && FindIndex(tabs, id) >= 0
  }

  /**
   * The tabs after a drop on `id`: the dragged tab at the target's index, or
   * the tabs unchanged. Always a permutation with the same ids.
   */
  function AfterDrop(tabs: seq<Tab>, dragged: Option<string>, id: string): (r: seq<Tab>)
    ensures |r| == |tabs| && multiset(r) == multiset(tabs)
    ensures forall x :: x in Ids(r) <==> x in Ids(tabs)
    ensures UniqueIds(tabs) ==> UniqueIds(r)
    ensures DropMoves(tabs, dragged, id) ==>
      var from, to := FindIndex(tabs, dragged.value), FindIndex(tabs, id);
      r[to] == tabs[from] && RemoveAt(r, to) == RemoveAt(tabs, from)
    ensures !DropMoves(tabs, dragged, id) ==> r == tabs
  {
    if DropMoves(tabs, dragged, id) then
      var from, to := FindIndex(tabs, dragged.value), FindIndex(tabs, id);
      MoveKeepsUnique(tabs, from, to);
      Move(tabs, from, to)
    else tabs
  }

  // ------------------------------------------------------------- selection

  /** `toggleSelect(id)` on the selection set. */
  function Toggled(sel: set<string>, id: string): (r: set<string>)
    ensures id in r <==> id !in sel
    ensures forall x :: x != id ==> (x in r <==> x in sel)
  {
    if id in sel then sel - {id} else sel + {id}
  }

  /** Toggling the same id twice restores the selection. */
  lemma ToggleTwice(sel: set<string>, id: string)
    ensures Toggled(Toggled(sel, id), id) == sel
  {
  }

  // -------------------------------------------------------------- stacking

  /** One bucket of the `stacks` Map of `renderTabs`: its key and its tabs in order. */
  datatype Bucket = Bucket(sid: Option<string>, members: seq<Tab>)

  function BucketIndex(bs: seq<Bucket>, k: Option<string>): (i: int)
    ensures -1 <= i < |bs|
    ensures i >= 0 ==> bs[i].sid == k
    ensures i < 0 ==> forall j :: 0 <= j < |bs| ==> bs[j].sid != k
  {
    if bs == [] then -1
    else if bs[|bs| - 1].sid == k then |bs| - 1
    else BucketIndex(bs[..|bs| - 1], k)
  }

  /** One step of the grouping loop: create the bucket on first sight, then push the tab. */
  function AddToBucket(bs: seq<Bucket>, t: Tab): seq<Bucket> {
    var k := StackKey(t);
    var i := BucketIndex(bs, k);
    if i < 0 then bs + [Bucket(k, [t])] else bs[i := Bucket(k, bs[i].members + [t])]
  }

  /** The buckets after the grouping loop over `tabs`. */
  function Buckets(tabs: seq<Tab>): seq<Bucket> {
    if tabs == [] then [] else AddToBucket(Buckets(tabs[..|tabs| - 1]), tabs[|tabs| - 1])
  }

  /** The bucket keys, in the order in which they first occur among the tabs. */
  function FirstSeen(tabs: seq<Tab>): seq<Option<string>> {
    if tabs == [] then []
    else
      var p := FirstSeen(tabs[..|tabs| - 1]);
      var k := StackKey(tabs[|tabs| - 1]);
      if k in p then p else p + [k]
  }

  function Sids(bs: seq<Bucket>): seq<Option<string>> {
    seq(|bs|, i requires 0 <= i < |bs| => bs[i].sid)
  }

  function Flatten(bs: seq<Bucket>): seq<Tab> {
    if bs == [] then [] else Flatten(bs[..|bs| - 1]) + bs[|bs| - 1].members
  }

  lemma MultisetAddBoth(a: multiset<Tab>, c: multiset<Tab>, x: multiset<Tab>, y: multiset<Tab>, l: multiset<Tab>)
    requires a + x == c + y
    ensures (a + l) + x == (c + l) + y
  {
    forall e ensures ((a + l) + x)[e] == ((c + l) + y)[e] {
      assert (a + x)[e] == (c + y)[e];
    }
  }

  lemma {:induction false} FlattenUpdate(bs: seq<Bucket>, i: nat, b: Bucket)
    requires i < |bs|
    ensures multiset(Flatten(bs[i := b])) + multiset(bs[i].members) == multiset(Flatten(bs)) + multiset(b.members)
  {
    var n := |bs| - 1;
    if i < n {
      assert bs[i := b][..n] == bs[..n][i := b];
      assert bs[..n][i] == bs[i] && bs[i := b][n] == bs[n];
      FlattenUpdate(bs[..n], i, b);
      var a, c, l := Flatten(bs[..n][i := b]), Flatten(bs[..n]), bs[n].members;
      assert Flatten(bs[i := b]) == a + l;
      assert Flatten(bs) == c + l;
      MultisetAddBoth(multiset(a), multiset(c), multiset(bs[i].members), multiset(b.members), multiset(l));
    } else {
      assert bs[i := b][..n] == bs[..n];
    }
  }

  /** The buckets come in the order in which their keys first occur, and no key repeats. */
  lemma {:induction false} BucketsKeys(tabs: seq<Tab>)
    ensures Sids(Buckets(tabs)) == FirstSeen(tabs)
    ensures Distinct(Sids(Buckets(tabs)))
  {
    if tabs != [] {
      var p := tabs[..|tabs| - 1];
      var t := tabs[|tabs| - 1];
      BucketsKeys(p);
      AddToBucketSids(Buckets(p), t);
    }
  }

  /** One step of the grouping loop adds the tab's key at the end when it is new, and keeps the keys distinct. */
  lemma AddToBucketSids(bs: seq<Bucket>, t: Tab)
    ensures Sids(AddToBucket(bs, t)) == if StackKey(t) in Sids(bs) then Sids(bs) else Sids(bs) + [StackKey(t)]
    ensures Distinct(Sids(bs)) ==> Distinct(Sids(AddToBucket(bs, t)))
  {
    var k := StackKey(t);
    var i := BucketIndex(bs, k);
    if i < 0 {
      assert k !in Sids(bs);
      assert Sids(bs + [Bucket(k, [t])]) == Sids(bs) + [k];
    } else {
      assert Sids(bs)[i] == k;
      assert Sids(bs[i := Bucket(k, bs[i].members + [t])]) == Sids(bs);
    }
  }

  /** A bucket is non-empty and holds only tabs with its key. */
  predicate Keyed(b: Bucket) {
    b.members != [] && forall j :: 0 <= j < |b.members| ==> StackKey(b.members[j]) == b.sid
  }

  /** Every bucket is non-empty and holds only tabs with its key. */
  lemma {:induction false} BucketsMembers(tabs: seq<Tab>)
    ensures forall i :: 0 <= i < |Buckets(tabs)| ==> Keyed(Buckets(tabs)[i])
  {
    if tabs != [] {
      var p := tabs[..|tabs| - 1];
      var t := tabs[|tabs| - 1];
      BucketsMembers(p);
      var bs := Buckets(p);
      var k := StackKey(t);
      var i := BucketIndex(bs, k);
      if i >= 0 {
        var nb := bs[i].members + [t];
        assert Keyed(bs[i]);
        forall j | 0 <= j < |nb| ensures StackKey(nb[j]) == k {
          if j < |bs[i].members| {
            assert nb[j] == bs[i].members[j];
          }
        }
        assert Keyed(Bucket(k, nb));
      } else {
        assert Keyed(Bucket(k, [t]));
      }
    }
  }

  lemma AddToBucketFlatten(bs: seq<Bucket>, t: Tab)
    ensures multiset(Flatten(AddToBucket(bs, t))) == multiset(Flatten(bs)) + multiset{t}
  {
    var k := StackKey(t);
    var i := BucketIndex(bs, k);
    if i >= 0 {
      var nb := Bucket(k, bs[i].members + [t]);
      assert AddToBucket(bs, t) == bs[i := nb];
      FlattenUpdate(bs, i, nb);
      MultisetCancel(multiset(Flatten(bs[i := nb])), multiset(Flatten(bs)), multiset(bs[i].members), t);
    } else {
      var nb := Bucket(k, [t]);
      assert AddToBucket(bs, t) == bs + [nb];
      assert (bs + [nb])[..|bs|] == bs;
      assert Flatten(bs + [nb]) == Flatten(bs) + [t];
    }
  }

  lemma MultisetCancel(a: multiset<Tab>, b: multiset<Tab>, x: multiset<Tab>, t: Tab)
    requires a + x == b + (x + multiset{t})
    ensures a == b + multiset{t}
  {
    forall e ensures a[e] == (b + multiset{t})[e] {
      assert (a + x)[e] == (b + (x + multiset{t}))[e];
    }
  }

  /** Every tab lands in exactly one bucket: the buckets together are a permutation of the tabs. */
  lemma {:induction false} BucketsPartition(tabs: seq<Tab>)
    ensures multiset(Flatten(Buckets(tabs))) == multiset(tabs)
  {
    if tabs != [] {
      var p := tabs[..|tabs| - 1];
      var t := tabs[|tabs| - 1];
      BucketsPartition(p);
      AddToBucketFlatten(Buckets(p), t);
      LastSplit(tabs);
    }
  }

  lemma LastSplit(tabs: seq<Tab>)
    requires tabs != []
    ensures multiset(tabs) == multiset(tabs[..|tabs| - 1]) + multiset{tabs[|tabs| - 1]}
  {
    assert tabs == tabs[..|tabs| - 1] + [tabs[|tabs| - 1]];
  }

  /** How one bucket is displayed: a plain tab, or a stack header showing one face tab. */
  datatype Shown = Plain(tab: Tab) | Header(sid: Option<string>, face: Tab, members: seq<Tab>)

  /** `tabs.find(t => t.id === state.activeId) || tabs[0]`. */
  function Face(members: seq<Tab>, activeId: Option<string>): (t: Tab)
    requires members != []
    ensures t in members
    ensures activeId.Some? && activeId.value in Ids(members) ==> t.id == activeId.value
    ensures !(activeId.Some? && activeId.value in Ids(members)) ==> t == members[0]
  {
    if activeId.Some? && activeId.value in Ids(members) then FindTab(members, activeId.value).value else members[0]
  }

  function Show(b: Bucket, activeId: Option<string>): Shown
    requires b.members != []
  {
    if b.sid.None? && |b.members| == 1 then Plain(b.members[0]) else Header(b.sid, Face(b.members, activeId), b.members)
  }

  /** Only a lone unstacked tab is displayed plain; every other bucket, null key included, is a header. */
  lemma ShowPlainIff(b: Bucket, activeId: Option<string>)
    requires b.members != []
    ensures Show(b, activeId).Plain? <==> b.sid.None? && |b.members| == 1
    ensures Show(b, activeId).Header? ==> Show(b, activeId).members == b.members
  {
  }

  // ------------------------------------------------------------ the state

  class TabSession {
    var openTabs: seq<Tab>
    var activeId: Option<string>
    var selected: set<string>
    /** The module-level `dragTabId` of the drag handlers. */
    var dragTabId: Option<string>
    var status: Option<string>
    var calls: seq<Call>

    /** Tab ids are unique, and the active id is null or names an open tab. */
    ghost predicate Valid()
      reads this
    {
      Consistent(openTabs, activeId)
    }

    /** The initial `state`: no tabs, nothing active or selected. */
    constructor ()
      ensures Valid()
      ensures openTabs == [] && activeId == None && selected == {} && dragTabId == None
      ensures status == None && calls == []
    {
      openTabs := [];
      activeId := None;
      selected := {};
      dragTabId := None;
      status := None;
      calls := [];
    }

    /** `setActive(id)`: assigns `activeId`, nothing else. */
    method SetActive(id: string)
      modifies this
      ensures activeId == Some(id)
      ensures openTabs == old(openTabs) && selected == old(selected) && dragTabId == old(dragTabId)
      ensures status == old(status) && calls == old(calls)
      ensures Valid() <==> UniqueIds(openTabs) && id in Ids(openTabs)
    {
      activeId := Some(id);
    }

    /** `persistTabs()`: sends one record per open tab for the session "main". */
    method PersistTabs()
      modifies this
      ensures calls == old(calls) + [SaveSession("main", Persisted(openTabs))]
      ensures openTabs == old(openTabs) && activeId == old(activeId) && selected == old(selected)
      ensures dragTabId == old(dragTabId) && status == old(status)
    {
      calls := calls + [SaveSession("main", Persisted(openTabs))];
    }

    /** `registerOpen(id, title)`: a new id is appended and activated; a known id changes nothing. */
    method RegisterOpenTab(id: string, title: string)
      requires Valid()
      modifies this
      ensures Valid()
      ensures id in Ids(old(openTabs)) ==>
        openTabs == old(openTabs) && activeId == old(activeId) && calls == old(calls)
      ensures id !in Ids(old(openTabs)) ==>
        && openTabs == old(openTabs) + [Tab(id, title, None)]
        && activeId == Some(id)
        && calls == old(calls) + [SaveSession("main", Persisted(openTabs))]
      ensures selected == old(selected) && dragTabId == old(dragTabId) && status == old(status)
    {
      if FindTab(openTabs, id).None? {
        openTabs := openTabs + [Tab(id, title, None)];
        assert Ids(openTabs) == Ids(old(openTabs)) + [id];
        activeId := Some(id);
        PersistTabs();
      }
    }

    /** `toggleSelect(id)`. */
    method ToggleSelect(id: string)
      modifies this
      ensures selected == Toggled(old(selected), id)
      ensures openTabs == old(openTabs) && activeId == old(activeId) && dragTabId == old(dragTabId)
      ensures status == old(status) && calls == old(calls)
    {
      if id in selected {
        selected := selected - {id};
      } else {
        selected := selected + {id};
      }
    }

    /**
     * `mergeSelectedIntoStack()`: with two or more selected ids, every selected
     * tab gets the stack id `"s:" + now`, the others are untouched, and the
     * selection is cleared; otherwise nothing changes.
     */
    method MergeSelectedIntoStack(now: nat)
      requires Valid()
      modifies this
      ensures Valid()
      ensures |old(selected)| < 2 ==> openTabs == old(openTabs) && selected == old(selected) && calls == old(calls)
      ensures |old(selected)| >= 2 ==>
        && |openTabs| == |old(openTabs)|
        && (forall i :: 0 <= i < |openTabs| ==>
              openTabs[i] == if old(openTabs)[i].id in old(selected)
                             then old(openTabs)[i].(stackId := Some("s:" + Decimal(now)))
                             else old(openTabs)[i])
        && selected == {}
        && calls == old(calls) + [SaveSession("main", Persisted(openTabs))]
      ensures activeId == old(activeId) && dragTabId == old(dragTabId) && status == old(status)
    {
      if |selected| < 2 {
        return;
      }
      var stackId := "s:" + Decimal(now);
      var i := 0;
      while i < |openTabs|
        invariant 0 <= i <= |openTabs| == |old(openTabs)|
        invariant forall j :: 0 <= j < |openTabs| ==>
          openTabs[j] == if j < i && old(openTabs)[j].id in selected
                         then old(openTabs)[j].(stackId := Some(stackId))
                         else old(openTabs)[j]
        invariant selected == old(selected) && activeId == old(activeId) && calls == old(calls)
        invariant dragTabId == old(dragTabId) && status == old(status)
      {
        if openTabs[i].id in selected {
          openTabs := openTabs[i := openTabs[i].(stackId := Some(stackId))];
        }
        i := i + 1;
      }
      assert Ids(openTabs) == Ids(old(openTabs));
      selected := {};
      PersistTabs();
    }

    /** `unstackTab(id)`: clears the stack id of that tab only; an unknown id is a no-op. */
    method UnstackTab(id: string)
      requires Valid()
      modifies this
      ensures Valid()
      ensures id !in Ids(old(openTabs)) ==> openTabs == old(openTabs) && calls == old(calls)
      ensures id in Ids(old(openTabs)) ==>
        && |openTabs| == |old(openTabs)|
        && (forall i :: 0 <= i < |openTabs| ==>
              openTabs[i] == if old(openTabs)[i].id == id then old(openTabs)[i].(stackId := None) else old(openTabs)[i])
        && calls == old(calls) + [SaveSession("main", Persisted(openTabs))]
      ensures activeId == old(activeId) && selected == old(selected) && dragTabId == old(dragTabId)
      ensures status == old(status)
    {
      var i := FindIndex(openTabs, id);
      if i < 0 {
        return;
      }
      openTabs := openTabs[i := openTabs[i].(stackId := None)];
      assert Ids(openTabs) == Ids(old(openTabs));
      forall j | 0 <= j < |openTabs| && old(openTabs)[j].id == id ensures j == i {
        assert Ids(old(openTabs))[j] == Ids(old(openTabs))[i];
      }
      PersistTabs();
    }

    /** `updateTabTitle(id, title)`: retitles that tab only; an unknown id changes nothing. */
    method UpdateTabTitle(id: string, title: string)
      requires Valid()
      modifies this
      ensures Valid()
      ensures |openTabs| == |old(openTabs)|
      ensures forall i :: 0 <= i < |openTabs| ==>
        openTabs[i] == if old(openTabs)[i].id == id then old(openTabs)[i].(title := title) else old(openTabs)[i]
      ensures activeId == old(activeId) && selected == old(selected) && dragTabId == old(dragTabId)
      ensures status == old(status) && calls == old(calls)
    {
      var i := FindIndex(openTabs, id);
      if i >= 0 {
        openTabs := openTabs[i := openTabs[i].(title := title)];
        assert Ids(openTabs) == Ids(old(openTabs));
        forall j | 0 <= j < |openTabs| && old(openTabs)[j].id == id ensures j == i {
          assert Ids(old(openTabs))[j] == Ids(old(openTabs))[i];
        }
      }
    }

    /** The `dragstart` handler: remembers the dragged tab id. */
    method DragStart(id: string)
      modifies this
      ensures dragTabId == Some(id)
      ensures openTabs == old(openTabs) && activeId == old(activeId) && selected == old(selected)
      ensures status == old(status) && calls == old(calls)
    {
      dragTabId := Some(id);
    }

    /**
     * The `drop` handler on the tab `id`: the dragged tab moves to the target's
     * index (remove, then insert) unless nothing is dragged, the dragged tab is
     * the target, or either is not open. The drag source is always reset.
     */
    method Drop(id: string)
      requires Valid()
      modifies this
      ensures Valid()
      ensures dragTabId == None
      ensures openTabs == AfterDrop(old(openTabs), old(dragTabId), id)
      ensures calls == old(calls) + if DropMoves(old(openTabs), old(dragTabId), id) then [SaveSession("main", Persisted(openTabs))] else []
      ensures activeId == old(activeId) && selected == old(selected) && status == old(status)
    {
      var dragged := dragTabId;
      dragTabId := None;
      if !Truthy(dragged) || dragged.value == id {
        return;
      }
      var from := FindIndex(openTabs, dragged.value);
      var to := FindIndex(openTabs, id);
      if from < 0 || to < 0 {
        return;
      }
      MoveKeepsUnique(openTabs, from, to);
      assert Move(openTabs, from, to) == AfterDrop(openTabs, dragged, id);
      openTabs := Move(openTabs, from, to);
      PersistTabs();
    }

    /**
     * `closeTab(id)`: removes the tab; if it was active, the first remaining tab
     * becomes active (or none). The editor then reloads the active note, and the
     * close is always reported with `registerClose(id, id)`.
     */
    method CloseTab(id: string)
      requires Valid()
      modifies this
      ensures selected == old(selected) && dragTabId == old(dragTabId) && status == old(status)
      ensures openTabs == Without(old(openTabs), {id})
      ensures activeId == if old(activeId) == Some(id) then FirstActive(openTabs) else old(activeId)
      ensures calls == old(calls) + CloseEffects(activeId, id)
      ensures Valid()
    {
      CloseStep(openTabs, activeId, id);
      var idx := FindIndex(openTabs, id);
      var tabs := if idx >= 0 then RemoveAt(openTabs, idx) else openTabs;
      var active := if activeId == Some(id) then FirstActive(tabs) else activeId;
      openTabs, activeId, calls := tabs, active, calls + CloseEffects(active, id);
    }

    /** The close control of a stack header: `closeTab` for each member in turn. */
    method CloseAll(ids: seq<string>)
      requires Valid()
      modifies this
      ensures Valid()
      ensures openTabs == Without(old(openTabs), SetOf(ids))
      ensures old(activeId).Some? && old(activeId).value !in ids ==> activeId == old(activeId)
      ensures Closes(calls) == Closes(old(calls)) + CloseRequests(ids)
      ensures selected == old(selected) && dragTabId == old(dragTabId) && status == old(status)
    {
      var k := 0;
      WithoutNone(openTabs, {});
      assert SetOf(ids[..0]) == {};
      while k < |ids|
        invariant 0 <= k <= |ids|
        invariant Valid()
        invariant openTabs == Without(old(openTabs), SetOf(ids[..k]))
        invariant old(activeId).Some? && old(activeId).value !in ids ==> activeId == old(activeId)
        invariant Closes(calls) == Closes(old(calls)) + CloseRequests(ids[..k])
        invariant selected == old(selected) && dragTabId == old(dragTabId) && status == old(status)
      {
        ghost var before := calls;
        CloseTab(ids[k]);
        CloseAllStep(old(openTabs), old(calls), before, activeId, ids, k);
        k := k + 1;
      }
      assert ids[..k] == ids;
    }

    /** The `onFocusNote` handler: activates an open tab and reloads it; any other id changes nothing. */
    method FocusNote(noteId: string)
      requires Valid()
      modifies this
      ensures Valid()
      ensures noteId in Ids(old(openTabs)) ==> activeId == Some(noteId) && calls == old(calls) + [FetchNote(noteId)]
      ensures noteId !in Ids(old(openTabs)) ==> activeId == old(activeId) && calls == old(calls)
      ensures openTabs == old(openTabs) && selected == old(selected) && dragTabId == old(dragTabId)
      ensures status == old(status)
    {
      if FindTab(openTabs, noteId).Some? {
        activeId := Some(noteId);
        calls := calls + [FetchNote(noteId)];
      }
    }

    /**
     * `window.openNote(id)`: asks the main process to focus an existing window;
     * if it did, nothing else happens. Otherwise the note is fetched; a failure
     * sets the status "Open failed: …", a success opens the tab and registers it.
     * `focused` is the answer of `notes.open`, `fetched` that of `notes.get`.
     */
    method OpenNote(id: string, focused: bool, fetched: Result<string, string>)
      requires Valid()
      modifies this
      ensures Valid()
      ensures focused ==>
        openTabs == old(openTabs) && activeId == old(activeId) && status == old(status)
        && calls == old(calls) + [OpenRequest(id)]
      ensures !focused && fetched.Err? ==>
        openTabs == old(openTabs) && activeId == old(activeId) && status == Some("Open failed: " + fetched.error)
        && calls == old(calls) + [OpenRequest(id), FetchNote(id)]
      ensures !focused && fetched.Ok? ==>
        && status == old(status)
        && id in Ids(openTabs)
        && (id in Ids(old(openTabs)) ==> openTabs == old(openTabs) && activeId == old(activeId))
        && (id !in Ids(old(openTabs)) ==> openTabs == old(openTabs) + [Tab(id, fetched.value, None)] && activeId == Some(id))
        && |calls| >= 1 && calls[|calls| - 1] == RegisterOpen(id, id)
      ensures selected == old(selected) && dragTabId == old(dragTabId)
    {
      calls := calls + [OpenRequest(id)];
      if focused {
        return;
      }
      calls := calls + [FetchNote(id)];
      if fetched.Err? {
        status := Some("Open failed: " + fetched.error);
        return;
      }
      RegisterOpenTab(id, fetched.value);
      calls := calls + [RegisterOpen(id, id)];
    }

    /** `renderTabs()`: the grouping loop over the open tabs, then one display item per bucket. */
    method RenderTabs() returns (shown: seq<Shown>)
      ensures |shown| == |Buckets(openTabs)|
      ensures forall i :: 0 <= i < |shown| ==>
        Buckets(openTabs)[i].members != [] && shown[i] == Show(Buckets(openTabs)[i], activeId)
    {
      var tabs := openTabs;
      var stacks: seq<Bucket> := [];
      var i := 0;
      while i < |tabs|
        invariant 0 <= i <= |tabs|
        invariant stacks == Buckets(tabs[..i])
      {
        BucketsSnoc(tabs, i);
        stacks := AddToBucket(stacks, tabs[i]);
        i := i + 1;
      }
      assert tabs[..i] == tabs;
      BucketsMembers(tabs);
      shown := [];
      var j := 0;
      while j < |stacks|
        invariant 0 <= j <= |stacks|
        invariant ShownAs(shown, stacks, activeId, j)
      {
        ShownSnoc(shown, stacks, activeId, j);
        shown := shown + [Show(stacks[j], activeId)];
        j := j + 1;
      }
    }
  }

  /** `shown` displays the first `j` buckets, in order. */
  predicate ShownAs(shown: seq<Shown>, stacks: seq<Bucket>, activeId: Option<string>, j: nat) {
    && j <= |stacks| && |shown| == j
    && forall k :: 0 <= k < j ==> stacks[k].members != [] && shown[k] == Show(stacks[k], activeId)
  }

  lemma ShownSnoc(shown: seq<Shown>, stacks: seq<Bucket>, activeId: Option<string>, j: nat)
    requires j < |stacks| && ShownAs(shown, stacks, activeId, j) && Keyed(stacks[j])
    ensures ShownAs(shown + [Show(stacks[j], activeId)], stacks, activeId, j + 1)
  {
  }

  lemma BucketsSnoc(tabs: seq<Tab>, i: nat)
    requires i < |tabs|
    ensures Buckets(tabs[..i + 1]) == AddToBucket(Buckets(tabs[..i]), tabs[i])
  {
    assert tabs[..i + 1][..i] == tabs[..i];
  }

  /** The ids listed in `ids`, as a set. */
  function SetOf(ids: seq<string>): set<string> {
    if ids == [] then {} else SetOf(ids[..|ids| - 1]) + {ids[|ids| - 1]}
  }

  lemma {:induction false} SetOfMembers(ids: seq<string>, x: string)
    ensures x in SetOf(ids) <==> x in ids
  {
    if ids != [] {
      SetOfMembers(ids[..|ids| - 1], x);
      assert ids == ids[..|ids| - 1] + [ids[|ids| - 1]];
    }
  }

  /** `state.openTabs[0]?.id || null`. */
  function FirstActive(tabs: seq<Tab>): (r: Option<string>)
    ensures r.Some? ==> tabs != [] && r.value == tabs[0].id && r.value != ""
    ensures r.None? ==> tabs == [] || tabs[0].id == ""
  {
    if tabs != [] && tabs[0].id != "" then Some(tabs[0].id) else None
  }

  /** What `closeTab` sends after the state change: reload the active note if any, then `registerClose`. */
  function CloseEffects(activeId: Option<string>, id: string): seq<Call> {
    (if Truthy(activeId) then [FetchNote(activeId.value)] else []) + [RegisterClose(id, id)]
  }

  lemma CloseAllStep(tabs: seq<Tab>, base: seq<Call>, before: seq<Call>, active: Option<string>, ids: seq<string>, k: nat)
    requires k < |ids| && Closes(before) == Closes(base) + CloseRequests(ids[..k])
    ensures Without(Without(tabs, SetOf(ids[..k])), {ids[k]}) == Without(tabs, SetOf(ids[..k + 1]))
    ensures Closes(before + CloseEffects(active, ids[k])) == Closes(base) + CloseRequests(ids[..k + 1])
  {
    assert ids[..k + 1][..k] == ids[..k];
    assert SetOf(ids[..k + 1]) == SetOf(ids[..k]) + {ids[k]};
    WithoutUnion(tabs, SetOf(ids[..k]), {ids[k]});
    CloseLogStep(base, before, active, ids, k);
  }

  lemma CloseLogStep(base: seq<Call>, before: seq<Call>, active: Option<string>, ids: seq<string>, k: nat)
    requires k < |ids| && Closes(before) == Closes(base) + CloseRequests(ids[..k])
    ensures Closes(before + CloseEffects(active, ids[k])) == Closes(base) + CloseRequests(ids[..k + 1])
  {
    var e := CloseEffects(active, ids[k]);
    var c := [RegisterClose(ids[k], ids[k])];
    CloseRequestsSnoc(ids, k);
    ClosesAppend(before, e);
    CloseReportsOnce(active, ids[k]);
    ConcatAssoc(Closes(base), CloseRequests(ids[..k]), c);
  }

  lemma CloseRequestsSnoc(ids: seq<string>, k: nat)
    requires k < |ids|
    ensures CloseRequests(ids[..k + 1]) == CloseRequests(ids[..k]) + [RegisterClose(ids[k], ids[k])]
  {
    assert ids[..k + 1][..k] == ids[..k];
  }

  /** One `registerClose(id, id)` per id, in order. */
  function CloseRequests(ids: seq<string>): seq<Call> {
    if ids == [] then [] else CloseRequests(ids[..|ids| - 1]) + [RegisterClose(ids[|ids| - 1], ids[|ids| - 1])]
  }

  /** The `registerClose` requests in a call log, in order. */
  function Closes(calls: seq<Call>): seq<Call> {
    if calls == [] then []
    else Closes(calls[..|calls| - 1]) + (if calls[|calls| - 1].RegisterClose? then [calls[|calls| - 1]] else [])
  }

  lemma {:induction false} ClosesAppend(a: seq<Call>, b: seq<Call>)
    ensures Closes(a + b) == Closes(a) + Closes(b)
    decreases |b|
  {
    if b != [] {
      assert (a + b)[..|a + b| - 1] == a + b[..|b| - 1];
      ClosesAppend(a, b[..|b| - 1]);
    } else {
      assert a + b == a;
    }
  }

  /** `closeTab` always reports exactly one close, for the id it was given, whether or not a tab matched. */
  lemma CloseReportsOnce(activeId: Option<string>, id: string)
    ensures Closes(CloseEffects(activeId, id)) == [RegisterClose(id, id)]
  {
    var e := CloseEffects(activeId, id);
    if Truthy(activeId) {
      assert e[..1] == [FetchNote(activeId.value)];
      assert Closes(e[..1]) == [] by { assert e[..1][..0] == []; }
    } else {
      assert e[..0] == [];
    }
  }
}
