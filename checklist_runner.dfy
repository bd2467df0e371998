/** The list transforms of the checklist runner page: toggling an item,
    the completion check that follows it, and the split of the items into
    open and done ones. */
module ChecklistRunner {
  import opened Records
  import opened Seqs
  import Storage

  /** `items.map(item => item.id === itemId ? { ...item, done: !item.done } : item)` */
  function ToggleItems(items: seq<ChecklistItem>, itemId: Id): (r: seq<ChecklistItem>)
    ensures |r| == |items|
    ensures forall i :: 0 <= i < |r| ==> r[i].id == items[i].id && r[i].text == items[i].text
    ensures forall i :: 0 <= i < |r| ==> (r[i].done != items[i].done <==> items[i].id == itemId)
  {
    seq(|items|, i requires 0 <= i < |items| =>
      if items[i].id == itemId then items[i].(done := !items[i].done) else items[i])
  }

  /** `{ ...prevChecklist, items: updatedItems }` */
  function Toggle(c: Checklist, itemId: Id): (r: Checklist)
    ensures r.(items := c.items) == c
    ensures |r.items| == |c.items|
  {
    c.(items := ToggleItems(c.items, itemId))
  }

  /** The toggle keeps the item count and order, flips `done` on exactly the
      items carrying `itemId`, leaves every other item as it was, and
      changes no field of the checklist but `items`. */
  lemma ToggleEffect(c: Checklist, itemId: Id)
    ensures var r := Toggle(c, itemId);
            && r.(items := c.items) == c
            && |r.items| == |c.items|
            && (forall i :: 0 <= i < |c.items| ==>
                  r.items[i].id == c.items[i].id && r.items[i].text == c.items[i].text)
            && (forall i :: 0 <= i < |c.items| ==>
                  (r.items[i].done != c.items[i].done <==> c.items[i].id == itemId))
            && (forall i :: 0 <= i < |c.items| && c.items[i].id != itemId ==> r.items[i] == c.items[i])
  {
  }

  /** Toggling the same item twice restores the original items. */
  lemma ToggleTwice(c: Checklist, itemId: Id)
    ensures Toggle(Toggle(c, itemId), itemId) == c
  {
    var once := ToggleItems(c.items, itemId);
    var twice := ToggleItems(once, itemId);
    assert forall i :: 0 <= i < |c.items| ==> twice[i] == c.items[i];
  }

  /** `updatedItems.every(item => item.done)`: the page announces completion,
      exactly when the toggled checklist has no open item left to list. */
  predicate CompletedByToggle(c: Checklist, itemId: Id): (b: bool)
    ensures b <==> OpenItems(Toggle(c, itemId).items) == []
  {
    NoOpenItemsIffAllDone(Toggle(c, itemId).items);
    Storage.AllDone(Toggle(c, itemId).items)
  }

  /** Completion is announced exactly when every item that carries `itemId`
      was open and every other item was already done. */
  lemma CompletedByToggleIff(c: Checklist, itemId: Id)
    ensures CompletedByToggle(c, itemId) <==>
            forall i :: 0 <= i < |c.items| ==> (c.items[i].id == itemId <==> !c.items[i].done)
  {
    var r := ToggleItems(c.items, itemId);
    assert forall i :: 0 <= i < |c.items| ==> r[i].done == (c.items[i].done != (c.items[i].id == itemId));
  }

  /** All the fields of a checklist, as the page hands them to the store. */
  function FullData(c: Checklist): Storage.ChecklistData {
    Storage.ChecklistData(c.id, Some(c.templateId), Some(c.name), Some(c.items), Some(c.createdAt))
  }

  /** The page and the store agree: saving the toggled checklist of an
      active record moves it out of the active collection exactly when the
      page announces completion, and otherwise stores the toggled record in
      its place. */
  lemma ToggleThenSave(s: Storage.StoreState, c: Checklist, itemId: Id, now: int)
    requires HasChecklist(s.active, c.id)
    ensures var (s', found) := Storage.SaveActive(s, FullData(Toggle(c, itemId)), now);
            && found
            && (HasChecklist(s'.active, c.id) <==> !CompletedByToggle(c, itemId))
            && (CompletedByToggle(c, itemId) ==> HasArchived(s'.archived, c.id))
            && (!CompletedByToggle(c, itemId) ==>
                  s'.active == s.active[Storage.ChecklistIndex(s.active, c.id).value := Toggle(c, itemId)])
  {
    var t := Toggle(c, itemId);
    var data := FullData(t);
    Storage.SaveActiveKnown(s, data, now);
    var i := Storage.ChecklistIndex(s.active, c.id).value;
    assert Storage.MergeChecklist(s.active[i], data) == t;
  }

  /** `checklist.items.filter(item => !item.done)` */
  function OpenItems(items: seq<ChecklistItem>): (r: seq<ChecklistItem>)
    ensures IsSubsequence(r, items)
    ensures forall x :: x in r ==> !x.done
  {
    Filter(items, IsOpen)
  }

  /** `checklist.items.filter(item => item.done)` */
  function DoneItems(items: seq<ChecklistItem>): (r: seq<ChecklistItem>)
    ensures IsSubsequence(r, items)
    ensures forall x :: x in r ==> x.done
  {
    Filter(items, IsDone)
  }

  /** The open and done lists split the items: each item lands in exactly
      the one its `done` flag selects, each keeps the original order, the
      counts add up to the total, and together they hold every item as
      often as the checklist does. */
  lemma OpenDonePartition(items: seq<ChecklistItem>)
    ensures IsSubsequence(OpenItems(items), items) && IsSubsequence(DoneItems(items), items)
    ensures forall x :: x in OpenItems(items) <==> x in items && !x.done
    ensures forall x :: x in DoneItems(items) <==> x in items && x.done
    ensures |OpenItems(items)| + |DoneItems(items)| == |items|
    ensures multiset(OpenItems(items)) + multiset(DoneItems(items)) == multiset(items)
  {
    FilterPartition(items, IsOpen, IsDone);
  }

  /** No open item is left exactly when every item is done. */
  lemma NoOpenItemsIffAllDone(items: seq<ChecklistItem>)
    ensures OpenItems(items) == [] <==> Storage.AllDone(items)
  {
    if OpenItems(items) == [] {
      forall i | 0 <= i < |items|
        ensures items[i].done
      {
        assert items[i] in items;
      }
    } else {
      assert OpenItems(items)[0] in OpenItems(items);
    }
  }
}
