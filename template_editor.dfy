/** The list transforms of the template editor page: loading a template
    for editing, adding, editing and removing items, and building the data
    that the save button hands to the store. */
module TemplateEditor {
  import opened Records
  import opened Seqs
  import opened Text
  import Storage

  /** `Boolean(id)` of the route parameter. */
  predicate IsEditing(routeId: Option<Id>) {
    routeId.Some? && routeId.value != ""
  }

  /** The name and items the editor starts from when it edits `id`
      (`existingTemplate.items || []`); None when the template is not found
      and the page leaves. */
  function LoadForEditing(ts: seq<Template>, id: Id): (r: Option<(string, seq<TemplateItem>)>)
    ensures r.None? <==> !HasTemplate(ts, id)
    ensures r.Some? ==> exists i :: 0 <= i < |ts| && ts[i].id == id && r.value.0 == ts[i].name
                                    && r.value.1 == ts[i].items.GetOr([])
                                    && forall j :: 0 <= j < i ==> ts[j].id != id
  {
    match Storage.TemplateById(ts, id)
    case None => None
    case Some(t) => Some((t.name, t.items.GetOr([])))
  }

  /** handleAddItem: the new item list and the new content of the input. */
  function AddItem(items: seq<TemplateItem>, input: string, newId: Id): (r: (seq<TemplateItem>, string))
    ensures |items| <= |r.0| <= |items| + 1 && r.0[..|items|] == items
    ensures |r.0| == |items| + 1 <==> Trim(input) != ""
    ensures Trim(input) != "" ==> r.1 == "" && r.0[|items|] == TemplateItem(newId, Trim(input))
    ensures Trim(input) == "" ==> r == (items, input)
  {
    var text := Trim(input);
    if text != "" then (items + [TemplateItem(newId, text)], "") else (items, input)
  }

  /** With a non-blank input exactly one item is appended, under an
      identifier no earlier item carries and with the trimmed text, and the
      input is cleared; an input of white space only changes nothing. */
  lemma AddItemEffect(items: seq<TemplateItem>, input: string, newId: Id)
    requires !HasItem(items, newId)
    ensures var (r, input') := AddItem(items, input, newId);
            && ((exists i :: 0 <= i < |input| && !IsSpace(input[i])) ==>
                  && |r| == |items| + 1
                  && r[..|items|] == items
                  && r[|items|].text == Trim(input) && r[|items|].text != ""
                  && !HasItem(items, r[|items|].id)
                  && input' == "")
            && ((forall i :: 0 <= i < |input| ==> IsSpace(input[i])) ==> r == items && input' == input)
  {
  }

  /** handleItemChange: `items.map(item => item.id === itemId ? { ...item, text: newText } : item)` */
  function EditItem(items: seq<TemplateItem>, itemId: Id, newText: string): (r: seq<TemplateItem>)
    ensures |r| == |items|
    ensures forall i :: 0 <= i < |r| ==> r[i].id == items[i].id
    ensures !HasItem(items, itemId) ==> r == items
  {
    seq(|items|, i requires 0 <= i < |items| =>
      if items[i].id == itemId then items[i].(text := newText) else items[i])
  }

  /** Editing keeps length, order and identifiers, and changes the text of
      exactly the items that carry `itemId`. */
  lemma EditItemEffect(items: seq<TemplateItem>, itemId: Id, newText: string)
    ensures var r := EditItem(items, itemId, newText);
            && |r| == |items|
            && (forall i :: 0 <= i < |items| ==> r[i].id == items[i].id)
            && (forall i :: 0 <= i < |items| && items[i].id == itemId ==> r[i].text == newText)
            && (forall i :: 0 <= i < |items| && items[i].id != itemId ==> r[i] == items[i])
  {
  }

  /** Editing an item twice is editing it once with the second text. */
  lemma EditItemLastWins(items: seq<TemplateItem>, itemId: Id, t1: string, t2: string)
    ensures EditItem(EditItem(items, itemId, t1), itemId, t2) == EditItem(items, itemId, t2)
  {
  }

  /** handleRemoveItem: `items.filter(item => item.id !== itemId)` */
  function RemoveItem(items: seq<TemplateItem>, itemId: Id): (r: seq<TemplateItem>)
    ensures IsSubsequence(r, items)
    ensures forall x :: x in r ==> x in items && x.id != itemId
    ensures forall x :: x in items && x.id != itemId ==> x in r
    ensures !HasItem(r, itemId)
    ensures !HasItem(items, itemId) ==> r == items
  {
    var keep := (x: TemplateItem) => x.id != itemId;
    if !HasItem(items, itemId) then
      assert forall x :: x in items ==> keep(x);
      FilterKeepsAll(items, keep);
      Filter(items, keep)
    else
      Filter(items, keep)
  }

  /** handleSave: None when the trimmed name is empty (the page alerts and
      does not call the store), otherwise the data it passes to saveTemplate. */
  function SaveData(routeId: Option<Id>, name: string, items: seq<TemplateItem>): (r: Option<Storage.TemplateData>)
    ensures r.None? <==> forall i :: 0 <= i < |name| ==> IsSpace(name[i])
    ensures r.Some? ==> r.value.name == Trim(name) && r.value.name != ""
    ensures r.Some? ==> r.value.items == Some(items)
    ensures r.Some? ==> (r.value.id.Some? <==> IsEditing(routeId))
    ensures r.Some? && r.value.id.Some? ==> r.value.id == routeId
  {
    if Trim(name) == "" then None
    else Some(Storage.TemplateData(if IsEditing(routeId) then routeId else None, Trim(name), Some(items)))
  }

  /** Saving a new template stores it under the newId identifier, which the
      store returns, with the trimmed name and the items of the editor. */
  lemma CreateRoundTrip(ts: seq<Template>, name: string, items: seq<TemplateItem>, newId: Id)
    requires exists i :: 0 <= i < |name| && !IsSpace(name[i])
    requires !HasTemplate(ts, newId)
    ensures SaveData(None, name, items).Some?
    ensures var (ts', id) := Storage.UpsertTemplate(ts, SaveData(None, name, items).value, newId);
            && id == newId
            && Storage.TemplateById(ts', id) == Some(Template(newId, Trim(name), Some(items)))
            && LoadForEditing(ts', id) == Some((Trim(name), items))
  {
    Storage.UpsertNew(ts, SaveData(None, name, items).value, newId);
  }

  /** Saving an edited template rewrites it in place: loading it again
      gives the trimmed name and the edited items. */
  lemma EditRoundTrip(ts: seq<Template>, id: Id, name: string, items: seq<TemplateItem>, newId: Id)
    requires id != "" && HasTemplate(ts, id)
    requires exists i :: 0 <= i < |name| && !IsSpace(name[i])
    ensures SaveData(Some(id), name, items).Some?
    ensures var (ts', id') := Storage.UpsertTemplate(ts, SaveData(Some(id), name, items).value, newId);
            && id' == id
            && |ts'| == |ts|
            && LoadForEditing(ts', id) == Some((Trim(name), items))
  {
    var data := SaveData(Some(id), name, items).value;
    Storage.UpsertExisting(ts, data, newId);
    var i := Storage.TemplateIndex(ts, id).value;
    var ts' := Storage.UpsertTemplate(ts, data, newId).0;
    FindIndexUpdate(ts, i, ts'[i], Storage.TemplateWithId(id));
    assert ts' == ts[i := ts'[i]];
  }
}
