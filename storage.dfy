/** The checklist store: three collections (templates, active checklists,
    archived checklists), each read whole, transformed and written back
    whole by every operation.

    The persisted collections are the fields of `Store`; `StoreState` is
    their value, and the functions below give the value each operation
    leaves behind. `uuidv4()` is the parameter `newId`, `Date.now()` the
    parameter `now`. */
module Storage {
  import opened Records
  import opened Seqs

  datatype StoreState = StoreState(templates: seq<Template>,
                                   active: seq<Checklist>,
                                   archived: seq<ArchivedChecklist>)

  /** The object handed to saveTemplate. A missing `id` or `items` key is
      None. */
  datatype TemplateData = TemplateData(id: Option<Id>, name: string, items: Option<seq<TemplateItem>>)

  /** The object handed to saveActiveChecklist: the identifier it is looked
      up by and the fields it overwrites (None for a missing key). */
  datatype ChecklistData = ChecklistData(id: Id, templateId: Option<Id>, name: Option<string>,
                                         items: Option<seq<ChecklistItem>>, createdAt: Option<int>)

  /** What startChecklistFromTemplate does: return null, return the new
      identifier, or throw the TypeError of `template.items.map` on a
      template stored without items. */
  datatype StartResult = NotFound | Started(id: Id) | Thrown

  /** `if (templateData.id)`: present and not the empty string. */
  predicate IsTruthy(id: Option<Id>) {
    id.Some? && id.value != ""
  }

  /** Every collection holds each identifier at most once. */
  ghost predicate Valid(s: StoreState) {
    UniqueBy(s.templates, IdOfTemplate) && UniqueBy(s.active, IdOfChecklist)
    && UniqueBy(s.archived, IdOfArchived)
  }

  // ---------------------------------------------------------------------
  // Lookups

  function TemplateWithId(id: Id): Template -> bool { (t: Template) => t.id == id }
  function ChecklistWithId(id: Id): Checklist -> bool { (c: Checklist) => c.id == id }
  function ArchivedWithId(id: Id): ArchivedChecklist -> bool { (a: ArchivedChecklist) => a.id == id }

  function TemplateOtherThan(id: Id): Template -> bool { (t: Template) => t.id != id }
  function ChecklistOtherThan(id: Id): Checklist -> bool { (c: Checklist) => c.id != id }
  function ArchivedOtherThan(id: Id): ArchivedChecklist -> bool { (a: ArchivedChecklist) => a.id != id }

  /** `templates.findIndex(t => t.id === id)` */
  function TemplateIndex(ts: seq<Template>, id: Id): (r: Option<nat>)
    ensures r.None? <==> !HasTemplate(ts, id)
    ensures r.Some? ==> r.value < |ts| && ts[r.value].id == id
    ensures r.Some? ==> forall j :: 0 <= j < r.value ==> ts[j].id != id
  {
    FindIndex(ts, TemplateWithId(id))
  }

  /** getTemplateById: `templates.find(t => t.id === id)`, the first
      template with identifier `id`. */
  function TemplateById(ts: seq<Template>, id: Id): (r: Option<Template>)
    ensures r.None? <==> !HasTemplate(ts, id)
    ensures r.Some? ==> r.value.id == id
    ensures r.Some? ==> exists i :: 0 <= i < |ts| && ts[i] == r.value && forall j :: 0 <= j < i ==> ts[j].id != id
  {
    var r := Find(ts, TemplateWithId(id));
    assert r.Some? ==> r == Some(ts[TemplateIndex(ts, id).value]);
    r
  }

  /** `activeChecklists.findIndex(c => c.id === id)` */
  function ChecklistIndex(cs: seq<Checklist>, id: Id): (r: Option<nat>)
    ensures r.None? <==> !HasChecklist(cs, id)
    ensures r.Some? ==> r.value < |cs| && cs[r.value].id == id
    ensures r.Some? ==> forall j :: 0 <= j < r.value ==> cs[j].id != id
  {
    FindIndex(cs, ChecklistWithId(id))
  }

  /** getActiveChecklistById: `activeChecklists.find(c => c.id === id)`,
      the record at ChecklistIndex. */
  function ChecklistById(cs: seq<Checklist>, id: Id): (r: Option<Checklist>)
    ensures r.None? <==> !HasChecklist(cs, id)
    ensures r.Some? ==> ChecklistIndex(cs, id).Some? && r == Some(cs[ChecklistIndex(cs, id).value])
  {
    Find(cs, ChecklistWithId(id))
  }

  /** `archivedChecklists.some(c => c.id === id)` */
  function IsArchived(arch: seq<ArchivedChecklist>, id: Id): (b: bool)
    ensures b <==> HasArchived(arch, id)
  {
    Any(arch, ArchivedWithId(id))
  }

  /** How many archived records carry identifier `id`. */
  function ArchivedCount(arch: seq<ArchivedChecklist>, id: Id): nat {
    |Filter(arch, ArchivedWithId(id))|
  }

  /** `items.every(item => item.done)`; true of no items at all. */
  function AllDone(items: seq<ChecklistItem>): (b: bool)
    ensures b <==> forall i :: 0 <= i < |items| ==> items[i].done
  {
    Every(items, IsDone)
  }

  // ---------------------------------------------------------------------
  // Deletes

  /** deleteTemplate: `templates.filter(t => t.id !== id)` */
  function WithoutTemplate(ts: seq<Template>, id: Id): (r: seq<Template>)
    ensures IsSubsequence(r, ts)
    ensures forall t :: t in r ==> t in ts && t.id != id
    ensures forall t :: t in ts && t.id != id ==> t in r
    ensures !HasTemplate(r, id)
    ensures !HasTemplate(ts, id) ==> r == ts
  {
    var keep := TemplateOtherThan(id);
    if !HasTemplate(ts, id) then
      assert forall t :: t in ts ==> keep(t);
      FilterKeepsAll(ts, keep);
      Filter(ts, keep)
    else
      Filter(ts, keep)
  }

  /** deleteActiveChecklist: `activeChecklists.filter(c => c.id !== id)` */
  function WithoutChecklist(cs: seq<Checklist>, id: Id): (r: seq<Checklist>)
    ensures IsSubsequence(r, cs)
    ensures forall c :: c in r ==> c in cs && c.id != id
    ensures forall c :: c in cs && c.id != id ==> c in r
    ensures !HasChecklist(r, id)
    ensures !HasChecklist(cs, id) ==> r == cs
  {
    var keep := ChecklistOtherThan(id);
    if !HasChecklist(cs, id) then
      assert forall c :: c in cs ==> keep(c);
      FilterKeepsAll(cs, keep);
      Filter(cs, keep)
    else
      Filter(cs, keep)
  }

  /** deleteArchivedChecklist: `archivedChecklists.filter(c => c.id !== id)` */
  function WithoutArchived(arch: seq<ArchivedChecklist>, id: Id): (r: seq<ArchivedChecklist>)
    ensures IsSubsequence(r, arch)
    ensures forall a :: a in r ==> a in arch && a.id != id
    ensures forall a :: a in arch && a.id != id ==> a in r
    ensures !HasArchived(r, id)
    ensures !HasArchived(arch, id) ==> r == arch
  {
    var keep := ArchivedOtherThan(id);
    if !HasArchived(arch, id) then
      assert forall a :: a in arch ==> keep(a);
      FilterKeepsAll(arch, keep);
      Filter(arch, keep)
    else
      Filter(arch, keep)
  }

  // ---------------------------------------------------------------------
  // saveTemplate

  /** `{ ...template, ...templateData }`: every supplied field overwrites. */
  function MergeTemplate(t: Template, data: TemplateData): (r: Template)
    ensures r.name == data.name
    ensures data.items.Some? ==> r.items == data.items
    ensures data.items.None? ==> r.items == t.items
    ensures data.id.None? || data.id == Some(t.id) ==> r.id == t.id
  {
    Template(data.id.GetOr(t.id), data.name, if data.items.Some? then data.items else t.items)
  }

  /** The templates after saveTemplate(data), and the identifier it returns. */
  function UpsertTemplate(ts: seq<Template>, data: TemplateData, newId: Id): (r: (seq<Template>, Id))
    ensures |r.0| == if IsTruthy(data.id) && HasTemplate(ts, data.id.value) then |ts| else |ts| + 1
    ensures forall j :: 0 <= j < |ts| ==> r.0[j].id == ts[j].id
    ensures |r.0| > |ts| ==> r.0[..|ts|] == ts && r.0[|ts|].id == newId
    ensures IsTruthy(data.id) ==> r.1 == data.id.value
    ensures !IsTruthy(data.id) ==> r.1 == newId
  {
    if IsTruthy(data.id) then
      match TemplateIndex(ts, data.id.value)
      case Some(i) => (ts[i := MergeTemplate(ts[i], data)], data.id.value)
      case None => (ts + [Template(newId, data.name, data.items)], data.id.value)
    else
      (ts + [Template(newId, data.name, Some(data.items.GetOr([])))], newId)
  }

  /** Saving under a known identifier rewrites that one record in place:
      the name and any supplied items are taken over, the identifier and
      unsupplied items are kept, and every other record is left alone. */
  lemma UpsertExisting(ts: seq<Template>, data: TemplateData, newId: Id)
    requires IsTruthy(data.id) && HasTemplate(ts, data.id.value)
    ensures TemplateIndex(ts, data.id.value).Some?
    ensures var i := TemplateIndex(ts, data.id.value).value;
            var (r, id) := UpsertTemplate(ts, data, newId);
            && |r| == |ts|
            && r[i].id == ts[i].id
            && r[i].name == data.name
            && r[i].items == (if data.items.Some? then data.items else ts[i].items)
            && (forall j :: 0 <= j < |ts| && j != i ==> r[j] == ts[j])
            && (forall j :: 0 <= j < |r| ==> r[j].id == ts[j].id)
            && id == data.id.value
  {
    var i := TemplateIndex(ts, data.id.value).value;
  }

  /** Saving without an identifier appends one record under the newId
      identifier, with no items when none were supplied, and returns that
      identifier, under which getTemplateById then finds the record. */
  lemma UpsertNew(ts: seq<Template>, data: TemplateData, newId: Id)
    requires !IsTruthy(data.id) && !HasTemplate(ts, newId)
    ensures var (r, id) := UpsertTemplate(ts, data, newId);
            && r == ts + [Template(newId, data.name, Some(data.items.GetOr([])))]
            && id == newId
            && TemplateById(r, id) == Some(Template(newId, data.name, Some(data.items.GetOr([]))))
  {
    var t := Template(newId, data.name, Some(data.items.GetOr([])));
    FindIndexAppend(ts, t, TemplateWithId(newId));
  }

  /** Saving under an identifier the store does not know appends the record
      under a fresh identifier (without defaulting its items) but returns
      the caller's identifier, under which nothing is found. */
  lemma UpsertUnknownId(ts: seq<Template>, data: TemplateData, newId: Id)
    requires IsTruthy(data.id) && !HasTemplate(ts, data.id.value)
    requires newId != data.id.value
    ensures var (r, id) := UpsertTemplate(ts, data, newId);
            && r == ts + [Template(newId, data.name, data.items)]
            && id == data.id.value
            && TemplateById(r, id) == None
  {
    var r := UpsertTemplate(ts, data, newId).0;
    assert forall j :: 0 <= j < |ts| ==> r[j] == ts[j];
    assert r[|ts|].id == newId;
  }

  lemma UpsertKeepsValid(s: StoreState, data: TemplateData, newId: Id)
    requires Valid(s) && !HasTemplate(s.templates, newId)
    ensures Valid(s.(templates := UpsertTemplate(s.templates, data, newId).0))
  {
    var ts := s.templates;
    if IsTruthy(data.id) && TemplateIndex(ts, data.id.value).Some? {
      var i := TemplateIndex(ts, data.id.value).value;
      UniqueAfterUpdate(ts, i, MergeTemplate(ts[i], data), IdOfTemplate);
    } else if IsTruthy(data.id) {
      UniqueAfterAppend(ts, Template(newId, data.name, data.items), IdOfTemplate);
    } else {
      UniqueAfterAppend(ts, Template(newId, data.name, Some(data.items.GetOr([]))), IdOfTemplate);
    }
  }

  // ---------------------------------------------------------------------
  // startChecklistFromTemplate

  /** `template.items.map(item => ({ ...item, done: false }))` */
  function Unchecked(items: seq<TemplateItem>): (r: seq<ChecklistItem>)
    ensures |r| == |items|
    ensures forall i :: 0 <= i < |r| ==> r[i].id == items[i].id && r[i].text == items[i].text && !r[i].done
    ensures AllDone(r) <==> items == []
  {
    var r := seq(|items|, i requires 0 <= i < |items| => ChecklistItem(items[i].id, items[i].text, false));
    assert items != [] ==> !r[0].done;
    r
  }

  /** The store after startChecklistFromTemplate(templateId), and its result. */
  function StartFrom(s: StoreState, templateId: Id, newId: Id, now: int): (r: (StoreState, StartResult))
    ensures r.0.templates == s.templates && r.0.archived == s.archived
    ensures r.1.NotFound? <==> !HasTemplate(s.templates, templateId)
    ensures !r.1.Started? ==> r.0 == s
    ensures r.1.Started? ==> && r.1.id == newId
                             && |r.0.active| == |s.active| + 1
                             && r.0.active[..|s.active|] == s.active
                             && r.0.active[|s.active|].id == newId
  {
    match TemplateById(s.templates, templateId)
    case None => (s, NotFound)
    case Some(t) =>
      match t.items
      case None => (s, Thrown)
      case Some(items) =>
        var c := Checklist(newId, t.id, t.name + " (Instanz)", Unchecked(items), now);
        (s.(active := s.active + [c]), Started(c.id))
  }

  /** Starting from a template that is not there returns null and changes
      nothing. */
  lemma StartFromMissing(s: StoreState, templateId: Id, newId: Id, now: int)
    requires !HasTemplate(s.templates, templateId)
    ensures StartFrom(s, templateId, newId, now) == (s, NotFound)
  {
  }

  /** Starting from a template appends exactly one active checklist, under
      the fresh identifier that is returned: it refers to the template, is
      named after it, and holds its items in order, none of them done. */
  lemma StartFromExisting(s: StoreState, t: Template, newId: Id, now: int)
    requires TemplateById(s.templates, t.id) == Some(t) && t.items.Some?
    ensures var (s', r) := StartFrom(s, t.id, newId, now);
            && r == Started(newId)
            && s'.templates == s.templates && s'.archived == s.archived
            && |s'.active| == |s.active| + 1 && s'.active[..|s.active|] == s.active
            && var c := s'.active[|s.active|];
               && c.id == newId && c.templateId == t.id && c.name == t.name + " (Instanz)"
               && c.createdAt == now
               && |c.items| == |t.items.value|
               && (forall i :: 0 <= i < |c.items| ==>
                     c.items[i].id == t.items.value[i].id && c.items[i].text == t.items.value[i].text
                     && !c.items[i].done)
  {
  }

  /** A template stored without items makes the start throw, changing
      nothing. */
  lemma StartFromItemless(s: StoreState, t: Template, newId: Id, now: int)
    requires TemplateById(s.templates, t.id) == Some(t) && t.items.None?
    ensures StartFrom(s, t.id, newId, now) == (s, Thrown)
  {
  }

  /** A checklist started from a template without entries is already
      complete, and it stays in the active collection: nothing archives it
      until it is saved. */
  lemma StartFromEmptyTemplate(s: StoreState, t: Template, newId: Id, now: int)
    requires TemplateById(s.templates, t.id) == Some(t) && t.items == Some([])
    requires !HasChecklist(s.active, newId)
    ensures var s' := StartFrom(s, t.id, newId, now).0;
            HasChecklist(s'.active, newId)
            && AllDone(ChecklistById(s'.active, newId).value.items)
  {
    var s' := StartFrom(s, t.id, newId, now).0;
    FindIndexAppend(s.active, s'.active[|s.active|], ChecklistWithId(newId));
    assert s'.active == s.active + [s'.active[|s.active|]];
  }

  lemma StartKeepsValid(s: StoreState, templateId: Id, newId: Id, now: int)
    requires Valid(s) && !HasChecklist(s.active, newId)
    ensures Valid(StartFrom(s, templateId, newId, now).0)
  {
    var (s', r) := StartFrom(s, templateId, newId, now);
    if r.Started? {
      UniqueAfterAppend(s.active, s'.active[|s.active|], IdOfChecklist);
      assert s'.active == s.active + [s'.active[|s.active|]];
    }
  }

  // ---------------------------------------------------------------------
  // archiveChecklist

  /** The store after archiveChecklist(id). */
  function ArchiveTransition(s: StoreState, id: Id, now: int): (r: StoreState)
    ensures r.templates == s.templates
    ensures !HasChecklist(r.active, id)
    ensures HasChecklist(s.active, id) ==> HasArchived(r.archived, id)
    ensures |s.archived| <= |r.archived| <= |s.archived| + 1 && r.archived[..|s.archived|] == s.archived
  {
    match ChecklistById(s.active, id)
    case None => s
    case Some(c) =>
      var archived := if IsArchived(s.archived, id) then s.archived else s.archived + [Completed(c, now)];
      assert !IsArchived(s.archived, id) ==> archived[|s.archived|].id == id;
      StoreState(s.templates, WithoutChecklist(s.active, id), archived)
  }

  /** Archiving an identifier that is not active changes nothing. */
  lemma ArchiveInactive(s: StoreState, id: Id, now: int)
    requires !HasChecklist(s.active, id)
    ensures ArchiveTransition(s, id, now) == s
  {
  }

  /** Archiving an active checklist removes every active record with its
      identifier and copies the first one, stamped with `now`, to the end
      of the archive unless the archive already has that identifier; the
      archive then holds the identifier exactly as often as before, or
      once if it held it not at all. */
  lemma ArchiveActive(s: StoreState, id: Id, now: int)
    requires HasChecklist(s.active, id)
    ensures var s' := ArchiveTransition(s, id, now);
            var c := ChecklistById(s.active, id).value;
            && s'.templates == s.templates
            && s'.active == WithoutChecklist(s.active, id)
            && !HasChecklist(s'.active, id)
            && HasArchived(s'.archived, id)
            && (HasArchived(s.archived, id) ==> s'.archived == s.archived)
            && (!HasArchived(s.archived, id) ==> s'.archived == s.archived + [Completed(c, now)])
            && ArchivedCount(s'.archived, id) == (if ArchivedCount(s.archived, id) == 0 then 1 else ArchivedCount(s.archived, id))
  {
    var c := ChecklistById(s.active, id).value;
    var s' := ArchiveTransition(s, id, now);
    ArchivedCountZero(s.archived, id);
    if !HasArchived(s.archived, id) {
      FilterAppend(s.archived, Completed(c, now), ArchivedWithId(id));
      assert s'.archived[|s.archived|].id == id;
    }
  }

  /** No record with `id` in the archive exactly when none counts. */
  lemma ArchivedCountZero(arch: seq<ArchivedChecklist>, id: Id)
    ensures ArchivedCount(arch, id) == 0 <==> !HasArchived(arch, id)
  {
    var f := Filter(arch, ArchivedWithId(id));
    if HasArchived(arch, id) {
      var j :| 0 <= j < |arch| && arch[j].id == id;
      assert arch[j] in arch && arch[j] in f;
    }
    if f != [] {
      assert f[0] in arch;
      var j :| 0 <= j < |arch| && arch[j] == f[0];
      assert arch[j].id == id;
    }
  }

  /** Archiving twice is archiving once. */
  lemma ArchiveIdempotent(s: StoreState, id: Id, now1: int, now2: int)
    ensures ArchiveTransition(ArchiveTransition(s, id, now1), id, now2) == ArchiveTransition(s, id, now1)
  {
    if HasChecklist(s.active, id) {
      ArchiveActive(s, id, now1);
    }
  }

  /** In a valid store an identifier is archived at most once. */
  lemma {:induction false} ValidArchivedAtMostOnce(s: StoreState, id: Id)
    requires Valid(s)
    ensures ArchivedCount(s.archived, id) <= 1
  {
    var f := Filter(s.archived, ArchivedWithId(id));
    FilterKeepsUnique(s.archived, ArchivedWithId(id), IdOfArchived);
    UniqueFirstTwo(f, IdOfArchived);
  }

  /** Two archive calls in a row leave the identifier active nowhere and
      archived once, given that it was active and archived at most once;
      in a valid store the second condition always holds. */
  lemma ArchiveTwiceOneCopy(s: StoreState, id: Id, now1: int, now2: int)
    requires HasChecklist(s.active, id) && ArchivedCount(s.archived, id) <= 1
    ensures var s2 := ArchiveTransition(ArchiveTransition(s, id, now1), id, now2);
            !HasChecklist(s2.active, id) && ArchivedCount(s2.archived, id) == 1
  {
    ArchiveIdempotent(s, id, now1, now2);
    ArchiveActive(s, id, now1);
  }

  lemma ArchiveKeepsValid(s: StoreState, id: Id, now: int)
    requires Valid(s)
    ensures Valid(ArchiveTransition(s, id, now))
  {
    if HasChecklist(s.active, id) {
      var c := ChecklistById(s.active, id).value;
      FilterKeepsUnique(s.active, ChecklistOtherThan(id), IdOfChecklist);
      if !IsArchived(s.archived, id) {
        UniqueAfterAppend(s.archived, Completed(c, now), IdOfArchived);
      }
    }
  }

  // ---------------------------------------------------------------------
  // saveActiveChecklist

  /** `{ ...checklist, ...checklistData }` */
  function MergeChecklist(c: Checklist, data: ChecklistData): (r: Checklist)
    ensures r.id == data.id
    ensures data.templateId.None? ==> r.templateId == c.templateId
    ensures data.name.None? ==> r.name == c.name
    ensures data.items.None? ==> r.items == c.items
    ensures data.createdAt.None? ==> r.createdAt == c.createdAt
    ensures data.templateId.Some? ==> r.templateId == data.templateId.value
    ensures data.name.Some? ==> r.name == data.name.value
    ensures data.items.Some? ==> r.items == data.items.value
    ensures data.createdAt.Some? ==> r.createdAt == data.createdAt.value
  {
    Checklist(data.id, data.templateId.GetOr(c.templateId), data.name.GetOr(c.name),
              data.items.GetOr(c.items), data.createdAt.GetOr(c.createdAt))
  }

  /** The store after saveActiveChecklist(data), and whether the record was
      found (the source logs an error when it is not). */
  function SaveActive(s: StoreState, data: ChecklistData, now: int): (r: (StoreState, bool))
    ensures r.1 <==> HasChecklist(s.active, data.id)
    ensures !r.1 ==> r.0 == s
    ensures r.0.templates == s.templates
    ensures |s.archived| <= |r.0.archived| <= |s.archived| + 1 && r.0.archived[..|s.archived|] == s.archived
  {
    match ChecklistIndex(s.active, data.id)
    case None => (s, false)
    case Some(i) =>
      var merged := MergeChecklist(s.active[i], data);
      var saved := s.(active := s.active[i := merged]);
      (if AllDone(merged.items) then ArchiveTransition(saved, merged.id, now) else saved, true)
  }

  /** Saving a checklist that is not active changes nothing. */
  lemma SaveActiveUnknown(s: StoreState, data: ChecklistData, now: int)
    requires !HasChecklist(s.active, data.id)
    ensures SaveActive(s, data, now) == (s, false)
  {
  }

  /** Saving an active checklist overwrites the supplied fields of its
      record. The record then stays active exactly when some item of the
      merged record is still open; otherwise (an empty item list included)
      it leaves the active collection and is in the archive, appended with
      `completedAt == now` unless the archive already had it. */
  lemma SaveActiveKnown(s: StoreState, data: ChecklistData, now: int)
    requires HasChecklist(s.active, data.id)
    ensures ChecklistIndex(s.active, data.id).Some?
    ensures var i := ChecklistIndex(s.active, data.id).value;
            var merged := MergeChecklist(s.active[i], data);
            var (s', found) := SaveActive(s, data, now);
            && found
            && s'.templates == s.templates
            && (HasChecklist(s'.active, data.id) <==> !AllDone(merged.items))
            && (!AllDone(merged.items) ==> s'.active == s.active[i := merged] && s'.archived == s.archived)
            && (AllDone(merged.items) ==> s'.active == WithoutChecklist(s.active, data.id))
            && (AllDone(merged.items) ==> HasArchived(s'.archived, data.id))
            && (AllDone(merged.items) && HasArchived(s.archived, data.id) ==> s'.archived == s.archived)
            && (AllDone(merged.items) && !HasArchived(s.archived, data.id) ==>
                  s'.archived == s.archived + [Completed(merged, now)])
            && (merged.items == [] ==> !HasChecklist(s'.active, data.id))
  {
    var i := ChecklistIndex(s.active, data.id).value;
    var merged := MergeChecklist(s.active[i], data);
    var saved := s.(active := s.active[i := merged]);
    FindIndexUpdate(s.active, i, merged, ChecklistWithId(data.id));
    assert saved.active[i].id == data.id;
    if AllDone(merged.items) {
      ArchiveActive(saved, data.id, now);
      FilterDropsAt(s.active, i, merged, ChecklistOtherThan(data.id));
    }
  }

  /** The completion scenario: when the save makes every item of a
      checklist that was never archived done, exactly one archived record
      carries its identifier afterwards, no active one does, and the
      completion time is not before the start time when the clock has not
      gone back. */
  lemma SaveActiveCompletesOnce(s: StoreState, data: ChecklistData, now: int)
    requires HasChecklist(s.active, data.id) && !HasArchived(s.archived, data.id)
    requires AllDone(MergeChecklist(ChecklistById(s.active, data.id).value, data).items)
    requires now >= MergeChecklist(ChecklistById(s.active, data.id).value, data).createdAt
    ensures var s' := SaveActive(s, data, now).0;
            && !HasChecklist(s'.active, data.id)
            && ArchivedCount(s'.archived, data.id) == 1
            && s'.archived[|s'.archived| - 1].id == data.id
            && s'.archived[|s'.archived| - 1].completedAt >= s'.archived[|s'.archived| - 1].createdAt
  {
    var i := ChecklistIndex(s.active, data.id).value;
    var merged := MergeChecklist(s.active[i], data);
    var saved := s.(active := s.active[i := merged]);
    SaveActiveKnown(s, data, now);
    FindIndexUpdate(s.active, i, merged, ChecklistWithId(data.id));
    assert saved.active[i].id == data.id;
    ArchiveActive(saved, data.id, now);
    ArchivedCountZero(s.archived, data.id);
  }

  lemma SaveActiveKeepsValid(s: StoreState, data: ChecklistData, now: int)
    requires Valid(s)
    ensures Valid(SaveActive(s, data, now).0)
  {
    if HasChecklist(s.active, data.id) {
      var i := ChecklistIndex(s.active, data.id).value;
      var merged := MergeChecklist(s.active[i], data);
      var saved := s.(active := s.active[i := merged]);
      UniqueAfterUpdate(s.active, i, merged, IdOfChecklist);
      assert Valid(saved);
      if AllDone(merged.items) {
        ArchiveKeepsValid(saved, merged.id, now);
      }
    }
  }

  lemma DeletesKeepValid(s: StoreState, id: Id)
    requires Valid(s)
    ensures Valid(s.(templates := WithoutTemplate(s.templates, id)))
    ensures Valid(s.(active := WithoutChecklist(s.active, id)))
    ensures Valid(s.(archived := WithoutArchived(s.archived, id)))
  {
    FilterKeepsUnique(s.templates, TemplateOtherThan(id), IdOfTemplate);
    FilterKeepsUnique(s.active, ChecklistOtherThan(id), IdOfChecklist);
    FilterKeepsUnique(s.archived, ArchivedOtherThan(id), IdOfArchived);
  }

  // ---------------------------------------------------------------------
  // The store

  /** The three persisted collections, rewritten in place by each
      operation. */
  class Store {
    var templates: seq<Template>
    var active: seq<Checklist>
    var archived: seq<ArchivedChecklist>

    function State(): StoreState
      reads this
    {
      StoreState(templates, active, archived)
    }

    /** The store as read from persistent storage. */
    constructor (initial: StoreState)
      ensures State() == initial
    {
      templates := initial.templates;
      active := initial.active;
      archived := initial.archived;
    }

    method SaveTemplate(data: TemplateData, newId: Id) returns (id: Id)
      requires !HasTemplate(templates, newId)
      modifies this
      ensures (templates, id) == UpsertTemplate(old(templates), data, newId)
      ensures active == old(active) && archived == old(archived)
      ensures old(Valid(State())) ==> Valid(State())
    {
      if Valid(State()) {
        UpsertKeepsValid(State(), data, newId);
      }
      if IsTruthy(data.id) {
        var index := TemplateIndex(templates, data.id.value);
        if index.Some? {
          templates := templates[index.value := MergeTemplate(templates[index.value], data)];
        } else {
          // an identifier the store does not know: stored under a fresh one
          templates := templates + [Template(newId, data.name, data.items)];
        }
      } else {
        templates := templates + [Template(newId, data.name, Some(data.items.GetOr([])))];
      }
      id := if IsTruthy(data.id) then data.id.value else templates[|templates| - 1].id;
    }

    method DeleteTemplate(id: Id)
      modifies this
      ensures templates == WithoutTemplate(old(templates), id)
      ensures active == old(active) && archived == old(archived)
      ensures old(Valid(State())) ==> Valid(State())
    {
      if Valid(State()) {
        DeletesKeepValid(State(), id);
      }
      templates := WithoutTemplate(templates, id);
    }

    method StartChecklistFromTemplate(templateId: Id, newId: Id, now: int) returns (r: StartResult)
      requires !HasChecklist(active, newId)
      modifies this
      ensures (State(), r) == StartFrom(old(State()), templateId, newId, now)
      ensures old(Valid(State())) ==> Valid(State())
    {
      if Valid(State()) {
        StartKeepsValid(State(), templateId, newId, now);
      }
      var template := TemplateById(templates, templateId);
      if template.None? {
        return NotFound;
      }
      if template.value.items.None? {
        return Thrown;
      }
      var c := Checklist(newId, template.value.id, template.value.name + " (Instanz)",
                         Unchecked(template.value.items.value), now);
      active := active + [c];
      r := Started(c.id);
    }

    method SaveActiveChecklist(data: ChecklistData, now: int) returns (found: bool)
      modifies this
      ensures (State(), found) == SaveActive(old(State()), data, now)
      ensures old(Valid(State())) ==> Valid(State())
    {
      if Valid(State()) {
        SaveActiveKeepsValid(State(), data, now);
      }
      var index := ChecklistIndex(active, data.id);
      if index.None? {
        return false;
      }
      var i := index.value;
      active := active[i := MergeChecklist(active[i], data)];
      if AllDone(active[i].items) {
        ArchiveChecklist(active[i].id, now);
      }
      found := true;
    }

    method DeleteActiveChecklist(id: Id)
      modifies this
      ensures active == WithoutChecklist(old(active), id)
      ensures templates == old(templates) && archived == old(archived)
      ensures old(Valid(State())) ==> Valid(State())
    {
      if Valid(State()) {
        DeletesKeepValid(State(), id);
      }
      active := WithoutChecklist(active, id);
    }

    method ArchiveChecklist(id: Id, now: int)
      modifies this
      ensures State() == ArchiveTransition(old(State()), id, now)
      ensures old(Valid(State())) ==> Valid(State())
    {
      if Valid(State()) {
        ArchiveKeepsValid(State(), id, now);
      }
      var c := ChecklistById(active, id);
      if c.None? {
        return;
      }
      if !IsArchived(archived, id) {
        archived := archived + [Completed(c.value, now)];
      }
      // removed from the active list whether or not it was archived before
      DeleteActiveChecklist(id);
    }

    method DeleteArchivedChecklist(id: Id)
      modifies this
      ensures archived == WithoutArchived(old(archived), id)
      ensures templates == old(templates) && active == old(active)
      ensures old(Valid(State())) ==> Valid(State())
    {
      if Valid(State()) {
        DeletesKeepValid(State(), id);
      }
      archived := WithoutArchived(archived, id);
    }
  }
}
