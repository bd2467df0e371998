/** The records kept by the checklist store, in the shape they take in the
    persisted JSON collections. A field that a record may lack is an Option;
    None stands for a missing key. */
module Records {

  datatype Option<T> = None | Some(value: T) {
    /** `x || fallback` in the source, for a field whose present values are
        always truthy (arrays, objects). */
    function GetOr(fallback: T): T {
      match this
      case Some(v) => v
      case None => fallback
    }
  }

  /** Identifiers are the strings produced by `uuidv4()`. */
  type Id = string

  /** An entry of a template: `{ id, text }`. */
  datatype TemplateItem = TemplateItem(id: Id, text: string)

  /** A stored template. `items` may be missing from a record that was saved
      under an identifier the store did not know. */
  datatype Template = Template(id: Id, name: string, items: Option<seq<TemplateItem>>)

  /** An entry of a running checklist: the template entry plus `done`. */
  datatype ChecklistItem = ChecklistItem(id: Id, text: string, done: bool)

  function IsDone(item: ChecklistItem): bool { item.done }
  function IsOpen(item: ChecklistItem): bool { !item.done }

  /** A record of the active collection; `createdAt` is a `Date.now()` value. */
  datatype Checklist = Checklist(id: Id, templateId: Id, name: string,
                                 items: seq<ChecklistItem>, createdAt: int)

  /** A record of the archived collection: every field of the active record
      at the moment of completion, plus `completedAt`. */
  datatype ArchivedChecklist = ArchivedChecklist(id: Id, templateId: Id, name: string,
                                                 items: seq<ChecklistItem>, createdAt: int,
                                                 completedAt: int)

  /** `{ ...checklist, completedAt }`: dropping `completedAt` again gives
      back the active record. */
  function Completed(c: Checklist, completedAt: int): (r: ArchivedChecklist)
    ensures r.completedAt == completedAt
    ensures Checklist(r.id, r.templateId, r.name, r.items, r.createdAt) == c
  {
    ArchivedChecklist(c.id, c.templateId, c.name, c.items, c.createdAt, completedAt)
  }

  predicate HasTemplate(ts: seq<Template>, id: Id) {
    exists i :: 0 <= i < |ts| && ts[i].id == id
  }

  predicate HasChecklist(cs: seq<Checklist>, id: Id) {
    exists i :: 0 <= i < |cs| && cs[i].id == id
  }

  predicate HasArchived(arch: seq<ArchivedChecklist>, id: Id) {
    exists i :: 0 <= i < |arch| && arch[i].id == id
  }

  predicate HasItem(items: seq<TemplateItem>, id: Id) {
    exists i :: 0 <= i < |items| && items[i].id == id
  }

  function IdOfTemplate(t: Template): Id { t.id }
  function IdOfChecklist(c: Checklist): Id { c.id }
  function IdOfArchived(a: ArchivedChecklist): Id { a.id }
}
