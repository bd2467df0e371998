/** The archive page: its search over names and item texts, and the order
    in which it shows the archived checklists. */
module ArchiveList {
  import opened Records
  import opened Seqs
  import opened Text

  /** `item => item.text.toLowerCase().includes(term.toLowerCase())` */
  function ItemMatches(term: string): ChecklistItem -> bool {
    (item: ChecklistItem) => ContainsIgnoringCase(item.text, term)
  }

  /** The name contains the term, or some item text does, ignoring case. */
  function ArchivedMatches(term: string): ArchivedChecklist -> bool {
    (a: ArchivedChecklist) => ContainsIgnoringCase(a.name, term) || Any(a.items, ItemMatches(term))
  }

  /** filteredArchivedChecklists: the whole archive for an empty term. */
  function FilterArchive(arch: seq<ArchivedChecklist>, term: string): (r: seq<ArchivedChecklist>)
    ensures IsSubsequence(r, arch)
    ensures forall x :: x in r ==> x in arch
    ensures term == "" ==> r == arch
  {
    if term == "" then
      SubsequenceOfItself(arch);
      arch
    else
      Filter(arch, ArchivedMatches(term))
  }

  /** An empty term keeps the whole archive; otherwise the result keeps the
      archive's order and holds exactly the checklists whose name, or the
      text of one of whose items, contains the term ignoring case. */
  lemma FilterArchiveSpec(arch: seq<ArchivedChecklist>, term: string)
    ensures term == "" ==> FilterArchive(arch, term) == arch
    ensures IsSubsequence(FilterArchive(arch, term), arch)
    ensures term != "" ==>
              forall a :: a in arch ==>
                (a in FilterArchive(arch, term) <==>
                   ContainsIgnoringCase(a.name, term)
                   || exists k :: 0 <= k < |a.items| && ContainsIgnoringCase(a.items[k].text, term))
  {
    if term == "" {
      SubsequenceOfItself(arch);
    }
  }

  /** Terms that differ only in letter case find the same checklists. */
  lemma FilterArchiveIgnoresCase(arch: seq<ArchivedChecklist>, t1: string, t2: string)
    requires Lower(t1) == Lower(t2)
    ensures FilterArchive(arch, t1) == FilterArchive(arch, t2)
  {
    assert |t1| == |Lower(t1)| == |Lower(t2)| == |t2|;
    if t1 != "" {
      forall a | a in arch
        ensures ArchivedMatches(t1)(a) == ArchivedMatches(t2)(a)
      {
        assert Any(a.items, ItemMatches(t1)) == Any(a.items, ItemMatches(t2));
      }
      FilterCongruent(arch, ArchivedMatches(t1), ArchivedMatches(t2));
    }
  }

  function CompletedAt(a: ArchivedChecklist): int { a.completedAt }

  /** `filteredArchivedChecklists.sort((a, b) => b.completedAt - a.completedAt)` */
  function LatestFirst(arch: seq<ArchivedChecklist>): (r: seq<ArchivedChecklist>)
    ensures multiset(r) == multiset(arch)
  {
    SortDescCorrect(arch, CompletedAt);
    SortDesc(arch, CompletedAt)
  }

  /** The list the page shows for a term. */
  function Shown(arch: seq<ArchivedChecklist>, term: string): (r: seq<ArchivedChecklist>)
    ensures multiset(r) == multiset(FilterArchive(arch, term))
    ensures forall x :: x in r ==> x in arch
  {
    var r := LatestFirst(FilterArchive(arch, term));
    assert forall x :: x in r ==> x in multiset(r);
    r
  }

  /** The shown list starts with the most recently completed checklist and
      holds the found ones, each as often as they were found. */
  lemma ShownSpec(arch: seq<ArchivedChecklist>, term: string)
    ensures |Shown(arch, term)| == |FilterArchive(arch, term)|
    ensures forall i, j :: 0 <= i < j < |Shown(arch, term)| ==>
              Shown(arch, term)[i].completedAt >= Shown(arch, term)[j].completedAt
    ensures multiset(Shown(arch, term)) == multiset(FilterArchive(arch, term))
  {
    SortDescCorrect(FilterArchive(arch, term), CompletedAt);
    assert |multiset(Shown(arch, term))| == |multiset(FilterArchive(arch, term))|;
  }
}
