/** The search of the template list page. */
module TemplateList {
  import opened Records
  import opened Seqs
  import opened Text

  /** `template => template.name.toLowerCase().includes(term.toLowerCase())`;
      the template search of the active list page uses the same test. */
  function NameMatches(term: string): Template -> bool {
    (t: Template) => ContainsIgnoringCase(t.name, term)
  }

  /** filteredTemplates: every template for an empty term, otherwise the
      ones whose name contains the term ignoring case. */
  function FilterTemplates(ts: seq<Template>, term: string): (r: seq<Template>)
    ensures IsSubsequence(r, ts)
    ensures term == "" ==> r == ts
  {
    if term == "" then
      SubsequenceOfItself(ts);
      ts
    else
      Filter(ts, NameMatches(term))
  }

  /** An empty term keeps everything; otherwise the result keeps the order
      of the templates and holds exactly those whose lower-cased name has
      the lower-cased term at some position. */
  lemma FilterTemplatesSpec(ts: seq<Template>, term: string)
    ensures term == "" ==> FilterTemplates(ts, term) == ts
    ensures IsSubsequence(FilterTemplates(ts, term), ts)
    ensures term != "" ==>
              forall t :: t in ts ==>
                (t in FilterTemplates(ts, term) <==> exists i :: OccursAt(Lower(t.name), Lower(term), i))
  {
    if term == "" {
      SubsequenceOfItself(ts);
    } else {
      forall t | t in ts
        ensures NameMatches(term)(t) <==> exists i :: OccursAt(Lower(t.name), Lower(term), i)
      {
        IncludesIffOccurs(Lower(t.name), Lower(term));
      }
    }
  }

  /** Terms that differ only in letter case find the same templates. */
  lemma FilterTemplatesIgnoresCase(ts: seq<Template>, t1: string, t2: string)
    requires Lower(t1) == Lower(t2)
    ensures FilterTemplates(ts, t1) == FilterTemplates(ts, t2)
  {
    assert |t1| == |Lower(t1)| == |Lower(t2)| == |t2|;
    if t1 != "" {
      FilterCongruent(ts, NameMatches(t1), NameMatches(t2));
    }
  }

  /** Which of the names "Kitchen", "Office" and "kitchen checklist"
      contain "kitchen" ignoring case. */
  lemma KitchenMatches()
    ensures ContainsIgnoringCase("Kitchen", "kitchen")
    ensures !ContainsIgnoringCase("Office", "kitchen")
    ensures ContainsIgnoringCase("kitchen checklist", "kitchen")
  {
    assert Lower("kitchen") == "kitchen";
    assert Lower("Kitchen") == "kitchen";
    assert Lower("kitchen checklist")[..7] == "kitchen";
  }

  /** The search for "kitchen" among "Kitchen", "Office" and "kitchen
      checklist" finds the first and the last, in that order. */
  lemma KitchenSearch()
    ensures var kitchen := Template("t1", "Kitchen", Some([]));
            var office := Template("t2", "Office", Some([]));
            var both := Template("t3", "kitchen checklist", Some([]));
            FilterTemplates([kitchen, office, both], "kitchen") == [kitchen, both]
  {
    var kitchen := Template("t1", "Kitchen", Some([]));
    var office := Template("t2", "Office", Some([]));
    var both := Template("t3", "kitchen checklist", Some([]));
    var m := NameMatches("kitchen");
    KitchenMatches();
    assert m(kitchen) && !m(office) && m(both);
    assert [both][1..] == [];
    assert Filter([both], m) == [both];
    assert [office, both][1..] == [both];
    assert Filter([office, both], m) == [both];
    assert [kitchen, office, both][1..] == [office, both];
  }
}
