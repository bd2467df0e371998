/** The active list page: the template search that starts a checklist, the
    progress shown for each running checklist, and the order of the list. */
module ActiveChecklistList {
  import opened Records
  import opened Seqs
  import opened Text
  import TemplateList

  /** filteredTemplates: no template for an empty term, so that templates
      are only offered while searching; otherwise the same name test as the
      template list page. */
  function StartCandidates(ts: seq<Template>, term: string): (r: seq<Template>)
    ensures IsSubsequence(r, ts)
    ensures term == "" ==> r == []
  {
    if term == "" then [] else Filter(ts, TemplateList.NameMatches(term))
  }

  /** An empty term offers nothing; otherwise the offer keeps the order of
      the templates and holds exactly those whose name contains the term
      ignoring case, which is what the template list page shows. */
  lemma StartCandidatesSpec(ts: seq<Template>, term: string)
    ensures term == "" ==> StartCandidates(ts, term) == []
    ensures IsSubsequence(StartCandidates(ts, term), ts)
    ensures term != "" ==>
              forall t :: t in ts ==>
                (t in StartCandidates(ts, term) <==> exists i :: OccursAt(Lower(t.name), Lower(term), i))
    ensures term != "" ==> StartCandidates(ts, term) == TemplateList.FilterTemplates(ts, term)
  {
    TemplateList.FilterTemplatesSpec(ts, term);
  }

  /** What getProgress shows: "0%" for a checklist without items, otherwise
      the rounded percentage with the done and total counts. */
  datatype Progress = NoItems | Percent(percent: int, done: nat, total: nat)

  /** `Math.round((done / total) * 100)` over exact fractions, halves
      rounded up. */
  function RoundedPercent(done: nat, total: nat): (p: int)
    requires 0 < total && done <= total
    ensures total * (2 * p - 1) <= 200 * done < total * (2 * p + 1)
  {
    var p := (200 * done + total) / (2 * total);
    DivBounds(200 * done + total, 2 * total);
    assert 2 * total * p == total * (2 * p);
    assert 2 * total * (p + 1) == total * (2 * p + 2);
    p
  }

  /** Euclidean division brackets the dividend. */
  lemma DivBounds(a: nat, b: nat)
    requires 0 < b
    ensures b * (a / b) <= a < b * (a / b + 1)
  {
    assert a == b * (a / b) + a % b;
  }

  /** The nearest-percentage property pins the percentage down: it lies in
      0..100, is 0 when nothing is done and 100 when everything is. */
  lemma RoundedPercentBounds(done: nat, total: nat)
    requires 0 < total && done <= total
    ensures 0 <= RoundedPercent(done, total) <= 100
    ensures done == 0 ==> RoundedPercent(done, total) == 0
    ensures done == total ==> RoundedPercent(done, total) == 100
  {
    var p := RoundedPercent(done, total);
    assert 200 * done <= total * 200;
    MulLeCancel(total, 2 * p - 1, 200);
    MulLeCancel(total, 2 * p + 1, 0);
    MulLeCancel(total, 2 * p - 1, 0);
    MulLeCancel(total, 2 * p + 1, 200);
  }

  /** A positive factor can be cancelled from both sides of `<=`. */
  lemma MulLeCancel(k: nat, a: int, b: int)
    requires 0 < k
    ensures k * a <= k * b <==> a <= b
  {
    assert k * b - k * a == k * (b - a);
    MulSign(k, b - a);
  }

  lemma MulSign(k: nat, d: int)
    requires 0 < k
    ensures 0 <= k * d <==> 0 <= d
  {
  }

  /** getProgress */
  function GetProgress(c: Checklist): (p: Progress)
    ensures p.NoItems? <==> c.items == []
    ensures p.Percent? ==> p.total == |c.items| && p.done <= p.total
    ensures p.Percent? ==> 0 <= p.percent <= 100
    ensures p.Percent? && p.done == 0 ==> p.percent == 0
    ensures p.Percent? && p.done == p.total ==> p.percent == 100
  {
    var total := |c.items|;
    if total == 0 then NoItems
    else
      var done := |Filter(c.items, IsDone)|;
      RoundedPercentBounds(done, total);
      Percent(RoundedPercent(done, total), done, total)
  }

  /** The done count of the progress is the number of done items: it is
      zero exactly when no item is done and the total exactly when every
      item is. */
  lemma ProgressCounts(c: Checklist)
    requires c.items != []
    ensures GetProgress(c).done == 0 <==> forall i :: 0 <= i < |c.items| ==> !c.items[i].done
    ensures GetProgress(c).done == |c.items| <==> forall i :: 0 <= i < |c.items| ==> c.items[i].done
  {
    var doneItems := Filter(c.items, IsDone);
    var openItems := Filter(c.items, IsOpen);
    FilterPartition(c.items, IsDone, IsOpen);
    if |doneItems| == 0 {
      forall i | 0 <= i < |c.items|
        ensures !c.items[i].done
      {
        assert c.items[i] in c.items;
      }
    }
    if |doneItems| > 0 {
      assert doneItems[0] in doneItems;
    }
    if |doneItems| == |c.items| {
      forall i | 0 <= i < |c.items|
        ensures c.items[i].done
      {
        assert c.items[i] in c.items;
      }
    }
    if |openItems| > 0 {
      assert openItems[0] in openItems;
    }
  }

  function CreatedAt(c: Checklist): int { c.createdAt }

  /** `activeChecklists.sort((a, b) => b.createdAt - a.createdAt)` */
  function NewestFirst(cs: seq<Checklist>): (r: seq<Checklist>)
    ensures multiset(r) == multiset(cs)
  {
    SortDescCorrect(cs, CreatedAt);
    SortDesc(cs, CreatedAt)
  }

  /** The shown list starts with the most recent checklist and holds the
      loaded ones, each as often as it was loaded. */
  lemma NewestFirstSpec(cs: seq<Checklist>)
    ensures |NewestFirst(cs)| == |cs|
    ensures forall i, j :: 0 <= i < j < |cs| ==> NewestFirst(cs)[i].createdAt >= NewestFirst(cs)[j].createdAt
    ensures multiset(NewestFirst(cs)) == multiset(cs)
  {
    SortDescCorrect(cs, CreatedAt);
    assert |multiset(NewestFirst(cs))| == |multiset(cs)|;
  }
}
