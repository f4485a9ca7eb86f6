/**
 * The filter panel of gsoc-guide/src/components/FilterBar.tsx: the
 * selected technologies and topics and the proposals-only checkbox, the
 * handlers that change them, and what each handler reports to the page.
 */
module FilterPanel {
  import opened Seqs
  import opened Domain

  /** How many technologies (topics) the panel offers. */
  const Offered := 10

  /** `t => t !== item` */
  function Differs(item: string): string -> bool
  {
    t => t != item
  }

  /**
   * Clicking `item`: a selected item is removed wherever it occurs, an
   * unselected one is appended at the end.
   */
  function Toggle(selection: seq<string>, item: string): (r: seq<string>)
    ensures item in selection ==> item !in r && forall x :: x != item ==> multiset(r)[x] == multiset(selection)[x]
    ensures item !in selection ==> r == selection + [item]
  {
    if item in selection then
      var r := Filter(Differs(item), selection);
      assert forall x :: multiset(r)[x] == if x != item then multiset(selection)[x] else 0 by {
        forall x ensures multiset(r)[x] == if x != item then multiset(selection)[x] else 0 {
          FilterMultiset(Differs(item), selection, x);
        }
      }
      r
    else
      selection + [item]
  }

  /** Clicking an unselected item twice restores the selection. */
  lemma ToggleTwice(selection: seq<string>, item: string)
    requires item !in selection
    ensures Toggle(Toggle(selection, item), item) == selection
  {
    var added := selection + [item];
    assert added[|selection|] == item;
    FilterConcat(Differs(item), selection, [item]);
    assert forall x :: x in selection ==> Differs(item)(x);
    FilterKeepsAll(Differs(item), selection);
    DropsItem(item);
  }

  /** A filter that drops `item` keeps none of `[item]`. */
  lemma DropsItem(item: string)
    ensures Filter(Differs(item), [item]) == []
  {
    assert !Differs(item)(item);
    assert [item][1..] == [];
  }

  /** Deselecting keeps the other selections in their order. */
  lemma DeselectKeepsOrder(before: seq<string>, item: string, after: seq<string>)
    requires item !in before && item !in after
    ensures Toggle(before + [item] + after, item) == before + after
  {
    var d := Differs(item);
    var s := before + [item] + after;
    assert s[|before|] == item;
    assert forall x :: x in before ==> d(x);
    assert forall x :: x in after ==> d(x);
    calc {
      Toggle(s, item);
      Filter(d, s);
      { FilterConcat(d, before + [item], after); }
      Filter(d, before + [item]) + Filter(d, after);
      { FilterConcat(d, before, [item]); }
      Filter(d, before) + Filter(d, [item]) + Filter(d, after);
      { FilterKeepsAll(d, before); FilterKeepsAll(d, after); DropsItem(item); }
      before + [] + after;
    }
    assert before + [] + after == before + after;
  }

  /** Toggling keeps a duplicate-free selection duplicate-free. */
  lemma ToggleKeepsDistinct(selection: seq<string>, item: string)
    requires Distinct(selection)
    ensures Distinct(Toggle(selection, item))
  {
    if item in selection {
      FilterKeepsDistinct(Differs(item), selection);
    } else {
      var r := selection + [item];
      assert forall i :: 0 <= i < |selection| ==> r[i] == selection[i] && selection[i] in selection;
    }
  }

  /** `items.slice(0, 10)`: the first ten items, or all of them when fewer. */
  function OfferedItems(items: seq<string>): (r: seq<string>)
    ensures |r| == if |items| < Offered then |items| else Offered
    ensures r == items[..|r|]
  {
    if |items| <= Offered then items else items[..Offered]
  }

  class FilterBar {
    var selectedTechs: seq<string>
    var selectedTopics: seq<string>
    var showProposalsOnly: bool

    /** The selections never hold an item twice. */
    predicate Valid()
      reads this
    {
      Distinct(selectedTechs) && Distinct(selectedTopics)
    }

    /** What the panel reports to the page: its current state. */
    function Current(): (r: FilterSelection)
      reads this
      ensures r.technologies == selectedTechs && r.topics == selectedTopics && r.hasProposals == showProposalsOnly
    {
      FilterSelection(selectedTechs, selectedTopics, showProposalsOnly)
    }

    /** "Clear all" is shown exactly when some filter is set. */
    predicate ClearAllShown()
      reads this
      ensures ClearAllShown() <==> Current() != NoSelection
    {
      |selectedTechs| > 0 || |selectedTopics| > 0 || showProposalsOnly
    }

    constructor()
      ensures selectedTechs == [] && selectedTopics == [] && !showProposalsOnly
      ensures Valid() && !ClearAllShown()
    {
      selectedTechs, selectedTopics, showProposalsOnly := [], [], false;
    }

    /**
     * `handleTechChange`: toggles `tech` and reports the new technology
     * selection with the unchanged topics and checkbox.
     */
    method HandleTechChange(tech: string) returns (report: FilterSelection)
      requires Valid()
      modifies this`selectedTechs
      ensures Valid()
      ensures selectedTechs == Toggle(old(selectedTechs), tech)
      ensures report == Current()
      ensures Distinct(report.technologies) && Distinct(report.topics)
    {
      ToggleKeepsDistinct(selectedTechs, tech);
      selectedTechs := Toggle(selectedTechs, tech);
      report := FilterSelection(selectedTechs, selectedTopics, showProposalsOnly);
    }

    /**
     * `handleTopicChange`: toggles `topic` and reports the new topic
     * selection with the unchanged technologies and checkbox.
     */
    method HandleTopicChange(topic: string) returns (report: FilterSelection)
      requires Valid()
      modifies this`selectedTopics
      ensures Valid()
      ensures selectedTopics == Toggle(old(selectedTopics), topic)
      ensures report == Current()
      ensures Distinct(report.technologies) && Distinct(report.topics)
    {
      ToggleKeepsDistinct(selectedTopics, topic);
      selectedTopics := Toggle(selectedTopics, topic);
      report := FilterSelection(selectedTechs, selectedTopics, showProposalsOnly);
    }

    /** `handleProposalsChange`: sets the checkbox and reports it with both selections. */
    method HandleProposalsChange(checked: bool) returns (report: FilterSelection)
      requires Valid()
      modifies this`showProposalsOnly
      ensures Valid()
      ensures showProposalsOnly == checked
      ensures report == Current()
      ensures Distinct(report.technologies) && Distinct(report.topics)
    {
      showProposalsOnly := checked;
      report := FilterSelection(selectedTechs, selectedTopics, checked);
    }

    /** `clearFilters`: empties everything and reports exactly that. */
    method ClearFilters() returns (report: FilterSelection)
      modifies this
      ensures selectedTechs == [] && selectedTopics == [] && !showProposalsOnly
      ensures Valid() && !ClearAllShown()
      ensures report == NoSelection
    {
      selectedTechs, selectedTopics, showProposalsOnly := [], [], false;
      report := FilterSelection([], [], false);
    }
  }

  /** The report of a cleared panel. */
  const NoSelection := FilterSelection([], [], false)
}
