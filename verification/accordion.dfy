/**
  The collection accordion (`initCollectionAccordion`, js/main.js:673-702).

  A header click closes every item and then reopens the clicked one only if
  it was closed before; each header's `aria-expanded` attribute follows.
*/
module Accordion {
  import opened Flags

  /** The `active` flags after a click on item k's header. */
  function ActiveAfterClick(active: seq<bool>, k: nat): (r: seq<bool>)
    requires k < |active|
    ensures |r| == |active|
  {
    seq(|active|, i => i == k && !active[k])
  }

  /**
    The `aria-expanded` values after that click: every item with a header
    reads "false" except the clicked one, which reads "true" when it opened;
    an item without a header has no attribute to write and keeps its value.
  */
  function AriaAfterClick(aria: seq<string>, hasHeader: seq<bool>, active: seq<bool>, k: nat): (r: seq<string>)
    requires k < |active| == |aria| == |hasHeader|
    ensures |r| == |aria|
  {
    seq(|aria|, i requires 0 <= i < |aria| =>
      if !hasHeader[i] then aria[i]
      else if i == k && !active[k] then "true"
      else "false")
  }

  /** After any click at most one item is open. */
  lemma ClickLeavesAtMostOne(active: seq<bool>, k: nat)
    requires k < |active|
    ensures AtMostOneActive(ActiveAfterClick(active, k))
    ensures CountActive(ActiveAfterClick(active, k)) <= 1
  {
    AtMostOneIffCount(ActiveAfterClick(active, k));
  }

  /** Clicking a closed item makes it the only open one. */
  lemma ClickOpensClosedItem(active: seq<bool>, k: nat)
    requires k < |active| && !active[k]
    ensures OnlyActive(ActiveAfterClick(active, k), k)
    ensures CountActive(ActiveAfterClick(active, k)) == 1
  {
    OnlyActiveCount(ActiveAfterClick(active, k), k);
  }

  /** Clicking the open item closes every item. */
  lemma ClickClosesOpenItem(active: seq<bool>, k: nat)
    requires k < |active| && active[k]
    ensures CountActive(ActiveAfterClick(active, k)) == 0
  {
    CountActiveZero(ActiveAfterClick(active, k));
  }

  /** Clicking the same closed header twice closes everything again. */
  lemma ClickTwiceCloses(active: seq<bool>, k: nat)
    requires k < |active| && !active[k]
    ensures CountActive(ActiveAfterClick(ActiveAfterClick(active, k), k)) == 0
  {
    CountActiveZero(ActiveAfterClick(ActiveAfterClick(active, k), k));
  }

  /** Each header's `aria-expanded` is "true" exactly for the open item and "false" for the others. */
  lemma AriaMirrorsActive(aria: seq<string>, hasHeader: seq<bool>, active: seq<bool>, k: nat, i: nat)
    requires k < |active| == |aria| == |hasHeader|
    requires i < |active| && hasHeader[i]
    ensures AriaAfterClick(aria, hasHeader, active, k)[i] == (if ActiveAfterClick(active, k)[i] then "true" else "false")
  {
  }

  class AccordionList {
    /** The `active` class of each `.collection__accordion-item`. */
    var active: seq<bool>
    /** The `aria-expanded` attribute of each item's header ("" where the header lacks one). */
    var ariaExpanded: seq<string>
    /** Whether each item has a `.collection__accordion-header`. */
    const hasHeader: seq<bool>

    ghost predicate Valid()
      reads this
    {
      |active| == |ariaExpanded| == |hasHeader|
    }

    constructor(active: seq<bool>, ariaExpanded: seq<string>, hasHeader: seq<bool>)
      requires |active| == |ariaExpanded| == |hasHeader|
      ensures Valid()
      ensures this.active == active && this.ariaExpanded == ariaExpanded && this.hasHeader == hasHeader
    {
      this.active := active;
      this.ariaExpanded := ariaExpanded;
      this.hasHeader := hasHeader;
    }

    /** The click handler of item k's header (only items with a header have one). */
    method ClickHeader(k: nat)
      requires Valid() && k < |active| && hasHeader[k]
      modifies this
      ensures Valid()
      ensures active == ActiveAfterClick(old(active), k)
      ensures ariaExpanded == AriaAfterClick(old(ariaExpanded), hasHeader, old(active), k)
    {
      var wasActive := active[k];
      ghost var before, ariaBefore := active, ariaExpanded;
      var i := 0;
      while i < |active|
        invariant 0 <= i <= |active| == |before|
        invariant |ariaExpanded| == |ariaBefore| == |active|
        invariant forall j :: 0 <= j < i ==> !active[j]
        invariant forall j :: i <= j < |active| ==> active[j] == before[j]
        invariant forall j :: 0 <= j < i ==> ariaExpanded[j] == if hasHeader[j] then "false" else ariaBefore[j]
        invariant forall j :: i <= j < |active| ==> ariaExpanded[j] == ariaBefore[j]
      {
        active := active[i := false];
        if hasHeader[i] {
          ariaExpanded := ariaExpanded[i := "false"];
        }
        i := i + 1;
      }
      if !wasActive {
        active := active[k := true];
        ariaExpanded := ariaExpanded[k := "true"];
      }
    }
  }
}
