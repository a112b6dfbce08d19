/**
  The subscription options (`updateCollapsedClass` in `initSubscriptionToggle`,
  js/main.js:413-474).

  Each `.product__subscription-option` takes its `collapsed` class and the
  inline style of its content block from whether its radio is checked. In the
  page's own naming the `collapsed` class is ADDED to the checked option, the
  one whose content is shown.
*/
module Subscription {
  import opened Wrappers
  import opened Flags

  /** The inline `visibility`, `opacity` and `height` of an option's content block. */
  datatype ContentStyle = ContentStyle(visibility: string, opacity: string, height: string)

  const Shown := ContentStyle("visible", "1", "auto")
  const Hidden := ContentStyle("hidden", "0", "0")

  /**
    One option: the `checked` state of the radio inside its label (`None` when
    the label or the radio is missing), its `collapsed` class, and the style of
    its content block (`None` when it has no content block).
  */
  datatype PlanOption = PlanOption(input: Option<bool>, collapsed: bool, content: Option<ContentStyle>)

  /** An option the update rewrites: it has both a radio and a content block. */
  predicate Complete(o: PlanOption) {
    o.input.Some? && o.content.Some?
  }

  /** The option after the update. */
  function Reconcile(o: PlanOption): (r: PlanOption)
    ensures r.input == o.input
    ensures Complete(r) <==> Complete(o)
  {
    if Complete(o) then
      if o.input.value then o.(collapsed := true, content := Some(Shown))
      else o.(collapsed := false, content := Some(Hidden))
    else o
  }

  /** All options after the update. */
  function ReconcileAll(options: seq<PlanOption>): (r: seq<PlanOption>)
    ensures |r| == |options|
  {
    seq(|options|, i requires 0 <= i < |options| => Reconcile(options[i]))
  }

  /** The `collapsed` flags of a list of options. */
  function CollapsedFlags(options: seq<PlanOption>): (r: seq<bool>)
    ensures |r| == |options|
  {
    seq(|options|, i requires 0 <= i < |options| => options[i].collapsed)
  }

  /**
    After the update a complete option carries `collapsed` and shows its
    content exactly when its radio is checked; an incomplete one is untouched;
    no radio changes.
  */
  lemma ReconcileMirrorsChecked(options: seq<PlanOption>, i: nat)
    requires i < |options|
    ensures ReconcileAll(options)[i].input == options[i].input
    ensures Complete(options[i]) ==>
              ReconcileAll(options)[i].collapsed == options[i].input.value &&
              ReconcileAll(options)[i].content == Some(if options[i].input.value then Shown else Hidden)
    ensures !Complete(options[i]) ==> ReconcileAll(options)[i] == options[i]
  {
  }

  /** Running the update twice gives the same options as running it once. */
  lemma ReconcileIdempotent(options: seq<PlanOption>)
    ensures ReconcileAll(ReconcileAll(options)) == ReconcileAll(options)
  {
    var once := ReconcileAll(options);
    forall i | 0 <= i < |options| ensures ReconcileAll(once)[i] == once[i] {
      var o := options[i];
      if Complete(o) {
        assert once[i] == Reconcile(o);
      }
    }
  }

  /**
    When the radios are exclusive, with only option k's radio checked among
    the complete options and k complete, and no incomplete option carrying
    `collapsed` beforehand, option k is the only option of all carrying
    `collapsed` afterwards.
  */
  lemma SelectedOptionIsTheOnlyExpanded(options: seq<PlanOption>, k: nat)
    requires k < |options| && Complete(options[k]) && options[k].input.value
    requires forall i :: 0 <= i < |options| && i != k && Complete(options[i]) ==> !options[i].input.value
    requires forall i :: 0 <= i < |options| && !Complete(options[i]) ==> !options[i].collapsed
    ensures OnlyActive(CollapsedFlags(ReconcileAll(options)), k)
    ensures CountActive(CollapsedFlags(ReconcileAll(options))) == 1
  {
    OnlyActiveCount(CollapsedFlags(ReconcileAll(options)), k);
  }

  /** With no complete option checked, no complete option carries `collapsed` afterwards. */
  lemma NothingCheckedCollapsesAll(options: seq<PlanOption>, i: nat)
    requires i < |options| && Complete(options[i])
    requires forall j :: 0 <= j < |options| && Complete(options[j]) ==> !options[j].input.value
    ensures !ReconcileAll(options)[i].collapsed && ReconcileAll(options)[i].content == Some(Hidden)
  {
  }

  class SubscriptionToggle {
    var options: seq<PlanOption>

    /**
      `initSubscriptionToggle`: when the page has a subscription radio anywhere
      (`anyInput`) the options are brought in line once at start-up; otherwise
      nothing is set up.
    */
    constructor(options: seq<PlanOption>, anyInput: bool)
      ensures anyInput ==> this.options == ReconcileAll(options)
      ensures !anyInput ==> this.options == options
    {
      this.options := options;
      new;
      if anyInput {
        UpdateCollapsedClass();
      }
    }

    /** `updateCollapsedClass`: rewrite every complete option from its radio. */
    method UpdateCollapsedClass()
      modifies this
      ensures options == ReconcileAll(old(options))
    {
      ghost var before := options;
      var i := 0;
      while i < |options|
        invariant 0 <= i <= |options| == |before|
        invariant forall j :: 0 <= j < i ==> options[j] == Reconcile(before[j])
        invariant forall j :: i <= j < |options| ==> options[j] == before[j]
      {
        var o := options[i];
        if o.input.Some? && o.content.Some? {
          if o.input.value {
            options := options[i := o.(collapsed := true, content := Some(Shown))];
          } else {
            options := options[i := o.(collapsed := false, content := Some(Hidden))];
          }
        }
        i := i + 1;
      }
    }
  }
}
