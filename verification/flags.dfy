/** Facts about a list of `active` class flags, one flag per element of a component. */
module Flags {

  /** Element k is the only one carrying the flag; when k is out of range no element carries it. */
  predicate OnlyActive(flags: seq<bool>, k: int) {
    forall i :: 0 <= i < |flags| ==> flags[i] == (i == k)
  }

  /** No two elements carry the flag. */
  predicate AtMostOneActive(flags: seq<bool>) {
    forall i, j :: 0 <= i < |flags| && 0 <= j < |flags| && flags[i] && flags[j] ==> i == j
  }

  /** The number of elements carrying the flag. */
  function CountActive(flags: seq<bool>): (n: nat)
    ensures n <= |flags|
  {
    if flags == [] then 0
    else CountActive(flags[..|flags| - 1]) + (if flags[|flags| - 1] then 1 else 0)
  }

  lemma {:induction false} CountActiveZero(flags: seq<bool>)
    ensures CountActive(flags) == 0 <==> forall i :: 0 <= i < |flags| ==> !flags[i]
  {
    if flags != [] {
      var init := flags[..|flags| - 1];
      CountActiveZero(init);
      assert forall i :: 0 <= i < |init| ==> init[i] == flags[i];
    }
  }

  lemma {:induction false} OnlyActiveCount(flags: seq<bool>, k: int)
    requires OnlyActive(flags, k)
    ensures CountActive(flags) == if 0 <= k < |flags| then 1 else 0
  {
    if flags != [] {
      var init := flags[..|flags| - 1];
      assert forall i :: 0 <= i < |init| ==> init[i] == flags[i];
      OnlyActiveCount(init, k);
    }
  }

  /** "At most one element is active" is the same as "the active count is 0 or 1". */
  lemma {:induction false} AtMostOneIffCount(flags: seq<bool>)
    ensures AtMostOneActive(flags) <==> CountActive(flags) <= 1
  {
    if flags != [] {
      var n := |flags|;
      var init := flags[..n - 1];
      assert forall i :: 0 <= i < |init| ==> init[i] == flags[i];
      AtMostOneIffCount(init);
      CountActiveZero(init);
    }
  }
}
