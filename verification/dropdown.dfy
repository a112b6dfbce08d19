/**
  The header dropdowns (`initDropdownMenu`, js/main.js:93-190).

  Each `.header__nav-item--dropdown` item has an `active` class, and so does
  its `.header__dropdown-menu` when it has one. Every handler closes a set of
  items by clearing both flags, and only items that have a menu are touched.
*/
module Dropdown {
  import opened Flags
  import NavMenu

  /**
    The item and menu flags after every item with a menu other than `keep`
    is closed (`keep` out of range closes them all).
  */
  function ClosedExcept(flags: seq<bool>, hasMenu: seq<bool>, keep: int): (r: seq<bool>)
    requires |flags| == |hasMenu|
    ensures |r| == |flags|
  {
    seq(|flags|, i requires 0 <= i < |flags| => if i != keep && hasMenu[i] then false else flags[i])
  }

  /**
    The item flags after a click on item k's link: the others with a menu are
    closed, and k is flipped (its menu follows the item's old flag).
  */
  function AfterLinkClick(flags: seq<bool>, hasMenu: seq<bool>, items: seq<bool>, k: nat): (r: seq<bool>)
    requires |flags| == |hasMenu| == |items| && k < |flags|
    ensures |r| == |flags|
  {
    ClosedExcept(flags, hasMenu, k)[k := !items[k]]
  }

  /** An item's flag and its menu's flag agree, for every item that has a menu. */
  predicate InLockstep(items: seq<bool>, menus: seq<bool>, hasMenu: seq<bool>)
    requires |items| == |menus| == |hasMenu|
  {
    forall i :: 0 <= i < |items| && hasMenu[i] ==> items[i] == menus[i]
  }

  /** A link click leaves every other item with a menu closed and flips the clicked one. */
  lemma LinkClickClosesOthers(items: seq<bool>, hasMenu: seq<bool>, k: nat, i: nat)
    requires |items| == |hasMenu| && k < |items| && i < |items|
    ensures i == k ==> AfterLinkClick(items, hasMenu, items, k)[i] == !items[k]
    ensures i != k && hasMenu[i] ==> !AfterLinkClick(items, hasMenu, items, k)[i]
    ensures i != k && !hasMenu[i] ==> AfterLinkClick(items, hasMenu, items, k)[i] == items[i]
  {
  }

  /**
    After a link click at most one item is open, provided no item without a
    menu was open (no handler ever opens one).
  */
  lemma LinkClickLeavesAtMostOne(items: seq<bool>, hasMenu: seq<bool>, k: nat)
    requires |items| == |hasMenu| && k < |items| && hasMenu[k]
    requires forall i :: 0 <= i < |items| && !hasMenu[i] ==> !items[i]
    ensures AtMostOneActive(AfterLinkClick(items, hasMenu, items, k))
    ensures CountActive(AfterLinkClick(items, hasMenu, items, k)) <= 1
  {
    var r := AfterLinkClick(items, hasMenu, items, k);
    assert OnlyActive(r, if items[k] then -1 else k);
    OnlyActiveCount(r, if items[k] then -1 else k);
    AtMostOneIffCount(r);
  }

  /** A link click brings every item with a menu into lockstep with its menu, whatever the flags were. */
  lemma LinkClickEstablishesLockstep(items: seq<bool>, menus: seq<bool>, hasMenu: seq<bool>, k: nat)
    requires |items| == |menus| == |hasMenu| && k < |items|
    ensures InLockstep(AfterLinkClick(items, hasMenu, items, k), AfterLinkClick(menus, hasMenu, items, k), hasMenu)
  {
  }

  /** Closing keeps lockstep. */
  lemma ClosingKeepsLockstep(items: seq<bool>, menus: seq<bool>, hasMenu: seq<bool>, keep: int)
    requires |items| == |menus| == |hasMenu| && InLockstep(items, menus, hasMenu)
    ensures InLockstep(ClosedExcept(items, hasMenu, keep), ClosedExcept(menus, hasMenu, keep), hasMenu)
  {
  }

  class Dropdowns {
    /** The `active` class of each dropdown item and of its menu. */
    var items: seq<bool>
    var menus: seq<bool>
    /** Whether each item has a menu and a link; an item lacking either gets no click handler. */
    const hasMenu: seq<bool>
    const hasLink: seq<bool>

    ghost predicate Valid()
      reads this
    {
      |items| == |menus| == |hasMenu| == |hasLink|
    }

    constructor(items: seq<bool>, menus: seq<bool>, hasMenu: seq<bool>, hasLink: seq<bool>)
      requires |items| == |menus| == |hasMenu| == |hasLink|
      ensures Valid()
      ensures this.items == items && this.menus == menus
      ensures this.hasMenu == hasMenu && this.hasLink == hasLink
    {
      this.items := items;
      this.menus := menus;
      this.hasMenu := hasMenu;
      this.hasLink := hasLink;
    }

    /** The loop shared by the handlers: clear both flags of every item with a menu other than `keep`. */
    method CloseExcept(keep: int)
      requires Valid()
      modifies this
      ensures Valid()
      ensures items == ClosedExcept(old(items), hasMenu, keep)
      ensures menus == ClosedExcept(old(menus), hasMenu, keep)
    {
      ghost var itemsBefore, menusBefore := items, menus;
      var i := 0;
      while i < |items|
        invariant 0 <= i <= |items| == |itemsBefore|
        invariant |menus| == |menusBefore| == |items|
        invariant forall j :: 0 <= j < i ==> items[j] == ClosedExcept(itemsBefore, hasMenu, keep)[j]
        invariant forall j :: 0 <= j < i ==> menus[j] == ClosedExcept(menusBefore, hasMenu, keep)[j]
        invariant forall j :: i <= j < |items| ==> items[j] == itemsBefore[j] && menus[j] == menusBefore[j]
      {
        if i != keep && hasMenu[i] {
          menus := menus[i := false];
          items := items[i := false];
        }
        i := i + 1;
      }
    }

    /** The click handler of item k's link: close the other dropdowns, then toggle this one. */
    method ClickLink(k: nat)
      requires Valid() && k < |items| && hasLink[k] && hasMenu[k]
      modifies this
      ensures Valid()
      ensures items == AfterLinkClick(old(items), hasMenu, old(items), k)
      ensures menus == AfterLinkClick(old(menus), hasMenu, old(items), k)
    {
      var isActive := items[k];
      CloseExcept(k);
      if isActive {
        menus := menus[k := false];
        items := items[k := false];
      } else {
        menus := menus[k := true];
        items := items[k := true];
      }
    }

    /**
      A click on an entry inside item k's menu: an open navigation menu is
      closed, then this dropdown is closed.
    */
    method ClickMenuEntry(k: nat, nav: NavMenu.Menu)
      requires Valid() && k < |items| && hasLink[k] && hasMenu[k]
      modifies this, nav
      ensures Valid()
      ensures old(nav.nav) ==> nav.InLockstep() && !nav.nav
      ensures !old(nav.nav) ==> nav.hamburger == old(nav.hamburger) && !nav.nav &&
                                 nav.overlay == old(nav.overlay) && nav.bodyMenuOpen == old(nav.bodyMenuOpen)
      ensures items == old(items)[k := false] && menus == old(menus)[k := false]
    {
      if nav.nav {
        nav.Close();
      }
      menus := menus[k := false];
      items := items[k := false];
    }

    /**
      A click anywhere on the page that reaches the document: `inside` is the
      item holding the click target, if any; every other item is closed.
    */
    method ClickDocument(inside: int)
      requires Valid()
      modifies this
      ensures Valid()
      ensures items == ClosedExcept(old(items), hasMenu, inside)
      ensures menus == ClosedExcept(old(menus), hasMenu, inside)
    {
      CloseExcept(inside);
    }

    /** The delayed resize handler's body: close every dropdown. */
    method CloseAll()
      requires Valid()
      modifies this
      ensures Valid()
      ensures items == ClosedExcept(old(items), hasMenu, -1)
      ensures menus == ClosedExcept(old(menus), hasMenu, -1)
    {
      CloseExcept(-1);
    }
  }
}
