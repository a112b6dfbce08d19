/**
  The mobile navigation menu (`initHamburgerMenu`, js/main.js:33-88).

  Opening and closing set four flags together: the `active` class of the
  hamburger button, of the navigation and of the overlay, and the body's
  `menu-open` class. The elements are taken to be present.
*/
module NavMenu {

  class Menu {
    var hamburger: bool
    var nav: bool
    var overlay: bool
    var bodyMenuOpen: bool

    /** The four flags agree. */
    ghost predicate InLockstep()
      reads this
    {
      hamburger == nav && nav == overlay && overlay == bodyMenuOpen
    }

    constructor(hamburger: bool, nav: bool, overlay: bool, bodyMenuOpen: bool)
      ensures this.hamburger == hamburger && this.nav == nav
      ensures this.overlay == overlay && this.bodyMenuOpen == bodyMenuOpen
    {
      this.hamburger := hamburger;
      this.nav := nav;
      this.overlay := overlay;
      this.bodyMenuOpen := bodyMenuOpen;
    }

    /** `openMenu`. */
    method Open()
      modifies this
      ensures InLockstep() && nav
    {
      hamburger := true;
      nav := true;
      overlay := true;
      bodyMenuOpen := true;
    }

    /**
      `closeMenu`, also run by the close button, the overlay and every
      navigation link outside a dropdown.
    */
    method Close()
      modifies this
      ensures InLockstep() && !nav
    {
      hamburger := false;
      nav := false;
      overlay := false;
      bodyMenuOpen := false;
    }

    /** The hamburger button closes an open menu and opens a closed one. */
    method ClickHamburger()
      modifies this
      ensures InLockstep()
      ensures nav == !old(nav)
    {
      if nav {
        Close();
      } else {
        Open();
      }
    }

    /** Escape closes an open menu; any other key, or Escape on a closed menu, changes nothing. */
    method KeyDown(key: string)
      modifies this
      ensures key == "Escape" && old(nav) ==> InLockstep() && !nav
      ensures !(key == "Escape" && old(nav)) ==>
                hamburger == old(hamburger) && nav == old(nav) && overlay == old(overlay) && bodyMenuOpen == old(bodyMenuOpen)
    {
      if key == "Escape" && nav {
        Close();
      }
    }
  }
}
