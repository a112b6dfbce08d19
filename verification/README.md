# GTG product page behaviour, modelled in Dafny

The GTG perfume page is driven by one script, `js/main.js`, that wires DOM
events to CSS-class and attribute changes. This project models the parts of
that script that follow stateable rules. The DOM is replaced by plain values:
a radio group becomes `Option<string>` (the value of its checked input, if
any), a list of elements becomes a list of flags, and an element the page
may lack becomes an `Option` or a `has…` flag.

- `cart_url.dfy`, module `CartUrl`: `updateCartUrl`. It derives the plan
  (default `single`) and a fragrance from the group that plan reads:
  `fragrance` for `single`, `fragrance-double1` for `double`, and none
  otherwise (default `original`). It builds the key `"{plan}-{fragrance}"`,
  looks it up in the fixed nine-entry table, falls back to `single-original`,
  and writes the result as the new `href` of `#add-to-cart`. This part is
  modelled as pure functions.
- `gallery.dfy`, module `Gallery`: `initImageGallery` and `updateGallery`.
  A class holds `currentIndex`, the image count and two `bool` arrays (the
  `active` classes of the thumbnails and of the dots). The model covers index
  wrap-around at both ends, ceiling division from images to dots, and the
  click, arrow and key handlers.
- `accordion.dfy`, module `Accordion`: the accordion header click. It closes
  every item, then reopens the clicked one only if it was closed, and keeps
  `aria-expanded` in step.
- `dropdown.dfy`, module `Dropdown`: the dropdown link click, which closes
  the others and toggles this one. It also covers the menu-entry click, the
  document click and the resize handler's body. Items without a menu are
  never touched, exactly as in the code.
- `nav_menu.dfy`, module `NavMenu`: `openMenu`, `closeMenu`, the hamburger
  button and the Escape key. These keep four `active` flags in lockstep.
- `subscription.dfy`, module `Subscription`: `updateCollapsedClass`. Each
  option's `collapsed` class and the style of its content block are set from
  its radio. In the code's own naming, `collapsed` is *added* to the checked
  option, the one whose content is shown.
- `flags.dfy` and `wrappers.dfy` hold the shared pieces: the
  at-most-one and only-one predicates with the count of active flags, and
  `Option`.

Each handler that loops over a list of elements is a method whose loop is
proved to leave exactly the state given by a specification function:
`ActiveAfterClick` and `AriaAfterClick`, `ClosedExcept`, `AfterLinkClick` or
`ReconcileAll`. The gallery's update loops are proved to leave the flags
described by the predicate `Marked`. The navigation-menu handlers and the dropdown menu-entry click have no loop: they
are straight-line updates whose contracts give every new flag. The lemmas next
to each function prove what the page relies on:
- at most one open item;
- the clicked item opens iff it was closed;
- `aria-expanded` mirrors `active`;
- the link is always one of the nine table values;
- the update is idempotent.

Three details of the code are easy to misread; the model follows the code:
- The radio groups are named `subscription`, `fragrance`, `fragrance-double1`
  and `fragrance-double2`.
- The class set on the *selected* option is called `collapsed`.
- Clicking dropdown link k leaves items that lack a menu untouched, even when
  their `active` class is set.

The lookup `cartUrls[urlKey] || cartUrls['single-original']` is modelled with
JavaScript's truthiness. An empty-string entry gives way to the fallback, as
a missing entry does. Every key contains a dash, so no property inherited by
a JavaScript object can match a key, and a `map` lookup is exact.

## Model

| member | source | states |
|---|---|---|
| `CartUrl.Plan` | js/main.js:508-509 | the plan is the checked subscription value when one is checked, and `single` otherwise |
| `CartUrl.FragranceOf` | js/main.js:511-522 | the fragrance is the checked value of the group the plan reads (`fragrance` for `single`, `fragrance-double1` for `double`) when one is checked, and `original` otherwise; any other plan gives `original` |
| `CartUrl.UrlKey` | js/main.js:542 | the key is the plan, one dash, then the fragrance, and nothing else |
| `CartUrl.Lookup` | js/main.js:545 | a present, non-empty entry for the key is returned; a missing or empty one gives the `single-original` entry, or nothing when that is missing too; any result is a value of the table |
| `CartUrl.CartHref` | js/main.js:526-545 | for any table, the link is the selection key's own non-empty entry, else the `single-original` entry, else nothing |
| `CartUrl.CartUrl` | js/main.js:526-545 | the link is always one of the nine table values; a key outside the table gives the `single-original` link, a key inside it gives its own entry |
| `CartUrl.UpdateCartUrl` | js/main.js:503-546 | without the `#add-to-cart` element nothing is written; with it, the new `href` is the selection's link `CartUrl(s)`, one of the nine table values |
| `CartUrl.CoveredEntry` | js/main.js:526-539 | every plan in {single, double, triple} and fragrance in {original, lily, rose} has an entry, and it is `https://example.com/cart/` followed by its key |
| `CartUrl.SingleEntries` | js/main.js:528-530 | the three `single-…` entries exist and point at their own cart path |
| `CartUrl.DoubleEntries` | js/main.js:532-534 | the three `double-…` entries exist and point at their own cart path |
| `CartUrl.TripleEntries` | js/main.js:536-538 | the three `triple-…` entries exist and point at their own cart path |
| `CartUrl.KeyPartsUnique` | js/main.js:542 | a key `p-f` equals a table key `P-F` (parts without a dash) only when `p == P` and `f == F` |
| `CartUrl.TableKeyParts` | js/main.js:526-542 | a key `p-f` found in the table has a covered plan `p` and a covered fragrance `f` |
| `CartUrl.KeyInTableIff` | js/main.js:526-542 | a key `p-f` is in the table if and only if `p` is a covered plan and `f` a covered fragrance |
| `CartUrl.CartUrlShape` | js/main.js:507-546 | the link is the cart path of the selection's key when its plan and fragrance are covered, and the `single-original` path otherwise |
| `CartUrl.CoveredChoiceReachesItsPath` | js/main.js:507-546 | each of the seven reachable choices (single or double with any fragrance, triple with `original`), checked in the group its plan reads, gives exactly `https://example.com/cart/{plan}-{fragrance}` |
| `CartUrl.TripleLilyAndRoseUnreachable` | js/main.js:511-538 | no selection gives the `triple-lily` or `triple-rose` link, because the triple plan reads no fragrance |
| `CartUrl.NoFragranceCheckedGivesOriginal` | js/main.js:514-522 | with plan `single` and no `fragrance` checked the link is `.../single-original`; with plan `double` and no `fragrance-double1` checked it is `.../double-original` |
| `CartUrl.NothingCheckedGivesSingleOriginal` | js/main.js:508-545 | with no radio checked the link is `https://example.com/cart/single-original` |
| `CartUrl.NoPlanIsSinglePlan` | js/main.js:508-517 | with no plan checked the link is the one for a checked `single` plan |
| `CartUrl.SecondDoubleFragranceIgnored` | js/main.js:511-522 | the `fragrance-double2` group never affects the link |
| `CartUrl.SinglePlanReadsOnlyFragrance` | js/main.js:514-517 | under the single plan, two selections agreeing on `fragrance` give the same link |
| `CartUrl.DoublePlanReadsOnlyFirstChoice` | js/main.js:518-521 | under the double plan, two selections agreeing on `fragrance-double1` give the same link |
| `CartUrl.OtherPlanIgnoresFragrance` | js/main.js:512-545 | any other plan reads no fragrance: `triple` gives `triple-original`, an unknown plan the fallback |
| `Gallery.NonEmptySources` | js/main.js:289-292 | a value is among the images iff it is a non-empty source; each non-empty source occurs among the images as often as among the sources, the empty one never; no more images than thumbnails |
| `Gallery.NonEmptySourcesAppend` | js/main.js:289-292 | the filter keeps order: filtering a concatenation gives the concatenation of the filtered parts |
| `Gallery.CeilDiv` | js/main.js:335 | `Math.ceil(a / b)`: the least multiplier whose multiple of `b` reaches `a` |
| `Gallery.WrapIndex` | js/main.js:305-312 | the settled index is in range; an in-range index is kept, one past the end becomes 0, a negative one becomes the last |
| `Gallery.ImagesPerDot` | js/main.js:335 | at least one image per dot; the least count with which the dots together cover every image |
| `Gallery.DotIndex` | js/main.js:335-336 | the active dot is always one of the dots, and its group of images holds the current image |
| `Gallery.DotTarget` | js/main.js:362-363 | the index a dot click asks for is the first image of that dot's own group |
| `Gallery.DotClickLandsOn` | js/main.js:356-365 | clicking dot j lights dot j when its first image exists, and dot 0 (image 0) otherwise: the wrap is not modular |
| `Gallery.NextThenPrev` | js/main.js:370-382 | "next" then "previous" returns to the same image, from the last image too |
| `Gallery.PrevThenNext` | js/main.js:370-382 | "previous" then "next" returns to the same image, from the first image too |
| `Gallery.OneThumbnailActive` | js/main.js:326-330 | after an update exactly one thumbnail is active |
| `Gallery.OneDotActive` | js/main.js:333-341 | after an update on a page with dots exactly one dot is active |
| `Gallery.ImageGallery.constructor` | js/main.js:289-297 | the gallery starts at image 0 over the non-empty sources |
| `Gallery.ImageGallery.Init` | js/main.js:279-297 | no gallery without the main image, without thumbnails or without any image source; otherwise one at image 0 |
| `Gallery.ImageGallery.UpdateGallery` | js/main.js:304-343 | the new index is the wrapped one; thumbnail i is active iff i is the index; dot j is active iff j is the dot standing for the index |
| `Gallery.ImageGallery.ClickThumbnail` | js/main.js:346-353 | a thumbnail click settles on that thumbnail's wrapped position |
| `Gallery.ImageGallery.ClickDot` | js/main.js:356-367 | a dot click settles on the wrapped first image of the dot's group |
| `Gallery.ImageGallery.Prev` | js/main.js:370-375 | "previous" moves back one image, from the first to the last |
| `Gallery.ImageGallery.Next` | js/main.js:377-382 | "next" moves on one image, from the last to the first |
| `Gallery.ImageGallery.KeyDown` | js/main.js:385-396 | the arrow keys move like the arrows while the image is in view, and the thumbnail and dot flags are marked for the new image; otherwise nothing changes |
| `Accordion.ActiveAfterClick` | js/main.js:683-698 | the click keeps the number of items |
| `Accordion.AriaAfterClick` | js/main.js:685-698 | the click keeps the number of headers |
| `Accordion.ClickLeavesAtMostOne` | js/main.js:683-698 | after any header click at most one item is active |
| `Accordion.ClickOpensClosedItem` | js/main.js:694-698 | clicking an inactive item makes it the unique active one |
| `Accordion.ClickClosesOpenItem` | js/main.js:683-692 | clicking the active item leaves none active |
| `Accordion.ClickTwiceCloses` | js/main.js:682-698 | clicking a closed header twice leaves none active |
| `Accordion.AriaMirrorsActive` | js/main.js:688-697 | each header's `aria-expanded` is `"true"` exactly for the active item and `"false"` otherwise |
| `Accordion.AccordionList.constructor` | js/main.js:674-681 | the list starts from the page's flags and attributes |
| `Accordion.AccordionList.ClickHeader` | js/main.js:682-699 | the loop leaves exactly the flags and attributes of `ActiveAfterClick` and `AriaAfterClick` |
| `NavMenu.Menu.constructor` | js/main.js:34-38 | the menu starts from the page's four flags |
| `NavMenu.Menu.Open` | js/main.js:40-45 | opening sets all four flags |
| `NavMenu.Menu.Close` | js/main.js:47-52 | closing clears all four flags |
| `NavMenu.Menu.ClickHamburger` | js/main.js:55-61 | the hamburger flips the menu and leaves the four flags in lockstep |
| `NavMenu.Menu.KeyDown` | js/main.js:83-87 | Escape closes an open menu; anything else changes nothing |
| `Dropdown.ClosedExcept` | js/main.js:112-120 | closing keeps the number of items |
| `Dropdown.AfterLinkClick` | js/main.js:109-129 | a link click keeps the number of items |
| `Dropdown.LinkClickClosesOthers` | js/main.js:111-129 | after a click on link k every other item with a menu is inactive, k is flipped, and items without a menu are untouched |
| `Dropdown.LinkClickLeavesAtMostOne` | js/main.js:109-129 | after a link click at most one dropdown is active |
| `Dropdown.LinkClickEstablishesLockstep` | js/main.js:112-129 | after a link click each item's flag equals its menu's flag |
| `Dropdown.ClosingKeepsLockstep` | js/main.js:164-188 | closing dropdowns keeps item and menu flags equal |
| `Dropdown.Dropdowns.constructor` | js/main.js:94-102 | the dropdowns start from the page's flags |
| `Dropdown.Dropdowns.CloseExcept` | js/main.js:112-120 | the loop leaves exactly the flags of `ClosedExcept` |
| `Dropdown.Dropdowns.ClickLink` | js/main.js:105-130 | the handler leaves exactly the item and menu flags of `AfterLinkClick` |
| `Dropdown.Dropdowns.ClickMenuEntry` | js/main.js:135-152 | an entry click closes an open navigation menu in lockstep and closes this dropdown, nothing else |
| `Dropdown.Dropdowns.ClickDocument` | js/main.js:164-174 | a document click closes every dropdown except the one holding the target |
| `Dropdown.Dropdowns.CloseAll` | js/main.js:180-188 | the resize handler's body closes every dropdown |
| `Subscription.Reconcile` | js/main.js:421-440 | the update never changes a radio, and an option has both a radio and a content block after it iff it had before |
| `Subscription.ReconcileAll` | js/main.js:420-442 | the update keeps the number of options |
| `Subscription.ReconcileMirrorsChecked` | js/main.js:426-440 | a complete option's `collapsed` flag equals its radio's `checked`, and its content is shown iff checked; an option lacking a radio or content is unchanged |
| `Subscription.ReconcileIdempotent` | js/main.js:445-455 | running the update twice gives the same options as running it once |
| `Subscription.SelectedOptionIsTheOnlyExpanded` | js/main.js:420-441 | with one checked radio among exclusive radios, that option is the only one carrying `collapsed` |
| `Subscription.NothingCheckedCollapsesAll` | js/main.js:433-438 | with no radio checked, every complete option loses `collapsed` and hides its content |
| `Subscription.SubscriptionToggle.constructor` | js/main.js:413-445 | the options are brought in line once at start-up when the page has a subscription radio, and left alone otherwise |
| `Subscription.SubscriptionToggle.UpdateCollapsedClass` | js/main.js:420-442 | the loop leaves exactly the options of `ReconcileAll` |

## Left out

- Stats counter animation (js/main.js:555-639) is not modelled: it needs floating-point easing, wall-clock timing, `requestAnimationFrame` and `IntersectionObserver`.
- Search popup (`initSearchPopup`, js/main.js:195-274) is not modelled: it is flag toggling with focus, blur and `body.style.overflow` side effects.
- Smooth anchor scrolling (js/main.js:644-668), the header scroll effect (js/main.js:707-722) and `isElementInViewport` (js/main.js:400-408) depend on browser layout. The in-view test reaches `Gallery.ImageGallery.KeyDown` as a parameter.
- Timers are left out; only the synchronous update is modelled:
  - the delayed re-runs of `updateCollapsedClass` (js/main.js:448-455), which `ReconcileIdempotent` shows are harmless;
  - the resize debounce (js/main.js:177-189), whose callback body is `CloseAll`;
  - the gallery's main-image fade, `src` and `opacity` writes (js/main.js:300-302, 315-323);
  - the search focus delay.
- Event-listener registration is left out: start-up (js/main.js:6-20), `pageshow` re-initialisation (js/main.js:23-28), the change listeners (js/main.js:457-473, 485-500) and the menu's `stopPropagation` (js/main.js:156-160). Each listener's body is modelled as its own operation; which element a click reaches is a parameter (`ClickDocument`'s `inside`).
- `console.log` (js/main.js:549) and the CSS keyframe injection (js/main.js:727-742) are left out.
- NavMenu.Menu.Open: the hamburger, navigation and overlay elements are taken to be present. In the code, opening with one of them missing would throw.
- Subscription.SelectedOptionIsTheOnlyExpanded: two facts are preconditions here. Radio exclusivity belongs to the browser, not the script. No option lacking a radio or a content block may already carry `collapsed`, because the update never touches such an option.
- Dropdown.LinkClickLeavesAtMostOne: assumes no item without a menu starts active. No handler ever changes such an item, so the code cannot close it either.
