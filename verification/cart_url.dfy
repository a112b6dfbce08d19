/**
  The dynamic "add to cart" link (`updateCartUrl`, js/main.js:503-550).

  The page is replaced by a snapshot of the radio groups the function reads: for
  each group, the value of its checked input if one is checked. The function
  derives a plan and a plan-dependent fragrance, builds the key
  "{plan}-{fragrance}", looks it up in a fixed nine-entry table and falls back
  to the `single-original` entry.
*/
module CartUrl {
  import opened Wrappers

  /** The checked value of each radio group the cart link depends on. */
  datatype Selection = Selection(
    subscription: Option<string>,      // input[name="subscription"]
    fragrance: Option<string>,         // input[name="fragrance"], the single plan's fragrance
    fragranceDouble1: Option<string>,  // input[name="fragrance-double1"], the double plan's first fragrance
    fragranceDouble2: Option<string>)  // input[name="fragrance-double2"], listened to but never read

  const DefaultPlan := "single"
  const DefaultFragrance := "original"
  const FallbackKey := "single-original"
  const CartBase := "https://example.com/cart/"

  /** The plans and fragrances the table covers. */
  const Plans: set<string> := {"single", "double", "triple"}
  const Fragrances: set<string> := {"original", "lily", "rose"}

  /** The cart links, one per plan and fragrance. */
  const CartUrls: map<string, string> := map[
    "single-original" := "https://example.com/cart/single-original",
    "single-lily" := "https://example.com/cart/single-lily",
    "single-rose" := "https://example.com/cart/single-rose",
    "double-original" := "https://example.com/cart/double-original",
    "double-lily" := "https://example.com/cart/double-lily",
    "double-rose" := "https://example.com/cart/double-rose",
    "triple-original" := "https://example.com/cart/triple-original",
    "triple-lily" := "https://example.com/cart/triple-lily",
    "triple-rose" := "https://example.com/cart/triple-rose"
  ]

  /** The purchase plan: the checked subscription value, `single` when none is checked. */
  function Plan(s: Selection): (plan: string)
    ensures plan == DefaultPlan || s.subscription == Some(plan)
    ensures s.subscription.Some? ==> plan == s.subscription.value
    ensures s.subscription.None? ==> plan == DefaultPlan
  {
    s.subscription.GetOr(DefaultPlan)
  }

  /**
    The fragrance: the single plan reads the `fragrance` group, the double plan
    the `fragrance-double1` group, and any other plan reads nothing; a group
    without a checked input gives `original`.
  */
  function FragranceOf(s: Selection): (fragrance: string)
    ensures fragrance == DefaultFragrance
         || (Plan(s) == "single" && s.fragrance == Some(fragrance))
         || (Plan(s) == "double" && s.fragranceDouble1 == Some(fragrance))
    ensures Plan(s) != "single" && Plan(s) != "double" ==> fragrance == DefaultFragrance
    ensures Plan(s) == "single" && s.fragrance.Some? ==> fragrance == s.fragrance.value
    ensures Plan(s) == "double" && s.fragranceDouble1.Some? ==> fragrance == s.fragranceDouble1.value
  {
    var plan := Plan(s);
    if plan == "single" then s.fragrance.GetOr(DefaultFragrance)
    else if plan == "double" then s.fragranceDouble1.GetOr(DefaultFragrance)
    else DefaultFragrance
  }

  /** The lookup key "{plan}-{fragrance}": the plan, a dash at its end, then the fragrance. */
  function UrlKey(s: Selection): (key: string)
    ensures |key| == |Plan(s)| + 1 + |FragranceOf(s)|
    ensures key[..|Plan(s)|] == Plan(s) && key[|Plan(s)|] == '-' && key[|Plan(s)| + 1..] == FragranceOf(s)
  {
    Plan(s) + "-" + FragranceOf(s)
  }

  /**
    JavaScript's `table[key] || table[FallbackKey]`: an entry that is missing
    or the empty string (both falsy) gives way to the fallback entry; `None`
    stands for `undefined`, when the fallback entry is missing too.
  */
  function Lookup(table: map<string, string>, key: string): (r: Option<string>)
    ensures r.Some? ==> r.value in table.Values
    ensures FallbackKey in table ==> r.Some?
    ensures key in table && table[key] != "" ==> r == Some(table[key])
    ensures (key !in table || table[key] == "") && FallbackKey in table ==> r == Some(table[FallbackKey])
    ensures (key !in table || table[key] == "") && FallbackKey !in table ==> r == None
  {
    if key in table && table[key] != "" then Some(table[key])
    else if FallbackKey in table then Some(table[FallbackKey])
    else None
  }

  /** The link for a selection, read from a given table: the key's own entry, else the fallback entry. */
  function CartHref(s: Selection, table: map<string, string>): (href: Option<string>)
    ensures UrlKey(s) in table && table[UrlKey(s)] != "" ==> href == Some(table[UrlKey(s)])
    ensures (UrlKey(s) !in table || table[UrlKey(s)] == "") && FallbackKey in table ==> href == Some(table[FallbackKey])
    ensures (UrlKey(s) !in table || table[UrlKey(s)] == "") && FallbackKey !in table ==> href == None
  {
    Lookup(table, UrlKey(s))
  }

  /** The link for a selection, read from the page's table: always one of its nine links. */
  function CartUrl(s: Selection): (url: string)
    ensures url in CartUrls.Values
    ensures UrlKey(s) !in CartUrls ==> url == CartUrls[FallbackKey]
    ensures UrlKey(s) in CartUrls ==> url == CartUrls[UrlKey(s)]
  {
    CartHref(s, CartUrls).value
  }

  /**
    `updateCartUrl`: `button` is the `href` of the `#add-to-cart` element, `None`
    when the page has no such element. The result is the element's new `href`;
    without the element nothing is written.
  */
  function UpdateCartUrl(button: Option<string>, s: Selection): (href: Option<string>)
    ensures href.None? <==> button.None?
    ensures href.Some? ==> href.value in CartUrls.Values
    ensures button.Some? ==> href == Some(CartUrl(s))
  {
    if button.None? then None else Some(CartUrl(s))
  }

  /** Every covered plan and fragrance has an entry, and it points at the cart path named by its key. */
  lemma CoveredEntry(p: string, f: string)
    requires p in Plans && f in Fragrances
    ensures p + "-" + f in CartUrls && CartUrls[p + "-" + f] == CartBase + (p + "-" + f)
  {
    if p == "single" { SingleEntries(f); }
    else if p == "double" { DoubleEntries(f); }
    else { TripleEntries(f); }
  }

  /** The three `single` entries point at the cart path named by their key. */
  lemma SingleEntries(f: string)
    requires f in Fragrances
    ensures "single" + "-" + f in CartUrls && CartUrls["single" + "-" + f] == CartBase + ("single" + "-" + f)
  {
    if f == "original" {
      assert "single" + "-" + f == "single-original";
      assert CartBase + "single-original" == CartUrls["single-original"];
    }
    if f == "lily" {
      assert "single" + "-" + f == "single-lily";
      assert CartBase + "single-lily" == CartUrls["single-lily"];
    }
    if f == "rose" {
      assert "single" + "-" + f == "single-rose";
      assert CartBase + "single-rose" == CartUrls["single-rose"];
    }
  }

  /** The three `double` entries point at the cart path named by their key. */
  lemma DoubleEntries(f: string)
    requires f in Fragrances
    ensures "double" + "-" + f in CartUrls && CartUrls["double" + "-" + f] == CartBase + ("double" + "-" + f)
  {
    if f == "original" {
      assert "double" + "-" + f == "double-original";
      assert CartBase + "double-original" == CartUrls["double-original"];
    }
    if f == "lily" {
      assert "double" + "-" + f == "double-lily";
      assert CartBase + "double-lily" == CartUrls["double-lily"];
    }
    if f == "rose" {
      assert "double" + "-" + f == "double-rose";
      assert CartBase + "double-rose" == CartUrls["double-rose"];
    }
  }

  /** The three `triple` entries point at the cart path named by their key. */
  lemma TripleEntries(f: string)
    requires f in Fragrances
    ensures "triple" + "-" + f in CartUrls && CartUrls["triple" + "-" + f] == CartBase + ("triple" + "-" + f)
  {
    if f == "original" {
      assert "triple" + "-" + f == "triple-original";
      assert CartBase + "triple-original" == CartUrls["triple-original"];
    }
    if f == "lily" {
      assert "triple" + "-" + f == "triple-lily";
      assert CartBase + "triple-lily" == CartUrls["triple-lily"];
    }
    if f == "rose" {
      assert "triple" + "-" + f == "triple-rose";
      assert CartBase + "triple-rose" == CartUrls["triple-rose"];
    }
  }

  /**
    A key "p-f" built from arbitrary strings equals a key "P-F" whose parts
    contain no dash only when the parts agree: the first dash of both keys sits
    at the same place.
  */
  lemma KeyPartsUnique(p: string, f: string, pl: string, fr: string)
    requires p + "-" + f == pl + "-" + fr
    requires '-' !in pl && '-' !in fr
    ensures p == pl && f == fr
  {
    var key := p + "-" + f;
    assert key[|p|] == '-';
    if |p| < |pl| {
      assert false;
    } else if |p| > |pl| {
      assert false;
    }
    assert p == key[..|p|] == pl;
    assert f == key[|p| + 1..] == fr;
  }

  /** A key found in the table splits into a covered plan and a covered fragrance. */
  lemma TableKeyParts(p: string, f: string)
    requires p + "-" + f in CartUrls
    ensures p in Plans && f in Fragrances
  {
    var key := p + "-" + f;
    if key == "single-original" { KeyPartsUnique(p, f, "single", "original"); }
    else if key == "single-lily" { KeyPartsUnique(p, f, "single", "lily"); }
    else if key == "single-rose" { KeyPartsUnique(p, f, "single", "rose"); }
    else if key == "double-original" { KeyPartsUnique(p, f, "double", "original"); }
    else if key == "double-lily" { KeyPartsUnique(p, f, "double", "lily"); }
    else if key == "double-rose" { KeyPartsUnique(p, f, "double", "rose"); }
    else if key == "triple-original" { KeyPartsUnique(p, f, "triple", "original"); }
    else if key == "triple-lily" { KeyPartsUnique(p, f, "triple", "lily"); }
    else { KeyPartsUnique(p, f, "triple", "rose"); }
  }

  /** A key is in the table exactly when its plan and fragrance are among the covered ones. */
  lemma KeyInTableIff(p: string, f: string)
    ensures p + "-" + f in CartUrls <==> p in Plans && f in Fragrances
  {
    if p + "-" + f in CartUrls {
      TableKeyParts(p, f);
    } else if p in Plans && f in Fragrances {
      CoveredEntry(p, f);
      assert false;
    }
  }

  /**
    The link is the cart path of the selection's own key when its plan and
    fragrance are covered by the table, and the `single-original` path otherwise.
  */
  lemma CartUrlShape(s: Selection)
    ensures CartUrl(s) == CartBase + (if Plan(s) in Plans && FragranceOf(s) in Fragrances then UrlKey(s) else FallbackKey)
  {
    KeyInTableIff(Plan(s), FragranceOf(s));
    if UrlKey(s) in CartUrls {
      CoveredEntry(Plan(s), FragranceOf(s));
    } else {
      CoveredEntry("single", "original");
      assert "single" + "-" + "original" == FallbackKey;
    }
  }

  /**
    Each of the seven reachable plan and fragrance choices (the single and
    double plans with any fragrance, the triple plan with `original`) reaches
    its own cart path.
  */
  lemma CoveredChoiceReachesItsPath(plan: string, fragrance: string, s: Selection)
    requires plan in Plans && fragrance in Fragrances
    requires s.subscription == Some(plan)
    requires plan == "single" ==> s.fragrance == Some(fragrance)
    requires plan == "double" ==> s.fragranceDouble1 == Some(fragrance)
    requires plan == "triple" ==> fragrance == "original"
    ensures CartUrl(s) == CartBase + plan + "-" + fragrance
  {
    CartUrlShape(s);
  }

  /** With nothing checked the link is the `single-original` one. */
  lemma NothingCheckedGivesSingleOriginal()
    ensures CartUrl(Selection(None, None, None, None)) == "https://example.com/cart/single-original"
  {
    var s := Selection(None, None, None, None);
    assert UrlKey(s) == "single" + "-" + "original" == "single-original";
  }

  /** With no plan checked the single plan's fragrance group decides, as if `single` were checked. */
  lemma NoPlanIsSinglePlan(s: Selection)
    requires s.subscription.None?
    ensures CartUrl(s) == CartUrl(s.(subscription := Some("single")))
  {
  }

  /** The second fragrance slot of the double plan never affects the link. */
  lemma SecondDoubleFragranceIgnored(s: Selection, other: Option<string>)
    ensures CartUrl(s.(fragranceDouble2 := other)) == CartUrl(s)
  {
  }

  /** Under the single plan only the `fragrance` group is read. */
  lemma SinglePlanReadsOnlyFragrance(s: Selection, t: Selection)
    requires Plan(s) == "single" && Plan(t) == "single"
    requires s.fragrance == t.fragrance
    ensures CartUrl(s) == CartUrl(t)
  {
  }

  /** Under the double plan only the `fragrance-double1` group is read. */
  lemma DoublePlanReadsOnlyFirstChoice(s: Selection, t: Selection)
    requires Plan(s) == "double" && Plan(t) == "double"
    requires s.fragranceDouble1 == t.fragranceDouble1
    ensures CartUrl(s) == CartUrl(t)
  {
  }

  /**
    Any other plan reads no fragrance group: `triple` gives the
    `triple-original` link and an unknown plan the fallback, whatever is checked.
  */
  lemma OtherPlanIgnoresFragrance(s: Selection)
    requires Plan(s) != "single" && Plan(s) != "double"
    ensures CartUrl(s) == CartBase + (if Plan(s) == "triple" then "triple-original" else FallbackKey)
  {
    CartUrlShape(s);
  }

  /** A plan whose fragrance group has nothing checked gets the `original` fragrance. */
  lemma NoFragranceCheckedGivesOriginal(s: Selection)
    ensures s.subscription == Some("single") && s.fragrance.None? ==>
              CartUrl(s) == "https://example.com/cart/single-original"
    ensures s.subscription == Some("double") && s.fragranceDouble1.None? ==>
              CartUrl(s) == "https://example.com/cart/double-original"
  {
    if s.subscription == Some("single") && s.fragrance.None? {
      assert UrlKey(s) == "single" + "-" + "original" == "single-original";
    }
    if s.subscription == Some("double") && s.fragranceDouble1.None? {
      assert UrlKey(s) == "double" + "-" + "original" == "double-original";
    }
  }

  /**
    The `triple-lily` and `triple-rose` entries are never the link: the triple
    plan reads no fragrance group, so its fragrance is always `original`.
  */
  lemma TripleLilyAndRoseUnreachable(s: Selection)
    ensures CartUrl(s) != CartUrls["triple-lily"]
    ensures CartUrl(s) != CartUrls["triple-rose"]
  {
    CartUrlShape(s);
    TripleEntries("lily");
    TripleEntries("rose");
    var key := if Plan(s) in Plans && FragranceOf(s) in Fragrances then UrlKey(s) else FallbackKey;
    assert CartUrl(s) == CartBase + key;
    if CartUrl(s) == CartUrls["triple-lily"] {
      assert key == (CartBase + key)[|CartBase|..] == (CartBase + "triple-lily")[|CartBase|..] == "triple-lily";
      KeyPartsUnique(Plan(s), FragranceOf(s), "triple", "lily");
      assert false;
    }
    if CartUrl(s) == CartUrls["triple-rose"] {
      assert key == (CartBase + key)[|CartBase|..] == (CartBase + "triple-rose")[|CartBase|..] == "triple-rose";
      KeyPartsUnique(Plan(s), FragranceOf(s), "triple", "rose");
      assert false;
    }
  }
}
