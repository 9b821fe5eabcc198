/**
 * The navigation bar (script.js, `initNavigation`, the menu-closing part of
 * `initSmoothScrolling` and of the Escape key handler): the `active` flags of
 * the hamburger button and of the menu, the navbar's scrolled style, and the
 * `active` class of the navigation links, which follows the section the page
 * has scrolled to. Scroll positions and section offsets are whole pixels.
 */
module Navigation {
  import opened Wrappers

  /** A `<section>` at the time of the scroll event: its `id` attribute, `null` when it has none, and its `offsetTop`. */
  datatype Section = Section(id: Option<string>, top: int)

  /** The navbar takes its scrolled style once the page is more than 100 pixels down. */
  const ScrolledThreshold := 100
  /** A section counts as reached 200 pixels before its top arrives at the top of the window. */
  const ReachOffset := 200

  predicate Reached(s: Section, scrollY: int)
  {
    scrollY >= s.top - ReachOffset
  }

  /**
   * The value of `current` after the scroll handler's loop over `sections`:
   * the id of the last reached section, and `''` when none is reached.
   * Written from the back: the last section decides if it is reached.
   */
  function ActiveSection(sections: seq<Section>, scrollY: int): (current: Option<string>)
  {
    if sections == [] then Some("")
    else if Reached(sections[|sections| - 1], scrollY) then sections[|sections| - 1].id
    else ActiveSection(sections[..|sections| - 1], scrollY)
  }

  /**
   * The loop picks the last section that is reached: with none reached it
   * keeps `''`, otherwise it yields the id (possibly `null`) of the reached
   * section that no later section follows as reached.
   */
  lemma {:induction false} ActiveSectionIsLastReached(sections: seq<Section>, scrollY: int)
    ensures (forall k :: 0 <= k < |sections| ==> !Reached(sections[k], scrollY)) ==>
      ActiveSection(sections, scrollY) == Some("")
    ensures forall k ::
      (0 <= k < |sections| && Reached(sections[k], scrollY) &&
       (forall m :: k < m < |sections| ==> !Reached(sections[m], scrollY))) ==>
      ActiveSection(sections, scrollY) == sections[k].id
  {
    if sections != [] {
      var last := |sections| - 1;
      var init := sections[..last];
      ActiveSectionIsLastReached(init, scrollY);
      assert forall k :: 0 <= k < |init| ==> init[k] == sections[k];
      if !Reached(sections[last], scrollY) {
        forall k | 0 <= k < |sections| && Reached(sections[k], scrollY) &&
            (forall m :: k < m < |sections| ==> !Reached(sections[m], scrollY))
          ensures ActiveSection(sections, scrollY) == sections[k].id
        {
          assert k < last;
          assert forall m :: k < m < |init| ==> !Reached(init[m], scrollY);
        }
      }
    }
  }

  /**
   * With the sections in page order (offsets not decreasing), the reached
   * sections are the leading ones, so the active one is the section whose
   * successor is not yet reached.
   */
  lemma ActiveSectionInOrderedPage(sections: seq<Section>, scrollY: int, k: nat)
    requires forall a, b :: 0 <= a < b < |sections| ==> sections[a].top <= sections[b].top
    requires k < |sections| && Reached(sections[k], scrollY)
    requires k + 1 < |sections| ==> !Reached(sections[k + 1], scrollY)
    ensures ActiveSection(sections, scrollY) == sections[k].id
  {
    ActiveSectionIsLastReached(sections, scrollY);
    assert forall m :: k < m < |sections| ==> !Reached(sections[m], scrollY) by {
      forall m | k < m < |sections|
        ensures !Reached(sections[m], scrollY)
      {
        assert sections[k + 1].top <= sections[m].top;
      }
    }
  }

  /** The template literal `#${current}`: a `null` id prints as "null". */
  function Anchor(current: Option<string>): (r: string)
    ensures |r| >= 1 && r[0] == '#'
    ensures current.Some? ==> r[1..] == current.value
    ensures current.None? ==> r[1..] == "null"
  {
    "#" + (if current.None? then "null" else current.value)
  }

  /** A link whose `href` attribute is `href` gets the `active` class for the section `current`. */
  predicate LinkMatches(href: Option<string>, current: Option<string>)
  {
    href == Some(Anchor(current))
  }

  /** Distinct `href`s: at most one link is active after a scroll event. */
  lemma AtMostOneActiveLink(hrefs: seq<Option<string>>, current: Option<string>, a: nat, b: nat)
    requires forall i, j :: 0 <= i < j < |hrefs| ==> hrefs[i] != hrefs[j]
    requires a < b < |hrefs|
    ensures !(LinkMatches(hrefs[a], current) && LinkMatches(hrefs[b], current))
  {
  }

  /** Every link whose `href` is the anchor of the active section is active, and only those. */
  lemma {:induction false} LinkOfActiveSection(hrefs: seq<Option<string>>, sections: seq<Section>, scrollY: int, k: nat)
    requires k < |sections| && Reached(sections[k], scrollY) && sections[k].id.Some?
    requires forall m :: k < m < |sections| ==> !Reached(sections[m], scrollY)
    ensures forall i :: 0 <= i < |hrefs| ==>
      (LinkMatches(hrefs[i], ActiveSection(sections, scrollY)) <==> hrefs[i] == Some("#" + sections[k].id.value))
  {
    ActiveSectionIsLastReached(sections, scrollY);
  }

  /** A reached section without an id, with no reached section after it, makes `current` null and the anchor "#null". */
  lemma SectionWithoutIdGivesNullAnchor(sections: seq<Section>, scrollY: int)
    requires sections != [] && sections[|sections| - 1].id.None? && Reached(sections[|sections| - 1], scrollY)
    ensures Anchor(ActiveSection(sections, scrollY)) == "#null"
  {
    ActiveSectionIsLastReached(sections, scrollY);
  }

  /** Above every section's reach the anchor is the bare "#". */
  lemma NoSectionReachedGivesBareAnchor(sections: seq<Section>, scrollY: int)
    requires forall k :: 0 <= k < |sections| ==> scrollY < sections[k].top - ReachOffset
    ensures Anchor(ActiveSection(sections, scrollY)) == "#"
  {
    ActiveSectionIsLastReached(sections, scrollY);
  }

  /** Three sections at 0, 500 and 1200: at 700 pixels the second one is active, at 1000 the third. */
  lemma ActiveSectionExample()
    ensures ActiveSection([Section(Some("home"), 0), Section(Some("about"), 500), Section(Some("contact"), 1200)], 700)
      == Some("about")
    ensures ActiveSection([Section(Some("home"), 0), Section(Some("about"), 500), Section(Some("contact"), 1200)], 1000)
      == Some("contact")
  {
    var s := [Section(Some("home"), 0), Section(Some("about"), 500), Section(Some("contact"), 1200)];
    ActiveSectionIsLastReached(s, 700);
    ActiveSectionIsLastReached(s, 1000);
    assert Reached(s[1], 700) && !Reached(s[2], 700);
    assert Reached(s[2], 1000);
  }

  class NavBar {
    /** The `active` class of `.hamburger` and of `.nav-menu`. */
    var hamburgerActive: bool
    var menuActive: bool
    /** Whether the navbar shows its scrolled background and shadow. */
    var scrolled: bool
    /** The `href` attribute of each `.nav-link`, in document order, and its `active` class. */
    const hrefs: seq<Option<string>>
    var linkActive: seq<bool>

    /** Each link has its flag; the two menu flags are toggled and cleared only together. */
    ghost predicate Valid()
      reads this
    {
      |linkActive| == |hrefs| && hamburgerActive == menuActive
    }

    /** The page loads with the menu closed, the navbar unscrolled and no link active. */
    constructor (linkHrefs: seq<Option<string>>)
      ensures Valid()
      ensures hrefs == linkHrefs && !hamburgerActive && !menuActive && !scrolled
      ensures forall i :: 0 <= i < |linkActive| ==> !linkActive[i]
    {
      hrefs := linkHrefs;
      hamburgerActive := false;
      menuActive := false;
      scrolled := false;
      linkActive := seq(|linkHrefs|, _ => false);
    }

    /** The hamburger's click handler toggles both classes. */
    method ToggleMenu()
      requires Valid()
      modifies this
      ensures Valid()
      ensures menuActive == !old(menuActive) && hamburgerActive == menuActive
      ensures scrolled == old(scrolled) && linkActive == old(linkActive)
    {
      hamburgerActive := !hamburgerActive;
      menuActive := !menuActive;
    }

    /** The click handler of every `.nav-link` removes both classes. */
    method NavLinkClicked()
      requires Valid()
      modifies this
      ensures Valid()
      ensures !hamburgerActive && !menuActive
      ensures scrolled == old(scrolled) && linkActive == old(linkActive)
    {
      hamburgerActive := false;
      menuActive := false;
    }

    /**
     * The smooth-scrolling click handler of an `a[href^="#"]` link: when the
     * target section exists and the menu is open, both classes are removed;
     * a missing target leaves the menu as it is.
     */
    method AnchorClicked(targetExists: bool)
      requires Valid()
      modifies this
      ensures Valid()
      ensures menuActive == (old(menuActive) && !targetExists)
      ensures scrolled == old(scrolled) && linkActive == old(linkActive)
    {
      if targetExists {
        if menuActive {
          menuActive := false;
          hamburgerActive := false;
        }
      }
    }

    /** The Escape key: when the hamburger is active, both classes are removed. */
    method EscapePressed()
      requires Valid()
      modifies this
      ensures Valid()
      ensures !hamburgerActive && !menuActive
      ensures scrolled == old(scrolled) && linkActive == old(linkActive)
    {
      if hamburgerActive {
        hamburgerActive := false;
        menuActive := false;
      }
    }

    /** The first scroll listener: the scrolled style exactly when `scrollY > 100`. */
    method UpdateNavbar(scrollY: int)
      requires Valid()
      modifies this
      ensures Valid()
      ensures scrolled <==> scrollY > ScrolledThreshold
      ensures hamburgerActive == old(hamburgerActive) && menuActive == old(menuActive)
      ensures linkActive == old(linkActive)
    {
      if scrollY > ScrolledThreshold {
        scrolled := true;
      } else {
        scrolled := false;
      }
    }

    /**
     * The second scroll listener: finds the last reached section, then
     * removes `active` from every link and adds it back to the links whose
     * `href` is that section's anchor.
     */
    method UpdateActiveLink(sections: seq<Section>, scrollY: int) returns (current: Option<string>)
      requires Valid()
      modifies this
      ensures Valid()
      ensures current == ActiveSection(sections, scrollY)
      ensures forall i :: 0 <= i < |linkActive| ==> (linkActive[i] <==> LinkMatches(hrefs[i], current))
      ensures hamburgerActive == old(hamburgerActive) && menuActive == old(menuActive)
      ensures scrolled == old(scrolled)
    {
      current := Some("");
      var i := 0;
      while i < |sections|
        invariant 0 <= i <= |sections|
        invariant current == ActiveSection(sections[..i], scrollY)
      {
        assert sections[..i + 1][..i] == sections[..i];
        if scrollY >= sections[i].top - ReachOffset {
          current := sections[i].id;
        }
        i := i + 1;
      }
      assert sections[..|sections|] == sections;

      var j := 0;
      while j < |hrefs|
        invariant 0 <= j <= |hrefs| && |linkActive| == |hrefs|
        invariant forall k :: 0 <= k < j ==> (linkActive[k] <==> LinkMatches(hrefs[k], current))
        invariant hamburgerActive == old(hamburgerActive) && menuActive == old(menuActive)
        invariant scrolled == old(scrolled)
      {
        linkActive := linkActive[j := false];
        if hrefs[j] == Some("#" + (if current.None? then "null" else current.value)) {
          linkActive := linkActive[j := true];
        }
        j := j + 1;
      }
    }

    /** A scroll event runs both listeners, in the order they were added. */
    method Scroll(sections: seq<Section>, scrollY: int)
      requires Valid()
      modifies this
      ensures Valid()
      ensures scrolled <==> scrollY > ScrolledThreshold
      ensures forall i :: 0 <= i < |linkActive| ==>
        (linkActive[i] <==> LinkMatches(hrefs[i], ActiveSection(sections, scrollY)))
      ensures hamburgerActive == old(hamburgerActive) && menuActive == old(menuActive)
    {
      UpdateNavbar(scrollY);
      var _ := UpdateActiveLink(sections, scrollY);
    }
  }
}
