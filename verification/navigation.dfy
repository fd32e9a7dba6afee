/**
 * Navigation in script.js: the header style chosen on scroll, the highlighting of
 * the navigation link of the section in view, and the mobile menu.
 *
 * Scroll offsets and section geometry are integers (the browser supplies them).
 */
module Navigation {
  import opened Wrappers

  // ---------------------------------------------------------------------------
  // Header style (handleScroll)
  // ---------------------------------------------------------------------------

  /** Elevated: translucent background with blur. Flat: opaque white, no filter. */
  datatype HeaderStyle = Elevated | Flat

  function HeaderStyleAt(scrollY: int): HeaderStyle {
    if scrollY >= 50 then Elevated else Flat
  }

  /** The header is elevated exactly from offset 50 on, the boundary included. */
  lemma HeaderThreshold(scrollY: int)
    ensures HeaderStyleAt(scrollY) == Elevated <==> scrollY >= 50
    ensures HeaderStyleAt(scrollY) == Flat <==> scrollY < 50
  {
  }

  /** Scrolling further down never flattens an elevated header. */
  lemma HeaderMonotone(y1: int, y2: int)
    requires y1 <= y2 && HeaderStyleAt(y1) == Elevated
    ensures HeaderStyleAt(y2) == Elevated
  {
  }

  lemma HeaderExamples()
    ensures HeaderStyleAt(40) == Flat && HeaderStyleAt(60) == Elevated && HeaderStyleAt(50) == Elevated
  {
  }

  // ---------------------------------------------------------------------------
  // Active link (setActiveLink)
  // ---------------------------------------------------------------------------

  /** A `section[id]` element: its id, offsetTop and offsetHeight. */
  datatype Section = Section(id: string, top: int, height: int)

  /** A section is the current one when top - 100 < scrollY <= top - 100 + height. */
  predicate InBand(s: Section, scrollY: int) {
    s.top - 100 < scrollY <= s.top - 100 + s.height
  }

  /** The index of the last section whose band holds `scrollY`, if any. */
  function LastMatch(sections: seq<Section>, scrollY: int): (r: Option<nat>)
    ensures r.Some? ==> r.value < |sections| && InBand(sections[r.value], scrollY)
    ensures r.Some? ==> forall k | r.value < k < |sections| :: !InBand(sections[k], scrollY)
    ensures r.None? ==> forall k | 0 <= k < |sections| :: !InBand(sections[k], scrollY)
  {
    if sections == [] then None
    else if InBand(sections[|sections| - 1], scrollY) then Some(|sections| - 1)
    else LastMatch(sections[..|sections| - 1], scrollY)
  }

  /**
   * `document.querySelector('.nav__link[href="<target>"]')`: the first link, in
   * document order, whose href is `target`.
   */
  function FirstLink(hrefs: seq<string>, target: string): (r: Option<nat>)
    ensures r.Some? ==> r.value < |hrefs| && hrefs[r.value] == target
    ensures r.Some? ==> forall k | 0 <= k < r.value :: hrefs[k] != target
    ensures r.None? ==> forall k | 0 <= k < |hrefs| :: hrefs[k] != target
  {
    if hrefs == [] then None
    else if hrefs[0] == target then Some(0)
    else match FirstLink(hrefs[1..], target)
      case None => None
      case Some(k) => Some(k + 1)
  }

  /** The flags of `n` links of which only `link` (if any) is active. */
  function Highlight(n: nat, link: Option<nat>): seq<bool> {
    seq(n, k => link == Some(k))
  }

  /**
   * The `active-link` flags after setActiveLink: unchanged when no section is in band;
   * otherwise only the first link to the last section in band is active.
   */
  function ActiveAfter(hrefs: seq<string>, flags: seq<bool>, sections: seq<Section>, scrollY: int): seq<bool> {
    match LastMatch(sections, scrollY)
    case None => flags
    case Some(m) => Highlight(|flags|, FirstLink(hrefs, "#" + sections[m].id))
  }

  /** No link is active more than once: at most one flag is set. */
  predicate AtMostOne(flags: seq<bool>) {
    forall a, b | 0 <= a < |flags| && 0 <= b < |flags| && flags[a] && flags[b] :: a == b
  }

  /**
   * When section `m` is in band and no later one is, the active links afterwards are
   * exactly the first link whose href is "#" + that section's id (none if no link
   * has it).
   */
  lemma ActiveIsLastMatch(hrefs: seq<string>, flags: seq<bool>, sections: seq<Section>, scrollY: int, m: nat)
    requires |flags| == |hrefs|
    requires m < |sections| && InBand(sections[m], scrollY)
    requires forall k | m < k < |sections| :: !InBand(sections[k], scrollY)
    ensures |ActiveAfter(hrefs, flags, sections, scrollY)| == |hrefs|
    ensures forall k | 0 <= k < |hrefs| ::
      ActiveAfter(hrefs, flags, sections, scrollY)[k] <==>
        hrefs[k] == "#" + sections[m].id && forall j | 0 <= j < k :: hrefs[j] != "#" + sections[m].id
  {
  }

  /** With no section in band, setActiveLink leaves every link as it was. */
  lemma NoMatchUnchanged(hrefs: seq<string>, flags: seq<bool>, sections: seq<Section>, scrollY: int)
    requires forall k | 0 <= k < |sections| :: !InBand(sections[k], scrollY)
    ensures ActiveAfter(hrefs, flags, sections, scrollY) == flags
  {
  }

  /** A scroll evaluation never leaves two links active that were not active before. */
  lemma ActiveAfterAtMostOne(hrefs: seq<string>, flags: seq<bool>, sections: seq<Section>, scrollY: int)
    requires AtMostOne(flags) || LastMatch(sections, scrollY).Some?
    ensures AtMostOne(ActiveAfter(hrefs, flags, sections, scrollY))
  {
  }

  /** Re-evaluating at the same offset changes nothing. */
  lemma ActiveAfterIdempotent(hrefs: seq<string>, flags: seq<bool>, sections: seq<Section>, scrollY: int)
    ensures var once := ActiveAfter(hrefs, flags, sections, scrollY);
      ActiveAfter(hrefs, once, sections, scrollY) == once
  {
  }

  /**
   * Overlapping bands: at offset 150, a section at top 200 of height 200 and a
   * section at top 240 of height 100 are both in band, and the later one's link wins.
   */
  lemma LastMatchWins()
    ensures ActiveAfter(["#about", "#projects"], [false, false],
                        [Section("about", 200, 200), Section("projects", 240, 100)], 150)
            == [false, true]
  {
    var sections := [Section("about", 200, 200), Section("projects", 240, 100)];
    assert InBand(sections[0], 150) && InBand(sections[1], 150);
    assert LastMatch(sections, 150) == Some(1);
    assert FirstLink(["#about", "#projects"], "#projects") == Some(1);
  }

  // ---------------------------------------------------------------------------
  // Mobile menu (showMenu, hideMenu)
  // ---------------------------------------------------------------------------

  /** `document.body.style.overflow`: never set (''), 'hidden' or 'auto'. */
  datatype Overflow = Unset | Hidden | Auto

  /** Where keyboard focus is: on the `nav-toggle` control or elsewhere. */
  datatype Focus = OnToggle | Elsewhere

  /** Whether `nav-menu` carries `show-menu`, the body's overflow style, and the focus. */
  datatype MenuState = MenuState(shown: bool, overflow: Overflow, focus: Focus)

  const InitialMenu: MenuState := MenuState(false, Unset, Elsewhere)

  /** Background scrolling is suspended exactly while the body's overflow is 'hidden'. */
  predicate ScrollLocked(s: MenuState) {
    s.overflow == Hidden
  }

  /** The menu is open exactly while background scrolling is suspended. */
  predicate LockFollowsMenu(s: MenuState) {
    s.shown <==> ScrollLocked(s)
  }

  function AfterShowMenu(s: MenuState): MenuState {
    s.(shown := true, overflow := Hidden)
  }

  function AfterHideMenu(s: MenuState): MenuState {
    s.(shown := false, overflow := Auto)
  }

  /** Opening the menu shows it and locks scrolling; focus does not move. */
  lemma ShowMenuLocks(s: MenuState)
    ensures AfterShowMenu(s).shown && ScrollLocked(AfterShowMenu(s)) && AfterShowMenu(s).focus == s.focus
  {
  }

  /** Closing hides the menu and restores scrolling, and closing twice is closing once. */
  lemma HideMenuReleases(s: MenuState)
    ensures !AfterHideMenu(s).shown && !ScrollLocked(AfterHideMenu(s)) && AfterHideMenu(s).focus == s.focus
    ensures AfterHideMenu(AfterHideMenu(s)) == AfterHideMenu(s)
  {
  }

  /**
   * Opening then closing leaves scrolling enabled through 'auto', whatever the
   * overflow style was before: the original value itself is not restored.
   */
  lemma ShowThenHide(s: MenuState)
    ensures AfterHideMenu(AfterShowMenu(s)).overflow == Auto && !AfterHideMenu(AfterShowMenu(s)).shown
  {
  }

  lemma MenuTransitionsKeepLock(s: MenuState)
    ensures LockFollowsMenu(AfterShowMenu(s)) && LockFollowsMenu(AfterHideMenu(s))
    ensures LockFollowsMenu(InitialMenu)
  {
  }

  /** The state `showMenu`, `hideMenu` and the Escape handler act on. */
  class Menu {
    var shown: bool
    var overflow: Overflow
    var focus: Focus

    function State(): MenuState
      reads this
    {
      MenuState(shown, overflow, focus)
    }

    constructor ()
      ensures State() == InitialMenu
    {
      shown, overflow, focus := false, Unset, Elsewhere;
    }
  }

  // ---------------------------------------------------------------------------
  // The Navigation object
  // ---------------------------------------------------------------------------

  class Navigation {
    /** The href of each `.nav__link`, in document order. */
    const hrefs: seq<string>
    /** Whether each link carries `active-link`. */
    const active: array<bool>
    const menu: Menu

    ghost predicate Valid()
      reads this
    {
      active.Length == |hrefs|
    }

    /**
     * `new Navigation()`: look up the links, then `init()`, which runs setActiveLink
     * once at the current offset (its handleScroll call is HeaderStyleAt).
     */
    constructor (hrefs: seq<string>, initiallyActive: seq<bool>, menu: Menu,
                 sections: seq<Section>, scrollY: int)
      requires |initiallyActive| == |hrefs|
      ensures Valid() && fresh(active)
      ensures this.hrefs == hrefs && this.menu == menu
      ensures active[..] == ActiveAfter(hrefs, initiallyActive, sections, scrollY)
    {
      this.hrefs := hrefs;
      this.active := new bool[|hrefs|](k requires 0 <= k < |hrefs| => initiallyActive[k]);
      this.menu := menu;
      new;
      SetActiveLink(sections, scrollY);
    }

    /** Click on `nav-toggle`. */
    method ShowMenu()
      modifies menu
      ensures menu.State() == AfterShowMenu(old(menu.State()))
    {
      menu.shown := true;
      menu.overflow := Hidden;
    }

    /** Click on `nav-close` or on any navigation link. */
    method HideMenu()
      modifies menu
      ensures menu.State() == AfterHideMenu(old(menu.State()))
    {
      menu.shown := false;
      menu.overflow := Auto;
    }

    /**
     * setActiveLink: walk the sections in document order; each section in band clears
     * every link and then marks the first link to it, if there is one.
     */
    method SetActiveLink(sections: seq<Section>, scrollY: int)
      requires Valid()
      modifies active
      ensures active[..] == ActiveAfter(hrefs, old(active[..]), sections, scrollY)
    {
      var i := 0;
      while i < |sections|
        invariant 0 <= i <= |sections|
        invariant active[..] == ActiveAfter(hrefs, old(active[..]), sections[..i], scrollY)
      {
        var section := sections[i];
        if InBand(section, scrollY) {
          for k := 0 to active.Length
            invariant forall j | 0 <= j < k :: !active[j]
          {
            active[k] := false;
          }
          var link := FirstLink(hrefs, "#" + section.id);
          if link.Some? {
            active[link.value] := true;
          }
          assert active[..] == Highlight(active.Length, link);
        }
        assert sections[..i + 1][..i] == sections[..i];
        i := i + 1;
      }
      assert sections[..i] == sections;
    }
  }
}
