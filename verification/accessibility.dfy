/**
 * AccessibilityEnhancements in script.js: the keydown handler that closes the
 * mobile menu on Escape and hands keyboard focus back to the menu toggle.
 */
module Accessibility {
  import opened Navigation

  /** The menu state after a keydown with the given `key`. */
  function AfterKeydown(s: MenuState, key: string): MenuState {
    if key == "Escape" && s.shown then AfterHideMenu(s).(focus := OnToggle) else s
  }

  /** Escape on an open menu closes it exactly as hideMenu does, and focuses the toggle. */
  lemma EscapeClosesOpenMenu(s: MenuState)
    requires s.shown
    ensures var t := AfterKeydown(s, "Escape");
      !t.shown && !ScrollLocked(t) && t.focus == OnToggle &&
      t.(focus := s.focus) == AfterHideMenu(s)
  {
  }

  /** Escape on a closed menu, and every other key, change nothing. */
  lemma KeydownWithoutEffect(s: MenuState, key: string)
    requires key != "Escape" || !s.shown
    ensures AfterKeydown(s, key) == s
  {
  }

  /** Whichever way an open menu is closed, background scrolling is enabled again. */
  lemma EveryCloseReleasesLock(s: MenuState)
    ensures !ScrollLocked(AfterHideMenu(AfterShowMenu(s)))
    ensures !ScrollLocked(AfterKeydown(AfterShowMenu(s), "Escape"))
    ensures LockFollowsMenu(s) ==> LockFollowsMenu(AfterKeydown(s, "Escape"))
  {
  }

  /** The `keydown` listener on the document. */
  method HandleKeydown(menu: Menu, key: string)
    modifies menu
    ensures menu.State() == AfterKeydown(old(menu.State()), key)
  {
    if key == "Escape" {
      if menu.shown {
        menu.shown := false;
        menu.overflow := Auto;
        menu.focus := OnToggle;
      }
    }
  }
}
