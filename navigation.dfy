/** The navigation bar (assets/js/modules/navigation.js): the mobile menu
    and its focus trap, the scroll-spy that marks the link of the current
    section, the sticky-header threshold, and smooth scrolling to a section. */
module Navigation {
  import opened Wrappers

  /** Above this scroll offset the nav is drawn as `scrolled`. */
  const ScrolledThreshold := 100
  /** Above this window width the mobile menu is closed on resize. */
  const DesktopWidth := 768
  /** Space left above a section scrolled to, besides the nav's height. */
  const ScrollMargin := 20

  // ---------------------------------------------------------------------------
  // Links and sections

  /** The section a link's `href` scrolls to: the rest of an `href` that
      starts with `#`; other links are left to the browser. */
  function HrefTarget(href: Option<string>): (r: Option<string>)
    ensures r.Some? <==> href.Some? && |href.value| > 0 && href.value[0] == '#'
    ensures r.Some? ==> href.value == "#" + r.value
  {
    if href.Some? && |href.value| > 0 && href.value[0] == '#' then Some(href.value[1..]) else None
  }

  /** `updateActiveLink`'s rule: the `href` is `#` followed by the current section. */
  predicate IsActiveLink(href: Option<string>, section: string) {
    href == Some("#" + section)
  }

  /** The scroll-spy and the smooth scrolling agree: a link is active for a
      section exactly when clicking it scrolls to that section. */
  lemma ActiveIffTarget(href: Option<string>, section: string)
    ensures IsActiveLink(href, section) <==> HrefTarget(href) == Some(section)
  {
    if HrefTarget(href) == Some(section) {
      assert href.value == "#" + section;
    }
    if IsActiveLink(href, section) {
      assert href.value[1..] == section;
    }
  }

  /** Where `scrollToSection(id)` scrolls: nothing for an unknown id,
      otherwise the section's top less the nav's height (0 without a nav)
      and the margin. */
  function ScrollTarget(sections: map<string, int>, navHeight: Option<int>, id: string): (r: Option<int>)
    ensures r.Some? <==> id in sections
    ensures r.Some? ==> r.value + ScrollMargin + navHeight.GetOr(0) == sections[id]
  {
    if id in sections then Some(sections[id] - navHeight.GetOr(0) - ScrollMargin) else None
  }

  // ---------------------------------------------------------------------------
  // The focus trap

  /** What has focus when a key is pressed: one of the menu's focusable
      elements, by position, the menu toggle, or anything else. */
  datatype FocusTarget = MenuItem(index: nat) | ToggleButton | Elsewhere

  /** The trap's `keydown` handler over `count` focusable elements: the
      element it moves focus to (cancelling the key's default), if any. */
  function TrapKey(key: string, shift: bool, active: FocusTarget, count: nat): (r: Option<nat>)
    requires count > 0
    ensures r.Some? <==> key == "Tab" && ((shift && active == MenuItem(0)) || (!shift && active == MenuItem(count - 1)))
    ensures r.Some? ==> r.value == if shift then count - 1 else 0
  {
    if key != "Tab" then None
    else if shift then (if active == MenuItem(0) then Some(count - 1) else None)
    else (if active == MenuItem(count - 1) then Some(0) else None)
  }

  /** The trap closes the cycle: from either end, the key that would leave
      the menu lands on the other end, and no other press is intercepted. */
  lemma TrapWraps(count: nat, key: string, shift: bool, i: nat)
    requires count > 0 && i < count
    ensures TrapKey("Tab", true, MenuItem(0), count) == Some(count - 1)
    ensures TrapKey("Tab", false, MenuItem(count - 1), count) == Some(0)
    ensures key != "Tab" ==> TrapKey(key, shift, MenuItem(i), count) == None
    ensures 0 < i < count - 1 ==> TrapKey(key, shift, MenuItem(i), count) == None
    ensures TrapKey(key, shift, Elsewhere, count) == None && TrapKey(key, shift, ToggleButton, count) == None
  {
  }

  // ---------------------------------------------------------------------------
  // The manager

  datatype Link = Link(href: Option<string>, active: bool)

  /** Everything opening and closing the menu touches: the open flag, the
      menu's `active` class and `aria-hidden`, the toggle's `aria-expanded`,
      the body's overflow, the focused element and the trap. */
  datatype MenuState = MenuState(open: bool, active: bool, hidden: Option<string>, expanded: Option<string>,
                                 overflow: string, focused: FocusTarget, trap: bool)

  class NavigationManager {
    const hasNav: bool
    const hasMenu: bool
    const hasToggle: bool
    /** The height of the nav, when there is one. */
    const navHeight: Option<int>
    /** The number of focusable elements inside the menu. */
    const focusables: nat
    /** The top offset of each element with an id. */
    const sections: map<string, int>
    const links: array<Link>

    var isMenuOpen: bool
    var currentSection: string
    /** The menu's `active` class, its `aria-hidden`, the toggle's `aria-expanded`. */
    var menuActive: bool
    var menuHidden: Option<string>
    var toggleExpanded: Option<string>
    /** `document.body.style.overflow`. */
    var bodyOverflow: string
    /** The element most recently given focus by the manager. */
    var lastFocused: FocusTarget
    /** Whether a focus-trap `keydown` handler is listening. */
    var trapInstalled: bool
    /** The nav's `scrolled` class. */
    var scrolled: bool
    /** Every `window.scrollTo` top and every `history.pushState` hash, in order. */
    var scrolls: seq<int>
    var hashes: seq<string>

    /** The menu's flag and its markup agree, and the trap listens only
        while the menu is open. */
    ghost predicate Valid()
      reads this
    {
      && (isMenuOpen ==> hasMenu)
      && menuActive == isMenuOpen
      && (trapInstalled ==> isMenuOpen && focusables > 0)
      && (hasNav || navHeight == None)
      && "" !in sections
    }

    ghost function Menu(): MenuState
      reads this
    {
      MenuState(isMenuOpen, menuActive, menuHidden, toggleExpanded, bodyOverflow, lastFocused, trapInstalled)
    }

    /** What `openMenu` makes of the menu state when the menu exists: open,
        scrolling stopped, and with focusable items the first one focused
        and the trap listening. */
    function Opened(m: MenuState): MenuState {
      m.(open := true, active := true, hidden := Some("false"), overflow := "hidden",
         expanded := if hasToggle then Some("true") else m.expanded,
         focused := if focusables > 0 then MenuItem(0) else m.focused,
         trap := m.trap || focusables > 0)
    }

    /** What the corrected `closeMenu` makes of an open menu: closed, hidden,
        scrolling restored, focus back on the toggle, and no trap. */
    function Closed(m: MenuState): MenuState {
      m.(open := false, active := false, hidden := Some("true"), overflow := "",
         expanded := if hasToggle then Some("false") else m.expanded,
         focused := if hasToggle then ToggleButton else m.focused,
         trap := false)
    }

    /** The constructor and `init`: the menu is closed and the current section is `header`. */
    constructor (hasNav: bool, hasMenu: bool, hasToggle: bool, navHeight: Option<int>, focusables: nat,
                 sections: map<string, int>, links: array<Link>)
      requires hasNav || navHeight == None
      requires "" !in sections
      ensures Valid()
      ensures this.hasNav == hasNav && this.hasMenu == hasMenu && this.hasToggle == hasToggle
      ensures this.navHeight == navHeight && this.focusables == focusables
      ensures this.sections == sections && this.links == links
      ensures !isMenuOpen && currentSection == "header" && !trapInstalled && scrolls == [] && hashes == []
    {
      this.hasNav := hasNav;
      this.hasMenu := hasMenu;
      this.hasToggle := hasToggle;
      this.navHeight := navHeight;
      this.focusables := focusables;
      this.sections := sections;
      this.links := links;
      isMenuOpen := false;
      currentSection := "header";
      menuActive := false;
      menuHidden := None;
      toggleExpanded := None;
      bodyOverflow := "";
      lastFocused := Elsewhere;
      trapInstalled := false;
      scrolled := false;
      scrolls := [];
      hashes := [];
    }

    /** `openMenu` (with `trapFocus`): nothing without the menu element;
        otherwise the menu opens, body scrolling stops, and with focusable
        items the first takes focus and the trap starts listening. */
    method OpenMenu()
      requires Valid()
      modifies this`isMenuOpen, this`menuActive, this`menuHidden, this`toggleExpanded,
               this`bodyOverflow, this`lastFocused, this`trapInstalled
      ensures Valid()
      ensures !hasMenu ==>
                && isMenuOpen == old(isMenuOpen) && bodyOverflow == old(bodyOverflow)
                && lastFocused == old(lastFocused) && trapInstalled == old(trapInstalled)
                && menuHidden == old(menuHidden) && toggleExpanded == old(toggleExpanded)
      ensures hasMenu ==> && isMenuOpen && menuHidden == Some("false") && bodyOverflow == "hidden"
                          && toggleExpanded == (if hasToggle then Some("true") else old(toggleExpanded))
                          && trapInstalled == (old(trapInstalled) || focusables > 0)
                          && lastFocused == (if focusables > 0 then MenuItem(0) else old(lastFocused))
      ensures Menu() == if hasMenu then Opened(old(Menu())) else old(Menu())
    {
      if !hasMenu {
        return;
      }
      isMenuOpen := true;
      menuActive := true;
      if hasToggle {
        toggleExpanded := Some("true");
      }
      menuHidden := Some("false");
      bodyOverflow := "hidden";
      if focusables > 0 {
        lastFocused := MenuItem(0);
        trapInstalled := true;
      }
    }

    /** `closeMenu` as written: the trap's clean-up waits for a
        `menu:closed` event that nothing dispatches, so the trap keeps
        listening after the menu has closed. */
    method CloseMenuAsWritten()
      modifies this`isMenuOpen, this`menuActive, this`menuHidden, this`toggleExpanded,
               this`bodyOverflow, this`lastFocused
      ensures !(hasMenu && old(isMenuOpen)) ==>
                && isMenuOpen == old(isMenuOpen) && bodyOverflow == old(bodyOverflow)
                && lastFocused == old(lastFocused) && menuHidden == old(menuHidden)
                && toggleExpanded == old(toggleExpanded) && menuActive == old(menuActive)
      ensures hasMenu && old(isMenuOpen) ==> && !isMenuOpen && !menuActive && menuHidden == Some("true") && bodyOverflow == ""
                                             && toggleExpanded == (if hasToggle then Some("false") else old(toggleExpanded))
                                             && lastFocused == (if hasToggle then ToggleButton else old(lastFocused))
    {
      if !hasMenu || !isMenuOpen {
        return;
      }
      isMenuOpen := false;
      menuActive := false;
      if hasToggle {
        toggleExpanded := Some("false");
      }
      menuHidden := Some("true");
      bodyOverflow := "";
      if hasToggle {
        lastFocused := ToggleButton;
      }
    }

    /** `closeMenu` as intended: as written, and the trap stops listening
        when the menu closes. A no-op unless the menu exists and is open. */
    method CloseMenu()
      requires Valid()
      modifies this`isMenuOpen, this`menuActive, this`menuHidden, this`toggleExpanded,
               this`bodyOverflow, this`lastFocused, this`trapInstalled
      ensures Valid()
      ensures !(hasMenu && old(isMenuOpen)) ==>
                && isMenuOpen == old(isMenuOpen) && bodyOverflow == old(bodyOverflow)
                && lastFocused == old(lastFocused) && menuHidden == old(menuHidden)
                && toggleExpanded == old(toggleExpanded) && trapInstalled == old(trapInstalled)
      ensures hasMenu && old(isMenuOpen) ==> && !isMenuOpen && !trapInstalled && menuHidden == Some("true") && bodyOverflow == ""
                                             && toggleExpanded == (if hasToggle then Some("false") else old(toggleExpanded))
                                             && lastFocused == (if hasToggle then ToggleButton else old(lastFocused))
      ensures Menu() == if hasMenu && old(isMenuOpen) then Closed(old(Menu())) else old(Menu())
    {
      if !hasMenu || !isMenuOpen {
        return;
      }
      CloseMenuAsWritten();
      trapInstalled := false;
    }

    /** `toggleMenu`: with the menu element, an open menu closes and a
        closed one opens; without it nothing changes. */
    method ToggleMenu()
      requires Valid()
      modifies this`isMenuOpen, this`menuActive, this`menuHidden, this`toggleExpanded,
               this`bodyOverflow, this`lastFocused, this`trapInstalled
      ensures Valid()
      ensures isMenuOpen == (if hasMenu then !old(isMenuOpen) else old(isMenuOpen))
      ensures Menu() == if !hasMenu then old(Menu())
                        else if old(isMenuOpen) then Closed(old(Menu())) else Opened(old(Menu()))
    {
      if isMenuOpen {
        CloseMenu();
      } else {
        OpenMenu();
      }
    }

    /** A key press: the Escape listener closes an open menu, then a
        listening trap may move focus; `moved` is where it moved it. */
    method KeyDown(key: string, shift: bool, active: FocusTarget) returns (moved: Option<nat>)
      requires Valid()
      modifies this`isMenuOpen, this`menuActive, this`menuHidden, this`toggleExpanded,
               this`bodyOverflow, this`lastFocused, this`trapInstalled
      ensures Valid()
      ensures isMenuOpen == (if key == "Escape" then false else old(isMenuOpen))
      ensures moved.Some? <==> old(trapInstalled) && key == "Tab"
                               && ((shift && active == MenuItem(0)) || (!shift && active == MenuItem(focusables - 1)))
      ensures moved.Some? ==> lastFocused == MenuItem(moved.value) && moved.value < focusables
      ensures moved.Some? ==> isMenuOpen
      ensures key == "Escape" && old(isMenuOpen) ==> Menu() == Closed(old(Menu())) && moved.None?
      ensures !(key == "Escape" && old(isMenuOpen)) ==>
                Menu() == old(Menu()).(focused := if moved.Some? then MenuItem(moved.value) else old(lastFocused))
    {
      if key == "Escape" && isMenuOpen {
        CloseMenu();
      }
      moved := None;
      if trapInstalled {
        moved := TrapKey(key, shift, active, focusables);
        if moved.Some? {
          lastFocused := MenuItem(moved.value);
        }
      }
    }

    /** The document click listener: an open menu closes on a click outside
        both the menu and the toggle (a missing one contains nothing). */
    method DocumentClick(inMenu: bool, inToggle: bool)
      requires Valid()
      modifies this`isMenuOpen, this`menuActive, this`menuHidden, this`toggleExpanded,
               this`bodyOverflow, this`lastFocused, this`trapInstalled
      ensures Valid()
      ensures isMenuOpen == (old(isMenuOpen) && ((hasMenu && inMenu) || (hasToggle && inToggle)))
      ensures Menu() == if old(isMenuOpen) && !(hasMenu && inMenu) && !(hasToggle && inToggle)
                        then Closed(old(Menu())) else old(Menu())
    {
      if isMenuOpen && !(hasMenu && inMenu) && !(hasToggle && inToggle) {
        CloseMenu();
      }
    }

    /** `handleResize`: the menu closes only for a desktop width while open. */
    method HandleResize(width: int)
      requires Valid()
      modifies this`isMenuOpen, this`menuActive, this`menuHidden, this`toggleExpanded,
               this`bodyOverflow, this`lastFocused, this`trapInstalled
      ensures Valid()
      ensures isMenuOpen == (old(isMenuOpen) && width <= DesktopWidth)
      ensures !(width > DesktopWidth && old(isMenuOpen)) ==> bodyOverflow == old(bodyOverflow) && trapInstalled == old(trapInstalled)
      ensures Menu() == if width > DesktopWidth && old(isMenuOpen) then Closed(old(Menu())) else old(Menu())
    {
      if width > DesktopWidth && isMenuOpen {
        CloseMenu();
      }
    }

    /** `updateActiveLink`: exactly the links whose `href` is `#` plus the
        current section are active. */
    method UpdateActiveLink()
      modifies links
      ensures forall j :: 0 <= j < links.Length ==>
                links[j] == old(links[j]).(active := IsActiveLink(old(links[j]).href, currentSection))
    {
      var j := 0;
      while j < links.Length
        invariant 0 <= j <= links.Length
        invariant forall k :: 0 <= k < j ==> links[k] == old(links[k]).(active := IsActiveLink(old(links[k]).href, currentSection))
        invariant forall k :: j <= k < links.Length ==> links[k] == old(links[k])
      {
        links[j] := links[j].(active := IsActiveLink(links[j].href, currentSection));
        j := j + 1;
      }
    }

    /** `handleScroll`: with a nav, it is `scrolled` exactly above the
        threshold; the links follow the current section. */
    method HandleScroll(scrollY: int)
      modifies this`scrolled, links
      ensures scrolled == (if hasNav then scrollY > ScrolledThreshold else old(scrolled))
      ensures forall j :: 0 <= j < links.Length ==> links[j].active == IsActiveLink(links[j].href, currentSection)
      ensures forall j :: 0 <= j < links.Length ==>
                links[j] == old(links[j]).(active := IsActiveLink(old(links[j]).href, currentSection))
    {
      if hasNav {
        scrolled := scrollY > ScrolledThreshold;
      }
      UpdateActiveLink();
    }

    /** The scroll-spy: a section coming into view becomes current and
        exactly its links are marked. */
    method SectionIntersects(id: string)
      modifies this`currentSection, links
      ensures currentSection == id
      ensures forall j :: 0 <= j < links.Length ==>
                links[j] == old(links[j]).(active := IsActiveLink(old(links[j]).href, id))
    {
      currentSection := id;
      UpdateActiveLink();
    }

    /** `scrollToSection` / `scrollTo`: an unknown id changes nothing;
        otherwise one scroll to `ScrollTarget` and one history entry. */
    method ScrollToSection(id: string)
      modifies this`scrolls, this`hashes
      ensures id !in sections ==> scrolls == old(scrolls) && hashes == old(hashes)
      ensures id in sections ==> scrolls == old(scrolls) + [ScrollTarget(sections, navHeight, id).value]
                                 && hashes == old(hashes) + ["#" + id]
    {
      var target := ScrollTarget(sections, navHeight, id);
      if target.None? {
        return;
      }
      scrolls := scrolls + [target.value];
      hashes := hashes + ["#" + id];
    }

    /** A click on nav link `i`: its first listener closes the menu, its
        second scrolls to the link's section when the `href` starts with `#`. */
    method ClickLink(i: nat)
      requires Valid() && i < links.Length
      modifies this`isMenuOpen, this`menuActive, this`menuHidden, this`toggleExpanded,
               this`bodyOverflow, this`lastFocused, this`trapInstalled, this`scrolls, this`hashes
      ensures Valid() && !isMenuOpen
      ensures Menu() == if old(isMenuOpen) then Closed(old(Menu())) else old(Menu())
      ensures var target := HrefTarget(links[i].href);
              if target.Some? && target.value in sections
              then && scrolls == old(scrolls) + [ScrollTarget(sections, navHeight, target.value).value]
                   && hashes == old(hashes) + [links[i].href.value]
              else scrolls == old(scrolls) && hashes == old(hashes)
    {
      CloseMenu();
      var target := HrefTarget(links[i].href);
      if target.Some? {
        ScrollToSection(target.value);
      }
    }
  }

  /** The trap outlives the menu as written: after the menu is opened and
      closed again, Tab on the menu's last item is still turned back to its
      first item by the handler still listening. */
  method TrapOutlivesMenuAsWritten(n: NavigationManager) returns (moved: Option<nat>)
    requires n.Valid() && n.hasMenu && !n.isMenuOpen && n.focusables > 0
    modifies n
    ensures !n.isMenuOpen && n.trapInstalled && moved == Some(0)
  {
    n.OpenMenu();
    n.CloseMenuAsWritten();
    moved := TrapKey("Tab", false, MenuItem(n.focusables - 1), n.focusables);
  }

  /** As intended, a closed menu intercepts nothing. */
  method ClosedMenuTrapsNothing(n: NavigationManager, key: string, shift: bool, active: FocusTarget)
      returns (moved: Option<nat>)
    requires n.Valid() && n.hasMenu && !n.isMenuOpen
    modifies n
    ensures !n.isMenuOpen && moved == None
  {
    n.OpenMenu();
    n.CloseMenu();
    moved := n.KeyDown(key, shift, active);
  }
}
