/** The navigation bar: three links with an active-link rule, the theme
    button, and on small screens a hamburger that opens a menu of the same
    links. The bar owns no state; the menu's open flag belongs to the shell. */
module NavBar {
  import opened Js

  datatype NavLink = NavLink(name: string, path: string)

  /** `navLinks`, in display order. */
  function Links(): (links: seq<NavLink>)
    ensures |links| == 3
    ensures links[0].path == "/" && links[1].path == "/portfolio" && links[2].path == "/cv"
    ensures links[0].name == "Home" && links[1].name == "Portfolio" && links[2].name == "Profile"
  {
    [NavLink("Home", "/"), NavLink("Portfolio", "/portfolio"), NavLink("Profile", "/cv")]
  }

  /** `isActive`: the root link only on the root itself, every other link on
      any location beginning with its path. */
  function IsActive(path: string, location: string): (active: bool)
    ensures path == "/" ==> (active <==> location == "/")
    ensures path != "/" ==> (active <==> StartsWith(location, path))
  {
    if path == "/" && location != "/" then false
    else StartsWith(location, path)
  }

  /** The links highlighted at a location. */
  function ActiveLinks(location: string): (r: seq<NavLink>)
    ensures |r| <= 1
    ensures forall l :: l in r <==> l in Links() && IsActive(l.path, location)
  {
    var links := Links();
    if IsActive(links[0].path, location) then
      assert !IsActive(links[1].path, location) && !IsActive(links[2].path, location);
      [links[0]]
    else if IsActive(links[1].path, location) then
      NotBothActive(location);
      [links[1]]
    else if IsActive(links[2].path, location) then [links[2]]
    else []
  }

  /** "/portfolio" and "/cv" differ in their second character, so no location
      begins with both. */
  lemma NotBothActive(location: string)
    ensures !(StartsWith(location, "/portfolio") && StartsWith(location, "/cv"))
  {
    if StartsWith(location, "/portfolio") {
      assert location[1] == location[..10][1] == 'p';
      if |location| >= 3 {
        assert location[..3][1] == 'p';
      }
    }
  }

  /** On each routed page the highlighted link is the one leading there; on
      any other location outside the two sections nothing is highlighted. */
  lemma ActiveLinkOnRoutedPages(location: string)
    ensures location in {"/", "/portfolio", "/cv"} ==>
      ActiveLinks(location) == [NavLink(NameOf(location), location)]
    ensures location != "/" && !StartsWith(location, "/portfolio") && !StartsWith(location, "/cv") ==>
      ActiveLinks(location) == []
  {
    var links := Links();
    if location == "/portfolio" {
      assert StartsWith(location, links[1].path);
    } else if location == "/cv" {
      assert StartsWith(location, links[2].path);
      NotBothActive(location);
    }
  }

  /** The link name shown for a routed path. */
  function NameOf(path: string): string {
    if path == "/" then "Home" else if path == "/portfolio" then "Portfolio" else "Profile"
  }

  // ----- the mobile menu -----

  /** The menu is rendered only on a small screen with the flag set. */
  predicate MenuVisible(isMobile: bool, mobileOpen: bool) {
    isMobile && mobileOpen
  }

  /** The hamburger flips the flag. */
  function Hamburger(mobileOpen: bool): (r: bool)
    ensures r != mobileOpen
  {
    !mobileOpen
  }

  /** Following a link in the mobile menu: the menu closes and the location
      becomes the link's path. Links of the desktop bar only navigate. */
  function FollowMenuLink(mobileOpen: bool, link: NavLink): (r: (bool, string))
    ensures !r.0 && r.1 == link.path
  {
    (false, link.path)
  }

  /** After following a menu link the menu is hidden and exactly that link
      is highlighted, whichever routed link it was. */
  lemma MenuLinkClosesAndHighlights(isMobile: bool, mobileOpen: bool, i: nat)
    requires i < 3
    ensures var r := FollowMenuLink(mobileOpen, Links()[i]);
      !MenuVisible(isMobile, r.0) && ActiveLinks(r.1) == [Links()[i]]
  {
    ActiveLinkOnRoutedPages(Links()[i].path);
  }

  /** Two hamburger presses restore the flag and the menu's visibility. */
  lemma HamburgerTwiceRestores(isMobile: bool, mobileOpen: bool)
    ensures Hamburger(Hamburger(mobileOpen)) == mobileOpen
    ensures MenuVisible(isMobile, Hamburger(mobileOpen)) <==> isMobile && !mobileOpen
  {
  }
}
