/**
 * The navigation bars. The side, top and bottom bars each list the same
 * three destinations and mark an entry active when the current path is its
 * link or, for every link but the home page, starts with it. The shared
 * `NAV_ITEMS` constant has a fourth entry, the correction records, that
 * none of the bars shows.
 */
module Navigation {
  import opened JsString

  datatype NavItem = NavItem(name: string, href: string)

  /** The entries of the side, top and bottom bars (icons aside). */
  const BarItems: seq<NavItem> := [
    NavItem("首页", "/"), NavItem("错题本", "/error-book"), NavItem("练习", "/exercise")]

  /** `NAV_ITEMS`: the bar entries and the correction records. */
  const AppItems: seq<NavItem> := BarItems + [NavItem("批改记录", "/correction-records")]

  /** `pathname === href || (href !== '/' && pathname.startsWith(href))`. */
  predicate IsActive(pathname: string, href: string) {
    pathname == href || (href != "/" && StartsWith(pathname, href))
  }

  /** The entries marked active, in bar order. */
  function Active(items: seq<NavItem>, pathname: string): (r: seq<NavItem>)
    ensures forall x :: x in r <==> x in items && IsActive(pathname, x.href)
    ensures |r| <= |items|
  {
    if |items| == 0 then []
    else
      var rest := Active(items[1..], pathname);
      assert forall x :: x in items <==> x == items[0] || x in items[1..];
      if IsActive(pathname, items[0].href) then [items[0]] + rest else rest
  }

  /** The home entry is active on the home page only. */
  lemma HomeOnlyAtRoot(pathname: string)
    ensures IsActive(pathname, "/") <==> pathname == "/"
  {
  }

  /** A path is never under two different bar destinations. */
  lemma Exclusive(pathname: string)
    ensures !(IsActive(pathname, "/") && IsActive(pathname, "/error-book"))
    ensures !(IsActive(pathname, "/") && IsActive(pathname, "/exercise"))
    ensures !(IsActive(pathname, "/error-book") && IsActive(pathname, "/exercise"))
    ensures !(IsActive(pathname, "/correction-records") && IsActive(pathname, "/error-book"))
    ensures !(IsActive(pathname, "/correction-records") && IsActive(pathname, "/exercise"))
    ensures !(IsActive(pathname, "/correction-records") && IsActive(pathname, "/"))
  {
    Clash(pathname, "/error-book", "/exercise", 2);
    Clash(pathname, "/correction-records", "/error-book", 1);
    Clash(pathname, "/correction-records", "/exercise", 1);
  }

  /** A path cannot start with two links that differ at a position inside
      both. */
  lemma Clash(s: string, p: string, q: string, i: nat)
    requires i < |p| && i < |q| && p[i] != q[i]
    ensures !(StartsWith(s, p) && StartsWith(s, q))
  {
    assert StartsWith(s, p) ==> s[..|p|][i] == s[i];
    assert StartsWith(s, q) ==> s[..|q|][i] == s[i];
  }

  /** When no two entries can be active together, at most one is. */
  lemma {:induction false} AtMostOne(items: seq<NavItem>, pathname: string)
    requires forall i, j :: 0 <= i < j < |items| ==>
      !(IsActive(pathname, items[i].href) && IsActive(pathname, items[j].href))
    ensures |Active(items, pathname)| <= 1
  {
    if |items| > 0 {
      AtMostOne(items[1..], pathname);
      if IsActive(pathname, items[0].href) {
        assert forall k :: 0 <= k < |items[1..]| ==> items[1..][k] == items[k + 1];
        NoneActive(items[1..], pathname);
      }
    }
  }

  lemma NoneActive(items: seq<NavItem>, pathname: string)
    requires forall k :: 0 <= k < |items| ==> !IsActive(pathname, items[k].href)
    ensures Active(items, pathname) == []
  {
  }

  /** A path differing from a link at some position inside both does not
      start with it. */
  lemma DiffersAt(s: string, p: string, i: nat)
    requires i < |s| && i < |p| && s[i] != p[i]
    ensures !StartsWith(s, p)
  {
    if |p| <= |s| {
      assert s[..|p|][i] == s[i];
    }
  }

  /** The side bar marks at most one entry active, whatever the path. */
  lemma SideBarAtMostOneActive(pathname: string)
    ensures |Active(BarItems, pathname)| <= 1
  {
    Exclusive(pathname);
    AtMostOne(BarItems, pathname);
  }

  /** The same holds for the four entries of `NAV_ITEMS`. */
  lemma AppItemsAtMostOneActive(pathname: string)
    ensures |Active(AppItems, pathname)| <= 1
  {
    Exclusive(pathname);
    AtMostOne(AppItems, pathname);
  }

  /** The top bar marks a sub-page of the exercises as the exercise entry,
      and so does any path that merely begins with the same letters, such
      as `/exercisex`: the test is on characters, not on path segments. */
  lemma TopBarPrefixMatch()
    ensures Active(BarItems, "/exercise/word-practice") == [NavItem("练习", "/exercise")]
    ensures Active(BarItems, "/exercisex") == [NavItem("练习", "/exercise")]
    ensures Active(BarItems, "/error-bookx") == [NavItem("错题本", "/error-book")]
  {
    assert "/exercise/word-practice"[..9] == "/exercise";
    assert "/exercisex"[..9] == "/exercise";
    assert "/error-bookx"[..11] == "/error-book";
    DiffersAt("/exercise/word-practice", "/error-book", 2);
    DiffersAt("/exercisex", "/error-book", 2);
    DiffersAt("/error-bookx", "/exercise", 2);
  }

  /** On the correction-records page the bottom bar marks nothing, while
      `NAV_ITEMS` would mark its own entry. */
  lemma BottomBarOnRecords()
    ensures Active(BarItems, "/correction-records") == []
    ensures Active(AppItems, "/correction-records") == [NavItem("批改记录", "/correction-records")]
  {
    DiffersAt("/correction-records", "/error-book", 1);
    DiffersAt("/correction-records", "/exercise", 1);
    assert AppItems == [NavItem("首页", "/"), NavItem("错题本", "/error-book"),
      NavItem("练习", "/exercise"), NavItem("批改记录", "/correction-records")];
    var p := "/correction-records";
    assert Active(AppItems[3..], p) == [NavItem("批改记录", "/correction-records")];
    assert Active(AppItems[2..], p) == Active(AppItems[3..], p);
    assert Active(AppItems[1..], p) == Active(AppItems[2..], p);
  }
}
