/** The mobile bottom navigation: which links are shown to a signed-in or signed-out
    visitor, and which one is highlighted. */
module BottomNav {
  import opened Wrappers
  import opened Seqs

  /** A link; `auth` is absent for links everyone sees, true for signed-in only and false
      for signed-out only. */
  datatype NavItem = NavItem(href: string, caption: string, auth: Option<bool>)

  const NavItems: seq<NavItem> := [
    NavItem("/", "Home", None),
    NavItem("/papers", "Papers", None),
    NavItem("/mock-tests", "Tests", None),
    NavItem("/leaderboard", "Ranks", None),
    NavItem("/dashboard", "Me", Some(true)),
    NavItem("/profile", "Profile", Some(false))
  ]

  /** `item.auth ? !!user : !user` when the key is present, shown otherwise. */
  predicate Visible(item: NavItem, signedIn: bool)
  {
    item.auth.None? || item.auth.value == signedIn
  }

  /** `visibleItems`: the visible links, in order. */
  function VisibleItems(items: seq<NavItem>, signedIn: bool): (r: seq<NavItem>)
    ensures |r| <= |items|
    ensures forall i :: 0 <= i < |r| ==> Visible(r[i], signedIn)
  {
    if items == [] then []
    else (if Visible(items[0], signedIn) then [items[0]] else []) + VisibleItems(items[1..], signedIn)
  }

  /** The shown links keep their order in the bar, and every visible link is shown. */
  lemma {:induction false} VisibleItemsExact(items: seq<NavItem>, signedIn: bool)
    ensures IsSubsequence(VisibleItems(items, signedIn), items)
    ensures forall i :: 0 <= i < |items| && Visible(items[i], signedIn) ==> items[i] in VisibleItems(items, signedIn)
    ensures forall x :: x in VisibleItems(items, signedIn) ==> x in items
  {
    if items != [] {
      var tail := items[1..];
      var r, rt := VisibleItems(items, signedIn), VisibleItems(tail, signedIn);
      VisibleItemsExact(tail, signedIn);
      assert forall i :: 1 <= i < |items| ==> items[i] == tail[i - 1];
      if Visible(items[0], signedIn) {
        assert r == [items[0]] + rt;
        SubsequenceCons(rt, tail, items[0]);
        assert [items[0]] + tail == items;
      } else {
        assert r == rt;
        SubsequenceOfTail(rt, items);
      }
    }
  }

  /** The bar always holds the four public links followed by exactly one account link: the
      dashboard when signed in, the profile when signed out. */
  lemma VisibleNavItems(signedIn: bool)
    ensures VisibleItems(NavItems, signedIn) ==
      NavItems[..4] + [if signedIn then NavItems[4] else NavItems[5]]
    ensures |VisibleItems(NavItems, signedIn)| == 5
    ensures (NavItems[4] in VisibleItems(NavItems, signedIn)) <==> signedIn
    ensures (NavItems[5] in VisibleItems(NavItems, signedIn)) <==> !signedIn
  {
    var items := NavItems;
    var account := if signedIn then items[4] else items[5];
    assert items[5..][1..] == [];
    assert items[4..][1..] == items[5..];
    assert VisibleItems(items[4..], signedIn) == [account];
    assert items[3..][1..] == items[4..];
    assert items[2..][1..] == items[3..];
    assert items[1..][1..] == items[2..];
    assert VisibleItems(items, signedIn) == [items[0], items[1], items[2], items[3], account];
    assert items[4] != items[5];
  }

  /** A link is highlighted exactly when the current path is its target. */
  predicate IsActive(pathname: string, item: NavItem)
  {
    pathname == item.href
  }

  /** No two links of the bar share a target. */
  predicate DistinctHrefs(items: seq<NavItem>)
  {
    forall a, b :: 0 <= a < b < |items| ==> items[a].href != items[b].href
  }

  /** Whatever the visitor's state, the shown links have distinct targets. */
  lemma ShownHrefsDistinct(signedIn: bool)
    ensures DistinctHrefs(VisibleItems(NavItems, signedIn))
  {
    var shown := NavItems[..4] + [if signedIn then NavItems[4] else NavItems[5]];
    assert DistinctHrefs(shown) by {
      var lengths := [1, 7, 11, 12, if signedIn then 10 else 8];
      assert forall k :: 0 <= k < 5 ==> |shown[k].href| == lengths[k];
    }
    VisibleNavItems(signedIn);
  }

  /** Links with distinct targets highlight at most one of them for any path. */
  lemma AtMostOneActive(items: seq<NavItem>, pathname: string, i: int, j: int)
    requires DistinctHrefs(items)
    requires 0 <= i < |items| && 0 <= j < |items|
    requires IsActive(pathname, items[i]) && IsActive(pathname, items[j])
    ensures i == j
  {
  }
}
