/**
 * The "my listings" page (`pages/MyAdsPage.tsx`): restoring the saved tab
 * and splitting the owner's listings into the active, expired and deleted
 * tabs, beside the favourites tab.
 */
module MyAdsPage {
  import opened Wrappers
  import opened Seqs
  import opened TyreTypes
  import opened UseTyres

  /** The stored name of a tab (`TABS`). */
  function TabName(t: Tab): string {
    match t
    case ActiveTab => "active"
    case ExpiredTab => "expired"
    case DeletedTab => "deleted"
    case FavoritesTab => "favorites"
  }

  /** The tab restored from the `myAdsCurrentTab` slot: the saved one if it names a tab, else active. */
  function RestoreTab(saved: Option<string>): (r: Tab)
    ensures (exists t :: saved == Some(TabName(t))) ==> saved == Some(TabName(r))
    ensures !(exists t :: saved == Some(TabName(t))) ==> r == ActiveTab
  {
    if saved == Some("active") then ActiveTab
    else if saved == Some("expired") then ExpiredTab
    else if saved == Some("deleted") then DeletedTab
    else if saved == Some("favorites") then FavoritesTab
    else ActiveTab
  }

  /** The page saves the tab it shows; a reload restores that same tab. */
  lemma RestoreSavedTab(t: Tab)
    ensures RestoreTab(Some(TabName(t))) == t
  {
  }

  /** The per-tab test on one of the owner's listings (the favourites tab never filters). */
  function InTab(tab: Tab, now: int): Tyre -> bool {
    (t: Tyre) =>
      match tab
      case ActiveTab => !t.isDeleted && t.willBeDeletedAt >= now
      case ExpiredTab => !t.isDeleted && t.willBeDeletedAt < now
      case DeletedTab => t.isDeleted
      case FavoritesTab => true
  }

  /** `filtered`: the favourites list as is, or the owner's listings in the tab, in order. */
  function Filtered(tab: Tab, myTyres: seq<Tyre>, favorites: seq<Tyre>, now: int): (r: seq<Tyre>)
    ensures tab == FavoritesTab ==> r == favorites
    ensures tab != FavoritesTab ==> forall t :: t in r <==> t in myTyres && InTab(tab, now)(t)
  {
    if tab == FavoritesTab then favorites else Filter(InTab(tab, now), myTyres)
  }

  /** Every listing belongs to exactly one of the active, expired and deleted tabs. */
  lemma ExactlyOneTab(t: Tyre, now: int)
    ensures InTab(ActiveTab, now)(t) || InTab(ExpiredTab, now)(t) || InTab(DeletedTab, now)(t)
    ensures !(InTab(ActiveTab, now)(t) && InTab(ExpiredTab, now)(t))
    ensures !(InTab(ActiveTab, now)(t) && InTab(DeletedTab, now)(t))
    ensures !(InTab(ExpiredTab, now)(t) && InTab(DeletedTab, now)(t))
  {
  }

  /** The three tabs together show each listing exactly once: their sizes add up to the whole. */
  lemma {:induction false} TabsPartition(myTyres: seq<Tyre>, favorites: seq<Tyre>, now: int)
    ensures |Filtered(ActiveTab, myTyres, favorites, now)| + |Filtered(ExpiredTab, myTyres, favorites, now)|
      + |Filtered(DeletedTab, myTyres, favorites, now)| == |myTyres|
  {
    if |myTyres| > 0 {
      TabsPartition(myTyres[1..], favorites, now);
      ExactlyOneTab(myTyres[0], now);
    }
  }

  /** A tab keeps the listings' relative order: filtering distributes over concatenation. */
  lemma FilteredKeepsOrder(tab: Tab, a: seq<Tyre>, b: seq<Tyre>, favorites: seq<Tyre>, now: int)
    requires tab != FavoritesTab
    ensures Filtered(tab, a + b, favorites, now) == Filtered(tab, a, favorites, now) + Filtered(tab, b, favorites, now)
  {
    FilterConcat(InTab(tab, now), a, b);
  }
}
