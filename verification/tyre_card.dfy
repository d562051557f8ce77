/**
 * The per-card predicates of `hooks/useTyreCardLogic.ts`: ownership,
 * favourite membership, the viewed mark, and the expiry flags.
 */
module TyreCard {
  import opened Wrappers
  import opened TyreTypes
  import opened ViewedStorage

  /** `tyre && user ? user.userId === tyre.userId : false`; `user` is the logged-in user's id. */
  function IsOwner(tyre: Option<Tyre>, user: Option<string>): (r: bool)
    ensures r <==> exists t, u :: tyre == Some(t) && user == Some(u) && u == t.userId
  {
    if tyre.Some? && user.Some? then
      assert tyre == Some(tyre.value) && user == Some(user.value);
      user.value == tyre.value.userId
    else false
  }

  /** An entry of the favourites list: a bare id or a whole listing. */
  datatype FavEntry = FavId(id: string) | FavTyre(tyre: Tyre)

  /** `typeof fav === 'string' ? fav : fav._id`. */
  function EntryId(e: FavEntry): string {
    match e
    case FavId(id) => id
    case FavTyre(t) => t.id
  }

  /** `new Set(favorites.map(EntryId)).has(tyre._id)`, scanning the list. */
  function ContainsId(favorites: seq<FavEntry>, id: string): (r: bool)
    ensures r <==> exists i :: 0 <= i < |favorites| && EntryId(favorites[i]) == id
  {
    if |favorites| == 0 then false
    else if EntryId(favorites[0]) == id then true
    else
      assert forall i :: 1 <= i < |favorites| ==> favorites[i] == favorites[1..][i - 1];
      ContainsId(favorites[1..], id)
  }

  /** `favorite`: the card's listing is in the favourites, by bare id or by `_id`. */
  function IsFavorite(tyre: Option<Tyre>, favorites: seq<FavEntry>): (r: bool)
    ensures r <==> tyre.Some? && exists i :: 0 <= i < |favorites| && EntryId(favorites[i]) == tyre.value.id
  {
    tyre.Some? && ContainsId(favorites, tyre.value.id)
  }

  /** Both entry shapes count: the bare id and a listing carrying the id are interchangeable. */
  lemma IsFavoriteEitherShape(t: Tyre, before: seq<FavEntry>, after: seq<FavEntry>)
    ensures IsFavorite(Some(t), before + [FavId(t.id)] + after)
    ensures IsFavorite(Some(t), before + [FavTyre(t)] + after)
  {
    var a := before + [FavId(t.id)] + after;
    var b := before + [FavTyre(t)] + after;
    assert EntryId(a[|before|]) == t.id;
    assert EntryId(b[|before|]) == t.id;
  }

  /** `isViewed`: the id is in the stored list; `None` where the unguarded parse throws. */
  function IsViewed(slot: ViewedSlot, id: string): (r: Option<bool>)
    ensures r.None? <==> slot.Corrupt?
    ensures r == Some(true) <==> slot.ViewedList? && id in slot.ids
  {
    match ParseViewed(slot)
    case None => None
    case Some(ids) => Some(id in ids)
  }

  /** `isBefore(expiresAt, now)`. */
  function IsExpired(expiresAt: int, now: int): bool {
    expiresAt < now
  }

  const MsPerDay := 86400000

  /** `differenceInDays(a, b)`: whole days between two instants, truncated toward zero. */
  function DifferenceInDays(a: int, b: int): (r: int)
    ensures a >= b ==> r >= 0 && r * MsPerDay <= a - b < (r + 1) * MsPerDay
    ensures a < b ==> r <= 0 && (r - 1) * MsPerDay < a - b <= r * MsPerDay
  {
    var d := a - b;
    if d >= 0 then d / MsPerDay else -((-d) / MsPerDay)
  }

  /** `isExpiringSoon`: fewer than three whole days left (already-expired listings included). */
  function IsExpiringSoon(expiresAt: int, now: int): bool {
    DifferenceInDays(expiresAt, now) < 3
  }

  /** Expiring soon means less than 72 hours left, and every expired listing is also expiring soon. */
  lemma ExpiringSoonMeaning(expiresAt: int, now: int)
    ensures IsExpiringSoon(expiresAt, now) <==> expiresAt - now < 3 * MsPerDay
    ensures IsExpired(expiresAt, now) ==> IsExpiringSoon(expiresAt, now)
  {
  }
}
