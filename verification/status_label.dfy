/**
 * The status badge of a listing card (`components/TyreStatusLabel/TyreStatusLabel.tsx`):
 * one label chosen by a fixed precedence, or none.
 */
module StatusLabel {
  import opened Wrappers
  import TyreCard

  datatype Label = Ended | EndingSoon | Removed | Live

  /** The badge text of each label. */
  function LabelText(l: Label): string {
    match l
    case Ended => "⛔ Закінчено"
    case EndingSoon => "⚠️ Завершується"
    case Removed => "🗑️ Видалено"
    case Live => "✅ Активне"
  }

  /** Expired first, then expiring soon, then deleted, then active; otherwise no badge. */
  function Choose(isExpired: bool, isExpiringSoon: bool, isActive: bool, isDeleted: bool): (r: Option<Label>)
    ensures isExpired ==> r == Some(Ended)
    ensures !isExpired && isExpiringSoon ==> r == Some(EndingSoon)
    ensures !isExpired && !isExpiringSoon && isDeleted ==> r == Some(Removed)
    ensures !isExpired && !isExpiringSoon && !isDeleted && isActive ==> r == Some(Live)
    ensures r.None? <==> !isExpired && !isExpiringSoon && !isDeleted && !isActive
  {
    if isExpired then Some(Ended)
    else if isExpiringSoon then Some(EndingSoon)
    else if isDeleted then Some(Removed)
    else if isActive then Some(Live)
    else None
  }

  /**
   * On a card, whose flags come from the expiry time: an expired listing is
   * never "ending soon", a listing with less than 72 hours left is, and the
   * active badge needs at least three days left and no deletion.
   */
  lemma CardBadge(expiresAt: int, now: int, isActive: bool, isDeleted: bool)
    ensures var r := Choose(TyreCard.IsExpired(expiresAt, now), TyreCard.IsExpiringSoon(expiresAt, now), isActive, isDeleted);
      (expiresAt < now ==> r == Some(Ended))
      && (now <= expiresAt < now + 3 * TyreCard.MsPerDay ==> r == Some(EndingSoon))
      && (r == Some(Live) <==> expiresAt - now >= 3 * TyreCard.MsPerDay && !isDeleted && isActive)
  {
    TyreCard.ExpiringSoonMeaning(expiresAt, now);
  }
}
