/**
 * The confirm handler of the listing actions (`hooks/useTyreActions.ts`):
 * which store commands a confirmed modal dispatches, whether the removal
 * callback runs, and the loading flag afterwards. Whether the dispatched
 * action succeeds is an input.
 */
module TyreActions {
  import opened Wrappers
  import opened TyreTypes
  import TyresSlice

  datatype ModalType = Delete | Activate | Extend

  /** The store actions the handler dispatches. */
  datatype Command = RemoveTyre(id: string) | RemoveFromActive(id: string) | ActivateTyre(id: string)
                   | RenewTyre(id: string) | FetchMyTyres

  /**
   * What a confirmation does: the commands in dispatch order, whether the
   * `onRemove` callback is invoked (`onRemove?.()`: the prop is optional, so
   * the flag means it is called if the card was given one), and the final
   * loading flag (`None` when it was never set).
   */
  datatype Outcome = Outcome(commands: seq<Command>, onRemoveCalled: bool, isLoading: Option<bool>)

  /** The delete action: permanent removal of an already soft-deleted listing, else a soft delete. */
  function DeleteCommand(tyre: Tyre, id: string): (c: Command)
    ensures c == RemoveTyre(id) <==> tyre.isDeleted
    ensures c == RemoveFromActive(id) <==> !tyre.isDeleted
  {
    if tyre.isDeleted then RemoveTyre(id) else RemoveFromActive(id)
  }

  /** An activation of a listing whose `expiresAt` has passed is refused before any dispatch. */
  predicate ActivationRefused(tyre: Tyre, modal: Option<ModalType>, now: int) {
    modal == Some(Activate) && tyre.expiresAt < now
  }

  /**
   * `onConfirm(id, modalType)`: nothing for no modal; otherwise the modal's
   * action (delete uses the `id` argument, activate and extend the listing's
   * own id), then `fetchMyTyres` only after it succeeded; the flag ends false.
   */
  function OnConfirm(tyre: Tyre, id: string, modal: Option<ModalType>, now: int, succeeded: bool): (r: Outcome)
    ensures modal.None? <==> r.isLoading.None?
    ensures modal.None? ==> r.commands == [] && !r.onRemoveCalled
    ensures modal.Some? ==> r.isLoading == Some(false)
    ensures ActivationRefused(tyre, modal, now) ==> r.commands == []
    ensures modal == Some(Delete) ==> |r.commands| >= 1 && r.commands[0] == DeleteCommand(tyre, id)
    ensures modal == Some(Activate) && !ActivationRefused(tyre, modal, now) ==>
      |r.commands| >= 1 && r.commands[0] == ActivateTyre(tyre.id)
    ensures modal == Some(Extend) ==> |r.commands| >= 1 && r.commands[0] == RenewTyre(tyre.id)
    ensures r.onRemoveCalled <==> modal == Some(Delete) && succeeded
    ensures FetchMyTyres in r.commands <==> modal.Some? && !ActivationRefused(tyre, modal, now) && succeeded
    ensures |r.commands| <= 2
  {
    match modal
    case None => Outcome([], false, None)
    case Some(m) =>
      if ActivationRefused(tyre, modal, now) then Outcome([], false, Some(false))
      else
        var action := match m
          case Delete => DeleteCommand(tyre, id)
          case Activate => ActivateTyre(tyre.id)
          case Extend => RenewTyre(tyre.id);
        Outcome([action] + (if succeeded then [FetchMyTyres] else []), m == Delete && succeeded, Some(false))
  }

  /**
   * Deleting twice escalates: once the soft delete has been applied to the
   * feed, confirming delete again on that listing removes it for good.
   */
  lemma DeleteEscalates(s: TyresSlice.TyresState, id: string, now: int, succeeded: bool)
    requires id in IdsOf(s.tyres)
    ensures var k := TyresSlice.FindIndex(s.tyres, id);
      var after := TyresSlice.RemoveFromActiveFulfilled(s, id);
      0 <= k < |after.tyres|
      && OnConfirm(after.tyres[k], id, Some(Delete), now, succeeded).commands[0] == RemoveTyre(id)
  {
  }
}
