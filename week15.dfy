/** Week 15: week 14 plus schedules on the workshops and a fixed registration window that
    gates the registration form. The current instant is a parameter of the handlers that read
    the clock. */
module Week15 {

  import opened Wrappers
  import opened Catalog
  import opened Ledger
  import Text
  import CancelFlow
  import Schedule

  class App {
    var workshops: seq<Workshop>
    var registrations: seq<Registration>
    var pendingCancelIndex: Option<nat>
    var currentConfirmAction: Option<CancelFlow.ConfirmAction>

    /** The part of the state the cancellation flow works on. */
    function FlowState(): CancelFlow.State
      reads this
    {
      CancelFlow.State(registrations, pendingCancelIndex, currentConfirmAction)
    }

    /** What every handler the user can trigger keeps: the ledger invariant (no duplicate
        pair, every entry well formed) and a pending index exactly when a confirm action is
        installed. The two dialog helpers break it for a moment inside a handler. */
    predicate Valid()
      reads this
    {
      LedgerInvariant(registrations) && CancelFlow.SlotConsistent(FlowState())
    }

    constructor ()
      ensures workshops == [] && FlowState() == CancelFlow.Initial
      ensures Valid()
    {
      workshops := [];
      registrations := [];
      pendingCancelIndex := None;
      currentConfirmAction := None;
    }

    /** The successful end of `loadWorkshops`: the catalog is replaced as a whole. */
    method WorkshopsLoaded(data: seq<Workshop>)
      requires Valid()
      modifies this
      ensures Valid()
      ensures workshops == data && FlowState() == old(FlowState())
    {
      workshops := data;
    }

    /** `handleRegisterSubmit` at instant `now`: refuses everything while the registration
        window is closed; otherwise trims the name, refuses an empty name, then an empty
        workshop id, then a pair already registered, and appends the pair. */
    method HandleRegisterSubmit(rawName: string, workshopId: string, now: int) returns (error: Option<RegError>)
      requires Valid()
      modifies this
      ensures Valid()
      ensures error == CheckSubmissionInWindow(old(registrations), rawName, workshopId, now, Schedule.RegistrationWindow)
      ensures registrations == SubmitInWindow(old(registrations), rawName, workshopId, now, Schedule.RegistrationWindow)
      ensures workshops == old(workshops)
      ensures pendingCancelIndex == old(pendingCancelIndex) && currentConfirmAction == old(currentConfirmAction)
    {
      SubmitKeepsInvariant(registrations, rawName, workshopId, now, Schedule.RegistrationWindow);
      var userName := Text.Trim(rawName);
      Text.TrimEmptyIffBlank(rawName);
      var window := Schedule.RegistrationWindow;
      if !Schedule.IsRegistrationOpen(now, window.openTime, window.closeTime) {
        return Some(RegistrationClosed);
      }
      if userName == [] {
        return Some(MissingName);
      }
      if workshopId == [] {
        return Some(MissingWorkshop);
      }
      var already := AlreadyRegistered(registrations, userName, workshopId);
      if already {
        return Some(Duplicate);
      }
      registrations := registrations + [Registration(userName, workshopId)];
      error := None;
    }

    /** `openConfirmDialog`: installs the callback the OK button runs. */
    method OpenConfirmDialog()
      modifies this
      ensures FlowState() == CancelFlow.OpenConfirmDialog(old(FlowState())) && workshops == old(workshops)
    {
      currentConfirmAction := Some(CancelFlow.RunConfirmCancel);
    }

    /** `closeConfirmDialog`: removes that callback. */
    method CloseConfirmDialog()
      modifies this
      ensures FlowState() == CancelFlow.CloseConfirmDialog(old(FlowState())) && workshops == old(workshops)
    {
      currentConfirmAction := None;
    }

    /** The Cancel button of row `index`: overwrites the pending index and opens the dialog. */
    method CancelButtonClicked(index: nat)
      requires Valid()
      modifies this
      ensures Valid()
      ensures FlowState() == CancelFlow.RequestCancel(old(FlowState()), index) && workshops == old(workshops)
    {
      CancelFlow.TransitionsKeepSlotConsistent(FlowState(), index);
      pendingCancelIndex := Some(index);
      OpenConfirmDialog();
    }

    /** `handleConfirmCancel`: nothing without a pending index; otherwise asks the endpoint
        about the entry at that index, removes it only when the endpoint accepts, and empties
        the pending slot. The answer is the endpoint's response, if it was asked. */
    method HandleConfirmCancel() returns (response: Option<CancelFlow.CancelResponse>)
      requires Valid()
      modifies this
      ensures Valid()
      ensures CancelFlow.HandleConfirmCancel(old(FlowState())) == CancelFlow.Confirmation(FlowState(), response)
      ensures workshops == old(workshops)
    {
      CancelFlow.TransitionsKeepSlotConsistent(FlowState(), 0);
      CancelFlow.ConfirmKeepsLedgerInvariant(FlowState());
      if pendingCancelIndex.None? {
        return None;
      }
      var index := pendingCancelIndex.value;
      var registration := RegistrationAt(registrations, index);
      var result := CancelFlow.FakeCancelApi(registration);
      if result.CancelOk? {
        registrations := RemoveAt(registrations, index);
      }
      pendingCancelIndex := None;
      CloseConfirmDialog();
      response := Some(result);
    }

    /** The dialog's OK button: runs the installed callback, if any. */
    method DialogOkClicked() returns (response: Option<CancelFlow.CancelResponse>)
      requires Valid()
      modifies this
      ensures Valid()
      ensures CancelFlow.DialogOk(old(FlowState())) == CancelFlow.Confirmation(FlowState(), response)
      ensures workshops == old(workshops)
    {
      if currentConfirmAction.Some? {
        response := HandleConfirmCancel();
      } else {
        response := None;
      }
    }

    /** The dialog's Cancel button: forgets the pending index and closes the dialog. */
    method DialogCancelClicked()
      requires Valid()
      modifies this
      ensures Valid()
      ensures FlowState() == CancelFlow.DialogCancel(old(FlowState())) && workshops == old(workshops)
    {
      pendingCancelIndex := None;
      CloseConfirmDialog();
    }
  }
}
