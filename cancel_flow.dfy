/** Cancelling a registration: the mock cancellation endpoint and the two-step confirmation
    with its single pending slot (`pendingCancelIndex` together with `currentConfirmAction`).
    The transitions are functions on a `State` value; the per-week `App` classes perform them
    in place. */
module CancelFlow {

  import opened Wrappers
  import opened Ledger
  import Schedule
  import Text

  /** The error codes the mock endpoint answers with. */
  datatype CancelError = NotFound | CannotCancelPast

  /** `{ success: true }` or `{ success: false, errorCode }`. */
  datatype CancelResponse = CancelOk | CancelRejected(errorCode: CancelError)

  /** The one workshop whose registrations the endpoint refuses to cancel. */
  const PastWorkshopId: string := "ws2"

  /** `fakeCancelApi(registration)`: a missing registration is NOT_FOUND, a registration for
      workshop `ws2` (`PastWorkshopId`) is CANNOT_CANCEL_PAST, every other one is accepted. */
  function FakeCancelApi(registration: Option<Registration>): (r: CancelResponse)
    ensures r == CancelRejected(NotFound) <==> registration.None?
    ensures r == CancelRejected(CannotCancelPast) <==>
              registration.Some? && registration.value.workshopId == PastWorkshopId
    ensures r == CancelOk <==> registration.Some? && registration.value.workshopId != PastWorkshopId
  {
    if registration.None? then CancelRejected(NotFound)
    else if registration.value.workshopId == PastWorkshopId then CancelRejected(CannotCancelPast)
    else CancelOk
  }

  /** The callback the confirmation dialog holds: the only one the widget ever installs runs
      `handleConfirmCancel`. */
  datatype ConfirmAction = RunConfirmCancel

  /** The widget's mutable state that the cancellation flow reads and writes. */
  datatype State = State(
    registrations: seq<Registration>,
    pendingCancelIndex: Option<nat>,
    currentConfirmAction: Option<ConfirmAction>)

  /** The widget starts with an empty ledger and no pending cancellation. */
  const Initial: State := State([], None, None)

  /** The pending slot is either empty in both halves or full in both. */
  predicate SlotConsistent(s: State) {
    s.pendingCancelIndex.Some? <==> s.currentConfirmAction.Some?
  }

  /** `openConfirmDialog`: installs the confirmation callback. */
  function OpenConfirmDialog(s: State): (t: State)
    ensures t == State(s.registrations, s.pendingCancelIndex, Some(RunConfirmCancel))
  {
    s.(currentConfirmAction := Some(RunConfirmCancel))
  }

  /** `closeConfirmDialog`: removes the confirmation callback. */
  function CloseConfirmDialog(s: State): (t: State)
    ensures t == State(s.registrations, s.pendingCancelIndex, None)
  {
    s.(currentConfirmAction := None)
  }

  /** A click on the Cancel button of row `index`: records the index and opens the dialog. */
  function RequestCancel(s: State, index: nat): (t: State)
    ensures t.registrations == s.registrations
    ensures t.pendingCancelIndex == Some(index) && t.currentConfirmAction == Some(RunConfirmCancel)
  {
    OpenConfirmDialog(s.(pendingCancelIndex := Some(index)))
  }

  /** The state after a confirmation step and the endpoint's answer, if it was asked. */
  datatype Confirmation = Confirmation(next: State, response: Option<CancelResponse>)

  /** `handleConfirmCancel`: without a pending index nothing happens; otherwise the endpoint is
      asked about the entry at that index, the entry is removed only when it accepts, and the
      pending slot is emptied in every case. */
  function HandleConfirmCancel(s: State): (c: Confirmation)
    ensures s.pendingCancelIndex.None? ==> c == Confirmation(s, None)
    ensures s.pendingCancelIndex.Some? ==>
              && c.next.pendingCancelIndex.None? && c.next.currentConfirmAction.None?
              && c.response == Some(FakeCancelApi(RegistrationAt(s.registrations, s.pendingCancelIndex.value)))
    ensures c.response == Some(CancelOk) ==>
              && s.pendingCancelIndex.value < |s.registrations|
              && c.next.registrations == RemoveAt(s.registrations, s.pendingCancelIndex.value)
    ensures c.response != Some(CancelOk) ==> c.next.registrations == s.registrations
  {
    match s.pendingCancelIndex
    case None => Confirmation(s, None)
    case Some(index) =>
      var response := FakeCancelApi(RegistrationAt(s.registrations, index));
      var registrations := if response.CancelOk? then RemoveAt(s.registrations, index) else s.registrations;
      Confirmation(CloseConfirmDialog(s.(registrations := registrations, pendingCancelIndex := None)), Some(response))
  }

  /** The dialog's OK button: runs the installed callback, if there is one. */
  function DialogOk(s: State): (c: Confirmation)
    ensures s.currentConfirmAction.None? ==> c == Confirmation(s, None)
    ensures s.currentConfirmAction.Some? ==> c == HandleConfirmCancel(s)
  {
    match s.currentConfirmAction
    case Some(RunConfirmCancel) => HandleConfirmCancel(s)
    case None => Confirmation(s, None)
  }

  /** The dialog's Cancel button: forgets the pending index and closes the dialog. */
  function DialogCancel(s: State): (t: State)
    ensures t == State(s.registrations, None, None)
  {
    CloseConfirmDialog(s.(pendingCancelIndex := None))
  }

  /** Every transition keeps the two halves of the pending slot in step, so the dialog holds a
      callback exactly when an index is pending. */
  lemma TransitionsKeepSlotConsistent(s: State, index: nat)
    requires SlotConsistent(s)
    ensures SlotConsistent(RequestCancel(s, index))
    ensures SlotConsistent(HandleConfirmCancel(s).next)
    ensures SlotConsistent(DialogOk(s).next)
    ensures SlotConsistent(DialogCancel(s))
  {
  }

  /** Confirming keeps the ledger invariant: it removes at most one entry. */
  lemma ConfirmKeepsLedgerInvariant(s: State)
    requires LedgerInvariant(s.registrations)
    ensures LedgerInvariant(HandleConfirmCancel(s).next.registrations)
    ensures LedgerInvariant(DialogOk(s).next.registrations)
  {
    var c := HandleConfirmCancel(s);
    if c.response == Some(CancelOk) {
      RemoveAtKeepsInvariant(s.registrations, s.pendingCancelIndex.value);
    }
  }

  /** The outcome of confirming a pending cancellation of entry `index`: an index past the end
      is NOT_FOUND, an entry for `ws2` is CANNOT_CANCEL_PAST, and in both cases the ledger is
      unchanged; any other entry is removed, the ledger shrinks by exactly one and the rest
      keep their order. */
  lemma ConfirmOutcomes(s: State, index: nat)
    requires s.pendingCancelIndex == Some(index)
    ensures var c := HandleConfirmCancel(s);
            && (index >= |s.registrations| ==>
                  c.response == Some(CancelRejected(NotFound)) && c.next.registrations == s.registrations)
            && (index < |s.registrations| && s.registrations[index].workshopId == PastWorkshopId ==>
                  c.response == Some(CancelRejected(CannotCancelPast)) && c.next.registrations == s.registrations)
            && (index < |s.registrations| && s.registrations[index].workshopId != PastWorkshopId ==>
                  && c.response == Some(CancelOk)
                  && c.next.registrations == s.registrations[..index] + s.registrations[index + 1..]
                  && |c.next.registrations| == |s.registrations| - 1)
  {
    if index < |s.registrations| && s.registrations[index].workshopId != PastWorkshopId {
      var r := HandleConfirmCancel(s).next.registrations;
      assert r == s.registrations[..index] + s.registrations[index + 1..];
    }
  }

  /** One slot, no queue: a second cancel request replaces the first outright. */
  lemma RequestOverwrites(s: State, first: nat, second: nat)
    ensures RequestCancel(RequestCancel(s, first), second) == RequestCancel(s, second)
  {
  }

  /** Requesting a cancellation and then dismissing the dialog leaves the ledger as it was and
      the slot empty, whatever was pending before. */
  lemma RequestThenDismiss(s: State, index: nat)
    ensures DialogCancel(RequestCancel(s, index)) == State(s.registrations, None, None)
  {
  }

  /** What the user can do: submit the form (at instant `now`), click the Cancel button of a
      row, or click OK or Cancel in the confirmation dialog. */
  datatype Event =
    | Submitted(rawName: string, workshopId: string, now: int)
    | CancelClicked(index: nat)
    | OkClicked
    | DismissClicked

  /** The effect of one event. `windowGate` selects the final week's form, which checks the
      registration window first. A Cancel button exists only for a row of the current list,
      so a click on a row that is not there does nothing. */
  function Step(s: State, e: Event, windowGate: bool): (t: State)
    ensures e.Submitted? ==>
              t.pendingCancelIndex == s.pendingCancelIndex && t.currentConfirmAction == s.currentConfirmAction
  {
    match e
    case Submitted(rawName, workshopId, now) =>
      var registrations :=
        if windowGate then SubmitInWindow(s.registrations, rawName, workshopId, now, Schedule.RegistrationWindow)
        else Submit(s.registrations, rawName, workshopId);
      s.(registrations := registrations)
    case CancelClicked(index) => if index < |s.registrations| then RequestCancel(s, index) else s
    case OkClicked => DialogOk(s).next
    case DismissClicked => DialogCancel(s)
  }

  /** The state after a sequence of events. */
  function Run(s: State, events: seq<Event>, windowGate: bool): State
    decreases |events|
  {
    if events == [] then s else Run(Step(s, events[0], windowGate), events[1..], windowGate)
  }

  /** The inductive invariant of the widget: the ledger invariant, a consistent pending slot,
      and a pending index that points into the ledger. It holds initially and every event
      keeps it, so it holds of every state the widget can reach. */
  predicate Consistent(s: State) {
    && LedgerInvariant(s.registrations)
    && SlotConsistent(s)
    && (s.pendingCancelIndex.Some? ==> s.pendingCancelIndex.value < |s.registrations|)
  }

  /** Each event keeps `Consistent`. */
  lemma StepKeepsConsistent(s: State, e: Event, windowGate: bool)
    requires Consistent(s)
    ensures Consistent(Step(s, e, windowGate))
  {
    match e
    case Submitted(rawName, workshopId, now) =>
      SubmitKeepsInvariant(s.registrations, rawName, workshopId, now, Schedule.RegistrationWindow);
    case CancelClicked(index) =>
    case OkClicked =>
      ConfirmKeepsLedgerInvariant(s);
    case DismissClicked =>
  }

  /** Any sequence of events run from a `Consistent` state ends in a `Consistent` state. */
  lemma {:induction false} RunKeepsConsistent(s: State, events: seq<Event>, windowGate: bool)
    requires Consistent(s)
    ensures Consistent(Run(s, events, windowGate))
    decreases |events|
  {
    if events != [] {
      StepKeepsConsistent(s, events[0], windowGate);
      RunKeepsConsistent(Step(s, events[0], windowGate), events[1..], windowGate);
    }
  }

  /** Consequence: in any reachable state, confirming never hits NOT_FOUND, because the
      pending index always points at an entry. */
  lemma ReachedConfirmIsNeverNotFound(events: seq<Event>, windowGate: bool)
    ensures HandleConfirmCancel(Run(Initial, events, windowGate)).response != Some(CancelRejected(NotFound))
  {
    RunKeepsConsistent(Initial, events, windowGate);
  }

  /** 2025-12-15T12:00:00+07:00, inside the registration window. */
  const ScenarioNow: int := 1_765_774_800_000

  /** With the window open, Alice's first submission for ws1 is accepted. */
  lemma AliceRegisters()
    ensures CheckSubmissionInWindow([], "Alice", "ws1", ScenarioNow, Schedule.RegistrationWindow) == None
    ensures Step(Initial, Submitted("Alice", "ws1", ScenarioNow), true)
            == State([Registration("Alice", "ws1")], None, None)
  {
    assert Text.Trim("Alice") == "Alice" by {
      assert !Text.IsWhitespace('A') && !Text.IsWhitespace('e');
    }
  }

  /** Her second, identical submission is refused as a duplicate and changes nothing. */
  lemma AliceRegistersAgain()
    ensures CheckSubmissionInWindow([Registration("Alice", "ws1")], "Alice", "ws1", ScenarioNow,
                                    Schedule.RegistrationWindow) == Some(Duplicate)
    ensures Step(State([Registration("Alice", "ws1")], None, None), Submitted("Alice", "ws1", ScenarioNow), true)
            == State([Registration("Alice", "ws1")], None, None)
  {
    assert Text.Trim("Alice") == "Alice" by {
      assert !Text.IsWhitespace('A') && !Text.IsWhitespace('e');
    }
  }

  /** Cancelling row 0 and confirming: the endpoint accepts and the ledger is empty again. */
  lemma AliceCancels()
    ensures DialogOk(RequestCancel(State([Registration("Alice", "ws1")], None, None), 0))
            == Confirmation(Initial, Some(CancelOk))
  {
    assert RemoveAt([Registration("Alice", "ws1")], 0) == [];
  }
}
