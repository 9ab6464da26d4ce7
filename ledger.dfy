/** The registration ledger: the ordered list of (user, workshop) pairs, the validator that
    guards additions to it, and removal by position. */
module Ledger {

  import opened Wrappers
  import Text
  import Schedule

  /** One entry of the ledger; its position in the list is the index a cancellation uses. */
  datatype Registration = Registration(userName: string, workshopId: string)

  /** The four ways a submission is refused, in the order they are tested. */
  datatype RegError = RegistrationClosed | MissingName | MissingWorkshop | Duplicate

  /** No (user, workshop) pair occurs twice. */
  predicate NoDuplicates(registrations: seq<Registration>) {
    forall i, j :: 0 <= i < j < |registrations| ==> registrations[i] != registrations[j]
  }

  /** An entry as the form creates it: a non-empty name with no whitespace at either end (a
      trimmed name) and a non-empty workshop id. */
  predicate WellFormed(r: Registration) {
    && r.userName != []
    && !Text.IsWhitespace(r.userName[0])
    && !Text.IsWhitespace(r.userName[|r.userName| - 1])
    && r.workshopId != []
  }

  /** Every entry is well formed. */
  predicate AllWellFormed(registrations: seq<Registration>) {
    forall i :: 0 <= i < |registrations| ==> WellFormed(registrations[i])
  }

  /** The invariant every ledger reached from the empty one keeps. */
  predicate LedgerInvariant(registrations: seq<Registration>) {
    NoDuplicates(registrations) && AllWellFormed(registrations)
  }

  /** `registrations.some(reg => reg.userName === userName && reg.workshopId === workshopId)`:
      scans the ledger front to back and stops at the first entry with both fields equal. */
  method AlreadyRegistered(registrations: seq<Registration>, userName: string, workshopId: string)
    returns (already: bool)
    ensures already <==> Registration(userName, workshopId) in registrations
  {
    already := false;
    var i := 0;
    while i < |registrations| && !already
      invariant 0 <= i <= |registrations|
      invariant already <==> exists k :: 0 <= k < i && registrations[k] == Registration(userName, workshopId)
    {
      already := registrations[i].userName == userName && registrations[i].workshopId == workshopId;
      i := i + 1;
    }
  }

  /** The validator of the registration form, without the window gate: the name is trimmed,
      then the first failing test wins: an empty name, then an empty workshop id, then a pair
      already in the ledger. `None` means the submission is accepted. */
  function CheckSubmission(registrations: seq<Registration>, rawName: string, workshopId: string)
    : (e: Option<RegError>)
    ensures e == Some(MissingName) <==> Text.IsBlank(rawName)
    ensures e == Some(MissingWorkshop) <==> !Text.IsBlank(rawName) && workshopId == []
    ensures e == Some(Duplicate) <==>
              !Text.IsBlank(rawName) && workshopId != []
              && Registration(Text.Trim(rawName), workshopId) in registrations
    ensures e != Some(RegistrationClosed)
  {
    Text.TrimEmptyIffBlank(rawName);
    var userName := Text.Trim(rawName);
    if userName == [] then Some(MissingName)
    else if workshopId == [] then Some(MissingWorkshop)
    else if Registration(userName, workshopId) in registrations then Some(Duplicate)
    else None
  }

  /** The ledger after a submission of the form without the window gate: unchanged when the
      validator refuses it, one entry longer when it accepts it. */
  function Submit(registrations: seq<Registration>, rawName: string, workshopId: string)
    : (r: seq<Registration>)
    ensures CheckSubmission(registrations, rawName, workshopId).Some? ==> r == registrations
    ensures CheckSubmission(registrations, rawName, workshopId).None? ==>
              |r| == |registrations| + 1 && r[..|registrations|] == registrations
              && r[|registrations|] == Registration(Text.Trim(rawName), workshopId)
              && WellFormed(r[|registrations|]) && r[|registrations|] !in registrations
  {
    if CheckSubmission(registrations, rawName, workshopId).Some? then registrations
    else
      Text.TrimEmptyIffBlank(rawName);
      registrations + [Registration(Text.Trim(rawName), workshopId)]
  }

  /** The validator of the final week: the window gate comes first, so a closed window refuses
      the submission whatever name and workshop it carries; an open window defers to
      `CheckSubmission`. */
  function CheckSubmissionInWindow(
    registrations: seq<Registration>, rawName: string, workshopId: string,
    now: int, window: Schedule.Window): (e: Option<RegError>)
    ensures !Schedule.IsRegistrationOpen(now, window.openTime, window.closeTime) ==>
              e == Some(RegistrationClosed)
    ensures Schedule.IsRegistrationOpen(now, window.openTime, window.closeTime) ==>
              e == CheckSubmission(registrations, rawName, workshopId)
  {
    if !Schedule.IsRegistrationOpen(now, window.openTime, window.closeTime) then Some(RegistrationClosed)
    else CheckSubmission(registrations, rawName, workshopId)
  }

  /** The ledger after a submission of the final week's form. */
  function SubmitInWindow(
    registrations: seq<Registration>, rawName: string, workshopId: string,
    now: int, window: Schedule.Window): (r: seq<Registration>)
    ensures !Schedule.IsRegistrationOpen(now, window.openTime, window.closeTime) ==> r == registrations
    ensures Schedule.IsRegistrationOpen(now, window.openTime, window.closeTime) ==>
              r == Submit(registrations, rawName, workshopId)
    ensures CheckSubmissionInWindow(registrations, rawName, workshopId, now, window).Some? ==> r == registrations
    ensures CheckSubmissionInWindow(registrations, rawName, workshopId, now, window).None? ==>
              |r| == |registrations| + 1 && r[..|registrations|] == registrations
              && r[|registrations|] == Registration(Text.Trim(rawName), workshopId)
              && WellFormed(r[|registrations|]) && r[|registrations|] !in registrations
  {
    if !Schedule.IsRegistrationOpen(now, window.openTime, window.closeTime) then registrations
    else Submit(registrations, rawName, workshopId)
  }

  /** Appending an entry that is well formed and not yet present keeps the ledger invariant. */
  lemma AppendKeepsInvariant(registrations: seq<Registration>, entry: Registration)
    requires LedgerInvariant(registrations) && WellFormed(entry) && entry !in registrations
    ensures LedgerInvariant(registrations + [entry])
  {
    var r := registrations + [entry];
    forall i, j | 0 <= i < j < |r| ensures r[i] != r[j] {
      if j < |registrations| {
        assert r[i] == registrations[i] && r[j] == registrations[j];
      } else {
        assert r[i] == registrations[i];
      }
    }
    forall i | 0 <= i < |r| ensures WellFormed(r[i]) {
      if i < |registrations| { assert r[i] == registrations[i]; }
    }
  }

  /** A submission keeps the ledger invariant, with or without the window gate. */
  lemma SubmitKeepsInvariant(
    registrations: seq<Registration>, rawName: string, workshopId: string,
    now: int, window: Schedule.Window)
    requires LedgerInvariant(registrations)
    ensures LedgerInvariant(Submit(registrations, rawName, workshopId))
    ensures LedgerInvariant(SubmitInWindow(registrations, rawName, workshopId, now, window))
  {
    if CheckSubmission(registrations, rawName, workshopId).None? {
      var r := Submit(registrations, rawName, workshopId);
      assert r == registrations + [r[|registrations|]];
      AppendKeepsInvariant(registrations, r[|registrations|]);
    }
  }

  /** Submitting the same accepted form twice: the second submission is refused as a
      duplicate, and the two together add exactly one entry. */
  lemma SubmitTwiceIsDuplicate(registrations: seq<Registration>, rawName: string, workshopId: string)
    requires CheckSubmission(registrations, rawName, workshopId).None?
    ensures var once := Submit(registrations, rawName, workshopId);
            CheckSubmission(once, rawName, workshopId) == Some(Duplicate)
            && Submit(once, rawName, workshopId) == once
            && |once| == |registrations| + 1
  {
    var once := Submit(registrations, rawName, workshopId);
    assert once[|registrations|] in once;
  }

  /** `registrations[index]`: the entry at `index`, or nothing when the index is past the end. */
  function RegistrationAt(registrations: seq<Registration>, index: nat): (r: Option<Registration>)
    ensures r.None? <==> index >= |registrations|
    ensures r.Some? ==> r.value == registrations[index] && r.value in registrations
  {
    if index < |registrations| then Some(registrations[index]) else None
  }

  /** `registrations.splice(index, 1)`: removes exactly the entry at `index`; the entries before
      it keep their positions, the ones after it move down by one. */
  function RemoveAt(registrations: seq<Registration>, index: nat): (r: seq<Registration>)
    requires index < |registrations|
    ensures |r| == |registrations| - 1
    ensures forall k :: 0 <= k < index ==> r[k] == registrations[k]
    ensures forall k :: index <= k < |r| ==> r[k] == registrations[k + 1]
    ensures multiset(r) + multiset{registrations[index]} == multiset(registrations)
  {
    assert registrations == registrations[..index] + [registrations[index]] + registrations[index + 1..];
    registrations[..index] + registrations[index + 1..]
  }

  /** Removing an entry keeps the ledger invariant. */
  lemma RemoveAtKeepsInvariant(registrations: seq<Registration>, index: nat)
    requires index < |registrations| && LedgerInvariant(registrations)
    ensures LedgerInvariant(RemoveAt(registrations, index))
  {
    var r := RemoveAt(registrations, index);
    assert NoDuplicates(r) by {
      forall i, j | 0 <= i < j < |r| ensures r[i] != r[j] {
        var i' := if i < index then i else i + 1;
        var j' := if j < index then j else j + 1;
        assert r[i] == registrations[i'] && r[j] == registrations[j'];
      }
    }
    assert AllWellFormed(r) by {
      forall i | 0 <= i < |r| ensures WellFormed(r[i]) {
        var i' := if i < index then i else i + 1;
        assert r[i] == registrations[i'];
      }
    }
  }
}
