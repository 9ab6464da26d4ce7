/** Week 13: the catalog now comes from a data file loaded at start-up; registration is as in
    week 12. */
module Week13 {

  import opened Wrappers
  import opened Catalog
  import opened Ledger
  import Text

  /** The page's module-level state: the loaded catalog and the registration list. */
  class App {
    var workshops: seq<Workshop>
    var registrations: seq<Registration>

    constructor ()
      ensures workshops == [] && registrations == []
    {
      workshops := [];
      registrations := [];
    }

    /** The successful end of `loadWorkshops`: the catalog is replaced as a whole. */
    method WorkshopsLoaded(data: seq<Workshop>)
      modifies this
      ensures workshops == data && registrations == old(registrations)
    {
      workshops := data;
    }

    /** `handleRegisterSubmit`: trims the name, refuses an empty name, then an empty workshop
        id, then a pair already registered, and otherwise appends the pair. The answer is the
        error the form shows, `None` when it shows none. */
    method HandleRegisterSubmit(rawName: string, workshopId: string) returns (error: Option<RegError>)
      modifies this
      ensures error == CheckSubmission(old(registrations), rawName, workshopId)
      ensures registrations == Submit(old(registrations), rawName, workshopId)
      ensures workshops == old(workshops)
    {
      var userName := Text.Trim(rawName);
      Text.TrimEmptyIffBlank(rawName);
      if userName == [] {
        return Some(MissingName);
      }
      if workshopId == [] {
        return Some(MissingWorkshop);
      }
      var already := AlreadyRegistered(registrations, userName, workshopId);
      if already {
        return Some(Duplicate);
      }
      registrations := registrations + [Registration(userName, workshopId)];
      error := None;
    }

    /** The titles `renderRegistrations` shows, row by row: the catalog title of the
        registration's workshop, or the raw workshop id when the catalog has no such workshop
        (the catalog and the ledger are not kept consistent with each other). */
    function RegistrationTitles(): (titles: seq<string>)
      reads this
      ensures |titles| == |registrations|
      ensures forall i :: 0 <= i < |registrations| && NoneBefore(workshops, |workshops|, registrations[i].workshopId)
                          ==> titles[i] == registrations[i].workshopId
      ensures forall i, j ::
                (0 <= i < |registrations| && 0 <= j < |workshops| && workshops[j].id == registrations[i].workshopId
                 && NoneBefore(workshops, j, registrations[i].workshopId))
                ==> titles[i] == workshops[j].title
    {
      seq(|registrations|, i requires 0 <= i < |registrations| reads this =>
        DisplayTitle(workshops, registrations[i].workshopId))
    }
  }
}
