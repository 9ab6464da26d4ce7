/** Week 12: a fixed catalog of three workshops and a registration form that appends to the
    ledger. */
module Week12 {

  import opened Wrappers
  import opened Catalog
  import opened Ledger
  import Text

  /** The catalog, fixed in the program. */
  const Workshops: seq<Workshop> := [
    Workshop("ws1", "Intro to JavaScript", "Beginner",
      "Learn the basics of JavaScript: variables, functions, and simple DOM manipulation.", None, None),
    Workshop("ws2", "UI Design Basics", "Intermediate",
      "Understand layout, typography, and visual hierarchy to design better user interfaces.", None, None),
    Workshop("ws3", "REST API with Node.js", "Advanced",
      "Build and consume REST APIs using Node.js and Express, including routing and JSON handling.", None, None)
  ]

  /** The three identifiers are distinct, the lookup finds exactly them, and the registration
      list shows the catalog title for each of them and the raw identifier for anything else. */
  lemma FixedCatalogLookup(id: string)
    ensures Workshops[0].id != Workshops[1].id && Workshops[1].id != Workshops[2].id
            && Workshops[0].id != Workshops[2].id
    ensures FindWorkshopById(Workshops, id).Some? <==> id == "ws1" || id == "ws2" || id == "ws3"
    ensures id == "ws1" ==> DisplayTitle(Workshops, id) == "Intro to JavaScript"
    ensures id == "ws2" ==> DisplayTitle(Workshops, id) == "UI Design Basics"
    ensures id == "ws3" ==> DisplayTitle(Workshops, id) == "REST API with Node.js"
    ensures id != "ws1" && id != "ws2" && id != "ws3" ==> DisplayTitle(Workshops, id) == id
  {
    assert Workshops[0].id == "ws1" && Workshops[1].id == "ws2" && Workshops[2].id == "ws3";
    if id == "ws2" {
      FindReturnsFirstMatch(Workshops, id, 1);
    } else if id == "ws3" {
      FindReturnsFirstMatch(Workshops, id, 2);
    }
  }

  /** The page's module-level state: the registration list. */
  class App {
    var registrations: seq<Registration>

    constructor ()
      ensures registrations == []
    {
      registrations := [];
    }

    /** `handleRegisterSubmit`: trims the name, refuses an empty name, then an empty workshop
        id, then a pair already registered, and otherwise appends the pair. The answer is the
        error the form shows, `None` when it shows none. */
    method HandleRegisterSubmit(rawName: string, workshopId: string) returns (error: Option<RegError>)
      modifies this
      ensures error == CheckSubmission(old(registrations), rawName, workshopId)
      ensures registrations == Submit(old(registrations), rawName, workshopId)
    {
      var userName := Text.Trim(rawName);
      Text.TrimEmptyIffBlank(rawName);
      if userName == [] {
        return Some(MissingName);
      }
      if workshopId == [] {
        return Some(MissingWorkshop);
      }
      var already := AlreadyRegistered(registrations, userName, workshopId);
      if already {
        return Some(Duplicate);
      }
      registrations := registrations + [Registration(userName, workshopId)];
      error := None;
    }
  }
}
