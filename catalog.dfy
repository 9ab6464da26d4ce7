/** The workshop catalog and the lookups the widget makes into it. */
module Catalog {

  import opened Wrappers

  /** A workshop record. `start` and `end` are instants in epoch milliseconds; they are
      absent for catalogs that carry no schedule. */
  datatype Workshop = Workshop(
    id: string,
    title: string,
    level: string,
    description: string,
    start: Option<int>,
    end: Option<int>)

  /** True when no workshop before position `n` has identifier `id`. */
  predicate NoneBefore(workshops: seq<Workshop>, n: int, id: string)
    requires n <= |workshops|
  {
    forall j :: 0 <= j < n ==> workshops[j].id != id
  }

  /** `workshops.find(w => w.id === id)`: the first workshop whose identifier is `id`,
      or nothing when there is none. */
  function FindWorkshopById(workshops: seq<Workshop>, id: string): (r: Option<Workshop>)
    ensures r.None? <==> NoneBefore(workshops, |workshops|, id)
    ensures r.Some? ==> r.value in workshops && r.value.id == id
  {
    if workshops == [] then None
    else if workshops[0].id == id then Some(workshops[0])
    else FindWorkshopById(workshops[1..], id)
  }

  /** The lookup returns the FIRST match: the workshop at `i` when it has identifier `id` and
      no earlier one does. */
  lemma {:induction false} FindReturnsFirstMatch(workshops: seq<Workshop>, id: string, i: nat)
    requires i < |workshops| && workshops[i].id == id && NoneBefore(workshops, i, id)
    ensures FindWorkshopById(workshops, id) == Some(workshops[i])
  {
    if i > 0 {
      FindReturnsFirstMatch(workshops[1..], id, i - 1);
    }
  }

  /** The title a registration row shows for `workshopId`: the title of the workshop the
      catalog finds, and the raw identifier when it finds none. */
  function DisplayTitle(workshops: seq<Workshop>, workshopId: string): (t: string)
    ensures NoneBefore(workshops, |workshops|, workshopId) ==> t == workshopId
    ensures forall i ::
              (0 <= i < |workshops| && workshops[i].id == workshopId && NoneBefore(workshops, i, workshopId))
              ==> t == workshops[i].title
  {
    FirstMatchTitles(workshops, workshopId);
    match FindWorkshopById(workshops, workshopId)
    case Some(ws) => ws.title
    case None => workshopId
  }

  /** `FindReturnsFirstMatch` for every position at once. */
  lemma FirstMatchTitles(workshops: seq<Workshop>, id: string)
    ensures forall i ::
              (0 <= i < |workshops| && workshops[i].id == id && NoneBefore(workshops, i, id))
              ==> FindWorkshopById(workshops, id) == Some(workshops[i])
  {
    forall i | 0 <= i < |workshops| && workshops[i].id == id && NoneBefore(workshops, i, id) {
      FindReturnsFirstMatch(workshops, id, i);
    }
  }
}
