/** Entities of a kanban snapshot, the user's view choice, the static lookup
    tables, and the rule that gives each ticket the label of its column. */
module Kanban {

  datatype Option<T> = None | Some(value: T)

  /** A ticket of the fetched snapshot. `priority` is a plain number. */
  datatype Ticket = Ticket(id: string, title: string, tag: seq<string>,
                           userId: string, status: string, priority: int)

  datatype User = User(id: string, name: string, available: bool)

  /** The `{tickets, users}` document the board is drawn from. */
  datatype Snapshot = Snapshot(tickets: seq<Ticket>, users: seq<User>)

  /** How tickets are split into columns. A view restored from the browser's
      store is not validated, so any other value can reach the projection;
      `UnknownGrouping` stands for it. */
  datatype Grouping = ByStatus | ByUser | ByPriority | UnknownGrouping(raw: string)

  /** How each column is ordered. Every value other than `PriorityDescending`
      takes the title branch of the comparator. */
  datatype Sorting = PriorityDescending | TitleAscending | UnknownSorting(raw: string)

  datatype View = View(grouping: Grouping, sorting: Sorting)

  /** The view used when nothing was stored: group by status, order by priority. */
  const DefaultView := View(ByStatus, PriorityDescending)

  const PriorityLabels: map<int, string> :=
    map[4 := "Urgent", 3 := "High", 2 := "Medium", 1 := "Low", 0 := "No priority"]

  const StatusIcons: map<string, string> :=
    map["Backlog" := "\U{1F4CB}", "Todo" := "\U{1F4DD}", "In progress" := "\U{1F504}",
        "Done" := "\U{2705}", "Cancelled" := "\U{274C}"]

  /** The pushpin shown for a column whose label is not a known status. */
  const DefaultIcon := "\U{1F4CC}"

  /** The label used when a ticket's user cannot be named. */
  const Unassigned := "Unassigned"

  /** What indexing the priority table yields once it is used as a property
      key: a missing entry is `undefined`, which becomes the key "undefined". */
  function PriorityLabel(p: int): (r: string)
    ensures 0 <= p <= 4 ==> r == PriorityLabels[p]
    ensures r == "undefined" <==> !(0 <= p <= 4)
    ensures r != ""
  {
    if p in PriorityLabels then PriorityLabels[p] else "undefined"
  }

  /** Distinct known priorities get distinct labels, and none of them shares
      the label of an unknown priority. */
  lemma PriorityLabelInjective(p: int, q: int)
    requires PriorityLabel(p) == PriorityLabel(q)
    ensures p == q || (!(0 <= p <= 4) && !(0 <= q <= 4))
  {
  }

  /** `users[i]` is the first user whose id is `id`. */
  predicate FirstMatch(users: seq<User>, id: string, i: int) {
    0 <= i < |users| && users[i].id == id && forall j :: 0 <= j < i ==> users[j].id != id
  }

  /** The first user with the given id, as `Array.prototype.find` returns it. */
  function FindUser(users: seq<User>, id: string): (r: Option<User>)
    ensures r.None? <==> forall i :: 0 <= i < |users| ==> users[i].id != id
    ensures forall i :: FirstMatch(users, id, i) ==> r == Some(users[i])
  {
    if users == [] then None
    else if users[0].id == id then Some(users[0])
    else
      var r := FindUser(users[1..], id);
      assert forall i :: FirstMatch(users, id, i) ==> FirstMatch(users[1..], id, i - 1);
      r
  }

  /** The name of the first user whose id matches, or "Unassigned" when there
      is no such user or that user's name is empty (a falsy string). */
  function UserLabel(users: seq<User>, id: string): (r: string)
    ensures r != ""
    ensures (forall i :: 0 <= i < |users| ==> users[i].id != id) ==> r == Unassigned
    ensures forall i :: FirstMatch(users, id, i) ==>
                          r == (if users[i].name == "" then Unassigned else users[i].name)
  {
    match FindUser(users, id)
    case Some(u) => if u.name != "" then u.name else Unassigned
    case None => Unassigned
  }

  /** The column label of one ticket under the chosen grouping. An unknown
      grouping matches no case of the switch and keeps the initial ''. */
  function LabelOf(users: seq<User>, grouping: Grouping, t: Ticket): (r: string)
    ensures grouping == ByStatus ==> r == t.status
    ensures grouping == ByUser ==>
              && ((forall u :: 0 <= u < |users| ==> users[u].id != t.userId) ==> r == Unassigned)
              && (forall u :: FirstMatch(users, t.userId, u) ==>
                    r == if users[u].name == "" then Unassigned else users[u].name)
    ensures grouping == ByPriority ==>
              r == if 0 <= t.priority <= 4 then PriorityLabels[t.priority] else "undefined"
    ensures grouping.UnknownGrouping? ==> r == ""
  {
    match grouping
    case ByStatus => t.status
    case ByUser => UserLabel(users, t.userId)
    case ByPriority => PriorityLabel(t.priority)
    case UnknownGrouping(_) => ""
  }

  /** The icon in a column header: the status icon when the label is a known
      status, the pushpin otherwise. */
  function ColumnIcon(key: string): (r: string)
    ensures r != ""
    ensures r == DefaultIcon <==> key !in StatusIcons
    ensures key in StatusIcons ==> r == StatusIcons[key]
  {
    if key in StatusIcons && StatusIcons[key] != "" then StatusIcons[key] else DefaultIcon
  }
}
