# Kanban board projection

A model of how a kanban board application turns a fetched `{tickets, users}`
snapshot into the columns it shows. The view choice has two parts:

- the grouping: status, user or priority;
- the ordering: priority or title.

The board is built in two passes (`groupTickets` in `KanbanBoard.tsx`):

1. Every ticket is appended, in input order, to the column of its label. A
   column is created at the end of the dictionary the first time its label is
   met.
2. Each column is then sorted in place with the view's comparator.

The label rules are the following:

- By status, the label is the ticket's status.
- By user, it is the name of the first user whose id matches. When there is
  no such user, or that user's name is empty, it is "Unassigned".
- By priority, it is the entry of the priority table, e.g. 4 is "Urgent" and
  0 is "No priority".
- A view restored from the browser's store is not validated. Any other
  grouping keeps the initial empty label. Any ordering other than priority
  takes the title branch of the comparator.

A column header shows the status icon of its label, or a pushpin when the
label is not a known status.

The project has three modules:

- `Kanban` (`kanban.dfy`) holds:
  - the entities;
  - the two lookup tables;
  - the default view;
  - the user lookup;
  - the label rule;
  - the header icon.
- `TicketOrder` (`ticket_order.dfy`) holds:
  - the comparator as the predicate `Before`, with its tie relation
    `SameRank`;
  - a stable sort as a function (`StableSort`);
  - the in-place insertion sort on an array (`SortInPlace`), proved equal to
    it.

  `SortIsDetermined` shows that every sort that is sorted and keeps tied
  tickets in input order gives the same result. So the choice of stable
  algorithm does not matter.
- `Board` (`board.dfy`) holds:
  - the dictionary as an insertion-ordered sequence of `Column`s;
  - the two passes as functions (`Grouped`, `Arrange`, `Projection`);
  - the imperative `GroupTickets`, proved equal to `Projection`;
  - the properties of the board.

The lemmas about the first pass take the label rule as a parameter
`keyOf: Ticket -> string`. `Projection` instantiates it with
`Labeller(users, grouping)`.

## Model

| member | source | states |
|---|---|---|
| Kanban.PriorityLabel | KanbanBoard.tsx:24-30 | a priority in 0..4 gets its table entry; the label is "undefined" exactly for priorities outside 0..4, where the table has no entry; it is never empty |
| Kanban.FindUser | KanbanBoard.tsx:83 | the result is absent exactly when no user has the id; otherwise it is the first user with that id |
| Kanban.UserLabel | KanbanBoard.tsx:83 | never empty; "Unassigned" when no user has the id; otherwise the first matching user's name, or "Unassigned" when that name is empty |
| Kanban.LabelOf | KanbanBoard.tsx:77-88 | by status the label is the status; by user it is "Unassigned" when no user has the id, else the first matching user's name, or "Unassigned" when that name is empty; by priority it is the table entry for 0..4 and "undefined" otherwise; any other grouping keeps the empty label |
| Kanban.ColumnIcon | KanbanBoard.tsx:138 | a known status gets its table icon; the pushpin is shown exactly when the label is not a status of the table; never empty |
| TicketOrder.TitleLe | KanbanBoard.tsx:96 | `localeCompare` as order on character codes: a title precedes another when it is a prefix of it or has the smaller code at the first difference |
| TicketOrder.TitleCompare | KanbanBoard.tsx:96 | the three-way comparison of two titles is -1, 0 or 1; it is zero exactly for equal titles and at most zero exactly when the first title is ordered before the second |
| TicketOrder.TitleLeTotal | KanbanBoard.tsx:96 | any two titles are comparable |
| TicketOrder.TitleLeTransitive | KanbanBoard.tsx:96 | title order is transitive |
| TicketOrder.TitleLeAntisymmetric | KanbanBoard.tsx:96 | titles ordered both ways are equal, so the comparator returns zero only for equal titles |
| TicketOrder.Before | KanbanBoard.tsx:94-96 | a ticket may precede another when, by priority, its priority is not lower, and otherwise when its title is ordered before the other's |
| TicketOrder.SameRank | KanbanBoard.tsx:94-96 | two tickets tie when, by priority, their priorities are equal, and otherwise when their titles are equal |
| TicketOrder.Compare | KanbanBoard.tsx:94-96 | the comparator's value is at most zero exactly when the first ticket may precede the second, and zero exactly when they tie |
| TicketOrder.BeforeIsTotalPreorder | KanbanBoard.tsx:94-97 | the comparator is consistent: total and transitive, and two tickets tie exactly when each may precede the other |
| TicketOrder.Insert | KanbanBoard.tsx:94-97 | one insertion step keeps the tickets and adds exactly the inserted one |
| TicketOrder.InsertSorted | KanbanBoard.tsx:94-97 | inserting into a sorted column keeps it sorted |
| TicketOrder.InsertPeers | KanbanBoard.tsx:94-97 | an inserted ticket goes behind every ticket it ties with |
| TicketOrder.StableSort | KanbanBoard.tsx:94-97 | the sorted column is a permutation of the input with the same length; its order is stated by `StableSortCorrect` |
| TicketOrder.StableSortCorrect | KanbanBoard.tsx:94-97 | the sorted column is ordered by the comparator, is a permutation of the input, and keeps tied tickets in their input order |
| TicketOrder.SortIsDetermined | KanbanBoard.tsx:94-97 | any ordered permutation that keeps ties in input order equals the stable sort, so every stable sort gives the same column |
| TicketOrder.InsertAtPosition | KanbanBoard.tsx:94-97 | inserting puts the ticket right behind the last ticket that may precede it |
| TicketOrder.ShiftGreater | KanbanBoard.tsx:94-97 | shifts right by one every trailing ticket that must follow the new one; the ticket right before the returned gap may precede it |
| TicketOrder.InsertAt | KanbanBoard.tsx:94-97 | one pass of the in-place insertion sort yields `Insert` of the element into the sorted prefix and leaves the rest of the array alone |
| TicketOrder.SortInPlace | KanbanBoard.tsx:94 | sorting an array in place leaves it equal to the stable sort of its old contents |
| Board.ColumnIndex | KanbanBoard.tsx:89 | the lookup finds a column keyed by the label, or reports that no column has that key |
| Board.FirstLabelled | KanbanBoard.tsx:76-90 | the position of the first ticket carrying a label, or the input length when none does |
| Board.Push | KanbanBoard.tsx:89-90 | a push keeps every column's key and order, gives the label a column (a new last one when it was missing), and appends the ticket to the end of that column only |
| Board.PushTickets | KanbanBoard.tsx:89-90 | with distinct keys, a push appends the ticket to its label's column only |
| Board.PushTally | KanbanBoard.tsx:89-90 | a push adds exactly one ticket to the board |
| Board.Grouped | KanbanBoard.tsx:76-91 | after the first pass no two columns share a key and no column is empty |
| Board.GroupedCovers | KanbanBoard.tsx:76-91 | after the first pass every ticket's label has a column |
| Board.GroupedMembers | KanbanBoard.tsx:76-91 | after the first pass each column holds exactly the tickets with its label, in input order |
| Board.GroupedOrder | KanbanBoard.tsx:76-91 | columns come in the order their labels are first met, and every key is the label of some ticket |
| Board.GroupedTally | KanbanBoard.tsx:76-91 | the first pass loses and duplicates no ticket |
| Board.Arrange | KanbanBoard.tsx:93-98 | sorting the columns keeps their number, order and keys, and each column keeps its tickets |
| Board.ArrangeTally | KanbanBoard.tsx:93-98 | sorting the columns loses and duplicates no ticket |
| Board.Projection | KanbanBoard.tsx:73-101 | the board has distinct column keys and no empty column |
| Board.ProjectionPartition | KanbanBoard.tsx:73-101 | the board's columns together hold exactly the input tickets, so the column counts add up to the number of tickets |
| Board.ProjectionKeys | KanbanBoard.tsx:73-101 | column keys are distinct, every ticket's label has a column, and columns come in first-encounter order of their labels |
| Board.ProjectionColumn | KanbanBoard.tsx:73-101 | each column is the stable sort of the tickets with its label, taken in input order |
| Board.ColumnOrder | KanbanBoard.tsx:93-98 | each column is ordered by the comparator, is a permutation of its members, and keeps tied members in input order |
| Board.MembersSpec | KanbanBoard.tsx:76-91 | a ticket is a member of a label exactly when it is an input ticket with that label |
| Board.TicketColumn | KanbanBoard.tsx:76-91 | a ticket sits in a column exactly when it is an input ticket whose label is the column's key |
| Board.ColumnKeyRule | KanbanBoard.tsx:77-88 | a column's key follows the grouping's rule for each of its tickets: the status, the user's label (`UserLabel`), the priority's label (`PriorityLabel`), or the empty label for an unknown grouping |
| Board.DefaultBoard | KanbanBoard.tsx:50-51 | under the initial view each column holds input tickets of one status, the most urgent first |
| Board.PriorityColumnUniform | KanbanBoard.tsx:85-86 | grouped by priority, a column never mixes a known priority with any other priority |
| Board.UnknownUserUnassigned | KanbanBoard.tsx:83 | grouped by user, a ticket whose user id matches no user is in the "Unassigned" column |
| Board.GroupByLabel | KanbanBoard.tsx:74-91 | the first pass as a loop over the tickets computes `Grouped` |
| Board.SortColumns | KanbanBoard.tsx:93-98 | the second pass, sorting each column in place, computes `Arrange` |
| Board.GroupTickets | KanbanBoard.tsx:73-101 | the whole projection computes `Projection`, so every property above holds of its result |

## Left out

- Loading the snapshot over the network (`fetch`) is left out. The snapshot
  is a parameter.
- Saving and restoring the view choice (`localStorage`, JSON) is left out. A
  restored value is a parameter: the `UnknownGrouping` and `UnknownSorting`
  cases stand for any value the store may hold.
- React state, effects, the dropdown and the rendering are not modelled.
  The rendering covers the card layout, the avatar initial, the priority
  icons and the tag list. Of the rendering, only the header icon of a column
  (`ColumnIcon`) is modelled.
- `TicketOrder.TitleLe`: `localeCompare` is modelled as lexicographic order
  on character codes. Locale collation is outside the model, for example
  case-insensitive first-level comparison, where "apple" sorts before
  "Banana". What the model keeps is a total order that ties only on equal
  titles.
- Titles, statuses and names are sequences of characters. JavaScript's
  UTF-16 code units and surrogate pairs are not modelled.
- `Kanban.Ticket`: priorities are unbounded integers. Fractional, `NaN` or
  very large JavaScript numbers are not modelled.
- `Board.ProjectionKeys`: the order of keys assumes that no label is a
  canonical array index such as "7". A JavaScript object lists such keys
  first, in numeric order, before the other keys in insertion order.
- Labels that name a property inherited by every object are not modelled,
  such as "constructor" or "toString". For them the source finds an
  inherited value instead of a missing column, so the first pass fails. The
  header lookup would likewise find that value instead of the pushpin.
- Each column is a sequence of the model. The second pass copies it into an
  array, sorts the array in place with `SortInPlace`, and stores the result
  back. Array aliasing between columns does not arise.
- Out-of-range priority: indexing the priority table with a priority
  outside 0..4 does not fail. It reads `undefined`, which becomes the
  property key "undefined", so those tickets share a column named
  "undefined". `PriorityLabel` models exactly that.
