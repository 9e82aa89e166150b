/** The board projection: tickets are appended to the column of their label
    in input order, columns appear in the order their labels are first met,
    and each column is then sorted with the view's comparator. */
module Board {
  import opened Kanban
  import opened TicketOrder

  /** One column of the board: the label it is keyed by and its tickets. */
  datatype Column = Column(key: string, tickets: seq<Ticket>)

  predicate DistinctKeys(g: seq<Column>) {
    forall i, j :: 0 <= i < j < |g| ==> g[i].key != g[j].key
  }

  /** The position of the column keyed `key`, or `|g|` when there is none:
      the lookup `grouped[key]` in the insertion-ordered dictionary. */
  function ColumnIndex(g: seq<Column>, key: string): (k: nat)
    ensures k <= |g|
    ensures k < |g| ==> g[k].key == key
    ensures k == |g| ==> forall i :: 0 <= i < |g| ==> g[i].key != key
  {
    if g == [] then 0
    else if g[0].key == key then 0
    else
      var k := ColumnIndex(g[1..], key);
      assert forall i :: 1 <= i < |g| ==> g[i] == g[1..][i - 1];
      1 + k
  }

  /** Creates the column for `key` at the end when it is missing, then
      appends `t` to that column: every column keeps its key, and only the
      column keyed `key` gains `t`, at its end. */
  function Push(g: seq<Column>, key: string, t: Ticket): (r: seq<Column>)
    ensures |r| == (if ColumnIndex(g, key) < |g| then |g| else |g| + 1)
    ensures forall i :: 0 <= i < |g| ==> r[i].key == g[i].key
    ensures r[ColumnIndex(g, key)].key == key
    ensures forall i :: 0 <= i < |r| ==>
              r[i].tickets == (if i < |g| then g[i].tickets else []) + (if i == ColumnIndex(g, key) then [t] else [])
  {
    var k := ColumnIndex(g, key);
    var g' := if k == |g| then g + [Column(key, [])] else g;
    g'[k := Column(key, g'[k].tickets + [t])]
  }

  /** The dictionary after the first pass over `ts`: no two columns share a
      key, and no column is empty. */
  function Grouped(keyOf: Ticket -> string, ts: seq<Ticket>): (g: seq<Column>)
    ensures DistinctKeys(g)
    ensures forall i :: 0 <= i < |g| ==> g[i].tickets != []
    decreases |ts|
  {
    if ts == [] then []
    else
      var t := ts[|ts| - 1];
      var g' := Grouped(keyOf, ts[..|ts| - 1]);
      PushDistinct(g', keyOf(t), t);
      Push(g', keyOf(t), t)
  }

  /** Each column's tickets put in the view's order (the second pass): the
      columns keep their keys, their order and their tickets. */
  function Arrange(g: seq<Column>, s: Sorting): (r: seq<Column>)
    ensures |r| == |g|
    ensures forall i :: 0 <= i < |g| ==>
              && r[i].key == g[i].key
              && multiset(r[i].tickets) == multiset(g[i].tickets)
              && |r[i].tickets| == |g[i].tickets|
  {
    seq(|g|, i requires 0 <= i < |g| => Column(g[i].key, StableSort(s, g[i].tickets)))
  }

  /** The label rule of a grouping, as a function of the ticket. */
  function Labeller(users: seq<User>, grouping: Grouping): Ticket -> string
  {
    t => LabelOf(users, grouping, t)
  }

  /** The board drawn from a snapshot under a view: distinct keys, and no
      empty column. */
  function Projection(snapshot: Snapshot, view: View): (b: seq<Column>)
    ensures DistinctKeys(b)
    ensures forall i :: 0 <= i < |b| ==> b[i].tickets != []
  {
    Arrange(Grouped(Labeller(snapshot.users, view.grouping), snapshot.tickets), view.sorting)
  }

  /** The tickets of `ts` labelled `key`, in their input order. */
  function Members(keyOf: Ticket -> string, ts: seq<Ticket>, key: string): seq<Ticket>
    decreases |ts|
  {
    if ts == [] then []
    else
      var t := ts[|ts| - 1];
      Members(keyOf, ts[..|ts| - 1], key) + (if keyOf(t) == key then [t] else [])
  }

  /** The index of the first ticket of `ts` labelled `key`, or `|ts|`. */
  function FirstLabelled(keyOf: Ticket -> string, ts: seq<Ticket>, key: string): (r: nat)
    ensures r <= |ts|
    ensures r < |ts| ==> keyOf(ts[r]) == key
    ensures forall k :: 0 <= k < r ==> keyOf(ts[k]) != key
  {
    if ts == [] then 0
    else if keyOf(ts[0]) == key then 0
    else
      var r := FirstLabelled(keyOf, ts[1..], key);
      assert forall k :: 1 <= k < |ts| ==> ts[k] == ts[1..][k - 1];
      1 + r
  }

  /** The tickets of the board read column by column. */
  function Flatten(g: seq<Column>): seq<Ticket>
    decreases |g|
  {
    if g == [] then [] else Flatten(g[..|g| - 1]) + g[|g| - 1].tickets
  }

  // ---------------------------------------------------------------------
  // The first pass

  lemma GroupedSnoc(keyOf: Ticket -> string, ts: seq<Ticket>, t: Ticket)
    ensures Grouped(keyOf, ts + [t]) == Push(Grouped(keyOf, ts), keyOf(t), t)
  {
    assert (ts + [t])[..|ts|] == ts;
  }

  lemma MembersSnoc(keyOf: Ticket -> string, ts: seq<Ticket>, t: Ticket, key: string)
    ensures Members(keyOf, ts + [t], key) ==
            Members(keyOf, ts, key) + (if keyOf(t) == key then [t] else [])
  {
    assert (ts + [t])[..|ts|] == ts;
  }

  lemma {:induction false} MembersNone(keyOf: Ticket -> string, ts: seq<Ticket>, key: string)
    requires forall k :: 0 <= k < |ts| ==> keyOf(ts[k]) != key
    ensures Members(keyOf, ts, key) == []
    decreases |ts|
  {
    if ts != [] {
      MembersNone(keyOf, ts[..|ts| - 1], key);
    }
  }

  lemma PushDistinct(g: seq<Column>, key: string, t: Ticket)
    requires DistinctKeys(g)
    ensures DistinctKeys(Push(g, key, t))
  {
  }

  /** Only the column keyed `key` gains `t`, at its end. */
  lemma PushTickets(g: seq<Column>, key: string, t: Ticket)
    requires DistinctKeys(g)
    ensures var r := Push(g, key, t);
      forall i :: 0 <= i < |r| ==>
        r[i].tickets == (if i < |g| then g[i].tickets else []) + (if r[i].key == key then [t] else [])
  {
  }

  lemma KeyHasColumn(g: seq<Column>, key: string, i: nat)
    requires i < |g| && g[i].key == key
    ensures ColumnIndex(g, key) < |g|
  {
  }

  /** A label that had a column keeps one, and the new ticket's label gets one. */
  lemma CoversStep(keyOf: Ticket -> string, ts: seq<Ticket>, t: Ticket, key: string)
    requires ColumnIndex(Grouped(keyOf, ts), key) < |Grouped(keyOf, ts)| || key == keyOf(t)
    ensures ColumnIndex(Grouped(keyOf, ts + [t]), key) < |Grouped(keyOf, ts + [t])|
  {
    var g' := Grouped(keyOf, ts);
    GroupedSnoc(keyOf, ts, t);
    KeyHasColumn(Grouped(keyOf, ts + [t]), key, ColumnIndex(g', key));
  }

  /** After the first pass every ticket's label has a column. */
  lemma {:induction false} GroupedCovers(keyOf: Ticket -> string, ts: seq<Ticket>)
    ensures var g := Grouped(keyOf, ts);
      forall k :: 0 <= k < |ts| ==> ColumnIndex(g, keyOf(ts[k])) < |g|
    decreases |ts|
  {
    if ts != [] {
      var ts', t := ts[..|ts| - 1], ts[|ts| - 1];
      SnocSplit(ts);
      GroupedCovers(keyOf, ts');
      var g := Grouped(keyOf, ts);
      forall k | 0 <= k < |ts| ensures ColumnIndex(g, keyOf(ts[k])) < |g| {
        if k < |ts'| {
          assert ts[k] == ts'[k];
        }
        CoversStep(keyOf, ts', t, keyOf(ts[k]));
      }
    }
  }

  /** A label without a column after a pass over `ts` is the label of no
      ticket of `ts`. */
  lemma UnmetKey(keyOf: Ticket -> string, ts: seq<Ticket>, key: string)
    requires ColumnIndex(Grouped(keyOf, ts), key) == |Grouped(keyOf, ts)|
    ensures forall k :: 0 <= k < |ts| ==> keyOf(ts[k]) != key
  {
    GroupedCovers(keyOf, ts);
  }

  /** One more ticket keeps every column equal to its members. */
  lemma MembersStep(keyOf: Ticket -> string, ts: seq<Ticket>, t: Ticket, i: nat)
    requires i < |Grouped(keyOf, ts + [t])|
    requires i < |Grouped(keyOf, ts)| ==>
               Grouped(keyOf, ts)[i].tickets == Members(keyOf, ts, Grouped(keyOf, ts)[i].key)
    ensures Grouped(keyOf, ts + [t])[i].tickets == Members(keyOf, ts + [t], Grouped(keyOf, ts + [t])[i].key)
  {
    var g' := Grouped(keyOf, ts);
    GroupedSnoc(keyOf, ts, t);
    PushTickets(g', keyOf(t), t);
    var g := Grouped(keyOf, ts + [t]);
    MembersSnoc(keyOf, ts, t, g[i].key);
    if i == |g'| {
      // a new column: no earlier ticket carries its key
      UnmetKey(keyOf, ts, keyOf(t));
      MembersNone(keyOf, ts, keyOf(t));
    }
  }

  /** After the first pass each column holds exactly the tickets labelled
      with its key, in their input order. */
  lemma {:induction false} GroupedMembers(keyOf: Ticket -> string, ts: seq<Ticket>)
    ensures var g := Grouped(keyOf, ts);
      forall i :: 0 <= i < |g| ==> g[i].tickets == Members(keyOf, ts, g[i].key)
    decreases |ts|
  {
    if ts != [] {
      var ts', t := ts[..|ts| - 1], ts[|ts| - 1];
      SnocSplit(ts);
      GroupedMembers(keyOf, ts');
      var g := Grouped(keyOf, ts);
      forall i | 0 <= i < |g| ensures g[i].tickets == Members(keyOf, ts, g[i].key) {
        MembersStep(keyOf, ts', t, i);
      }
    }
  }

  lemma GroupedColumn(keyOf: Ticket -> string, ts: seq<Ticket>, i: nat)
    requires i < |Grouped(keyOf, ts)|
    ensures Grouped(keyOf, ts)[i].tickets == Members(keyOf, ts, Grouped(keyOf, ts)[i].key)
  {
    GroupedMembers(keyOf, ts);
  }

  lemma FirstLabelledSnoc(keyOf: Ticket -> string, ts: seq<Ticket>, t: Ticket, key: string)
    ensures var f := FirstLabelled(keyOf, ts, key);
      FirstLabelled(keyOf, ts + [t], key) ==
        if f < |ts| then f else if keyOf(t) == key then |ts| else |ts| + 1
  {
    var f := FirstLabelled(keyOf, ts, key);
    var f' := FirstLabelled(keyOf, ts + [t], key);
    assert forall k :: 0 <= k < |ts| ==> (ts + [t])[k] == ts[k];
    assert (ts + [t])[|ts|] == t;
    if f < |ts| {
      assert !(f' < f) && !(f < f');
    } else if keyOf(t) == key {
      assert !(f' < |ts|) && !(|ts| < f');
    } else {
      assert !(f' < |ts|) && f' != |ts|;
    }
  }

  /** How one more ticket moves the first occurrence of a column's key: an
      old column keeps it, a new column's key is first met at the new ticket. */
  lemma FirstLabelledStep(keyOf: Ticket -> string, ts: seq<Ticket>, t: Ticket, i: nat)
    requires i < |Grouped(keyOf, ts + [t])|
    requires i < |Grouped(keyOf, ts)| ==> FirstLabelled(keyOf, ts, Grouped(keyOf, ts)[i].key) < |ts|
    ensures var g', g := Grouped(keyOf, ts), Grouped(keyOf, ts + [t]);
      FirstLabelled(keyOf, ts + [t], g[i].key) ==
        if i < |g'| then FirstLabelled(keyOf, ts, g'[i].key) else |ts|
  {
    var g' := Grouped(keyOf, ts);
    GroupedSnoc(keyOf, ts, t);
    var g := Grouped(keyOf, ts + [t]);
    FirstLabelledSnoc(keyOf, ts, t, g[i].key);
    if i == |g'| {
      UnmetKey(keyOf, ts, keyOf(t));
    }
  }

  /** Columns appear in the order their keys are first met in the input, and
      every key is the label of some ticket. */
  lemma {:induction false} GroupedOrder(keyOf: Ticket -> string, ts: seq<Ticket>)
    ensures var g := Grouped(keyOf, ts);
      && (forall i :: 0 <= i < |g| ==> FirstLabelled(keyOf, ts, g[i].key) < |ts|)
      && (forall i, j :: 0 <= i < j < |g| ==>
            FirstLabelled(keyOf, ts, g[i].key) < FirstLabelled(keyOf, ts, g[j].key))
    decreases |ts|
  {
    if ts != [] {
      var ts', t := ts[..|ts| - 1], ts[|ts| - 1];
      SnocSplit(ts);
      GroupedOrder(keyOf, ts');
      var g' := Grouped(keyOf, ts');
      var g := Grouped(keyOf, ts);
      forall i | 0 <= i < |g|
        ensures FirstLabelled(keyOf, ts, g[i].key) ==
                (if i < |g'| then FirstLabelled(keyOf, ts', g'[i].key) else |ts'|)
      {
        FirstLabelledStep(keyOf, ts', t, i);
      }
    }
  }

  // ---------------------------------------------------------------------
  // Partition

  lemma FlattenSnoc(g: seq<Column>, c: Column)
    ensures Flatten(g + [c]) == Flatten(g) + c.tickets
  {
    assert (g + [c])[..|g|] == g;
  }

  lemma {:induction false} FlattenUpdate(g: seq<Column>, k: nat, c: Column)
    requires k < |g|
    ensures multiset(Flatten(g[k := c])) + multiset(g[k].tickets) == multiset(Flatten(g)) + multiset(c.tickets)
    decreases |g|
  {
    var init, last := g[..|g| - 1], g[|g| - 1];
    SnocSplit(g);
    FlattenSnoc(init, last);
    if k == |g| - 1 {
      assert g[k := c] == init + [c];
      FlattenSnoc(init, c);
    } else {
      FlattenUpdate(init, k, c);
      assert g[k] == init[k];
      assert g[k := c] == init[k := c] + [last];
      FlattenSnoc(init[k := c], last);
      MultisetAppend(Flatten(init[k := c]), Flatten(init), init[k].tickets, c.tickets, last.tickets);
    }
  }

  lemma MultisetAppend<T>(x: seq<T>, y: seq<T>, p: seq<T>, q: seq<T>, l: seq<T>)
    requires multiset(x) + multiset(p) == multiset(y) + multiset(q)
    ensures multiset(x + l) + multiset(p) == multiset(y + l) + multiset(q)
  {
    calc {
      multiset(x + l) + multiset(p);
      multiset(x) + multiset(l) + multiset(p);
      (multiset(x) + multiset(p)) + multiset(l);
      (multiset(y) + multiset(q)) + multiset(l);
      multiset(y) + multiset(l) + multiset(q);
      multiset(y + l) + multiset(q);
    }
  }

  lemma UpdateAppended<T>(g: seq<T>, a: T, b: T)
    ensures (g + [a])[|g| := b] == g + [b]
  {
  }

  lemma CancelTally<T>(a: multiset<T>, b: multiset<T>, x: seq<T>, t: T)
    requires a + multiset(x) == b + multiset(x + [t])
    ensures a == b + multiset{t}
  {
    assert multiset(x + [t]) == multiset(x) + multiset{t};
    var m := multiset(x);
    assert a + m == (b + multiset{t}) + m;
    forall e
      ensures a[e] == (b + multiset{t})[e]
    {
      assert (a + m)[e] == ((b + multiset{t}) + m)[e];
    }
  }

  lemma PushTally(g: seq<Column>, key: string, t: Ticket)
    ensures multiset(Flatten(Push(g, key, t))) == multiset(Flatten(g)) + multiset{t}
  {
    var k := ColumnIndex(g, key);
    if k == |g| {
      assert [] + [t] == [t];
      UpdateAppended(g, Column(key, []), Column(key, [t]));
      FlattenSnoc(g, Column(key, [t]));
    } else {
      var c := Column(key, g[k].tickets + [t]);
      assert Push(g, key, t) == g[k := c];
      FlattenUpdate(g, k, c);
      CancelTally(multiset(Flatten(g[k := c])), multiset(Flatten(g)), g[k].tickets, t);
    }
  }

  lemma {:induction false} GroupedTally(keyOf: Ticket -> string, ts: seq<Ticket>)
    ensures multiset(Flatten(Grouped(keyOf, ts))) == multiset(ts)
    decreases |ts|
  {
    if ts != [] {
      var ts', t := ts[..|ts| - 1], ts[|ts| - 1];
      SnocSplit(ts);
      GroupedTally(keyOf, ts');
      GroupedSnoc(keyOf, ts', t);
      PushTally(Grouped(keyOf, ts'), keyOf(t), t);
    }
  }

  lemma ArrangeSnoc(g: seq<Column>, c: Column, s: Sorting)
    ensures Arrange(g + [c], s) == Arrange(g, s) + [Column(c.key, StableSort(s, c.tickets))]
  {
  }

  lemma {:induction false} ArrangeTally(g: seq<Column>, s: Sorting)
    ensures multiset(Flatten(Arrange(g, s))) == multiset(Flatten(g))
    decreases |g|
  {
    if g != [] {
      var init, last := g[..|g| - 1], g[|g| - 1];
      SnocSplit(g);
      ArrangeTally(init, s);
      ArrangeSnoc(init, last, s);
      FlattenSnoc(Arrange(init, s), Column(last.key, StableSort(s, last.tickets)));
      FlattenSnoc(init, last);
    }
  }

  // ---------------------------------------------------------------------
  // Properties of the board

  /** Nothing is lost or duplicated: the columns, read one after another,
      hold exactly the input tickets, so their sizes add up to the input's. */
  lemma ProjectionPartition(snapshot: Snapshot, view: View)
    ensures multiset(Flatten(Projection(snapshot, view))) == multiset(snapshot.tickets)
    ensures |Flatten(Projection(snapshot, view))| == |snapshot.tickets|
  {
    var g := Grouped(Labeller(snapshot.users, view.grouping), snapshot.tickets);
    GroupedTally(Labeller(snapshot.users, view.grouping), snapshot.tickets);
    ArrangeTally(g, view.sorting);
    assert |multiset(Flatten(Projection(snapshot, view)))| == |multiset(snapshot.tickets)|;
  }

  lemma {:induction false} SameKeysSameIndex(b: seq<Column>, g: seq<Column>, key: string)
    requires |b| == |g| && forall i :: 0 <= i < |g| ==> b[i].key == g[i].key
    ensures ColumnIndex(b, key) == ColumnIndex(g, key)
    decreases |g|
  {
    if g != [] && g[0].key != key {
      SameKeysSameIndex(b[1..], g[1..], key);
    }
  }

  /** Keys are distinct, every ticket's label has a column, and the columns
      come in the order their labels are first met in the input. */
  lemma ProjectionKeys(snapshot: Snapshot, view: View)
    ensures var b := Projection(snapshot, view);
      && DistinctKeys(b)
      && (forall k :: 0 <= k < |snapshot.tickets| ==>
            ColumnIndex(b, LabelOf(snapshot.users, view.grouping, snapshot.tickets[k])) < |b|)
      && (forall i :: 0 <= i < |b| ==>
            FirstLabelled(Labeller(snapshot.users, view.grouping), snapshot.tickets, b[i].key) < |snapshot.tickets|)
      && (forall i, j :: 0 <= i < j < |b| ==>
            FirstLabelled(Labeller(snapshot.users, view.grouping), snapshot.tickets, b[i].key) <
            FirstLabelled(Labeller(snapshot.users, view.grouping), snapshot.tickets, b[j].key))
  {
    var keyOf, ts := Labeller(snapshot.users, view.grouping), snapshot.tickets;
    var g := Grouped(keyOf, ts);
    var b := Projection(snapshot, view);
    GroupedCovers(keyOf, ts);
    GroupedOrder(keyOf, ts);
    forall k | 0 <= k < |ts| ensures ColumnIndex(b, LabelOf(snapshot.users, view.grouping, ts[k])) < |b| {
      SameKeysSameIndex(b, g, keyOf(ts[k]));
    }
  }


  /** Each column is the stable sort of its members, which are the input
      tickets labelled with its key, in input order. */
  lemma ProjectionColumn(snapshot: Snapshot, view: View, i: nat)
    requires i < |Projection(snapshot, view)|
    ensures var c := Projection(snapshot, view)[i];
      c.tickets == StableSort(view.sorting, Members(Labeller(snapshot.users, view.grouping), snapshot.tickets, c.key))
  {
    GroupedColumn(Labeller(snapshot.users, view.grouping), snapshot.tickets, i);
  }

  /** Each column is sorted by the comparator, holds the same tickets as its
      members, and keeps tied tickets in input order. */
  lemma ColumnOrder(snapshot: Snapshot, view: View, i: nat)
    requires i < |Projection(snapshot, view)|
    ensures var c := Projection(snapshot, view)[i];
      var members := Members(Labeller(snapshot.users, view.grouping), snapshot.tickets, c.key);
      && SortedBy(view.sorting, c.tickets)
      && multiset(c.tickets) == multiset(members)
      && forall t :: Peers(view.sorting, c.tickets, t) == Peers(view.sorting, members, t)
  {
    var c := Projection(snapshot, view)[i];
    ProjectionColumn(snapshot, view, i);
    StableSortCorrect(view.sorting, Members(Labeller(snapshot.users, view.grouping), snapshot.tickets, c.key));
  }

  lemma {:induction false} MembersSpec(keyOf: Ticket -> string, ts: seq<Ticket>, key: string, t: Ticket)
    ensures t in Members(keyOf, ts, key) <==> t in ts && keyOf(t) == key
    decreases |ts|
  {
    if ts != [] {
      var ts' := ts[..|ts| - 1];
      SnocSplit(ts);
      MembersSpec(keyOf, ts', key, t);
    }
  }

  /** A ticket sits in a column exactly when it is an input ticket whose
      label is that column's key; with distinct keys that is one column. */
  lemma TicketColumn(snapshot: Snapshot, view: View, i: nat, t: Ticket)
    requires i < |Projection(snapshot, view)|
    ensures var c := Projection(snapshot, view)[i];
      t in c.tickets <==> t in snapshot.tickets && LabelOf(snapshot.users, view.grouping, t) == c.key
  {
    var c := Projection(snapshot, view)[i];
    ProjectionColumn(snapshot, view, i);
    var members := Members(Labeller(snapshot.users, view.grouping), snapshot.tickets, c.key);
    MembersSpec(Labeller(snapshot.users, view.grouping), snapshot.tickets, c.key, t);
    assert t in c.tickets <==> t in multiset(c.tickets);
    assert t in members <==> t in multiset(members);
  }

  /** The key of the column holding a ticket follows the grouping's rule:
      the status, the user's label, the priority's label, or the empty label. */
  lemma ColumnKeyRule(snapshot: Snapshot, view: View, i: nat, t: Ticket)
    requires i < |Projection(snapshot, view)|
    requires t in Projection(snapshot, view)[i].tickets
    ensures var key := Projection(snapshot, view)[i].key;
      && (view.grouping == ByStatus ==> key == t.status)
      && (view.grouping == ByUser ==> key == UserLabel(snapshot.users, t.userId))
      && (view.grouping == ByPriority ==> key == PriorityLabel(t.priority))
      && (view.grouping.UnknownGrouping? ==> key == "")
  {
    TicketColumn(snapshot, view, i, t);
    assert LabelOf(snapshot.users, view.grouping, t) == Projection(snapshot, view)[i].key;
  }

  /** The board shown before any view is stored: one column per status, the
      most urgent ticket first. */
  lemma DefaultBoard(snapshot: Snapshot, i: nat)
    requires i < |Projection(snapshot, DefaultView)|
    ensures var c := Projection(snapshot, DefaultView)[i];
      && (forall t :: t in c.tickets ==> t in snapshot.tickets && t.status == c.key)
      && (forall j, k :: 0 <= j < k < |c.tickets| ==> c.tickets[j].priority >= c.tickets[k].priority)
  {
    var c := Projection(snapshot, DefaultView)[i];
    ColumnOrder(snapshot, DefaultView, i);
    forall t | t in c.tickets ensures t in snapshot.tickets && t.status == c.key {
      TicketColumn(snapshot, DefaultView, i, t);
    }
  }

  /** Grouped by priority, a column never mixes a known priority with any
      other priority. */
  lemma PriorityColumnUniform(snapshot: Snapshot, view: View, i: nat, t1: Ticket, t2: Ticket)
    requires view.grouping == ByPriority && i < |Projection(snapshot, view)|
    requires t1 in Projection(snapshot, view)[i].tickets && t2 in Projection(snapshot, view)[i].tickets
    ensures t1.priority == t2.priority || (!(0 <= t1.priority <= 4) && !(0 <= t2.priority <= 4))
  {
    TicketColumn(snapshot, view, i, t1);
    TicketColumn(snapshot, view, i, t2);
    PriorityLabelInjective(t1.priority, t2.priority);
  }

  /** Grouped by user, a ticket whose user id matches no user is shown in
      the column "Unassigned". */
  lemma UnknownUserUnassigned(snapshot: Snapshot, view: View, t: Ticket)
    requires view.grouping == ByUser && t in snapshot.tickets
    requires forall u :: 0 <= u < |snapshot.users| ==> snapshot.users[u].id != t.userId
    ensures exists i :: (0 <= i < |Projection(snapshot, view)| &&
      Projection(snapshot, view)[i].key == Unassigned && t in Projection(snapshot, view)[i].tickets)
  {
    var b := Projection(snapshot, view);
    ProjectionKeys(snapshot, view);
    var k :| 0 <= k < |snapshot.tickets| && snapshot.tickets[k] == t;
    var i := ColumnIndex(b, LabelOf(snapshot.users, view.grouping, t));
    TicketColumn(snapshot, view, i, t);
  }

  // ---------------------------------------------------------------------
  // The imperative projection

  /** The first pass: appends every ticket to the column of its label,
      creating a column at the end when a label is met for the first time. */
  method GroupByLabel(tickets: seq<Ticket>, users: seq<User>, grouping: Grouping) returns (grouped: seq<Column>)
    ensures grouped == Grouped(Labeller(users, grouping), tickets)
  {
    grouped := [];
    for n := 0 to |tickets|
      invariant grouped == Grouped(Labeller(users, grouping), tickets[..n])
    {
      var ticket := tickets[n];
      var key := LabelOf(users, grouping, ticket);
      var k := ColumnIndex(grouped, key);
      if k == |grouped| {
        grouped := grouped + [Column(key, [])];
      }
      grouped := grouped[k := Column(key, grouped[k].tickets + [ticket])];
      GroupedSnoc(Labeller(users, grouping), tickets[..n], ticket);
      SnocPrefix(tickets, n);
    }
    assert tickets[..|tickets|] == tickets;
  }

  /** The second pass: sorts the tickets of each column in place. */
  method SortColumns(g: seq<Column>, s: Sorting) returns (sorted: seq<Column>)
    ensures sorted == Arrange(g, s)
  {
    sorted := g;
    for i := 0 to |g|
      invariant |sorted| == |g|
      invariant forall j :: 0 <= j < i ==> sorted[j] == Column(g[j].key, StableSort(s, g[j].tickets))
      invariant forall j :: i <= j < |g| ==> sorted[j] == g[j]
    {
      var members := sorted[i].tickets;
      var a := new Ticket[|members|](j requires 0 <= j < |members| => members[j]);
      assert a[..] == members;
      SortInPlace(s, a);
      sorted := sorted[i := Column(sorted[i].key, a[..])];
    }
  }

  /** Builds the board from a snapshot under a view. */
  method GroupTickets(snapshot: Snapshot, view: View) returns (board: seq<Column>)
    ensures board == Projection(snapshot, view)
  {
    var grouped := GroupByLabel(snapshot.tickets, snapshot.users, view.grouping);
    board := SortColumns(grouped, view.sorting);
  }
}
