/** The order in which a column shows its tickets: the comparator handed to
    `Array.prototype.sort`, a stable sort as a function, and the in-place sort
    proved to compute it. */
module TicketOrder {
  import opened Kanban

  /** Title comparison, taken as lexicographic order on character codes. */
  predicate TitleLe(a: string, b: string)
    decreases |a|
  {
    a == [] || (b != [] && (a[0] < b[0] || (a[0] == b[0] && TitleLe(a[1..], b[1..]))))
  }

  lemma {:induction false} TitleLeTotal(a: string, b: string)
    ensures TitleLe(a, b) || TitleLe(b, a)
    decreases |a|
  {
    if a != [] && b != [] && a[0] == b[0] {
      TitleLeTotal(a[1..], b[1..]);
    }
  }

  lemma {:induction false} TitleLeTransitive(a: string, b: string, c: string)
    requires TitleLe(a, b) && TitleLe(b, c)
    ensures TitleLe(a, c)
    decreases |a|
  {
    if a != [] && a[0] == b[0] && b[0] == c[0] {
      TitleLeTransitive(a[1..], b[1..], c[1..]);
    }
  }

  lemma {:induction false} TitleLeAntisymmetric(a: string, b: string)
    requires TitleLe(a, b) && TitleLe(b, a)
    ensures a == b
    decreases |a|
  {
    if a != [] {
      TitleLeAntisymmetric(a[1..], b[1..]);
      assert a == [a[0]] + a[1..] && b == [b[0]] + b[1..];
    }
  }

  /** `localeCompare` on titles, taken as a comparison of character codes:
      negative, zero or positive as `a` sorts before, with or after `b`. */
  function TitleCompare(a: string, b: string): (r: int)
    ensures -1 <= r <= 1
    ensures r == 0 <==> a == b
    ensures r <= 0 <==> TitleLe(a, b)
    decreases |a|
  {
    if a == [] then (if b == [] then 0 else -1)
    else if b == [] then 1
    else if a[0] < b[0] then -1
    else if a[0] > b[0] then 1
    else
      assert a == [a[0]] + a[1..] && b == [b[0]] + b[1..];
      TitleCompare(a[1..], b[1..])
  }

  /** The comparator returns at most zero for (a, b): `a` may stay before `b`.
      `b.priority - a.priority <= 0` for priority, `localeCompare <= 0` otherwise. */
  predicate Before(s: Sorting, a: Ticket, b: Ticket) {
    if s.PriorityDescending? then a.priority >= b.priority else TitleLe(a.title, b.title)
  }

  /** The comparator returns zero: the two tickets tie. */
  predicate SameRank(s: Sorting, a: Ticket, b: Ticket) {
    if s.PriorityDescending? then a.priority == b.priority else a.title == b.title
  }

  /** The comparator handed to the sort: priority descending, or the title
      comparison for every other ordering. `Before` is its "at most zero" and
      `SameRank` its "zero". */
  function Compare(s: Sorting, a: Ticket, b: Ticket): (r: int)
    ensures r <= 0 <==> Before(s, a, b)
    ensures r == 0 <==> SameRank(s, a, b)
  {
    if s.PriorityDescending? then b.priority - a.priority else TitleCompare(a.title, b.title)
  }

  /** The comparator is consistent: a total preorder whose ties are `SameRank`. */
  lemma BeforeIsTotalPreorder(s: Sorting, a: Ticket, b: Ticket, c: Ticket)
    ensures Before(s, a, b) || Before(s, b, a)
    ensures Before(s, a, b) && Before(s, b, c) ==> Before(s, a, c)
    ensures SameRank(s, a, b) <==> Before(s, a, b) && Before(s, b, a)
  {
    if !s.PriorityDescending? {
      TitleLeTotal(a.title, b.title);
      TitleLeTotal(a.title, a.title);
      if TitleLe(a.title, b.title) && TitleLe(b.title, c.title) {
        TitleLeTransitive(a.title, b.title, c.title);
      }
      if TitleLe(a.title, b.title) && TitleLe(b.title, a.title) {
        TitleLeAntisymmetric(a.title, b.title);
      }
    }
  }

  predicate SortedBy(s: Sorting, xs: seq<Ticket>) {
    forall i, j :: 0 <= i < j < |xs| ==> Before(s, xs[i], xs[j])
  }

  /** The tickets of `xs` that tie with `t`, in their order in `xs`. */
  function Peers(s: Sorting, xs: seq<Ticket>, t: Ticket): seq<Ticket>
    decreases |xs|
  {
    if xs == [] then []
    else Peers(s, xs[..|xs| - 1], t) + (if SameRank(s, xs[|xs| - 1], t) then [xs[|xs| - 1]] else [])
  }

  lemma {:induction false} PeersMember(s: Sorting, xs: seq<Ticket>, t: Ticket, x: Ticket)
    requires x in Peers(s, xs, t)
    ensures x in xs && SameRank(s, x, t)
    decreases |xs|
  {
    var init := xs[..|xs| - 1];
    if x in Peers(s, init, t) {
      PeersMember(s, init, t, x);
      assert xs == init + [xs[|xs| - 1]];
    }
  }

  /** Inserts `x` behind every trailing ticket that must come after it,
      scanning from the right as an insertion sort does. */
  function Insert(s: Sorting, xs: seq<Ticket>, x: Ticket): (r: seq<Ticket>)
    ensures multiset(r) == multiset(xs) + multiset{x}
    ensures |r| == |xs| + 1
    decreases |xs|
  {
    if xs == [] || Before(s, xs[|xs| - 1], x) then xs + [x]
    else
      assert xs == xs[..|xs| - 1] + [xs[|xs| - 1]];
      Insert(s, xs[..|xs| - 1], x) + [xs[|xs| - 1]]
  }

  /** The stable sort of `xs`: its tickets inserted one by one, left to right. */
  function StableSort(s: Sorting, xs: seq<Ticket>): (r: seq<Ticket>)
    ensures multiset(r) == multiset(xs)
    ensures |r| == |xs|
    decreases |xs|
  {
    if xs == [] then []
    else
      assert xs == xs[..|xs| - 1] + [xs[|xs| - 1]];
      Insert(s, StableSort(s, xs[..|xs| - 1]), xs[|xs| - 1])
  }

  lemma SortedSnoc(s: Sorting, xs: seq<Ticket>, x: Ticket)
    requires SortedBy(s, xs)
    requires forall i :: 0 <= i < |xs| ==> Before(s, xs[i], x)
    ensures SortedBy(s, xs + [x])
  {
  }

  lemma InsertMember(s: Sorting, xs: seq<Ticket>, x: Ticket, i: nat)
    requires i < |Insert(s, xs, x)|
    ensures Insert(s, xs, x)[i] == x || Insert(s, xs, x)[i] in xs
  {
    var ins := Insert(s, xs, x);
    assert ins[i] in multiset(ins);
  }

  lemma {:induction false} InsertSorted(s: Sorting, xs: seq<Ticket>, x: Ticket)
    requires SortedBy(s, xs)
    ensures SortedBy(s, Insert(s, xs, x))
    decreases |xs|
  {
    if xs == [] {
    } else if Before(s, xs[|xs| - 1], x) {
      var last := xs[|xs| - 1];
      forall i | 0 <= i < |xs| - 1 ensures Before(s, xs[i], x) {
        BeforeIsTotalPreorder(s, xs[i], last, x);
      }
    } else {
      var init, last := xs[..|xs| - 1], xs[|xs| - 1];
      InsertPastLast(s, xs, x);
      InsertSorted(s, init, x);
      var ins := Insert(s, init, x);
      BeforeIsTotalPreorder(s, x, last, x);
      forall i | 0 <= i < |ins| ensures Before(s, ins[i], last) {
        InsertMember(s, init, x, i);
        if ins[i] != x {
          var k :| 0 <= k < |init| && init[k] == ins[i];
          assert xs[k] == ins[i];
        }
      }
      SortedSnoc(s, ins, last);
    }
  }


  lemma PeersSnoc(s: Sorting, xs: seq<Ticket>, x: Ticket, t: Ticket)
    ensures Peers(s, xs + [x], t) == Peers(s, xs, t) + (if SameRank(s, x, t) then [x] else [])
  {
    assert (xs + [x])[..|xs|] == xs;
  }

  lemma SwapEmpty<T>(a: seq<T>, x: seq<T>, l: seq<T>)
    requires x == [] || l == []
    ensures a + x + l == a + l + x
  {
  }

  lemma {:induction false} InsertPeers(s: Sorting, xs: seq<Ticket>, x: Ticket, t: Ticket)
    ensures Peers(s, Insert(s, xs, x), t) == Peers(s, xs, t) + (if SameRank(s, x, t) then [x] else [])
    decreases |xs|
  {
    if xs == [] || Before(s, xs[|xs| - 1], x) {
      PeersSnoc(s, xs, x, t);
    } else {
      var init, last := xs[..|xs| - 1], xs[|xs| - 1];
      InsertPastLast(s, xs, x);
      SnocSplit(xs);
      InsertPeers(s, init, x, t);
      PeersSnoc(s, Insert(s, init, x), last, t);
      PeersSnoc(s, init, last, t);
      // `last` must follow `x`, so the two cannot both tie with `t`
      BeforeIsTotalPreorder(s, last, x, x);
      SwapEmpty(Peers(s, init, t), if SameRank(s, x, t) then [x] else [],
                if SameRank(s, last, t) then [last] else []);
    }
  }

  /** What `Array.prototype.sort` promises for a consistent comparator: the
      result is sorted, holds the same tickets, and keeps tied tickets in
      their original relative order. */
  lemma {:induction false} StableSortCorrect(s: Sorting, xs: seq<Ticket>)
    ensures SortedBy(s, StableSort(s, xs))
    ensures multiset(StableSort(s, xs)) == multiset(xs)
    ensures forall t :: Peers(s, StableSort(s, xs), t) == Peers(s, xs, t)
    decreases |xs|
  {
    if xs != [] {
      var init, last := xs[..|xs| - 1], xs[|xs| - 1];
      StableSortCorrect(s, init);
      InsertSorted(s, StableSort(s, init), last);
      forall t ensures Peers(s, StableSort(s, xs), t) == Peers(s, xs, t) {
        InsertPeers(s, StableSort(s, init), last, t);
      }
    }
  }

  lemma PeersOfLast(s: Sorting, xs: seq<Ticket>)
    requires xs != []
    ensures Peers(s, xs, xs[|xs| - 1]) != []
  {
  }

  lemma SortedLastIsGreatest(s: Sorting, xs: seq<Ticket>, x: Ticket)
    requires SortedBy(s, xs) && x in xs
    ensures Before(s, x, xs[|xs| - 1])
  {
    var last := xs[|xs| - 1];
    BeforeIsTotalPreorder(s, last, last, last);
  }

  lemma SnocSplit<T>(xs: seq<T>)
    requires xs != []
    ensures xs == xs[..|xs| - 1] + [xs[|xs| - 1]]
  {
  }

  lemma SnocInjective<T>(a: seq<T>, b: seq<T>, y: T, z: T)
    requires a + [y] == b + [z]
    ensures y == z
  {
    assert (a + [y])[|a|] == y && (b + [z])[|b|] == z;
  }

  lemma CancelSuffix<T>(a: seq<T>, b: seq<T>, e: seq<T>)
    requires a + e == b + e
    ensures a == b
  {
    assert a == (a + e)[..|a|] && b == (b + e)[..|b|];
  }

  /** The last ticket of `ys` occurs in any sequence with the same run of its peers. */
  lemma LastOccursIn(s: Sorting, ys: seq<Ticket>, zs: seq<Ticket>)
    requires ys != [] && Peers(s, ys, ys[|ys| - 1]) == Peers(s, zs, ys[|ys| - 1])
    ensures ys[|ys| - 1] in zs
  {
    var y := ys[|ys| - 1];
    PeersSnoc(s, ys[..|ys| - 1], y, y);
    assert ys == ys[..|ys| - 1] + [y];
    PeersMember(s, zs, y, y);
  }

  /** Two sorted sequences with the same runs of tied tickets end alike. */
  lemma SortedPeersSameLast(s: Sorting, ys: seq<Ticket>, zs: seq<Ticket>)
    requires ys != [] && zs != [] && SortedBy(s, ys) && SortedBy(s, zs)
    requires forall t :: Peers(s, ys, t) == Peers(s, zs, t)
    ensures ys[|ys| - 1] == zs[|zs| - 1]
  {
    var y, z := ys[|ys| - 1], zs[|zs| - 1];
    // the last ticket of either sequence occurs in the other and cannot pass its last
    LastOccursIn(s, ys, zs);
    SortedLastIsGreatest(s, zs, y);
    LastOccursIn(s, zs, ys);
    SortedLastIsGreatest(s, ys, z);
    BeforeIsTotalPreorder(s, y, z, y);
    TiedLastsEqual(s, ys, zs);
  }

  /** Two sequences ending in tied tickets, with the same run of their peers,
      end in the same ticket. */
  lemma TiedLastsEqual(s: Sorting, ys: seq<Ticket>, zs: seq<Ticket>)
    requires ys != [] && zs != [] && SameRank(s, ys[|ys| - 1], zs[|zs| - 1])
    requires Peers(s, ys, zs[|zs| - 1]) == Peers(s, zs, zs[|zs| - 1])
    ensures ys[|ys| - 1] == zs[|zs| - 1]
  {
    var y, z := ys[|ys| - 1], zs[|zs| - 1];
    SnocSplit(ys);
    SnocSplit(zs);
    PeersSnoc(s, ys[..|ys| - 1], y, z);
    PeersSnoc(s, zs[..|zs| - 1], z, z);
    SnocInjective(Peers(s, ys[..|ys| - 1], z), Peers(s, zs[..|zs| - 1], z), y, z);
  }

  lemma PeersDropLast(s: Sorting, ys: seq<Ticket>, zs: seq<Ticket>, y: Ticket)
    requires forall t :: Peers(s, ys + [y], t) == Peers(s, zs + [y], t)
    ensures forall t :: Peers(s, ys, t) == Peers(s, zs, t)
  {
    forall t ensures Peers(s, ys, t) == Peers(s, zs, t) {
      PeersSnoc(s, ys, y, t);
      PeersSnoc(s, zs, y, t);
      CancelSuffix(Peers(s, ys, t), Peers(s, zs, t), if SameRank(s, y, t) then [y] else []);
    }
  }

  /** Two sorted sequences that agree on every run of tied tickets are equal. */
  lemma {:induction false} SortedPeersUnique(s: Sorting, ys: seq<Ticket>, zs: seq<Ticket>)
    requires SortedBy(s, ys) && SortedBy(s, zs)
    requires forall t :: Peers(s, ys, t) == Peers(s, zs, t)
    ensures ys == zs
    decreases |ys| + |zs|
  {
    if ys == [] || zs == [] {
      if zs != [] {
        PeersOfLast(s, zs);
        assert false;
      } else if ys != [] {
        PeersOfLast(s, ys);
        assert false;
      }
    } else {
      SortedPeersSameLast(s, ys, zs);
      var ys', zs', y := ys[..|ys| - 1], zs[..|zs| - 1], ys[|ys| - 1];
      assert ys == ys' + [y] && zs == zs' + [y];
      PeersDropLast(s, ys', zs', y);
      SortedPeersUnique(s, ys', zs');
    }
  }

  /** Any sorted rearrangement that keeps ties in their original order is the
      stable sort: which stable algorithm the runtime uses does not matter. */
  lemma SortIsDetermined(s: Sorting, xs: seq<Ticket>, ys: seq<Ticket>)
    requires SortedBy(s, ys)
    requires forall t :: Peers(s, ys, t) == Peers(s, xs, t)
    ensures ys == StableSort(s, xs)
  {
    StableSortCorrect(s, xs);
    SortedPeersUnique(s, ys, StableSort(s, xs));
  }

  /** Putting `x` at position `j` of all but the last element, then the last
      element back at the end, puts `x` at position `j` of the whole. */
  lemma SplitBeforeLast<T>(xs: seq<T>, x: T, j: nat)
    requires j < |xs|
    ensures xs[..|xs| - 1][..j] + [x] + xs[..|xs| - 1][j..] + [xs[|xs| - 1]] == xs[..j] + [x] + xs[j..]
  {
    var init, last := xs[..|xs| - 1], xs[|xs| - 1];
    assert init[..j] == xs[..j];
    assert init[j..] + [last] == xs[j..];
    assert init[..j] + [x] + init[j..] + [last] == init[..j] + [x] + (init[j..] + [last]);
  }


  lemma Reassemble<T>(r: seq<T>, xs: seq<T>, x: T, j: nat)
    requires j <= |xs| && |r| == |xs| + 1 && r[j] == x
    requires forall k :: 0 <= k < j ==> r[k] == xs[k]
    requires forall k :: j < k < |r| ==> r[k] == xs[k - 1]
    ensures r == xs[..j] + [x] + xs[j..]
  {
  }

  lemma InsertPastLast(s: Sorting, xs: seq<Ticket>, x: Ticket)
    requires xs != [] && !Before(s, xs[|xs| - 1], x)
    ensures Insert(s, xs, x) == Insert(s, xs[..|xs| - 1], x) + [xs[|xs| - 1]]
  {
  }

  lemma InsertAfterLast(s: Sorting, xs: seq<Ticket>, x: Ticket)
    requires xs == [] || Before(s, xs[|xs| - 1], x)
    ensures Insert(s, xs, x) == xs[..|xs|] + [x] + xs[|xs|..]
  {
    assert xs[..|xs|] == xs && xs[|xs|..] == [];
  }

  /** `Insert` puts `x` right behind the last ticket that may precede it,
      provided every ticket after that point must follow `x`. */
  lemma {:induction false} InsertAtPosition(s: Sorting, xs: seq<Ticket>, x: Ticket, j: nat)
    requires j <= |xs| && (j == 0 || Before(s, xs[j - 1], x))
    requires forall k :: j <= k < |xs| ==> !Before(s, xs[k], x)
    ensures Insert(s, xs, x) == xs[..j] + [x] + xs[j..]
    decreases |xs|
  {
    if j == |xs| {
      InsertAfterLast(s, xs, x);
    } else {
      var init := xs[..|xs| - 1];
      InsertPastLast(s, xs, x);
      assert forall k :: 0 <= k < |init| ==> init[k] == xs[k];
      InsertAtPosition(s, init, x, j);
      SplitBeforeLast(xs, x, j);
    }
  }

  /** A prefix shifted right by one from position `j`, with `x` written at
      `j`, is the insertion of `x` when `j` is where `Insert` puts it. */
  lemma ShiftedIsInsert(s: Sorting, r: seq<Ticket>, xs: seq<Ticket>, x: Ticket, j: nat)
    requires j <= |xs| && |r| == |xs| + 1 && r[j] == x
    requires forall k :: 0 <= k < j ==> r[k] == xs[k]
    requires forall k :: j < k < |r| ==> r[k] == xs[k - 1]
    requires j == 0 || Before(s, xs[j - 1], x)
    requires forall k :: j <= k < |xs| ==> !Before(s, xs[k], x)
    ensures r == Insert(s, xs, x)
  {
    InsertAtPosition(s, xs, x, j);
    Reassemble(r, xs, x, j);
  }

  /** Shifts right by one every ticket at the end of `a[..i]` that must come
      after `x`, and returns the position left free for `x`. */
  method ShiftGreater(s: Sorting, a: array<Ticket>, i: nat, x: Ticket) returns (j: nat)
    requires i < a.Length
    modifies a
    ensures j <= i && (j == 0 || Before(s, old(a[j - 1]), x))
    ensures forall k :: 0 <= k < j ==> a[k] == old(a[k])
    ensures forall k :: j < k <= i ==> a[k] == old(a[k - 1])
    ensures forall k :: i < k < a.Length ==> a[k] == old(a[k])
    ensures forall k :: j <= k < i ==> !Before(s, old(a[k]), x)
  {
    j := i;
    while j > 0 && !Before(s, a[j - 1], x)
      invariant 0 <= j <= i
      invariant forall k :: 0 <= k < j ==> a[k] == old(a[k])
      invariant forall k :: j < k <= i ==> a[k] == old(a[k - 1])
      invariant forall k :: i < k < a.Length ==> a[k] == old(a[k])
      invariant forall k :: j <= k < i ==> !Before(s, old(a[k]), x)
    {
      a[j] := a[j - 1];
      j := j - 1;
    }
  }

  /** Moves `a[i]` left past every ticket of the prefix `a[..i]` that must
      come after it: one pass of the insertion sort. */
  method InsertAt(s: Sorting, a: array<Ticket>, i: nat)
    requires i < a.Length
    modifies a
    ensures a[..i + 1] == Insert(s, old(a[..i]), old(a[i]))
    ensures forall k :: i < k < a.Length ==> a[k] == old(a[k])
  {
    ghost var sorted := a[..i];
    var x := a[i];
    var j := ShiftGreater(s, a, i, x);
    a[j] := x;
    ShiftedIsInsert(s, a[..i + 1], sorted, x, j);
  }

  lemma SnocPrefix<T>(xs: seq<T>, i: nat)
    requires i < |xs|
    ensures xs[..i + 1] == xs[..i] + [xs[i]]
  {
  }

  lemma StableSortSnoc(s: Sorting, xs: seq<Ticket>, x: Ticket)
    ensures StableSort(s, xs + [x]) == Insert(s, StableSort(s, xs), x)
  {
    assert (xs + [x])[..|xs|] == xs;
  }

  /** Inserting the next ticket into the sorted prefix sorts one more. */
  lemma SortStep(s: Sorting, xs: seq<Ticket>, i: nat, pre: seq<Ticket>, post: seq<Ticket>)
    requires i < |xs| && pre == StableSort(s, xs[..i])
    requires post == Insert(s, pre, xs[i])
    ensures post == StableSort(s, xs[..i + 1])
  {
    SnocPrefix(xs, i);
    StableSortSnoc(s, xs[..i], xs[i]);
  }

  /** Sorts one bucket in place with the column comparator (a stable
      insertion sort). */
  method SortInPlace(s: Sorting, a: array<Ticket>)
    modifies a
    ensures a[..] == StableSort(s, old(a[..]))
  {
    ghost var orig := a[..];
    for i := 0 to a.Length
      invariant a[..i] == StableSort(s, orig[..i])
      invariant forall k :: i <= k < a.Length ==> a[k] == orig[k]
    {
      ghost var pre := a[..i];
      InsertAt(s, a, i);
      SortStep(s, orig, i, pre, a[..i + 1]);
    }
    assert orig[..a.Length] == orig;
    assert a[..a.Length] == a[..];
  }

}
