/**
 * The open list of both searches. Entries are `(cost, counter, state)` triples. One search keeps
 * them in a list that it stably sorts by cost before popping the head; the other keeps them in a
 * binary heap and pops the tuple-smallest entry. This module states both pops and shows they
 * agree whenever equal costs sit in the list in counter order and counters are unique.
 */
module Frontier {
  import opened Successors

  /** A queued node: its priority `time + h`, the counter value it was pushed with, and the node. */
  datatype Entry = Entry(priority: nat, seqNo: nat, state: State)

  /** Tuple order on `(priority, seqNo)`, which is how the heap compares entries. */
  predicate LexLess(a: Entry, b: Entry) {
    a.priority < b.priority || (a.priority == b.priority && a.seqNo < b.seqNo)
  }

  predicate SortedByPriority(q: seq<Entry>) {
    forall i, j | 0 <= i < j < |q| :: q[i].priority <= q[j].priority
  }

  /** Entries of equal priority appear in the order they were pushed. */
  predicate FifoTies(q: seq<Entry>) {
    forall i, j | 0 <= i < j < |q| && q[i].priority == q[j].priority :: q[i].seqNo < q[j].seqNo
  }

  /** The entries of priority `p`, in list order. */
  function WithPriority(q: seq<Entry>, p: nat): (r: seq<Entry>)
    ensures forall e | e in r :: e in q && e.priority == p
  {
    if |q| == 0 then []
    else if q[0].priority == p then [q[0]] + WithPriority(q[1..], p)
    else WithPriority(q[1..], p)
  }

  /** Inserts `e` in front of the first entry whose priority is not smaller than its own. */
  function Insert(e: Entry, q: seq<Entry>): (r: seq<Entry>)
    ensures multiset(r) == multiset(q) + multiset{e}
  {
    if |q| == 0 || e.priority <= q[0].priority then [e] + q
    else
      assert q == [q[0]] + q[1..];
      [q[0]] + Insert(e, q[1..])
  }

  lemma {:induction false} InsertSorted(e: Entry, q: seq<Entry>)
    requires SortedByPriority(q)
    ensures SortedByPriority(Insert(e, q))
  {
    if |q| > 0 && e.priority > q[0].priority {
      var tail := Insert(e, q[1..]);
      InsertSorted(e, q[1..]);
      forall x | x in tail ensures q[0].priority <= x.priority {
        assert x in multiset(tail);
        if x != e {
          assert x in q[1..];
        }
      }
    }
  }

  /** The list sort keyed on priority, as a stable insertion sort. */
  function SortByPriority(q: seq<Entry>): (r: seq<Entry>)
    ensures multiset(r) == multiset(q)
    ensures SortedByPriority(r)
  {
    if |q| == 0 then []
    else
      assert q == [q[0]] + q[1..];
      InsertSorted(q[0], SortByPriority(q[1..]));
      Insert(q[0], SortByPriority(q[1..]))
  }

  lemma {:induction false} InsertKeepsGroups(e: Entry, q: seq<Entry>, p: nat)
    ensures WithPriority(Insert(e, q), p) == if e.priority == p then [e] + WithPriority(q, p) else WithPriority(q, p)
  {
    if |q| == 0 || e.priority <= q[0].priority {
      assert ([e] + q)[1..] == q;
    } else {
      InsertKeepsGroups(e, q[1..], p);
      assert ([q[0]] + Insert(e, q[1..]))[1..] == Insert(e, q[1..]);
    }
  }

  /**
   * The sort is stable: for every priority, the entries of that priority keep their relative
   * order. Together with the sort's own contract this pins the result down to the one list any
   * stable sort produces.
   */
  lemma {:induction false} SortIsStable(q: seq<Entry>, p: nat)
    ensures WithPriority(SortByPriority(q), p) == WithPriority(q, p)
  {
    if |q| > 0 {
      SortIsStable(q[1..], p);
      InsertKeepsGroups(q[0], SortByPriority(q[1..]), p);
    }
  }

  /** Two sorted lists with the same entries in every priority group are the same list. */
  lemma {:induction false} StableSortUnique(a: seq<Entry>, b: seq<Entry>)
    requires SortedByPriority(a) && SortedByPriority(b)
    requires forall p: nat :: WithPriority(a, p) == WithPriority(b, p)
    ensures a == b
  {
    if |a| == 0 || |b| == 0 {
      var p := if |a| > 0 then a[0].priority else if |b| > 0 then b[0].priority else 0;
      assert WithPriority(a, p) == WithPriority(b, p);
    } else {
      SameHead(a, b);
      TailGroups(a, b);
      StableSortUnique(a[1..], b[1..]);
      assert a == [a[0]] + a[1..];
      assert b == [b[0]] + b[1..];
    }
  }

  /** Sorted lists with equal priority groups start with the same entry. */
  lemma SameHead(a: seq<Entry>, b: seq<Entry>)
    requires SortedByPriority(a) && SortedByPriority(b) && |a| > 0 && |b| > 0
    requires forall p: nat :: WithPriority(a, p) == WithPriority(b, p)
    ensures a[0] == b[0]
  {
    if a[0].priority <= b[0].priority {
      HeadFirst(a, b);
    } else {
      HeadFirst(b, a);
    }
  }

  /** The list with the smaller head priority leads its group, so the other list's group has the same leader. */
  lemma HeadFirst(a: seq<Entry>, b: seq<Entry>)
    requires SortedByPriority(a) && SortedByPriority(b) && |a| > 0 && |b| > 0
    requires a[0].priority <= b[0].priority
    requires WithPriority(a, a[0].priority) == WithPriority(b, a[0].priority)
    ensures a[0] == b[0]
  {
    var p := a[0].priority;
    HeadGroup(a, p);
    HeadGroup(b, p);
    assert WithPriority(a, p)[0] == a[0];
  }

  /** Dropping a common head keeps the priority groups equal. */
  lemma TailGroups(a: seq<Entry>, b: seq<Entry>)
    requires |a| > 0 && |b| > 0 && a[0] == b[0]
    requires forall p: nat :: WithPriority(a, p) == WithPriority(b, p)
    ensures forall p: nat :: WithPriority(a[1..], p) == WithPriority(b[1..], p)
  {
    forall p: nat ensures WithPriority(a[1..], p) == WithPriority(b[1..], p) {
      assert WithPriority(a, p) == WithPriority(b, p);
      if a[0].priority == p {
        assert WithPriority(a[1..], p) == WithPriority(a, p)[1..];
        assert WithPriority(b[1..], p) == WithPriority(b, p)[1..];
      }
    }
  }

  /** In a sorted list, the head's group is non-empty and starts with the head; lower priorities have no group. */
  lemma HeadGroup(q: seq<Entry>, p: nat)
    requires SortedByPriority(q) && |q| > 0 && p <= q[0].priority
    ensures p == q[0].priority ==> WithPriority(q, p) == [q[0]] + WithPriority(q[1..], p)
    ensures p < q[0].priority ==> WithPriority(q, p) == []
  {
    if p < q[0].priority {
      NoGroupBelow(q, p);
    }
  }

  lemma {:induction false} NoGroupBelow(q: seq<Entry>, p: nat)
    requires SortedByPriority(q) && |q| > 0 && p < q[0].priority
    ensures WithPriority(q, p) == []
  {
    if |q| > 1 {
      NoGroupBelow(q[1..], p);
    }
  }

  /** Pushing entries with larger counters than everything queued keeps ties in push order. */
  lemma {:induction false} FifoAppend(a: seq<Entry>, b: seq<Entry>, counter: nat)
    requires FifoTies(a) && FifoTies(b)
    requires forall e | e in a :: e.seqNo <= counter
    requires forall e | e in b :: e.seqNo > counter
    ensures FifoTies(a + b)
  {
    var c := a + b;
    forall i, j | 0 <= i < j < |c| ensures c[i].priority == c[j].priority ==> c[i].seqNo < c[j].seqNo {
      if j < |a| {
      } else if i >= |a| {
        assert c[i] == b[i - |a|] && c[j] == b[j - |a|];
      } else {
        assert c[i] in a && c[j] in b;
      }
    }
  }

  /** Putting `x` in front keeps ties in push order when `x` was pushed before its equals. */
  lemma FifoCons(x: Entry, q: seq<Entry>)
    requires FifoTies(q)
    requires forall y | y in q && y.priority == x.priority :: x.seqNo < y.seqNo
    ensures FifoTies([x] + q)
  {
    var r := [x] + q;
    forall i, j | 0 <= i < j < |r| && r[i].priority == r[j].priority ensures r[i].seqNo < r[j].seqNo {
      if i == 0 {
        assert r[j] in q;
      } else {
        assert r[i] == q[i - 1] && r[j] == q[j - 1];
      }
    }
  }

  lemma FifoTail(q: seq<Entry>)
    requires FifoTies(q) && |q| > 0
    ensures FifoTies(q[1..])
    ensures forall y | y in q[1..] && y.priority == q[0].priority :: q[0].seqNo < y.seqNo
  {
    forall y | y in q[1..] && y.priority == q[0].priority ensures q[0].seqNo < y.seqNo {
      var j :| 0 <= j < |q[1..]| && q[1..][j] == y;
      assert q[j + 1] == y;
    }
  }

  lemma {:induction false} InsertFifo(e: Entry, q: seq<Entry>)
    requires FifoTies(q)
    requires forall x | x in q && x.priority == e.priority :: e.seqNo < x.seqNo
    ensures FifoTies(Insert(e, q))
  {
    if |q| == 0 || e.priority <= q[0].priority {
      FifoCons(e, q);
    } else {
      var tail := Insert(e, q[1..]);
      FifoTail(q);
      InsertFifo(e, q[1..]);
      forall y | y in tail && y.priority == q[0].priority ensures q[0].seqNo < y.seqNo {
        assert y in multiset(tail);
      }
      FifoCons(q[0], tail);
    }
  }

  /** Sorting a list whose ties are in push order keeps them in push order. */
  lemma {:induction false} SortKeepsFifo(q: seq<Entry>)
    requires FifoTies(q)
    ensures FifoTies(SortByPriority(q))
  {
    if |q| > 0 {
      var rest := SortByPriority(q[1..]);
      SortKeepsFifo(q[1..]);
      forall x | x in rest && x.priority == q[0].priority ensures q[0].seqNo < x.seqNo {
        assert x in multiset(q[1..]);
        var j :| 0 <= j < |q[1..]| && q[1..][j] == x;
        assert q[j + 1] == x;
      }
      InsertFifo(q[0], rest);
    }
  }

  /** The heap's choice: the first entry no other entry is tuple-smaller than. */
  function MinIndex(q: seq<Entry>): (m: nat)
    requires |q| > 0
    ensures m < |q|
    ensures forall j | 0 <= j < |q| :: !LexLess(q[j], q[m])
  {
    if |q| == 1 then 0
    else
      var k := MinIndex(q[1..]) + 1;
      if LexLess(q[k], q[0]) then k else 0
  }

  function RemoveAt(q: seq<Entry>, i: nat): (r: seq<Entry>)
    requires i < |q|
    ensures |r| == |q| - 1
    ensures multiset(r) + multiset{q[i]} == multiset(q)
  {
    assert q == q[..i] + [q[i]] + q[i + 1..];
    q[..i] + q[i + 1..]
  }

  /** With ties in push order, the head of the sorted list is tuple-smaller than every other entry. */
  lemma {:induction false} SortedHeadIsLexMin(r: seq<Entry>)
    requires SortedByPriority(r) && FifoTies(r) && |r| > 0
    ensures forall j | 0 < j < |r| :: LexLess(r[0], r[j])
  {
  }

  /**
   * Sorting a list and popping its head removes the same entry as a heap pop from any
   * arrangement of the same entries, and leaves the same entries behind, as long as the list
   * holds ties in push order.
   */
  lemma PopsAgree(q: seq<Entry>, h: seq<Entry>)
    requires |q| > 0 && FifoTies(q) && multiset(h) == multiset(q)
    ensures |h| > 0
    ensures SortByPriority(q)[0] == h[MinIndex(h)]
    ensures multiset(SortByPriority(q)[1..]) == multiset(RemoveAt(h, MinIndex(h)))
  {
    assert |h| == |multiset(h)| == |multiset(q)| == |q|;
    var r := SortByPriority(q);
    var m := MinIndex(h);
    SortKeepsFifo(q);
    SortedHeadIsLexMin(r);
    HeadIsHeapMin(r, h, m);
    TailMultiset(r);
    CancelOne(multiset(r[1..]), multiset(RemoveAt(h, m)), multiset(h), h[m]);
  }

  lemma CancelOne(a: multiset<Entry>, c: multiset<Entry>, b: multiset<Entry>, x: Entry)
    requires a + multiset{x} == b && c + multiset{x} == b
    ensures a == c
  {
    forall y ensures a[y] == c[y] {
      assert (a + multiset{x})[y] == (c + multiset{x})[y];
    }
  }

  lemma TailMultiset(r: seq<Entry>)
    requires |r| > 0
    ensures multiset(r[1..]) + multiset{r[0]} == multiset(r)
  {
    assert r == [r[0]] + r[1..];
  }

  lemma HeadIsHeapMin(r: seq<Entry>, h: seq<Entry>, m: nat)
    requires |r| > 0 && multiset(h) == multiset(r) && m < |h|
    requires forall j | 0 < j < |r| :: LexLess(r[0], r[j])
    requires forall j | 0 <= j < |h| :: !LexLess(h[j], h[m])
    ensures r[0] == h[m]
  {
    assert r[0] in multiset(h);
    var i :| 0 <= i < |h| && h[i] == r[0];
    assert h[m] in multiset(r);
    var j :| 0 <= j < |r| && r[j] == h[m];
    assert !LexLess(r[0], r[j]);
  }
}
