// The binary heap of src/core/model/heap-scheduler.cc, one of the event queues that the simulator can use.
module HeapScheduler {

  /** An event by its key; the function to call plays no part here. */
  datatype Event = Event(ts: nat, uid: nat)

  predicate Less(a: Event, b: Event) {
    a.ts < b.ts || (a.ts == b.ts && a.uid < b.uid)
  }

  /** Element 0 is wasted, so that the children of i are 2 * i and 2 * i + 1. */
  type Heap = h: seq<Event> | |h| > 0 witness [Event(0, 0)]

  function Parent(i: nat): nat { i / 2 }

  function Exchanged(h: Heap, a: nat, b: nat): (r: Heap)
    requires a < |h| && b < |h|
    ensures |r| == |h|
  {
    h[a := h[b]][b := h[a]]
  }

  /** Entry i is not less than its parent. */
  predicate InPlace(h: Heap, i: nat) {
    1 < i < |h| ==> !Less(h[i], h[Parent(i)])
  }

  ghost predicate HeapOrder(h: Heap) {
    forall i: nat :: InPlace(h, i)
  }

  function Smallest(h: Heap, a: nat, b: nat): nat
    requires a < |h| && b < |h|
  {
    if Less(h[a], h[b]) then a else b
  }

  /** What BottomUp makes of a heap, from entry i. */
  function Up(h: Heap, i: nat): (r: Heap)
    requires 0 < i < |h|
    ensures |r| == |h|
    decreases i
  {
    if i > 1 && Less(h[i], h[Parent(i)]) then Up(Exchanged(h, i, Parent(i)), Parent(i)) else h
  }

  /** What TopDown makes of a heap, from entry i. */
  function Down(h: Heap, i: nat): (r: Heap)
    requires 0 < i
    ensures |r| == |h|
    decreases |h| - i
  {
    if 2 * i + 1 < |h| then
      var c := Smallest(h, 2 * i, 2 * i + 1);
      if Less(h[i], h[c]) then h else Down(Exchanged(h, i, c), c)
    else if 2 * i < |h| && !Less(h[i], h[2 * i]) then Exchanged(h, i, 2 * i)
    else h
  }

  function Entries(h: Heap): multiset<Event> {
    multiset(h[1..])
  }

  // ---------------------------------------------------------------- the order

  lemma {:induction false} RootIsLeast(h: Heap, i: nat)
    requires HeapOrder(h) && 0 < i < |h|
    ensures !Less(h[i], h[1])
  {
    if i > 1 {
      assert InPlace(h, i);
      RootIsLeast(h, Parent(i));
    }
  }

  lemma ExchangedEntries(h: Heap, a: nat, b: nat)
    requires 0 < a < |h| && 0 < b < |h|
    ensures Entries(Exchanged(h, a, b)) == Entries(h)
  {
    var s := h[1..];
    assert Exchanged(h, a, b)[1..] == s[a - 1 := s[b - 1]][b - 1 := s[a - 1]];
  }

  /** Only entry i may be less than its parent, and its children are not less than that parent. */
  ghost predicate AllButUp(h: Heap, i: nat)
    requires 0 < i < |h|
  {
    && (forall k: nat | k != i :: InPlace(h, k))
    && (forall k: nat | 1 < k < |h| && Parent(k) == i && i > 1 :: !Less(h[k], h[Parent(i)]))
  }

  lemma UpStep(h: Heap, i: nat)
    requires 1 < i < |h| && AllButUp(h, i) && Less(h[i], h[Parent(i)])
    ensures AllButUp(Exchanged(h, i, Parent(i)), Parent(i))
  {
    var p := Parent(i);
    var r := Exchanged(h, i, p);
    forall k: nat | k != p ensures InPlace(r, k) {
      assert InPlace(h, k) || k == i;
    }
    forall k: nat | 1 < k < |r| && Parent(k) == p && p > 1 ensures !Less(r[k], r[Parent(p)]) {
      assert InPlace(h, p) && (k == i || InPlace(h, k));
    }
  }

  lemma {:induction false} UpRepairs(h: Heap, i: nat)
    requires 0 < i < |h| && AllButUp(h, i)
    ensures HeapOrder(Up(h, i)) && Entries(Up(h, i)) == Entries(h)
    decreases i
  {
    if i > 1 && Less(h[i], h[Parent(i)]) {
      UpStep(h, i);
      ExchangedEntries(h, i, Parent(i));
      UpRepairs(Exchanged(h, i, Parent(i)), Parent(i));
    } else {
      forall k: nat ensures InPlace(h, k) { assert k != i ==> InPlace(h, k); }
    }
  }

  /** Only the children of entry i may be less than it, and they are not less than its parent. */
  ghost predicate AllButDown(h: Heap, i: nat)
    requires 0 < i
  {
    && (forall k: nat | Parent(k) != i :: InPlace(h, k))
    && (forall k: nat | 1 < k < |h| && Parent(k) == i && i > 1 :: !Less(h[k], h[Parent(i)]))
  }

  lemma DownStep(h: Heap, i: nat, c: nat)
    requires 0 < i && AllButDown(h, i) && c in [2 * i, 2 * i + 1] && c < |h| && !Less(h[i], h[c])
    requires forall k: nat | k < |h| && Parent(k) == i :: !Less(h[k], h[c])
    ensures AllButDown(Exchanged(h, i, c), c)
  {
    var r := Exchanged(h, i, c);
    forall k: nat | Parent(k) != c ensures InPlace(r, k) {
      assert Parent(k) != i ==> InPlace(h, k);
    }
    forall k: nat | 1 < k < |r| && Parent(k) == c && c > 1 ensures !Less(r[k], r[Parent(c)]) {
      assert InPlace(h, k);
    }
  }

  lemma DownStops(h: Heap, i: nat)
    requires 0 < i && AllButDown(h, i)
    requires forall k: nat | 1 < k < |h| && Parent(k) == i :: !Less(h[k], h[i])
    ensures HeapOrder(h)
  {
    forall k: nat ensures InPlace(h, k) {
      assert Parent(k) != i ==> InPlace(h, k);
    }
  }

  lemma Children(i: nat, k: nat)
    requires Parent(k) == i
    ensures k == 2 * i || k == 2 * i + 1
  {
  }

  /** TopDown stops, or goes on at the lesser child. */
  lemma DownTurn(h: Heap, i: nat)
    requires 0 < i && AllButDown(h, i) && 2 * i + 1 < |h|
    ensures var c := Smallest(h, 2 * i, 2 * i + 1);
            if Less(h[i], h[c]) then HeapOrder(h) else AllButDown(Exchanged(h, i, c), c)
  {
    var c := Smallest(h, 2 * i, 2 * i + 1);
    forall k: nat | 1 < k < |h| && Parent(k) == i ensures !Less(h[k], h[c]) { Children(i, k); }
    if Less(h[i], h[c]) {
      DownStops(h, i);
    } else {
      DownStep(h, i, c);
    }
  }

  lemma DownLast(h: Heap, i: nat)
    requires 0 < i && AllButDown(h, i) && 2 * i + 1 >= |h|
    ensures HeapOrder(Down(h, i))
  {
    forall k: nat | 1 < k < |h| && Parent(k) == i ensures k == 2 * i { Children(i, k); }
    if 2 * i < |h| && !Less(h[i], h[2 * i]) {
      DownStep(h, i, 2 * i);
      DownStops(Exchanged(h, i, 2 * i), 2 * i);
    } else {
      DownStops(h, i);
    }
  }

  lemma {:induction false} DownRepairs(h: Heap, i: nat)
    requires 0 < i && AllButDown(h, i)
    ensures HeapOrder(Down(h, i))
    decreases |h| - i
  {
    if 2 * i + 1 < |h| {
      DownTurn(h, i);
      var c := Smallest(h, 2 * i, 2 * i + 1);
      if !Less(h[i], h[c]) { DownRepairs(Exchanged(h, i, c), c); }
    } else {
      DownLast(h, i);
    }
  }

  // ---------------------------------------------------------------- the operations

  function Inserted(h: Heap, ev: Event): Heap {
    Up(h + [ev], |h|)
  }

  lemma InsertKeepsOrder(h: Heap, ev: Event)
    requires HeapOrder(h)
    ensures HeapOrder(Inserted(h, ev)) && Entries(Inserted(h, ev)) == Entries(h) + multiset{ev}
  {
    var g := h + [ev];
    forall k: nat | k != |h| ensures InPlace(g, k) { assert InPlace(h, k); }
    UpRepairs(g, |h|);
    assert g[1..] == h[1..] + [ev];
  }

  /** The last entry takes the place of entry i. */
  function Replaced(h: Heap, i: nat): (r: Heap)
    requires 0 < i < |h|
    ensures |r| == |h| - 1
  {
    Exchanged(h, i, |h| - 1)[..|h| - 1]
  }

  /** Remove at entry i: exchange with the last, drop the last, and repair downwards. */
  function Dropped(h: Heap, i: nat): Heap
    requires 0 < i < |h|
  {
    Down(Replaced(h, i), i)
  }

  lemma ReplacedAt(h: Heap, i: nat, k: nat)
    requires 0 < i < |h| && k < |h| - 1
    ensures Replaced(h, i)[k] == if k == i then h[|h| - 1] else h[k]
  {
  }

  lemma CancelEntry<T>(a: multiset<T>, b: multiset<T>, x: T)
    requires a + multiset{x} == b + multiset{x}
    ensures a == b
  {
    forall y ensures a[y] == b[y] {
      assert (a + multiset{x})[y] == (b + multiset{x})[y];
    }
  }

  lemma LastElement<T>(s: seq<T>)
    requires s != []
    ensures multiset(s) == multiset(s[..|s| - 1]) + multiset{s[|s| - 1]}
  {
    assert s == s[..|s| - 1] + [s[|s| - 1]];
  }

  lemma TakeOutAt<T>(s: seq<T>, i: nat)
    requires i < |s|
    ensures multiset(s[i := s[|s| - 1]][..|s| - 1]) == multiset(s) - multiset{s[i]}
  {
    var last := |s| - 1;
    var t := s[i := s[last]];
    assert t[last] == s[last];
    LastElement(t);
    assert multiset(t) == multiset(s) - multiset{s[i]} + multiset{s[last]};
    CancelEntry(multiset(t[..last]), multiset(s) - multiset{s[i]}, s[last]);
  }

  lemma ReplacedEntries(h: Heap, i: nat)
    requires 0 < i < |h|
    ensures Entries(Replaced(h, i)) == Entries(h) - multiset{h[i]}
  {
    var s := h[1..];
    TakeOutAt(s, i - 1);
    assert Replaced(h, i)[1..] == s[i - 1 := s[|s| - 1]][..|s| - 1];
  }

  /** Entry i is the last, or the root, or the last entry is not less than the parent of entry i. */
  predicate Fits(h: Heap, i: nat)
    requires 0 < i < |h|
  {
    i == |h| - 1 || i == 1 || !Less(h[|h| - 1], h[Parent(i)])
  }

  lemma {:induction false} DownEntries(h: Heap, i: nat)
    requires 0 < i
    ensures Entries(Down(h, i)) == Entries(h)
    decreases |h| - i
  {
    if 2 * i + 1 < |h| {
      var c := Smallest(h, 2 * i, 2 * i + 1);
      if !Less(h[i], h[c]) {
        ExchangedEntries(h, i, c);
        DownEntries(Exchanged(h, i, c), c);
      }
    } else if 2 * i < |h| && !Less(h[i], h[2 * i]) {
      ExchangedEntries(h, i, 2 * i);
    }
  }

  lemma ReplacedAllButDown(h: Heap, i: nat)
    requires HeapOrder(h) && 0 < i < |h| && Fits(h, i)
    ensures AllButDown(Replaced(h, i), i)
  {
    var g := Replaced(h, i);
    forall k: nat | k < |g| ensures g[k] == if k == i then h[|h| - 1] else h[k] { ReplacedAt(h, i, k); }
    forall k: nat | Parent(k) != i ensures InPlace(g, k) {
      assert InPlace(h, k);
    }
    forall k: nat | 1 < k < |g| && Parent(k) == i && i > 1 ensures !Less(g[k], g[Parent(i)]) {
      assert InPlace(h, k) && InPlace(h, i);
    }
  }

  /** An entry that is less than its parent is less than all below it, so that TopDown leaves it there. */
  lemma ReplacedStays(h: Heap, i: nat)
    requires HeapOrder(h) && 0 < i < |h| && !Fits(h, i)
    ensures Dropped(h, i) == Replaced(h, i) && !InPlace(Replaced(h, i), i)
  {
    var g := Replaced(h, i);
    forall k: nat | k < |g| ensures g[k] == if k == i then h[|h| - 1] else h[k] { ReplacedAt(h, i, k); }
    assert InPlace(h, i);
    forall k: nat | 1 < k < |g| && Parent(k) == i ensures Less(g[i], g[k]) {
      assert InPlace(h, k);
    }
  }

  /** Removing any entry keeps the heap order exactly when the last entry fits under the parent of the removed one. */
  lemma RemoveKeepsOrderIff(h: Heap, i: nat)
    requires HeapOrder(h) && 0 < i < |h|
    ensures HeapOrder(Dropped(h, i)) <==> Fits(h, i)
    ensures Entries(Dropped(h, i)) == Entries(h) - multiset{h[i]}
  {
    ReplacedEntries(h, i);
    DownEntries(Replaced(h, i), i);
    if Fits(h, i) {
      ReplacedAllButDown(h, i);
      DownRepairs(Replaced(h, i), i);
    } else {
      ReplacedStays(h, i);
    }
  }

  /** At an earlier time, or at the same time and scheduled first. */
  predicate NotAfter(a: Event, b: Event) {
    a.ts < b.ts || (a.ts == b.ts && a.uid <= b.uid)
  }

  /** The root is an earliest event, and among those the first that was scheduled. */
  lemma LeastEntry(h: Heap)
    requires HeapOrder(h) && |h| > 1
    ensures forall e | e in Entries(h) :: !Less(e, h[1]) && NotAfter(h[1], e)
  {
    forall e | e in Entries(h) ensures !Less(e, h[1]) && NotAfter(h[1], e) {
      assert e in h[1..];
      var k :| 0 <= k < |h[1..]| && h[1..][k] == e;
      RootIsLeast(h, k + 1);
    }
  }

  /** The events that RemoveNext returns, one after the other, until the heap is empty. */
  function Served(h: Heap): seq<Event>
    decreases |h|
  {
    if |h| == 1 then [] else [h[1]] + Served(Dropped(h, 1))
  }

  predicate InOrder(es: seq<Event>) {
    forall a, b | 0 <= a < b < |es| :: NotAfter(es[a], es[b])
  }

  lemma FirstAndRest(x: Event, rest: seq<Event>)
    requires InOrder(rest) && forall e | e in multiset(rest) :: NotAfter(x, e)
    ensures InOrder([x] + rest) && multiset([x] + rest) == multiset{x} + multiset(rest)
  {
    forall b | 0 <= b < |rest| ensures NotAfter(x, rest[b]) {
      assert rest[b] in multiset(rest);
    }
  }

  /** Every event is served once, in the order of times and, at equal times, of scheduling. */
  lemma {:induction false} ServedInOrder(h: Heap)
    requires HeapOrder(h)
    ensures multiset(Served(h)) == Entries(h) && InOrder(Served(h))
    decreases |h|
  {
    if |h| > 1 {
      var d := Dropped(h, 1);
      RemoveKeepsOrderIff(h, 1);
      ServedInOrder(d);
      LeastEntry(h);
      RootIsEntry(h);
      LeastOfRest(h, Entries(d));
      FirstAndRest(h[1], Served(d));
    } else {
      assert h[1..] == [];
    }
  }

  lemma LeastOfRest(h: Heap, rest: multiset<Event>)
    requires |h| > 1 && rest == Entries(h) - multiset{h[1]} && forall e | e in Entries(h) :: NotAfter(h[1], e)
    ensures forall e | e in rest :: NotAfter(h[1], e)
  {
  }

  lemma RootIsEntry(h: Heap)
    requires |h| > 1
    ensures h[1] in Entries(h) && (Entries(h) - multiset{h[1]}) + multiset{h[1]} == Entries(h)
  {
    assert h[1..][0] == h[1];
  }

  // ---------------------------------------------------------------- removing out of order

  function At(t: nat): Event { Event(t, t) }

  const Seven: Heap := [At(0), At(1), At(10), At(2), At(11), At(12), At(20), At(3)]

  lemma SevenBroken()
    ensures HeapOrder(Seven) && !Fits(Seven, 4)
    ensures Dropped(Seven, 4) == [At(0), At(1), At(10), At(2), At(3), At(12), At(20)]
  {
    forall k: nat ensures InPlace(Seven, k) {
      assert k == 2 || k == 3 || k == 4 || k == 5 || k == 6 || k == 7 ==> InPlace(Seven, k);
    }
    ReplacedStays(Seven, 4);
  }

  lemma FirstRemoval()
    ensures Dropped([At(0), At(1), At(10), At(2), At(3), At(12), At(20)], 1) == [At(0), At(2), At(10), At(20), At(3), At(12)]
  {
    var a: Heap := [At(0), At(20), At(10), At(2), At(3), At(12)];
    var b: Heap := [At(0), At(2), At(10), At(20), At(3), At(12)];
    assert Exchanged([At(0), At(1), At(10), At(2), At(3), At(12), At(20)], 1, 6)[..6] == a;
    assert Exchanged(a, 1, 3) == b && Smallest(a, 2, 3) == 3;
    assert Down(b, 3) == b;
  }

  lemma SecondRemoval()
    ensures Dropped([At(0), At(2), At(10), At(20), At(3), At(12)], 1) == [At(0), At(10), At(3), At(20), At(12)]
  {
    var c: Heap := [At(0), At(12), At(10), At(20), At(3)];
    var d: Heap := [At(0), At(10), At(12), At(20), At(3)];
    assert Exchanged([At(0), At(2), At(10), At(20), At(3), At(12)], 1, 5)[..5] == c;
    assert Exchanged(c, 1, 2) == d && Smallest(c, 2, 3) == 2;
    assert Down(d, 2) == Exchanged(d, 2, 4) == [At(0), At(10), At(3), At(20), At(12)];
  }

  /** Remove the fourth of these seven events, then take out the next one twice: the event after that is the one
      at 10, although the one at 3 is still waiting. */
  lemma RemoveCanDisorder()
    ensures HeapOrder(Seven) && !HeapOrder(Dropped(Seven, 4))
    ensures var h := Dropped(Dropped(Dropped(Seven, 4), 1), 1); |h| > 1 && h[1] == At(10) && At(3) in Entries(h)
  {
    SevenBroken();
    RemoveKeepsOrderIff(Seven, 4);
    FirstRemoval();
    SecondRemoval();
    var h: Heap := [At(0), At(10), At(3), At(20), At(12)];
    assert h[1..][1] == At(3);
  }

  // ---------------------------------------------------------------- the program

  /** The first entry with this uid. */
  predicate IsFirst(h: Heap, uid: nat, i: nat) {
    0 < i < |h| && h[i].uid == uid && forall k | 0 < k < i :: h[k].uid != uid
  }

  class HeapScheduler {
    var m_heap: Heap

    constructor ()
      ensures HeapOrder(m_heap) && Entries(m_heap) == multiset{}
    {
      m_heap := [Event(0, 0)];
    }

    method IsEmpty() returns (empty: bool)
      ensures empty <==> Entries(m_heap) == multiset{}
    {
      empty := |m_heap| == 1;
      assert |Entries(m_heap)| == |m_heap| - 1;
    }

    method Exch(a: nat, b: nat)
      requires a < |m_heap| && b < |m_heap|
      modifies this
      ensures m_heap == Exchanged(old(m_heap), a, b)
    {
      var tmp := m_heap[a];
      m_heap := m_heap[a := m_heap[b]];
      m_heap := m_heap[b := tmp];
    }

    method BottomUp()
      requires |m_heap| > 1
      modifies this
      ensures m_heap == Up(old(m_heap), |old(m_heap)| - 1)
    {
      var index := |m_heap| - 1;
      while index != 1 && Less(m_heap[index], m_heap[Parent(index)])
        invariant 0 < index < |m_heap|
        invariant Up(m_heap, index) == Up(old(m_heap), |old(m_heap)| - 1)
        decreases index
      {
        Exch(index, Parent(index));
        index := Parent(index);
      }
    }

    method TopDown(start: nat)
      requires start > 0
      modifies this
      ensures m_heap == Down(old(m_heap), start)
    {
      var index := start;
      var right := 2 * index + 1;
      while right < |m_heap|
        invariant 0 < index && right == 2 * index + 1
        invariant Down(m_heap, index) == Down(old(m_heap), start)
        decreases |m_heap| - index
      {
        var left := 2 * index;
        var tmp := Smallest(m_heap, left, right);
        if Less(m_heap[index], m_heap[tmp]) {
          return;
        }
        Exch(index, tmp);
        index := tmp;
        right := 2 * index + 1;
      }
      if index >= |m_heap| {
        return;
      }
      var left := 2 * index;
      if left >= |m_heap| {
        return;
      }
      if Less(m_heap[index], m_heap[left]) {
        return;
      }
      Exch(index, left);
    }

    method Insert(ev: Event)
      modifies this
      ensures m_heap == Inserted(old(m_heap), ev)
      ensures HeapOrder(old(m_heap)) ==> HeapOrder(m_heap) && Entries(m_heap) == Entries(old(m_heap)) + multiset{ev}
    {
      if HeapOrder(m_heap) { InsertKeepsOrder(m_heap, ev); }
      m_heap := m_heap + [ev];
      BottomUp();
    }

    method PeekNext() returns (next: Event)
      requires Entries(m_heap) != multiset{}
      ensures HeapOrder(m_heap) ==> next in Entries(m_heap) && forall e | e in Entries(m_heap) :: NotAfter(next, e)
    {
      assert |m_heap| > 1;
      next := m_heap[1];
      assert next in m_heap[1..];
      if HeapOrder(m_heap) { LeastEntry(m_heap); }
    }

    method RemoveNext() returns (next: Event)
      requires Entries(m_heap) != multiset{}
      modifies this
      ensures m_heap == Dropped(old(m_heap), 1) && next == old(m_heap)[1]
      ensures HeapOrder(old(m_heap)) ==>
                && next in Entries(old(m_heap)) && (forall e | e in Entries(old(m_heap)) :: NotAfter(next, e))
                && HeapOrder(m_heap) && Entries(m_heap) == Entries(old(m_heap)) - multiset{next}
    {
      assert |m_heap| > 1;
      if HeapOrder(m_heap) {
        LeastEntry(m_heap);
        RemoveKeepsOrderIff(m_heap, 1);
      }
      next := m_heap[1];
      assert next in m_heap[1..];
      Exch(1, |m_heap| - 1);
      m_heap := m_heap[..|m_heap| - 1];
      TopDown(1);
    }

    /** The source asserts that the event is in the heap. */
    method Remove(ev: Event, ghost at: nat)
      requires IsFirst(m_heap, ev.uid, at)
      modifies this
      ensures m_heap == Dropped(old(m_heap), at)
      ensures HeapOrder(old(m_heap)) ==>
                && (HeapOrder(m_heap) <==> Fits(old(m_heap), at))
                && Entries(m_heap) == Entries(old(m_heap)) - multiset{old(m_heap)[at]}
    {
      var uid := ev.uid;
      for i := 1 to |m_heap|
        invariant m_heap == old(m_heap)
        invariant forall k | 0 < k < i :: m_heap[k].uid != uid
      {
        if uid == m_heap[i].uid {
          if HeapOrder(m_heap) { RemoveKeepsOrderIff(m_heap, i); }
          Exch(i, |m_heap| - 1);
          m_heap := m_heap[..|m_heap| - 1];
          assert m_heap == Replaced(old(m_heap), i);
          TopDown(i);
          return;
        }
      }
      assert false;
    }
  }
}
