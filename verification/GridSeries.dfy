// One series of the timeline viewer utils/grid.py: ranges or events, searched by binary search.
module GridSeries {
  import opened StableSort

  datatype DataRange = DataRange(start: int, end: int, value: string)

  datatype Event = Event(at: int, value: string)

  /** A Python slice with non-negative bounds. */
  function Slice<T>(xs: seq<T>, lo: nat, hi: nat): seq<T> {
    var l, h := if lo < |xs| then lo else |xs|, if hi < |xs| then hi else |xs|;
    if l <= h then xs[l..h] else []
  }

  /** r is the block of xs from lo up to hi. */
  predicate IsBlock<T(==)>(r: seq<T>, xs: seq<T>, lo: nat, hi: nat) {
    lo <= hi <= |xs| && |r| == hi - lo && forall k | 0 <= k < |r| :: r[k] == xs[lo + k]
  }

  predicate InSlice<T>(xs: seq<T>, lo: nat, hi: nat, i: nat) {
    lo <= i < hi && i < |xs|
  }

  /** A slice is the block of exactly the positions from lo up to hi that the list has. */
  lemma SliceIsBlock<T>(xs: seq<T>, lo: nat, hi: nat) returns (a: nat, b: nat)
    ensures IsBlock(Slice(xs, lo, hi), xs, a, b)
    ensures forall i: nat :: InSlice(xs, lo, hi, i) <==> a <= i < b
  {
    a, b := if lo < |xs| then lo else |xs|, if hi < |xs| then hi else |xs|;
    if b < a { b := a; }
  }

  /** What a series needs for its binary search: proper ranges, one behind the other. */
  predicate Disjoint(rs: seq<DataRange>) {
    && (forall i | 0 <= i < |rs| :: rs[i].start <= rs[i].end)
    && (forall i, j | 0 <= i < j < |rs| :: rs[i].end < rs[j].start)
  }

  predicate Contains(r: DataRange, key: int) {
    r.start <= key <= r.end
  }

  predicate Meets(r: DataRange, start: int, end: int) {
    r.start <= end && start <= r.end
  }

  /** The probes of the binary search over ranges, from the bounds l and u. */
  function RangeSearch(rs: seq<DataRange>, key: int, l: int, u: int): (i: int)
    requires 0 <= l <= |rs| && -1 <= u < |rs|
    ensures i == -1 || (0 <= i < |rs| && Contains(rs[i], key))
    decreases u - l + 1
  {
    if l > u then -1
    else
      var i := (l + u) / 2;
      if Contains(rs[i], key) then i
      else if key < rs[i].start then RangeSearch(rs, key, l, i - 1)
      else RangeSearch(rs, key, i + 1, u)
  }

  function FindRange(rs: seq<DataRange>, key: int): int {
    RangeSearch(rs, key, 0, |rs| - 1)
  }

  /** No range before position l or after position u contains the key. */
  predicate MissesOutside(rs: seq<DataRange>, key: int, l: int, u: int) {
    forall k | 0 <= k < |rs| && (k < l || u < k) :: !Contains(rs[k], key)
  }

  lemma MissesBeside(rs: seq<DataRange>, key: int, i: nat)
    requires Disjoint(rs) && i < |rs|
    ensures key < rs[i].start ==> forall k | i <= k < |rs| :: !Contains(rs[k], key)
    ensures key > rs[i].end ==> forall k | 0 <= k <= i :: !Contains(rs[k], key)
  {
    forall k | 0 <= k < |rs|
      ensures k < i ==> rs[k].end < rs[i].start
      ensures i < k ==> rs[i].end < rs[k].start
    {}
  }

  lemma {:induction false} RangeSearchMisses(rs: seq<DataRange>, key: int, l: int, u: int)
    requires Disjoint(rs) && 0 <= l <= |rs| && -1 <= u < |rs| && RangeSearch(rs, key, l, u) == -1
    requires MissesOutside(rs, key, l, u)
    ensures forall k | 0 <= k < |rs| :: !Contains(rs[k], key)
    decreases u - l + 1
  {
    if l <= u {
      var i := (l + u) / 2;
      MissesBeside(rs, key, i);
      if key < rs[i].start {
        RangeSearchMisses(rs, key, l, i - 1);
      } else {
        RangeSearchMisses(rs, key, i + 1, u);
      }
    }
  }

  /** In disjoint ranges the search finds the one range that contains the key, or -1 when there is none. */
  lemma FindRangeIsExact(rs: seq<DataRange>, key: int, i: int)
    requires Disjoint(rs) && 0 <= i < |rs|
    ensures Contains(rs[i], key) <==> i == FindRange(rs, key)
  {
    if FindRange(rs, key) == -1 { RangeSearchMisses(rs, key, 0, |rs| - 1); }
  }

  /** get_ranges_bounds. */
  function RangeBounds(rs: seq<DataRange>, start: int, end: int): (nat, nat) {
    var s, e := FindRange(rs, start), FindRange(rs, end);
    if s == -1 && e == -1 then (0, 0)
    else if s == -1 then (0, e + 1)
    else if e == -1 then (s, |rs|)
    else (s, e + 1)
  }

  /** Range number i is in the result of get_ranges. */
  predicate Returned(rs: seq<DataRange>, start: int, end: int, i: nat) {
    var b := RangeBounds(rs, start, end);
    b.0 <= i < b.1 && i < |rs|
  }

  predicate SomeContains(rs: seq<DataRange>, key: int) {
    exists k :: 0 <= k < |rs| && Contains(rs[k], key)
  }

  lemma FindRangeFinds(rs: seq<DataRange>, key: int)
    requires Disjoint(rs)
    ensures FindRange(rs, key) != -1 <==> SomeContains(rs, key)
  {
    forall i | 0 <= i < |rs| ensures Contains(rs[i], key) <==> i == FindRange(rs, key) { FindRangeIsExact(rs, key, i); }
  }

  /** The answer, from the ranges alone: when an end of the window lies in a range, all ranges but those before the
      start, if that lies in a range, and those after the end, if that does. */
  predicate Answers(rs: seq<DataRange>, start: int, end: int, i: nat) {
    && i < |rs| && (SomeContains(rs, start) || SomeContains(rs, end))
    && (SomeContains(rs, start) ==> start <= rs[i].end)
    && (SomeContains(rs, end) ==> rs[i].start <= end)
  }

  lemma ReturnedIff(rs: seq<DataRange>, start: int, end: int, i: nat)
    requires Disjoint(rs) && i < |rs|
    ensures Returned(rs, start, end, i) <==> Answers(rs, start, end, i)
  {
    var s, e := FindRange(rs, start), FindRange(rs, end);
    FindRangeFinds(rs, start);
    FindRangeFinds(rs, end);
    if s != -1 {
      Ordered(rs, i, s);
      Ordered(rs, s, i);
    }
    if e != -1 {
      Ordered(rs, i, e);
      Ordered(rs, e, i);
    }
  }

  /** When is the window answered completely?  When an end of it lies in a range, or nothing meets it. */
  predicate SomeEndFound(rs: seq<DataRange>, start: int, end: int) {
    FindRange(rs, start) != -1 || FindRange(rs, end) != -1
  }

  lemma Ordered(rs: seq<DataRange>, i: nat, j: nat)
    requires Disjoint(rs) && i < |rs| && j < |rs|
    ensures i < j ==> rs[i].end < rs[j].start
  {
  }

  lemma WindowIsCovered(rs: seq<DataRange>, start: int, end: int)
    requires Disjoint(rs) && start <= end
    ensures (forall i: nat | i < |rs| && Meets(rs[i], start, end) :: Returned(rs, start, end, i))
       <==> SomeEndFound(rs, start, end) || forall i | 0 <= i < |rs| :: !Meets(rs[i], start, end)
  {
    if SomeEndFound(rs, start, end) {
      var s, e := FindRange(rs, start), FindRange(rs, end);
      forall i: nat | i < |rs| && Meets(rs[i], start, end) ensures Returned(rs, start, end, i) {
        if s != -1 { Ordered(rs, i, s); }
        if e != -1 { Ordered(rs, e, i); }
        FindRangeIsExact(rs, start, i);
        FindRangeIsExact(rs, end, i);
      }
    }
  }

  /** When does the answer hold nothing else?  It starts at the first range when start lies in a gap, and
      ends at the last one when end does. */
  predicate GapsAreOutside(rs: seq<DataRange>, start: int, end: int) {
    var s, e := FindRange(rs, start), FindRange(rs, end);
    && (s == -1 && e != -1 ==> start < rs[0].start)
    && (s != -1 && e == -1 ==> rs[|rs| - 1].end < end)
  }

  lemma WindowIsExact(rs: seq<DataRange>, start: int, end: int)
    requires Disjoint(rs) && start <= end
    ensures (forall i: nat | i < |rs| && Returned(rs, start, end, i) :: Meets(rs[i], start, end))
       <==> GapsAreOutside(rs, start, end)
  {
    var s, e := FindRange(rs, start), FindRange(rs, end);
    if s == -1 && e != -1 {
      FindRangeIsExact(rs, start, 0);
      assert Returned(rs, start, end, 0);
      assert e > 0 ==> rs[0].end < rs[e].start;
      forall i: nat | i <= e ensures rs[i].start <= end && rs[0].start <= rs[i].end {
        assert i > 0 ==> rs[0].end < rs[i].start;
        assert i < e ==> rs[i].end < rs[e].start;
      }
    } else if s != -1 && e == -1 {
      var last := |rs| - 1;
      FindRangeIsExact(rs, end, last);
      assert Returned(rs, start, end, last);
      forall i: nat | s <= i <= last ensures start <= rs[i].end && rs[i].start <= rs[last].end {
        assert i > s ==> rs[s].end < rs[i].start;
        assert i < last ==> rs[i].end < rs[last].start;
      }
    } else if s != -1 && e != -1 {
      forall i: nat | s <= i <= e ensures Meets(rs[i], start, end) {
        assert i > s ==> rs[s].end < rs[i].start;
        assert i < e ==> rs[i].end < rs[e].start;
      }
    }
  }

  /** With a range in the middle of the window and both ends in gaps the answer is empty. */
  lemma MiddleRangeGetsLost(v: string)
    ensures var rs := [DataRange(0, 1, v), DataRange(5, 6, v), DataRange(10, 11, v)];
            Disjoint(rs) && Meets(rs[1], 2, 8) && RangeBounds(rs, 2, 8) == (0, 0)
  {
  }

  /** With start in a gap the answer begins with the first range, wherever that lies. */
  lemma FirstRangeIsSuperfluous(v: string)
    ensures var rs := [DataRange(0, 1, v), DataRange(5, 6, v), DataRange(10, 11, v)];
            Disjoint(rs) && !Meets(rs[0], 3, 5) && Returned(rs, 3, 5, 0)
  {
  }

  // ---------------------------------------------------------------- events

  predicate InTimeOrder(es: seq<Event>) {
    forall i, j | 0 <= i < j < |es| :: es[i].at <= es[j].at
  }

  lemma SortedIsInTimeOrder(es: seq<Event>)
    ensures SortedBy(es, TimeOf) <==> InTimeOrder(es)
  {
    assert forall i | 0 <= i < |es| :: TimeOf(es[i]) == es[i].at;
  }

  /** The probes of the binary search over events, from the bounds l and u. */
  function EventSearch(es: seq<Event>, key: int, l: int, u: int): (i: nat)
    requires 0 <= l <= |es| && -1 <= u < |es| && l <= u + 1
    ensures i <= |es|
    decreases u - l + 1
  {
    if l > u then l
    else
      var i := (l + u) / 2;
      if key == es[i].at then i
      else if key < es[i].at then EventSearch(es, key, l, i - 1)
      else EventSearch(es, key, i + 1, u)
  }

  function FindEvent(es: seq<Event>, key: int): nat {
    EventSearch(es, key, 0, |es| - 1)
  }

  predicate EarlierBefore(es: seq<Event>, key: int, l: int) {
    l <= |es| && forall k | 0 <= k < l :: es[k].at < key
  }

  predicate LaterFrom(es: seq<Event>, key: int, u: int) {
    0 <= u && forall k | u <= k < |es| :: key < es[k].at
  }

  /** The search ends at an event at the key, or where the earlier events end and the later ones begin. */
  predicate Found(es: seq<Event>, key: int, i: nat) {
    || (i < |es| && es[i].at == key)
    || (EarlierBefore(es, key, i) && LaterFrom(es, key, i))
  }

  lemma EarlierUpTo(es: seq<Event>, key: int, i: nat)
    requires InTimeOrder(es) && i < |es| && es[i].at < key
    ensures EarlierBefore(es, key, i + 1)
  {
    forall k | 0 <= k < i + 1 ensures es[k].at < key { TimesInOrder(es, k, i); }
  }

  lemma LaterUpFrom(es: seq<Event>, key: int, i: nat)
    requires InTimeOrder(es) && i < |es| && key < es[i].at
    ensures LaterFrom(es, key, i)
  {
    forall k | i <= k < |es| ensures key < es[k].at { TimesInOrder(es, i, k); }
  }

  lemma {:induction false} EventSearchFinds(es: seq<Event>, key: int, l: int, u: int)
    requires InTimeOrder(es) && 0 <= l <= |es| && -1 <= u < |es| && l <= u + 1
    requires EarlierBefore(es, key, l) && LaterFrom(es, key, u + 1)
    ensures Found(es, key, EventSearch(es, key, l, u))
    decreases u - l + 1
  {
    if l <= u {
      var i := Middle(l, u);
      if key < es[i].at {
        LaterUpFrom(es, key, i);
        EventSearchFinds(es, key, l, i - 1);
      } else if key > es[i].at {
        EarlierUpTo(es, key, i);
        EventSearchFinds(es, key, i + 1, u);
      }
    }
  }

  lemma Middle(l: int, u: int) returns (i: int)
    requires l <= u
    ensures i == (l + u) / 2 && l <= i <= u
  {
    i := (l + u) / 2;
  }

  lemma FindEventFinds(es: seq<Event>, key: int)
    requires InTimeOrder(es)
    ensures Found(es, key, FindEvent(es, key))
  {
    EventSearchFinds(es, key, 0, |es| - 1);
  }

  /** Event number i is the first one after the window, and no event sits at the end of the window. */
  predicate FirstAfter(es: seq<Event>, end: int, i: nat) {
    && i < |es| && end < es[i].at
    && forall k | 0 <= k < i :: es[k].at < end
  }

  /** get_events returns event number i. */
  predicate EventReturned(es: seq<Event>, start: int, end: int, i: nat) {
    i < |es| && FindEvent(es, start) <= i < FindEvent(es, end) + 1
  }

  /** What get_events is for: the events of the window, and besides them just the first event after it,
      the latter exactly when there is one and no event sits at end. */
  predicate EventWanted(es: seq<Event>, start: int, end: int, i: nat) {
    i < |es| && (start <= es[i].at <= end || FirstAfter(es, end, i))
  }

  /** The search for start has found the first event at that time, and the one for end the last. */
  predicate HitsAreOutermost(es: seq<Event>, start: int, end: int) {
    var s, e := FindEvent(es, start), FindEvent(es, end);
    (s == 0 || es[s - 1].at < start) && (e + 1 >= |es| || end < es[e + 1].at)
  }

  lemma TimesInOrder(es: seq<Event>, i: nat, j: nat)
    requires InTimeOrder(es) && i <= j < |es|
    ensures es[i].at <= es[j].at
  {
  }

  lemma EventReturnedIff(es: seq<Event>, start: int, end: int, i: nat)
    requires InTimeOrder(es) && start <= end && i < |es| && HitsAreOutermost(es, start, end)
    ensures EventReturned(es, start, end, i) <==> EventWanted(es, start, end, i)
  {
    var s, e := FindEvent(es, start), FindEvent(es, end);
    FindEventFinds(es, start);
    FindEventFinds(es, end);
    if i < s {
      TimesInOrder(es, i, s - 1);
    } else {
      TimesInOrder(es, s, i);
      if i <= e {
        if e < |es| { TimesInOrder(es, i, e); }
      } else {
        TimesInOrder(es, e + 1, i);
      }
    }
  }

  /** It is met, for sorted events, exactly when the two searches hit the outermost of simultaneous events. */
  lemma EventWindowIff(es: seq<Event>, start: int, end: int)
    requires InTimeOrder(es) && start <= end
    ensures (forall i: nat | i < |es| :: EventReturned(es, start, end, i) <==> EventWanted(es, start, end, i))
       <==> HitsAreOutermost(es, start, end)
  {
    if HitsAreOutermost(es, start, end) {
      forall i: nat | i < |es| ensures EventReturned(es, start, end, i) <==> EventWanted(es, start, end, i) {
        EventReturnedIff(es, start, end, i);
      }
    } else {
      var i := InnerHitLoses(es, start, end);
    }
  }

  lemma InnerHitLoses(es: seq<Event>, start: int, end: int) returns (i: nat)
    requires InTimeOrder(es) && start <= end && !HitsAreOutermost(es, start, end)
    ensures i < |es| && EventWanted(es, start, end, i) && !EventReturned(es, start, end, i)
  {
    var s, e := FindEvent(es, start), FindEvent(es, end);
    FindEventFinds(es, start);
    FindEventFinds(es, end);
    if s > 0 && start <= es[s - 1].at {
      i := s - 1;
      if s < |es| { TimesInOrder(es, i, s); }
    } else {
      i := e + 1;
      TimesInOrder(es, e, i);
    }
  }

  predicate AtMostOneAt(es: seq<Event>, key: int) {
    forall i, j | 0 <= i < j < |es| :: es[i].at != key || es[j].at != key
  }

  /** In particular it is met when at most one event sits at either end of the window. */
  lemma EventWindow(es: seq<Event>, start: int, end: int, i: nat)
    requires InTimeOrder(es) && start <= end && i < |es|
    requires AtMostOneAt(es, start) && AtMostOneAt(es, end)
    ensures EventReturned(es, start, end, i) <==> EventWanted(es, start, end, i)
  {
    var s, e := FindEvent(es, start), FindEvent(es, end);
    FindEventFinds(es, start);
    FindEventFinds(es, end);
    if 0 < s < |es| { TimesInOrder(es, s - 1, s); }
    if e + 1 < |es| { TimesInOrder(es, e, e + 1); }
    EventReturnedIff(es, start, end, i);
  }

  /** For one instant the condition is on the events alone: the query is right exactly when there is at most one. */
  lemma PointWindowIff(es: seq<Event>, t: int)
    requires InTimeOrder(es)
    ensures (forall i: nat | i < |es| :: EventReturned(es, t, t, i) <==> EventWanted(es, t, t, i)) <==> AtMostOneAt(es, t)
  {
    EventWindowIff(es, t, t);
    FindEventFinds(es, t);
    var s := FindEvent(es, t);
    if HitsAreOutermost(es, t, t) {
      forall i, j | 0 <= i < j < |es| ensures es[i].at != t || es[j].at != t {
        if i < s {
          TimesInOrder(es, i, s - 1);
        } else if s < j {
          TimesInOrder(es, s + 1, j);
        }
      }
    } else if s < |es| {
      if s > 0 { TimesInOrder(es, s - 1, s); }
      if s + 1 < |es| { TimesInOrder(es, s, s + 1); }
    }
  }

  /** Of two events at one time only the first is found at that time. */
  lemma SecondEventGetsLost(a: string, b: string)
    ensures var es := [Event(1, a), Event(1, b)]; FindEvent(es, 1) == 0 && !EventReturned(es, 1, 1, 1)
  {
  }

  /** Of three events at one time only the middle one is found at that time. */
  lemma SimultaneousEventsGetLost(a: string, b: string, c: string)
    ensures var es := [Event(1, a), Event(1, b), Event(1, c)];
            InTimeOrder(es) && FindEvent(es, 1) == 1 && !EventReturned(es, 1, 1, 0) && !EventReturned(es, 1, 1, 2)
  {
  }

  // ---------------------------------------------------------------- bounds

  /** get_bounds of a series of ranges, and of a series of events. */
  function RangesBounds(rs: seq<DataRange>): (int, int) {
    if rs == [] then (0, 0) else (rs[0].start, rs[|rs| - 1].end)
  }

  function EventsBounds(es: seq<Event>): (int, int) {
    if es == [] then (0, 0) else (es[0].at, es[|es| - 1].at)
  }

  predicate Within(p: int, b: (int, int)) {
    b.0 <= p <= b.1
  }

  predicate InStartOrder(rs: seq<DataRange>) {
    forall i, j | 0 <= i < j < |rs| :: rs[i].start <= rs[j].start
  }

  lemma SortedIsInStartOrder(rs: seq<DataRange>)
    ensures SortedBy(rs, StartOf) <==> InStartOrder(rs)
  {
    assert forall i | 0 <= i < |rs| :: StartOf(rs[i]) == rs[i].start;
  }

  /** The last range is proper, and no range ends after it or before the first one starts. */
  predicate LastEndsLast(rs: seq<DataRange>) {
    rs != [] ==>
      && rs[|rs| - 1].start <= rs[|rs| - 1].end
      && forall i | 0 <= i < |rs| :: rs[0].start <= rs[i].end <= rs[|rs| - 1].end
  }

  /** For sorted ranges looking at the two ends of the list is enough exactly under this condition ... */
  lemma RangesBoundsIff(rs: seq<DataRange>)
    requires InStartOrder(rs)
    ensures (forall i | 0 <= i < |rs| ::
               Within(rs[i].start, RangesBounds(rs)) && Within(rs[i].end, RangesBounds(rs))) <==> LastEndsLast(rs)
  {
    if rs != [] {
      var last := |rs| - 1;
      assert forall i | 0 <= i < |rs| :: rs[0].start <= rs[i].start <= rs[last].start;
      if forall i | 0 <= i < |rs| :: Within(rs[i].start, RangesBounds(rs)) && Within(rs[i].end, RangesBounds(rs)) {
        assert Within(rs[last].start, RangesBounds(rs));
        forall i | 0 <= i < |rs| ensures rs[0].start <= rs[i].end <= rs[last].end {
          assert Within(rs[i].end, RangesBounds(rs));
        }
      }
    }
  }

  /** ... which for proper ranges only says that none ends after the last one, ... */
  lemma ProperRangesBoundsIff(rs: seq<DataRange>)
    requires InStartOrder(rs) && forall i | 0 <= i < |rs| :: rs[i].start <= rs[i].end
    ensures LastEndsLast(rs) <==> forall i | 0 <= i < |rs| :: rs[i].end <= rs[|rs| - 1].end
  {
    assert forall i | 0 < i < |rs| :: rs[0].start <= rs[i].start;
  }

  lemma RangesBoundsCover(rs: seq<DataRange>, i: nat)
    requires InStartOrder(rs) && LastEndsLast(rs) && i < |rs|
    ensures Within(rs[i].start, RangesBounds(rs)) && Within(rs[i].end, RangesBounds(rs))
  {
    RangesBoundsIff(rs);
  }

  lemma DisjointEndsLast(rs: seq<DataRange>)
    requires Disjoint(rs)
    ensures InStartOrder(rs) && LastEndsLast(rs)
  {
    forall i, j | 0 <= i < j < |rs| ensures rs[i].start <= rs[j].start && rs[i].end <= rs[j].end {
      Ordered(rs, i, j);
    }
    if rs != [] {
      forall i | 0 <= i < |rs| ensures rs[0].start <= rs[i].end <= rs[|rs| - 1].end {
        Ordered(rs, 0, i);
        Ordered(rs, i, |rs| - 1);
      }
    }
  }

  /** A range that contains the last one ends outside the bounds. */
  lemma LongRangeGetsCut(v: string)
    ensures var rs := [DataRange(0, 10, v), DataRange(1, 2, v)];
            InStartOrder(rs) && RangesBounds(rs) == (0, 2) && !Within(rs[0].end, RangesBounds(rs)) && !LastEndsLast(rs)
  {
    var rs := [DataRange(0, 10, v), DataRange(1, 2, v)];
    assert rs[0].end > rs[1].end;
  }

  /** ... and for sorted events it always is. */
  lemma EventsBoundsCover(es: seq<Event>, i: nat)
    requires SortedBy(es, TimeOf) && i < |es|
    ensures Within(es[i].at, EventsBounds(es))
  {
    assert TimeOf(es[0]) <= TimeOf(es[i]) <= TimeOf(es[|es| - 1]);
  }

  /** r has the ranges that answer the query, each once, in order, and nothing else. */
  ghost predicate IsAnswer(r: seq<DataRange>, rs: seq<DataRange>, start: int, end: int) {
    exists lo: nat, hi: nat :: IsBlock(r, rs, lo, hi) && forall i: nat :: Answers(rs, start, end, i) <==> lo <= i < hi
  }

  ghost predicate IsReturned(r: seq<DataRange>, rs: seq<DataRange>, start: int, end: int) {
    exists lo: nat, hi: nat :: IsBlock(r, rs, lo, hi) && forall i: nat :: Returned(rs, start, end, i) <==> lo <= i < hi
  }

  lemma SliceIsReturned(rs: seq<DataRange>, start: int, end: int)
    ensures var b := RangeBounds(rs, start, end); IsReturned(Slice(rs, b.0, b.1), rs, start, end)
  {
    var b := RangeBounds(rs, start, end);
    var lo, hi := SliceIsBlock(rs, b.0, b.1);
    forall i: nat ensures Returned(rs, start, end, i) <==> lo <= i < hi {
      assert InSlice(rs, b.0, b.1, i) <==> Returned(rs, start, end, i);
    }
  }

  lemma ReturnedIsAnswer(r: seq<DataRange>, rs: seq<DataRange>, start: int, end: int)
    requires Disjoint(rs) && IsReturned(r, rs, start, end)
    ensures IsAnswer(r, rs, start, end)
  {
    var lo: nat, hi: nat :| IsBlock(r, rs, lo, hi) && forall i: nat :: Returned(rs, start, end, i) <==> lo <= i < hi;
    forall i: nat ensures Answers(rs, start, end, i) <==> lo <= i < hi {
      if i < |rs| { ReturnedIff(rs, start, end, i); }
    }
  }

  /** The same for events. */
  ghost predicate IsEventAnswer(r: seq<Event>, es: seq<Event>, start: int, end: int) {
    exists lo: nat, hi: nat :: IsBlock(r, es, lo, hi) && forall i: nat :: EventWanted(es, start, end, i) <==> lo <= i < hi
  }

  ghost predicate IsEventsReturned(r: seq<Event>, es: seq<Event>, start: int, end: int) {
    exists lo: nat, hi: nat :: IsBlock(r, es, lo, hi) && forall i: nat :: EventReturned(es, start, end, i) <==> lo <= i < hi
  }

  lemma SliceIsEventsReturned(es: seq<Event>, start: int, end: int)
    ensures IsEventsReturned(Slice(es, FindEvent(es, start), FindEvent(es, end) + 1), es, start, end)
  {
    var s, e := FindEvent(es, start), FindEvent(es, end) + 1;
    var lo, hi := SliceIsBlock(es, s, e);
    forall i: nat ensures EventReturned(es, start, end, i) <==> lo <= i < hi {
      assert InSlice(es, s, e, i) <==> EventReturned(es, start, end, i);
    }
  }

  lemma EventsReturnedIsAnswer(r: seq<Event>, es: seq<Event>, start: int, end: int)
    requires InTimeOrder(es) && start <= end && HitsAreOutermost(es, start, end) && IsEventsReturned(r, es, start, end)
    ensures IsEventAnswer(r, es, start, end)
  {
    var lo: nat, hi: nat :| IsBlock(r, es, lo, hi) && forall i: nat :: EventReturned(es, start, end, i) <==> lo <= i < hi;
    forall i: nat ensures EventWanted(es, start, end, i) <==> lo <= i < hi {
      if i < |es| { EventReturnedIff(es, start, end, i); }
    }
  }

  lemma RangesAnswer(rs: seq<DataRange>, start: int, end: int)
    ensures var b := RangeBounds(rs, start, end);
            var r := Slice(rs, b.0, b.1);
            IsReturned(r, rs, start, end) && (Disjoint(rs) ==> IsAnswer(r, rs, start, end))
  {
    var b := RangeBounds(rs, start, end);
    SliceIsReturned(rs, start, end);
    if Disjoint(rs) { ReturnedIsAnswer(Slice(rs, b.0, b.1), rs, start, end); }
  }

  lemma EventsAnswer(es: seq<Event>, start: int, end: int)
    ensures var r := Slice(es, FindEvent(es, start), FindEvent(es, end) + 1);
            && IsEventsReturned(r, es, start, end)
            && (InTimeOrder(es) && start <= end && HitsAreOutermost(es, start, end) ==> IsEventAnswer(r, es, start, end))
  {
    SliceIsEventsReturned(es, start, end);
    if InTimeOrder(es) && start <= end && HitsAreOutermost(es, start, end) {
      EventsReturnedIsAnswer(Slice(es, FindEvent(es, start), FindEvent(es, end) + 1), es, start, end);
    }
  }

  method EventSlice(es: seq<Event>, s: nat, e: nat, start: int, end: int) returns (r: seq<Event>)
    requires s == FindEvent(es, start) && e == FindEvent(es, end)
    ensures r == Slice(es, FindEvent(es, start), FindEvent(es, end) + 1)
    ensures IsEventsReturned(r, es, start, end)
    ensures InTimeOrder(es) && start <= end && HitsAreOutermost(es, start, end) ==> IsEventAnswer(r, es, start, end)
  {
    r := Slice(es, s, e + 1);
    EventsAnswer(es, start, end);
  }

  // ---------------------------------------------------------------- the classes

  function StartOf(r: DataRange): int { r.start }

  function TimeOf(e: Event): int { e.at }

  class TimelineDataRange {
    const name: string
    var ranges: seq<DataRange>

    constructor (name: string)
      ensures this.name == name && ranges == []
    {
      this.name, ranges := name, [];
    }

    method Search(key: int) returns (r: int)
      ensures r == FindRange(ranges, key)
    {
      var l, u := 0, |ranges| - 1;
      while l <= u
        invariant 0 <= l <= |ranges| && -1 <= u < |ranges|
        invariant RangeSearch(ranges, key, l, u) == FindRange(ranges, key)
        decreases u - l + 1
      {
        var i := (l + u) / 2;
        if key >= ranges[i].start && key <= ranges[i].end {
          return i;
        } else if key < ranges[i].start {
          u := i - 1;
        } else {
          l := i + 1;
        }
      }
      return -1;
    }

    method AddRange(range: DataRange)
      modifies this
      ensures ranges == old(ranges) + [range]
    {
      ranges := ranges + [range];
    }

    method GetRanges(start: int, end: int) returns (r: seq<DataRange>)
      ensures var b := RangeBounds(ranges, start, end); r == Slice(ranges, b.0, b.1)
      ensures IsReturned(r, ranges, start, end)
      ensures Disjoint(ranges) ==> IsAnswer(r, ranges, start, end)
    {
      var s := Search(start);
      var e := Search(end);
      if s == -1 && e == -1 {
        r := [];
      } else if s == -1 {
        r := Slice(ranges, 0, e + 1);
      } else if e == -1 {
        r := Slice(ranges, s, |ranges|);
      } else {
        r := Slice(ranges, s, e + 1);
      }
      RangesAnswer(ranges, start, end);
    }

    method GetRangesBounds(start: int, end: int) returns (lo: nat, hi: nat)
      ensures (lo, hi) == RangeBounds(ranges, start, end)
    {
      var s := Search(start);
      var e := Search(end);
      if s == -1 && e == -1 {
        return 0, 0;
      } else if s == -1 {
        return 0, e + 1;
      } else if e == -1 {
        return s, |ranges|;
      } else {
        return s, e + 1;
      }
    }

    method SortRanges()
      modifies this
      ensures ranges == Sort(old(ranges), StartOf)
      ensures SortedBy(ranges, StartOf) && multiset(ranges) == multiset(old(ranges))
    {
      SortSorts(ranges, StartOf);
      ranges := Sort(ranges, StartOf);
    }

    method GetBounds() returns (lo: int, hi: int)
      ensures (lo, hi) == RangesBounds(ranges)
    {
      if |ranges| > 0 {
        lo, hi := ranges[0].start, ranges[|ranges| - 1].end;
      } else {
        lo, hi := 0, 0;
      }
    }
  }

  class TimelineEvent {
    const name: string
    var events: seq<Event>

    constructor (name: string)
      ensures this.name == name && events == []
    {
      this.name, events := name, [];
    }

    method Search(key: int) returns (r: nat)
      ensures r == FindEvent(events, key)
    {
      var l, u := 0, |events| - 1;
      while l <= u
        invariant 0 <= l <= |events| && -1 <= u < |events| && l <= u + 1
        invariant EventSearch(events, key, l, u) == FindEvent(events, key)
        decreases u - l + 1
      {
        var i := (l + u) / 2;
        if key == events[i].at {
          return i;
        } else if key < events[i].at {
          u := i - 1;
        } else {
          l := i + 1;
        }
      }
      return l;
    }

    method AddEvent(event: Event)
      modifies this
      ensures events == old(events) + [event]
    {
      events := events + [event];
    }

    method GetEvents(start: int, end: int) returns (r: seq<Event>)
      ensures r == Slice(events, FindEvent(events, start), FindEvent(events, end) + 1)
      ensures IsEventsReturned(r, events, start, end)
      ensures InTimeOrder(events) && start <= end && HitsAreOutermost(events, start, end) ==>
                IsEventAnswer(r, events, start, end)
    {
      var s := Search(start);
      var e := Search(end);
      r := EventSlice(events, s, e, start, end);
    }

    method GetEventsBounds(start: int, end: int) returns (lo: nat, hi: nat)
      ensures (lo, hi) == (FindEvent(events, start), FindEvent(events, end) + 1)
    {
      lo := Search(start);
      hi := Search(end);
      hi := hi + 1;
    }

    method SortEvents()
      modifies this
      ensures events == Sort(old(events), TimeOf)
      ensures SortedBy(events, TimeOf) && multiset(events) == multiset(old(events))
      ensures InTimeOrder(events)
    {
      SortSorts(events, TimeOf);
      events := Sort(events, TimeOf);
      SortedIsInTimeOrder(events);
    }

    method GetBounds() returns (lo: int, hi: int)
      ensures (lo, hi) == EventsBounds(events)
    {
      if |events| > 0 {
        lo, hi := events[0].at, events[|events| - 1].at;
      } else {
        lo, hi := 0, 0;
      }
    }
  }
}
