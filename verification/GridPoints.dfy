// What the whole program of utils/grid.py knows about the bounds of a trace, in terms of its records.
module GridPoints {
  import opened StableSort
  import opened GridSeries
  import opened GridTimelines
  import opened Grid

  predicate IsRecordPoint(r: Record, p: int) {
    match r
    case RangeLine(_, _, range) => range.start == p || range.end == p
    case EventStrLine(_, _, event) => event.at == p
    case EventIntLine(_, _, event) => event.at == p
  }

  ghost predicate IsPointOfRecords(rs: seq<Record>, p: int) {
    exists r :: r in rs && IsRecordPoint(r, p)
  }

  ghost function RecordPoints(rs: seq<Record>): iset<int> {
    iset p | IsPointOfRecords(rs, p)
  }

  /** No two ranges of one series overlap. */
  ghost predicate RangesApart(rs: seq<Record>) {
    forall timeline, series :: AllApart(RangesOf(rs, timeline, series))
  }

  // ---------------------------------------------------------------- members of the lists

  lemma {:induction false} RangesOfMember(rs: seq<Record>, timeline: string, series: string, x: DataRange)
    ensures x in RangesOf(rs, timeline, series) <==> RangeLine(timeline, series, x) in rs
  {
    if rs != [] {
      var init, r := rs[..|rs| - 1], rs[|rs| - 1];
      RangesOfMember(init, timeline, series, x);
      assert rs == init + [r];
    }
  }

  lemma {:induction false} EventStrsOfMember(rs: seq<Record>, timeline: string, series: string, x: Event)
    ensures x in EventStrsOf(rs, timeline, series) <==> EventStrLine(timeline, series, x) in rs
  {
    if rs != [] {
      var init, r := rs[..|rs| - 1], rs[|rs| - 1];
      EventStrsOfMember(init, timeline, series, x);
      assert rs == init + [r];
    }
  }

  lemma {:induction false} EventIntsOfMember(rs: seq<Record>, timeline: string, series: string, x: Event)
    ensures x in EventIntsOf(rs, timeline, series) <==> EventIntLine(timeline, series, x) in rs
  {
    if rs != [] {
      var init, r := rs[..|rs| - 1], rs[|rs| - 1];
      EventIntsOfMember(init, timeline, series, x);
      assert rs == init + [r];
    }
  }

  lemma {:induction false} LookupAt<T>(list: seq<Series<T>>, k: nat)
    requires DistinctNames(list) && k < |list|
    ensures Lookup(list, list[k].name) == list[k].items
  {
    if k > 0 {
      assert list[0].name != list[k].name;
      LookupAt(list[1..], k - 1);
    }
  }

  lemma {:induction false} LookupIsAt<T>(list: seq<Series<T>>, name: string) returns (k: nat)
    requires Lookup(list, name) != []
    ensures k < |list| && list[k].items == Lookup(list, name)
  {
    if list[0].name == name {
      k := 0;
    } else {
      k := LookupIsAt(list[1..], name);
      k := k + 1;
    }
  }

  lemma {:induction false} FindAt(ts: seq<TimelineContents>, k: nat)
    requires DistinctTimelines(ts) && k < |ts|
    ensures Find(ts, ts[k].name) == ts[k]
  {
    if k > 0 {
      assert ts[0].name != ts[k].name;
      FindAt(ts[1..], k - 1);
    }
  }

  lemma {:induction false} FindIsAt(ts: seq<TimelineContents>, name: string)
    ensures Find(ts, name) == TimelineContents(name, [], [], []) || Find(ts, name) in ts
  {
    if ts != [] { FindIsAt(ts[1..], name); }
  }

  // ---------------------------------------------------------------- sorted series and records

  lemma HeldBy(ts: seq<TimelineContents>, rs: seq<Record>, timeline: string, series: string)
    requires Holds(ts, rs)
    ensures var t := Find(ts, timeline);
            && Lookup(t.ranges, series) == Sort(RangesOf(rs, timeline, series), StartOf)
            && Lookup(t.eventStr, series) == Sort(EventStrsOf(rs, timeline, series), TimeOf)
            && Lookup(t.eventInt, series) == Sort(EventIntsOf(rs, timeline, series), TimeOf)
  {
  }

  lemma RangesHeld(ts: seq<TimelineContents>, rs: seq<Record>, k: nat, i: nat)
    requires Holds(ts, rs) && k < |ts| && i < |ts[k].ranges|
    ensures ts[k].ranges[i].items == Sort(RangesOf(rs, ts[k].name, ts[k].ranges[i].name), StartOf)
  {
    FindAt(ts, k);
    LookupAt(ts[k].ranges, i);
    HeldBy(ts, rs, ts[k].name, ts[k].ranges[i].name);
  }

  lemma EventStrsHeld(ts: seq<TimelineContents>, rs: seq<Record>, k: nat, i: nat)
    requires Holds(ts, rs) && k < |ts| && i < |ts[k].eventStr|
    ensures ts[k].eventStr[i].items == Sort(EventStrsOf(rs, ts[k].name, ts[k].eventStr[i].name), TimeOf)
  {
    FindAt(ts, k);
    LookupAt(ts[k].eventStr, i);
    HeldBy(ts, rs, ts[k].name, ts[k].eventStr[i].name);
  }

  lemma EventIntsHeld(ts: seq<TimelineContents>, rs: seq<Record>, k: nat, i: nat)
    requires Holds(ts, rs) && k < |ts| && i < |ts[k].eventInt|
    ensures ts[k].eventInt[i].items == Sort(EventIntsOf(rs, ts[k].name, ts[k].eventInt[i].name), TimeOf)
  {
    FindAt(ts, k);
    LookupAt(ts[k].eventInt, i);
    HeldBy(ts, rs, ts[k].name, ts[k].eventInt[i].name);
  }

  /** Every point of the timelines comes from a record ... */
  lemma PointHasRecord(ts: seq<TimelineContents>, rs: seq<Record>, k: nat, p: int)
    requires Holds(ts, rs) && k < |ts| && IsPoint(ts[k], p)
    ensures IsPointOfRecords(rs, p)
  {
    var t := ts[k];
    if i: nat, j: nat :| i < |t.ranges| && j < |t.ranges[i].items|
                         && (t.ranges[i].items[j].start == p || t.ranges[i].items[j].end == p) {
      var x := t.ranges[i].items[j];
      RangesHeld(ts, rs, k, i);
      SortMember(RangesOf(rs, t.name, t.ranges[i].name), StartOf, x);
      RangesOfMember(rs, t.name, t.ranges[i].name, x);
      assert IsRecordPoint(RangeLine(t.name, t.ranges[i].name, x), p);
    } else if i: nat, j: nat :| i < |t.eventStr| && j < |t.eventStr[i].items| && t.eventStr[i].items[j].at == p {
      var x := t.eventStr[i].items[j];
      EventStrsHeld(ts, rs, k, i);
      SortMember(EventStrsOf(rs, t.name, t.eventStr[i].name), TimeOf, x);
      EventStrsOfMember(rs, t.name, t.eventStr[i].name, x);
      assert IsRecordPoint(EventStrLine(t.name, t.eventStr[i].name, x), p);
    } else {
      var i: nat, j: nat :| i < |t.eventInt| && j < |t.eventInt[i].items| && t.eventInt[i].items[j].at == p;
      var x := t.eventInt[i].items[j];
      EventIntsHeld(ts, rs, k, i);
      SortMember(EventIntsOf(rs, t.name, t.eventInt[i].name), TimeOf, x);
      EventIntsOfMember(rs, t.name, t.eventInt[i].name, x);
      assert IsRecordPoint(EventIntLine(t.name, t.eventInt[i].name, x), p);
    }
  }

  /** ... and every point of a record is one of the timelines. */
  lemma RecordHasPoint(ts: seq<TimelineContents>, rs: seq<Record>, r: Record, p: int)
    requires Holds(ts, rs) && r in rs && IsRecordPoint(r, p)
    ensures IsPointOfSome(ts, p)
  {
    var t := Find(ts, r.timeline);
    HeldBy(ts, rs, r.timeline, r.series);
    match r {
      case RangeLine(timeline, series, x) =>
        RangesOfMember(rs, timeline, series, x);
        SortMember(RangesOf(rs, timeline, series), StartOf, x);
        assert x in Lookup(t.ranges, series);
        var i := LookupIsAt(t.ranges, series);
        var j :| 0 <= j < |t.ranges[i].items| && t.ranges[i].items[j] == x;
        assert IsPoint(t, p);
      case EventStrLine(timeline, series, x) =>
        EventStrsOfMember(rs, timeline, series, x);
        SortMember(EventStrsOf(rs, timeline, series), TimeOf, x);
        assert x in Lookup(t.eventStr, series);
        var i := LookupIsAt(t.eventStr, series);
        var j :| 0 <= j < |t.eventStr[i].items| && t.eventStr[i].items[j] == x;
        assert IsPoint(t, p);
      case EventIntLine(timeline, series, x) =>
        EventIntsOfMember(rs, timeline, series, x);
        SortMember(EventIntsOf(rs, timeline, series), TimeOf, x);
        assert x in Lookup(t.eventInt, series);
        var i := LookupIsAt(t.eventInt, series);
        var j :| 0 <= j < |t.eventInt[i].items| && t.eventInt[i].items[j] == x;
        assert IsPoint(t, p);
    }
    FindIsAt(ts, r.timeline);
    assert t != TimelineContents(r.timeline, [], [], []);
    var k :| 0 <= k < |ts| && ts[k] == t;
    assert IsPoint(ts[k], p);
  }

  lemma PointsAreRecordPoints(ts: seq<TimelineContents>, rs: seq<Record>)
    requires Holds(ts, rs)
    ensures AllPoints(ts) == RecordPoints(rs)
  {
    forall p ensures p in AllPoints(ts) <==> p in RecordPoints(rs) {
      if IsPointOfSome(ts, p) {
        var k :| 0 <= k < |ts| && IsPoint(ts[k], p);
        PointHasRecord(ts, rs, k, p);
      }
      if IsPointOfRecords(rs, p) {
        var r :| r in rs && IsRecordPoint(r, p);
        RecordHasPoint(ts, rs, r, p);
      }
    }
  }

  // ---------------------------------------------------------------- order

  lemma SeriesInOrder(ts: seq<TimelineContents>, rs: seq<Record>, k: nat)
    requires Holds(ts, rs) && k < |ts|
    ensures RangesApart(rs) ==> InOrder(ts[k])
  {
    var t := ts[k];
    forall i | 0 <= i < |t.ranges| ensures RangesApart(rs) ==> Disjoint(t.ranges[i].items) {
      RangesHeld(ts, rs, k, i);
      SortedIsDisjoint(RangesOf(rs, t.name, t.ranges[i].name));
    }
    EventsSorted(ts, rs, k);
  }

  lemma ApartWhenInOrder(ts: seq<TimelineContents>, rs: seq<Record>, timeline: string, series: string)
    requires Holds(ts, rs) && AllInOrder(ts)
    ensures AllApart(RangesOf(rs, timeline, series))
  {
    var t := Find(ts, timeline);
    HeldBy(ts, rs, timeline, series);
    SortedIsDisjoint(RangesOf(rs, timeline, series));
    if Lookup(t.ranges, series) != [] {
      var i := LookupIsAt(t.ranges, series);
      FindIsAt(ts, timeline);
      assert t in ts;
    }
  }

  /** After read_data all series are ready for the searches exactly when no two ranges of one series overlap. */
  lemma InOrderIffApart(ts: seq<TimelineContents>, rs: seq<Record>)
    requires Holds(ts, rs)
    ensures AllInOrder(ts) <==> RangesApart(rs)
  {
    forall k | 0 <= k < |ts| ensures RangesApart(rs) ==> InOrder(ts[k]) {
      SeriesInOrder(ts, rs, k);
    }
    if AllInOrder(ts) {
      forall timeline, series ensures AllApart(RangesOf(rs, timeline, series)) {
        ApartWhenInOrder(ts, rs, timeline, series);
      }
    }
  }

  // ---------------------------------------------------------------- bounds

  /** In every series, once it is sorted, no range ends after the last one. */
  ghost predicate LastRangesEndLast(rs: seq<Record>) {
    forall timeline, series :: LastEndsLast(Sort(RangesOf(rs, timeline, series), StartOf))
  }

  lemma ApartEndsLast(rs: seq<Record>)
    requires RangesApart(rs)
    ensures LastRangesEndLast(rs)
  {
    forall timeline, series ensures LastEndsLast(Sort(RangesOf(rs, timeline, series), StartOf)) {
      SortedIsDisjoint(RangesOf(rs, timeline, series));
      DisjointEndsLast(Sort(RangesOf(rs, timeline, series), StartOf));
    }
  }

  lemma SeriesReady(ts: seq<TimelineContents>, rs: seq<Record>, k: nat)
    requires Holds(ts, rs) && k < |ts| && LastRangesEndLast(rs)
    ensures BoundsReady(ts[k])
  {
    var t := ts[k];
    forall i | 0 <= i < |t.ranges| ensures InStartOrder(t.ranges[i].items) && LastEndsLast(t.ranges[i].items) {
      RangesHeld(ts, rs, k, i);
      SortIsSorted(RangesOf(rs, t.name, t.ranges[i].name));
      SortedIsInStartOrder(t.ranges[i].items);
    }
    EventsSorted(ts, rs, k);
  }

  lemma EventsSorted(ts: seq<TimelineContents>, rs: seq<Record>, k: nat)
    requires Holds(ts, rs) && k < |ts|
    ensures forall i | 0 <= i < |ts[k].eventStr| :: SortedBy(ts[k].eventStr[i].items, TimeOf)
    ensures forall i | 0 <= i < |ts[k].eventInt| :: SortedBy(ts[k].eventInt[i].items, TimeOf)
  {
    var t := ts[k];
    forall i | 0 <= i < |t.eventStr| ensures SortedBy(t.eventStr[i].items, TimeOf) {
      EventStrsHeld(ts, rs, k, i);
      SortSorts(EventStrsOf(rs, t.name, t.eventStr[i].name), TimeOf);
    }
    forall i | 0 <= i < |t.eventInt| ensures SortedBy(t.eventInt[i].items, TimeOf) {
      EventIntsHeld(ts, rs, k, i);
      SortSorts(EventIntsOf(rs, t.name, t.eventInt[i].name), TimeOf);
    }
  }

  lemma EndsLastWhenReady(ts: seq<TimelineContents>, rs: seq<Record>, timeline: string, series: string)
    requires Holds(ts, rs) && AllBoundsReady(ts)
    ensures LastEndsLast(Sort(RangesOf(rs, timeline, series), StartOf))
  {
    var t := Find(ts, timeline);
    HeldBy(ts, rs, timeline, series);
    if Lookup(t.ranges, series) != [] {
      var i := LookupIsAt(t.ranges, series);
      FindIsAt(ts, timeline);
      assert t in ts;
    }
  }

  /** After read_data the ends of every list bound its series exactly when no range of one key ends after the last. */
  lemma ReadyIffEndsLast(ts: seq<TimelineContents>, rs: seq<Record>)
    requires Holds(ts, rs)
    ensures AllBoundsReady(ts) <==> LastRangesEndLast(rs)
  {
    if LastRangesEndLast(rs) {
      forall k | 0 <= k < |ts| ensures BoundsReady(ts[k]) { SeriesReady(ts, rs, k); }
    }
    if AllBoundsReady(ts) {
      forall timeline, series ensures LastEndsLast(Sort(RangesOf(rs, timeline, series), StartOf)) {
        EndsLastWhenReady(ts, rs, timeline, series);
      }
    }
  }

  /** The two calls at the start of main: when the last range of each series ends last, and so in particular when
      no two of them overlap, the bounds are the smallest interval that contains 0, every event and both ends of
      every range. */
  method ReadBounds(records: seq<Record>) returns (lo: int, hi: int)
    ensures LastRangesEndLast(records) ==> IsHull((lo, hi), RecordPoints(records))
    ensures RangesApart(records) ==> IsHull((lo, hi), RecordPoints(records))
  {
    var timelines := ReadData(records);
    lo, hi := timelines.GetBounds();
    PointsAreRecordPoints(timelines.Contents, records);
    ReadyIffEndsLast(timelines.Contents, records);
    assert RangesApart(records) ==> LastRangesEndLast(records) by {
      if RangesApart(records) {
        ApartEndsLast(records);
      }
    }
  }
}
