// The objects of utils/grid.py above the series: a timeline owns series objects, the timelines own
// timeline objects, and read_data adds each record through the objects that get-or-create returns.
module Grid {
  import opened StableSort
  import opened GridSeries
  import opened GridTimelines

  predicate AllDifferent<T(==)>(xs: seq<T>) {
    forall i, j | 0 <= i < j < |xs| :: xs[i] != xs[j]
  }

  /** f is what sort does to a timeline. */
  ghost predicate Sorts(f: TimelineContents -> TimelineContents) {
    forall t {:trigger SortedTimeline(t)} :: f(t) == SortedTimeline(t)
  }

  class Timeline {
    const name: string
    var ranges: seq<TimelineDataRange>
    var eventStr: seq<TimelineEvent>
    var eventInt: seq<TimelineEvent>

    ghost var Contents: TimelineContents
    ghost var Repr: set<object>

    /** Contents is what the series objects hold, and no series object is in two places. */
    ghost predicate Valid()
      reads this, Repr
    {
      && this in Repr
      && (forall r | r in ranges :: r in Repr)
      && (forall e | e in eventStr :: e in Repr && e !in eventInt)
      && (forall e | e in eventInt :: e in Repr)
      && AllDifferent(ranges) && AllDifferent(eventStr) && AllDifferent(eventInt)
      && Contents.name == name
      && |Contents.ranges| == |ranges| && |Contents.eventStr| == |eventStr| && |Contents.eventInt| == |eventInt|
      && (forall k | 0 <= k < |ranges| :: Contents.ranges[k] == Series(ranges[k].name, ranges[k].ranges))
      && (forall k | 0 <= k < |eventStr| :: Contents.eventStr[k] == Series(eventStr[k].name, eventStr[k].events))
      && (forall k | 0 <= k < |eventInt| :: Contents.eventInt[k] == Series(eventInt[k].name, eventInt[k].events))
    }

    constructor (name: string)
      ensures Valid() && fresh(Repr) && Contents == TimelineContents(name, [], [], [])
    {
      this.name, ranges, eventStr, eventInt := name, [], [], [];
      Contents, Repr := TimelineContents(name, [], [], []), {this};
    }

    /** The get methods return the first series of this name; i is its place. */
    method GetRange(name: string) returns (series: TimelineDataRange, ghost i: nat)
      modifies this`ranges
      ensures i <= |old(ranges)| && forall k | 0 <= k < i :: old(ranges)[k].name != name
      ensures series.name == name
      ensures i < |old(ranges)| ==> ranges == old(ranges) && series == ranges[i]
      ensures i == |old(ranges)| ==> ranges == old(ranges) + [series] && fresh(series) && series.ranges == []
    {
      for n := 0 to |ranges|
        invariant ranges == old(ranges)
        invariant forall k | 0 <= k < n :: ranges[k].name != name
      {
        if ranges[n].name == name {
          return ranges[n], n;
        }
      }
      i := |ranges|;
      series := new TimelineDataRange(name);
      ranges := ranges + [series];
    }

    method GetEventStr(name: string) returns (series: TimelineEvent, ghost i: nat)
      modifies this`eventStr
      ensures i <= |old(eventStr)| && forall k | 0 <= k < i :: old(eventStr)[k].name != name
      ensures series.name == name
      ensures i < |old(eventStr)| ==> eventStr == old(eventStr) && series == eventStr[i]
      ensures i == |old(eventStr)| ==> eventStr == old(eventStr) + [series] && fresh(series) && series.events == []
    {
      for n := 0 to |eventStr|
        invariant eventStr == old(eventStr)
        invariant forall k | 0 <= k < n :: eventStr[k].name != name
      {
        if eventStr[n].name == name {
          return eventStr[n], n;
        }
      }
      i := |eventStr|;
      series := new TimelineEvent(name);
      eventStr := eventStr + [series];
    }

    method GetEventInt(name: string) returns (series: TimelineEvent, ghost i: nat)
      modifies this`eventInt
      ensures i <= |old(eventInt)| && forall k | 0 <= k < i :: old(eventInt)[k].name != name
      ensures series.name == name
      ensures i < |old(eventInt)| ==> eventInt == old(eventInt) && series == eventInt[i]
      ensures i == |old(eventInt)| ==> eventInt == old(eventInt) + [series] && fresh(series) && series.events == []
    {
      for n := 0 to |eventInt|
        invariant eventInt == old(eventInt)
        invariant forall k | 0 <= k < n :: eventInt[k].name != name
      {
        if eventInt[n].name == name {
          return eventInt[n], n;
        }
      }
      i := |eventInt|;
      series := new TimelineEvent(name);
      eventInt := eventInt + [series];
    }

    /** What read_data does with a record after timelines.get: it goes into the series that get-or-create returns. */
    method AddRange(name: string, item: DataRange)
      requires Valid()
      modifies Repr
      ensures Valid() && fresh(Repr - old(Repr))
      ensures Contents == AddRecord(old(Contents), RangeLine(this.name, name, item))
    {
      ghost var was := Contents.ranges;
      var series, i := GetRange(name);
      assert i < |was| ==> series in old(ranges);
      assert AllDifferent(ranges);
      series.AddRange(item);
      ghost var now := if i < |was| then was[i := Series(name, series.ranges)] else was + [Series(name, series.ranges)];
      AddedBy(was, name, item, i, now);
      assert forall k | 0 <= k < |ranges| :: now[k] == Series(ranges[k].name, ranges[k].ranges);
      Contents := Contents.(ranges := now);
      Repr := Repr + {series};
    }

    method AddEventStr(name: string, item: Event)
      requires Valid()
      modifies Repr
      ensures Valid() && fresh(Repr - old(Repr))
      ensures Contents == AddRecord(old(Contents), EventStrLine(this.name, name, item))
    {
      ghost var was := Contents.eventStr;
      var series, i := GetEventStr(name);
      assert i < |was| ==> series in old(eventStr);
      assert AllDifferent(eventStr);
      series.AddEvent(item);
      ghost var now := if i < |was| then was[i := Series(name, series.events)] else was + [Series(name, series.events)];
      AddedBy(was, name, item, i, now);
      assert forall k | 0 <= k < |eventStr| :: now[k] == Series(eventStr[k].name, eventStr[k].events);
      Contents := Contents.(eventStr := now);
      Repr := Repr + {series};
    }

    method AddEventInt(name: string, item: Event)
      requires Valid()
      modifies Repr
      ensures Valid() && fresh(Repr - old(Repr))
      ensures Contents == AddRecord(old(Contents), EventIntLine(this.name, name, item))
    {
      ghost var was := Contents.eventInt;
      var series, i := GetEventInt(name);
      assert i < |was| ==> series in old(eventInt);
      assert AllDifferent(eventInt);
      series.AddEvent(item);
      ghost var now := if i < |was| then was[i := Series(name, series.events)] else was + [Series(name, series.events)];
      AddedBy(was, name, item, i, now);
      assert forall k | 0 <= k < |eventInt| :: now[k] == Series(eventInt[k].name, eventInt[k].events);
      Contents := Contents.(eventInt := now);
      Repr := Repr + {series};
    }

    method AddItem(r: Record)
      requires Valid() && r.timeline == name
      modifies Repr
      ensures Valid() && fresh(Repr - old(Repr))
      ensures Contents == AddRecord(old(Contents), r)
    {
      match r
      case RangeLine(_, series, range) => AddRange(series, range);
      case EventStrLine(_, series, event) => AddEventStr(series, event);
      case EventIntLine(_, series, event) => AddEventInt(series, event);
    }

    /** The three loops of sort. */
    method SortRangeSeries()
      requires Valid()
      modifies Repr
      ensures Valid() && Repr == old(Repr)
      ensures Contents == old(Contents).(ranges := SortedSeries(old(Contents).ranges, StartOf))
    {
      ghost var sorted := SortedSeries(Contents.ranges, StartOf);
      SortedSeriesNow(Contents.ranges, StartOf);
      SortAllRanges(ranges);
      assert forall k | 0 <= k < |ranges| :: sorted[k] == Series(ranges[k].name, ranges[k].ranges);
      Contents := Contents.(ranges := sorted);
    }

    method SortEventIntSeries()
      requires Valid()
      modifies Repr
      ensures Valid() && Repr == old(Repr)
      ensures Contents == old(Contents).(eventInt := SortedSeries(old(Contents).eventInt, TimeOf))
    {
      ghost var sorted := SortedSeries(Contents.eventInt, TimeOf);
      SortedSeriesNow(Contents.eventInt, TimeOf);
      SortAllEvents(eventInt);
      assert forall x | x in eventStr :: x !in eventInt && x.events == old(x.events);
      assert forall k | 0 <= k < |eventInt| :: sorted[k] == Series(eventInt[k].name, eventInt[k].events);
      Contents := Contents.(eventInt := sorted);
    }

    method SortEventStrSeries()
      requires Valid()
      modifies Repr
      ensures Valid() && Repr == old(Repr)
      ensures Contents == old(Contents).(eventStr := SortedSeries(old(Contents).eventStr, TimeOf))
    {
      ghost var sorted := SortedSeries(Contents.eventStr, TimeOf);
      SortedSeriesNow(Contents.eventStr, TimeOf);
      SortAllEvents(eventStr);
      assert forall x | x in eventInt :: x !in eventStr && x.events == old(x.events);
      assert forall k | 0 <= k < |eventStr| :: sorted[k] == Series(eventStr[k].name, eventStr[k].events);
      Contents := Contents.(eventStr := sorted);
    }

    method SortSeries(ghost f: TimelineContents -> TimelineContents)
      requires Valid() && Sorts(f)
      modifies Repr
      ensures Valid() && Repr == old(Repr)
      ensures Contents == f(old(Contents))
    {
      SortRangeSeries();
      SortEventIntSeries();
      SortEventStrSeries();
      assert Contents == SortedTimeline(old(Contents));
    }

    method GetBounds() returns (lo: int, hi: int)
      requires Valid()
      ensures (lo, hi) == TimelineBounds(Contents)
    {
      ghost var a, b := BoundsOf(Contents.ranges, RangesBounds), BoundsOf(Contents.eventStr, EventsBounds);
      assert [] + a == a;
      lo, hi := WidenByRanges(0, 0, ranges, Contents.ranges, []);
      lo, hi := WidenByEvents(lo, hi, eventStr, Contents.eventStr, a);
      lo, hi := WidenByEvents(lo, hi, eventInt, Contents.eventInt, a + b);
    }
  }

  // ---------------------------------------------------------------- the loops over the series of one kind

  lemma SortedSeriesNow<T>(list: seq<Series<T>>, key: T -> int)
    ensures forall k | 0 <= k < |list| :: SortedSeries(list, key)[k] == Series(list[k].name, Sort(list[k].items, key))
  {
    forall k | 0 <= k < |list| ensures SortedSeries(list, key)[k] == Series(list[k].name, Sort(list[k].items, key)) {
      SortedSeriesAt(list, key, k);
    }
  }

  method SortAllRanges(rs: seq<TimelineDataRange>)
    requires AllDifferent(rs)
    modifies rs
    ensures forall k | 0 <= k < |rs| :: rs[k].ranges == Sort(old(rs[k].ranges), StartOf)
  {
    for n := 0 to |rs|
      invariant forall k | 0 <= k < n :: rs[k].ranges == Sort(old(rs[k].ranges), StartOf)
      invariant forall k | n <= k < |rs| :: rs[k].ranges == old(rs[k].ranges)
    {
      assert forall k | 0 <= k < |rs| && k != n :: rs[k] != rs[n];
      rs[n].SortRanges();
    }
  }

  method SortAllEvents(es: seq<TimelineEvent>)
    requires AllDifferent(es)
    modifies es
    ensures forall k | 0 <= k < |es| :: es[k].events == Sort(old(es[k].events), TimeOf)
  {
    for n := 0 to |es|
      invariant forall k | 0 <= k < n :: es[k].events == Sort(old(es[k].events), TimeOf)
      invariant forall k | n <= k < |es| :: es[k].events == old(es[k].events)
    {
      assert forall k | 0 <= k < |es| && k != n :: es[k] != es[n];
      es[n].SortEvents();
    }
  }

  method WidenBy(lo: int, hi: int, b: (int, int)) returns (lo': int, hi': int)
    ensures (lo', hi') == Widen((lo, hi), b)
  {
    lo', hi' := lo, hi;
    if b.0 < lo {
      lo' := b.0;
    }
    if b.1 > hi {
      hi' := b.1;
    }
  }

  method WidenByRanges(lo: int, hi: int, xs: seq<TimelineDataRange>, ghost list: seq<Series<DataRange>>, ghost before: seq<(int, int)>)
    returns (lo': int, hi': int)
    requires (lo, hi) == WidenAll(before) && |list| == |xs|
    requires forall k | 0 <= k < |xs| :: xs[k].ranges == list[k].items
    ensures (lo', hi') == WidenAll(before + BoundsOf(list, RangesBounds))
  {
    lo', hi' := lo, hi;
    ghost var bs := BoundsOf(list, RangesBounds);
    WidenStart(before, bs);
    for n := 0 to |xs|
      invariant (lo', hi') == WidenAll(before + bs[..n])
    {
      var bLo, bHi := xs[n].GetBounds();
      assert bs[n] == (bLo, bHi);
      WidenStep(before, bs, n);
      lo', hi' := WidenBy(lo', hi', (bLo, bHi));
    }
  }

  method WidenByEvents(lo: int, hi: int, xs: seq<TimelineEvent>, ghost list: seq<Series<Event>>, ghost before: seq<(int, int)>)
    returns (lo': int, hi': int)
    requires (lo, hi) == WidenAll(before) && |list| == |xs|
    requires forall k | 0 <= k < |xs| :: xs[k].events == list[k].items
    ensures (lo', hi') == WidenAll(before + BoundsOf(list, EventsBounds))
  {
    lo', hi' := lo, hi;
    ghost var bs := BoundsOf(list, EventsBounds);
    WidenStart(before, bs);
    for n := 0 to |xs|
      invariant (lo', hi') == WidenAll(before + bs[..n])
    {
      var bLo, bHi := xs[n].GetBounds();
      assert bs[n] == (bLo, bHi);
      WidenStep(before, bs, n);
      lo', hi' := WidenBy(lo', hi', (bLo, bHi));
    }
  }

  // ---------------------------------------------------------------- all timelines

  class Timelines {
    var timelines: seq<Timeline>

    ghost var Contents: seq<TimelineContents>
    ghost var Repr: set<object>

    /** Contents is what the timeline objects hold, and no object belongs to two timelines. */
    ghost predicate Valid()
      reads this, Repr
    {
      && this in Repr
      && (forall t | t in timelines :: t in Repr && t.Repr <= Repr && this !in t.Repr && t.Valid())
      && (forall i, j | 0 <= i < j < |timelines| :: timelines[i].Repr !! timelines[j].Repr)
      && |Contents| == |timelines| && forall i | 0 <= i < |timelines| :: Contents[i] == timelines[i].Contents
    }

    constructor ()
      ensures Valid() && fresh(Repr) && Contents == []
    {
      timelines, Contents, Repr := [], [], {this};
    }

    /** get returns the first timeline of this name; i is its place. */
    method Get(name: string) returns (timeline: Timeline, ghost i: nat)
      requires Valid()
      modifies this
      ensures Valid() && fresh(Repr - old(Repr))
      ensures i <= |old(Contents)| && forall k | 0 <= k < i :: old(Contents)[k].name != name
      ensures Contents == if i < |old(Contents)| then old(Contents) else old(Contents) + [TimelineContents(name, [], [], [])]
      ensures i < |timelines| && timeline == timelines[i] && timeline.name == name && Contents[i].name == name
    {
      for n := 0 to |timelines|
        invariant unchanged(this)
        invariant forall k | 0 <= k < n :: Contents[k].name != name
      {
        assert timelines[n] in timelines && Contents[n] == timelines[n].Contents;
        if timelines[n].name == name {
          return timelines[n], n;
        }
      }
      i := |timelines|;
      timeline := new Timeline(name);
      timelines := timelines + [timeline];
      Contents, Repr := Contents + [timeline.Contents], Repr + timeline.Repr;
    }

    /** One matching line of read_data. */
    method AddRecordLine(r: Record)
      requires Valid()
      modifies Repr
      ensures Valid() && fresh(Repr - old(Repr))
      ensures Contents == AddLine(old(Contents), r)
    {
      ghost var was := Contents;
      var t, i := Get(r.timeline);
      AddItemTo(t, r, i);
      AddLineAt(was, r, i);
    }

    method AddItemTo(t: Timeline, r: Record, ghost n: nat)
      requires Valid() && n < |timelines| && timelines[n] == t && t.name == r.timeline
      modifies Repr
      ensures Valid() && fresh(Repr - old(Repr))
      ensures Contents == old(Contents)[n := AddRecord(old(Contents)[n], r)]
    {
      assert t in timelines;
      t.AddItem(r);
      forall x | x in timelines && x != t ensures x.Valid() && x.Repr == old(x.Repr) && x.Contents == old(x.Contents) {
        assert x.Repr !! old(t.Repr);
      }
      Contents, Repr := Contents[n := t.Contents], Repr + t.Repr;
    }

    /** The body of the loop of sort. */
    method SortOne(n: nat, ghost f: TimelineContents -> TimelineContents)
      requires Valid() && n < |timelines| && Sorts(f)
      modifies Repr
      ensures Valid() && Repr == old(Repr) && timelines == old(timelines)
      ensures Contents == old(Contents)[n := f(old(Contents)[n])]
    {
      var t := timelines[n];
      assert t in timelines;
      t.SortSeries(f);
      forall x | x in timelines && x != t ensures x.Valid() && x.Repr == old(x.Repr) && x.Contents == old(x.Contents) {
        assert x.Repr !! old(t.Repr);
      }
      Contents := Contents[n := t.Contents];
    }

    method SortEach(ghost f: TimelineContents -> TimelineContents)
      requires Valid() && Sorts(f)
      modifies Repr
      ensures Valid() && Repr == old(Repr)
      ensures Contents == UpTo(old(Contents), f, |old(Contents)|)
    {
      for n := 0 to |timelines|
        invariant Valid() && Repr == old(Repr) && timelines == old(timelines)
        invariant Contents == UpTo(old(Contents), f, n)
      {
        SortOne(n, f);
      }
    }

    method SortTimelines()
      requires Valid()
      modifies Repr
      ensures Valid() && Repr == old(Repr)
      ensures Contents == SortedTimelines(old(Contents))
    {
      SortEach(SortedTimeline);
    }

    method GetBounds() returns (lo: int, hi: int)
      requires Valid()
      ensures (lo, hi) == WidenAll(TimelinesBounds(Contents))
      ensures AllBoundsReady(Contents) ==> IsHull((lo, hi), AllPoints(Contents))
    {
      lo, hi := 0, 0;
      assert TimelinesBounds(Contents[..0]) == [];
      for i := 0 to |timelines|
        invariant (lo, hi) == WidenAll(TimelinesBounds(Contents[..i]))
      {
        assert timelines[i] in timelines;
        TimelinesBoundsNext(Contents, i);
        lo, hi := WidenByTimeline(lo, hi, timelines[i], TimelinesBounds(Contents[..i]), Contents[i]);
      }
      assert Contents[..|timelines|] == Contents;
      assert AllBoundsReady(Contents) ==> IsHull((lo, hi), AllPoints(Contents)) by {
        if AllBoundsReady(Contents) {
          BoundsAreHull(Contents);
        }
      }
    }
  }

  method WidenByTimeline(lo: int, hi: int, t: Timeline, ghost before: seq<(int, int)>, ghost c: TimelineContents)
    returns (lo': int, hi': int)
    requires t.Valid() && t.Contents == c && (lo, hi) == WidenAll(before)
    ensures (lo', hi') == WidenAll(before + [TimelineBounds(c)])
  {
    var tLo, tHi := t.GetBounds();
    lo', hi' := WidenBy(lo, hi, (tLo, tHi));
    WidenNext(before, (tLo, tHi));
  }

  /** read_data on the lines that are records. */
  method ReadData(records: seq<Record>) returns (timelines: Timelines)
    ensures fresh(timelines.Repr) && timelines.Valid()
    ensures Holds(timelines.Contents, records)
  {
    timelines := new Timelines();
    for i := 0 to |records|
      invariant timelines.Valid() && fresh(timelines.Repr)
      invariant timelines.Contents == Grouped(records[..i])
    {
      assert records[..i + 1][..i] == records[..i];
      timelines.AddRecordLine(records[i]);
    }
    assert records[..|records|] == records;
    SortedGroupsHold(records);
    timelines.SortTimelines();
  }
}
