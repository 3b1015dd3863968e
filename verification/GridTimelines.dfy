// How utils/grid.py groups the records of a trace into timelines and series, and the bounds of all of them.
module GridTimelines {
  import opened GridSeries
  import opened StableSort

  datatype Series<T> = Series(name: string, items: seq<T>)

  datatype TimelineContents = TimelineContents(name: string, ranges: seq<Series<DataRange>>,
                                               eventStr: seq<Series<Event>>, eventInt: seq<Series<Event>>)

  /** A line that read_data recognises. */
  datatype Record =
    | RangeLine(timeline: string, series: string, range: DataRange)
    | EventStrLine(timeline: string, series: string, event: Event)
    | EventIntLine(timeline: string, series: string, event: Event)

  // ---------------------------------------------------------------- get-or-create

  predicate DistinctNames<T>(list: seq<Series<T>>) {
    forall i, j | 0 <= i < j < |list| :: list[i].name != list[j].name
  }

  function Lookup<T>(list: seq<Series<T>>, name: string): seq<T> {
    if list == [] then [] else if list[0].name == name then list[0].items else Lookup(list[1..], name)
  }

  /** The list after getting or creating the series and adding an item to it. */
  function Added<T>(list: seq<Series<T>>, name: string, item: T): seq<Series<T>> {
    if list == [] then [Series(name, [item])]
    else if list[0].name == name then [Series(name, list[0].items + [item])] + list[1..]
    else [list[0]] + Added(list[1..], name, item)
  }

  predicate HasName<T>(list: seq<Series<T>>, name: string) {
    exists i :: 0 <= i < |list| && list[i].name == name
  }

  lemma {:induction false} AddedNames<T>(list: seq<Series<T>>, name: string, item: T, m: string)
    ensures HasName(Added(list, name, item), m) <==> HasName(list, m) || m == name
  {
    var r := Added(list, name, item);
    if list != [] && list[0].name != name {
      AddedNames(list[1..], name, item, m);
      HasNameCons(list[0], Added(list[1..], name, item), m);
      HasNameCons(list[0], list[1..], m);
      assert list == [list[0]] + list[1..];
    } else if list != [] {
      HasNameCons(Series(name, list[0].items + [item]), list[1..], m);
      HasNameCons(list[0], list[1..], m);
      assert list == [list[0]] + list[1..];
    } else {
      assert r[0].name == name;
    }
  }

  lemma HasNameCons<T>(s: Series<T>, list: seq<Series<T>>, m: string)
    ensures HasName([s] + list, m) <==> s.name == m || HasName(list, m)
  {
    var r := [s] + list;
    if s.name == m { assert r[0].name == m; }
    if HasName(list, m) {
      var i :| 0 <= i < |list| && list[i].name == m;
      assert r[i + 1].name == m;
    }
  }

  lemma {:induction false} AddedDistinct<T>(list: seq<Series<T>>, name: string, item: T)
    requires DistinctNames(list)
    ensures DistinctNames(Added(list, name, item))
  {
    if list != [] && list[0].name != name {
      AddedDistinct(list[1..], name, item);
      AddedNames(list[1..], name, item, list[0].name);
      assert !HasName(list[1..], list[0].name);
    }
  }

  /** Adding to one series leaves the others as they are. */
  lemma {:induction false} AddedLookup<T>(list: seq<Series<T>>, name: string, item: T, m: string)
    ensures Lookup(Added(list, name, item), m) == Lookup(list, m) + if m == name then [item] else []
  {
    if list != [] && list[0].name != name { AddedLookup(list[1..], name, item, m); }
  }

  lemma {:induction false} AddedAt<T>(list: seq<Series<T>>, name: string, item: T, i: nat)
    requires i <= |list| && forall k | 0 <= k < i :: list[k].name != name
    requires i < |list| ==> list[i].name == name
    ensures Added(list, name, item) == if i < |list| then list[i := Series(name, list[i].items + [item])]
                                       else list + [Series(name, [item])]
  {
    if i > 0 {
      AddedAt(list[1..], name, item, i - 1);
      assert list == [list[0]] + list[1..];
    }
  }

  /** Added, described position by position. */
  lemma AddedBy<T>(list: seq<Series<T>>, name: string, item: T, i: nat, r: seq<Series<T>>)
    requires i <= |list| && forall k | 0 <= k < i :: list[k].name != name
    requires i < |list| ==> list[i].name == name
    requires |r| == if i < |list| then |list| else i + 1
    requires r[i] == Series(name, (if i < |list| then list[i].items else []) + [item])
    requires forall k | 0 <= k < |list| && k != i :: r[k] == list[k]
    ensures r == Added(list, name, item)
  {
    AddedAt(list, name, item, i);
    assert [] + [item] == [item];
  }

  // ---------------------------------------------------------------- the same for timelines

  predicate DistinctTimelines(ts: seq<TimelineContents>) {
    forall i, j | 0 <= i < j < |ts| :: ts[i].name != ts[j].name
  }

  function Find(ts: seq<TimelineContents>, name: string): TimelineContents {
    if ts == [] then TimelineContents(name, [], [], [])
    else if ts[0].name == name then ts[0]
    else Find(ts[1..], name)
  }

  function AddRecord(t: TimelineContents, r: Record): TimelineContents {
    match r
    case RangeLine(_, s, x) => t.(ranges := Added(t.ranges, s, x))
    case EventStrLine(_, s, x) => t.(eventStr := Added(t.eventStr, s, x))
    case EventIntLine(_, s, x) => t.(eventInt := Added(t.eventInt, s, x))
  }

  function AddLine(ts: seq<TimelineContents>, r: Record): seq<TimelineContents> {
    if ts == [] then [AddRecord(TimelineContents(r.timeline, [], [], []), r)]
    else if ts[0].name == r.timeline then [AddRecord(ts[0], r)] + ts[1..]
    else [ts[0]] + AddLine(ts[1..], r)
  }

  /** All names are used once: timelines, and within a timeline the series of each kind. */
  predicate WellNamed(ts: seq<TimelineContents>) {
    && DistinctTimelines(ts)
    && forall i | 0 <= i < |ts| ::
         DistinctNames(ts[i].ranges) && DistinctNames(ts[i].eventStr) && DistinctNames(ts[i].eventInt)
  }

  lemma {:induction false} AddLineNames(ts: seq<TimelineContents>, r: Record, i: nat)
    requires i < |AddLine(ts, r)|
    ensures AddLine(ts, r)[i].name == r.timeline || exists k :: 0 <= k < |ts| && ts[k].name == AddLine(ts, r)[i].name
  {
    if ts != [] && i > 0 && ts[0].name != r.timeline {
      AddLineNames(ts[1..], r, i - 1);
      var name := AddLine(ts, r)[i].name;
      if name != r.timeline {
        var k :| 0 <= k < |ts[1..]| && ts[1..][k].name == name;
        assert ts[k + 1].name == name;
      }
    } else if ts != [] && i > 0 {
      assert ts[i].name == AddLine(ts, r)[i].name;
    } else if ts != [] {
      assert ts[0].name == AddLine(ts, r)[0].name;
    }
  }

  lemma AddRecordWellNamed(t: TimelineContents, r: Record)
    requires DistinctNames(t.ranges) && DistinctNames(t.eventStr) && DistinctNames(t.eventInt)
    ensures var u := AddRecord(t, r);
            DistinctNames(u.ranges) && DistinctNames(u.eventStr) && DistinctNames(u.eventInt) && u.name == t.name
  {
    match r
    case RangeLine(_, s, x) => AddedDistinct(t.ranges, s, x);
    case EventStrLine(_, s, x) => AddedDistinct(t.eventStr, s, x);
    case EventIntLine(_, s, x) => AddedDistinct(t.eventInt, s, x);
  }

  lemma {:induction false} AddLineWellNamed(ts: seq<TimelineContents>, r: Record)
    requires WellNamed(ts)
    ensures WellNamed(AddLine(ts, r))
  {
    if ts == [] {
      AddRecordWellNamed(TimelineContents(r.timeline, [], [], []), r);
    } else if ts[0].name == r.timeline {
      AddRecordWellNamed(ts[0], r);
    } else {
      AddLineWellNamed(ts[1..], r);
      var rest := AddLine(ts[1..], r);
      forall i | 0 <= i < |rest| ensures rest[i].name != ts[0].name {
        AddLineNames(ts[1..], r, i);
      }
    }
  }

  lemma {:induction false} AddLineAt(ts: seq<TimelineContents>, r: Record, i: nat)
    requires i <= |ts| && forall k | 0 <= k < i :: ts[k].name != r.timeline
    requires i < |ts| ==> ts[i].name == r.timeline
    ensures AddLine(ts, r) == if i < |ts| then ts[i := AddRecord(ts[i], r)]
                              else ts + [AddRecord(TimelineContents(r.timeline, [], [], []), r)]
  {
    if i > 0 {
      AddLineAt(ts[1..], r, i - 1);
      assert ts == [ts[0]] + ts[1..];
    }
  }

  lemma {:induction false} AddLineFind(ts: seq<TimelineContents>, r: Record, name: string)
    ensures Find(AddLine(ts, r), name) == if name == r.timeline then AddRecord(Find(ts, name), r) else Find(ts, name)
  {
    if ts != [] && ts[0].name != r.timeline { AddLineFind(ts[1..], r, name); }
  }

  // ---------------------------------------------------------------- all records

  /** What read_data builds from the lines, before it sorts. */
  function Grouped(rs: seq<Record>): seq<TimelineContents> {
    if rs == [] then [] else AddLine(Grouped(rs[..|rs| - 1]), rs[|rs| - 1])
  }

  /** The ranges, text events and number events of the records with a given key, in input order. */
  function RangesOf(rs: seq<Record>, timeline: string, series: string): seq<DataRange> {
    if rs == [] then []
    else
      var r := rs[|rs| - 1];
      RangesOf(rs[..|rs| - 1], timeline, series)
      + if r.RangeLine? && r.timeline == timeline && r.series == series then [r.range] else []
  }

  function EventStrsOf(rs: seq<Record>, timeline: string, series: string): seq<Event> {
    if rs == [] then []
    else
      var r := rs[|rs| - 1];
      EventStrsOf(rs[..|rs| - 1], timeline, series)
      + if r.EventStrLine? && r.timeline == timeline && r.series == series then [r.event] else []
  }

  function EventIntsOf(rs: seq<Record>, timeline: string, series: string): seq<Event> {
    if rs == [] then []
    else
      var r := rs[|rs| - 1];
      EventIntsOf(rs[..|rs| - 1], timeline, series)
      + if r.EventIntLine? && r.timeline == timeline && r.series == series then [r.event] else []
  }

  lemma {:induction false} GroupedWellNamed(rs: seq<Record>)
    ensures WellNamed(Grouped(rs))
  {
    if rs != [] {
      GroupedWellNamed(rs[..|rs| - 1]);
      AddLineWellNamed(Grouped(rs[..|rs| - 1]), rs[|rs| - 1]);
    }
  }

  lemma RecordLookup(t: TimelineContents, r: Record, series: string)
    ensures var u := AddRecord(t, r);
            && Lookup(u.ranges, series)
               == Lookup(t.ranges, series) + (if r.RangeLine? && r.series == series then [r.range] else [])
            && Lookup(u.eventStr, series)
               == Lookup(t.eventStr, series) + (if r.EventStrLine? && r.series == series then [r.event] else [])
            && Lookup(u.eventInt, series)
               == Lookup(t.eventInt, series) + (if r.EventIntLine? && r.series == series then [r.event] else [])
  {
    match r
    case RangeLine(_, s, x) => AddedLookup(t.ranges, s, x, series);
    case EventStrLine(_, s, x) => AddedLookup(t.eventStr, s, x, series);
    case EventIntLine(_, s, x) => AddedLookup(t.eventInt, s, x, series);
  }

  /** Grouping loses and duplicates nothing: a series holds exactly the records with its key, in input order. */
  lemma {:induction false} GroupedLookup(rs: seq<Record>, timeline: string, series: string)
    ensures Lookup(Find(Grouped(rs), timeline).ranges, series) == RangesOf(rs, timeline, series)
    ensures Lookup(Find(Grouped(rs), timeline).eventStr, series) == EventStrsOf(rs, timeline, series)
    ensures Lookup(Find(Grouped(rs), timeline).eventInt, series) == EventIntsOf(rs, timeline, series)
  {
    if rs != [] {
      var init, r := rs[..|rs| - 1], rs[|rs| - 1];
      GroupedLookup(init, timeline, series);
      AddLineFind(Grouped(init), r, timeline);
      RecordLookup(Find(Grouped(init), timeline), r, series);
    }
  }

  // ---------------------------------------------------------------- the order of the lists

  function Names<T>(list: seq<Series<T>>): (r: seq<string>)
    ensures |r| == |list|
  {
    if list == [] then [] else [list[0].name] + Names(list[1..])
  }

  function TimelineNames(ts: seq<TimelineContents>): (r: seq<string>)
    ensures |r| == |ts|
  {
    if ts == [] then [] else [ts[0].name] + TimelineNames(ts[1..])
  }

  /** A name joins at the end when it is new. */
  function WithName(names: seq<string>, name: string): seq<string> {
    if name in names then names else names + [name]
  }

  lemma {:induction false} AddedNamesAre<T>(list: seq<Series<T>>, name: string, item: T)
    ensures Names(Added(list, name, item)) == WithName(Names(list), name)
  {
    if list != [] && list[0].name != name {
      AddedNamesAre(list[1..], name, item);
      assert Names(list) == [list[0].name] + Names(list[1..]);
    }
  }

  lemma {:induction false} AddLineNamesAre(ts: seq<TimelineContents>, r: Record)
    ensures TimelineNames(AddLine(ts, r)) == WithName(TimelineNames(ts), r.timeline)
  {
    if ts != [] && ts[0].name != r.timeline {
      AddLineNamesAre(ts[1..], r);
      assert TimelineNames(ts) == [ts[0].name] + TimelineNames(ts[1..]);
    }
  }

  /** The names of the timelines in the records, in the order in which they first appear. */
  function FirstTimelines(rs: seq<Record>): seq<string> {
    if rs == [] then [] else WithName(FirstTimelines(rs[..|rs| - 1]), rs[|rs| - 1].timeline)
  }

  datatype Kind = Ranges | EventStrs | EventInts

  function KindOf(r: Record): Kind {
    match r
    case RangeLine(_, _, _) => Ranges
    case EventStrLine(_, _, _) => EventStrs
    case EventIntLine(_, _, _) => EventInts
  }

  /** The names of the series of one kind in one timeline, in the order in which they first appear. */
  function FirstSeries(rs: seq<Record>, timeline: string, kind: Kind): seq<string> {
    if rs == [] then []
    else
      var r, before := rs[|rs| - 1], FirstSeries(rs[..|rs| - 1], timeline, kind);
      if r.timeline == timeline && KindOf(r) == kind then WithName(before, r.series) else before
  }

  /** Timelines are listed in the order in which they first appear. */
  lemma {:induction false} TimelinesInOrder(rs: seq<Record>)
    ensures TimelineNames(Grouped(rs)) == FirstTimelines(rs)
  {
    if rs != [] {
      TimelinesInOrder(rs[..|rs| - 1]);
      AddLineNamesAre(Grouped(rs[..|rs| - 1]), rs[|rs| - 1]);
    }
  }

  lemma RecordNames(t: TimelineContents, r: Record)
    ensures var u := AddRecord(t, r);
            && Names(u.ranges) == (if r.RangeLine? then WithName(Names(t.ranges), r.series) else Names(t.ranges))
            && Names(u.eventStr) == (if r.EventStrLine? then WithName(Names(t.eventStr), r.series) else Names(t.eventStr))
            && Names(u.eventInt) == (if r.EventIntLine? then WithName(Names(t.eventInt), r.series) else Names(t.eventInt))
  {
    match r
    case RangeLine(_, s, x) => AddedNamesAre(t.ranges, s, x);
    case EventStrLine(_, s, x) => AddedNamesAre(t.eventStr, s, x);
    case EventIntLine(_, s, x) => AddedNamesAre(t.eventInt, s, x);
  }

  /** And so are the series of each kind within a timeline. */
  lemma {:induction false} SeriesInOrder(rs: seq<Record>, timeline: string)
    ensures var t := Find(Grouped(rs), timeline);
            && Names(t.ranges) == FirstSeries(rs, timeline, Ranges)
            && Names(t.eventStr) == FirstSeries(rs, timeline, EventStrs)
            && Names(t.eventInt) == FirstSeries(rs, timeline, EventInts)
  {
    if rs != [] {
      var init, r := rs[..|rs| - 1], rs[|rs| - 1];
      SeriesInOrder(init, timeline);
      AddLineFind(Grouped(init), r, timeline);
      RecordNames(Find(Grouped(init), timeline), r);
    }
  }

  lemma RangesOfNext(rs: seq<Record>, r: Record, timeline: string, series: string)
    ensures RangesOf(rs + [r], timeline, series) == RangesOf(rs, timeline, series)
         + if r.RangeLine? && r.timeline == timeline && r.series == series then [r.range] else []
  {
    assert (rs + [r])[..|rs|] == rs;
  }

  lemma {:induction false} RangesInOrder(a: seq<Record>, b: seq<Record>, timeline: string, series: string)
    ensures RangesOf(a + b, timeline, series) == RangesOf(a, timeline, series) + RangesOf(b, timeline, series)
  {
    if b == [] {
      assert a + b == a;
    } else {
      var init, r := b[..|b| - 1], b[|b| - 1];
      assert b == init + [r] && a + b == (a + init) + [r];
      RangesInOrder(a, init, timeline, series);
      RangesOfNext(a + init, r, timeline, series);
      RangesOfNext(init, r, timeline, series);
    }
  }

  lemma EventStrsOfNext(rs: seq<Record>, r: Record, timeline: string, series: string)
    ensures EventStrsOf(rs + [r], timeline, series) == EventStrsOf(rs, timeline, series)
         + if r.EventStrLine? && r.timeline == timeline && r.series == series then [r.event] else []
  {
    assert (rs + [r])[..|rs|] == rs;
  }

  lemma {:induction false} EventStrsInOrder(a: seq<Record>, b: seq<Record>, timeline: string, series: string)
    ensures EventStrsOf(a + b, timeline, series) == EventStrsOf(a, timeline, series) + EventStrsOf(b, timeline, series)
  {
    if b == [] {
      assert a + b == a;
    } else {
      var init, r := b[..|b| - 1], b[|b| - 1];
      assert b == init + [r] && a + b == (a + init) + [r];
      EventStrsInOrder(a, init, timeline, series);
      EventStrsOfNext(a + init, r, timeline, series);
      EventStrsOfNext(init, r, timeline, series);
    }
  }

  lemma EventIntsOfNext(rs: seq<Record>, r: Record, timeline: string, series: string)
    ensures EventIntsOf(rs + [r], timeline, series) == EventIntsOf(rs, timeline, series)
         + if r.EventIntLine? && r.timeline == timeline && r.series == series then [r.event] else []
  {
    assert (rs + [r])[..|rs|] == rs;
  }

  lemma {:induction false} EventIntsInOrder(a: seq<Record>, b: seq<Record>, timeline: string, series: string)
    ensures EventIntsOf(a + b, timeline, series) == EventIntsOf(a, timeline, series) + EventIntsOf(b, timeline, series)
  {
    if b == [] {
      assert a + b == a;
    } else {
      var init, r := b[..|b| - 1], b[|b| - 1];
      assert b == init + [r] && a + b == (a + init) + [r];
      EventIntsInOrder(a, init, timeline, series);
      EventIntsOfNext(a + init, r, timeline, series);
      EventIntsOfNext(init, r, timeline, series);
    }
  }

  /** The records of a key are taken in input order. */
  lemma RecordsInOrder(a: seq<Record>, b: seq<Record>, timeline: string, series: string)
    ensures RangesOf(a + b, timeline, series) == RangesOf(a, timeline, series) + RangesOf(b, timeline, series)
    ensures EventStrsOf(a + b, timeline, series) == EventStrsOf(a, timeline, series) + EventStrsOf(b, timeline, series)
    ensures EventIntsOf(a + b, timeline, series) == EventIntsOf(a, timeline, series) + EventIntsOf(b, timeline, series)
  {
    RangesInOrder(a, b, timeline, series);
    EventStrsInOrder(a, b, timeline, series);
    EventIntsInOrder(a, b, timeline, series);
  }

  // ---------------------------------------------------------------- sorting

  function SortedSeries<T>(list: seq<Series<T>>, key: T -> int): (r: seq<Series<T>>)
    ensures |r| == |list|
  {
    if list == [] then []
    else [Series(list[0].name, Sort(list[0].items, key))] + SortedSeries(list[1..], key)
  }

  lemma {:induction false} SortedSeriesAt<T>(list: seq<Series<T>>, key: T -> int, i: nat)
    requires i < |list|
    ensures SortedSeries(list, key)[i] == Series(list[i].name, Sort(list[i].items, key))
  {
    if i > 0 { SortedSeriesAt(list[1..], key, i - 1); }
  }

  function SortedTimeline(t: TimelineContents): TimelineContents {
    TimelineContents(t.name, SortedSeries(t.ranges, StartOf), SortedSeries(t.eventStr, TimeOf), SortedSeries(t.eventInt, TimeOf))
  }

  /** The first n elements changed by f, one after the other. */
  function UpTo<T>(xs: seq<T>, f: T -> T, n: nat): (r: seq<T>)
    requires n <= |xs|
    ensures |r| == |xs|
  {
    if n == 0 then xs
    else
      var r := UpTo(xs, f, n - 1);
      r[n - 1 := f(r[n - 1])]
  }

  lemma {:induction false} UpToAt<T>(xs: seq<T>, f: T -> T, n: nat, i: nat)
    requires n <= |xs| && i < |xs|
    ensures UpTo(xs, f, n)[i] == if i < n then f(xs[i]) else xs[i]
  {
    if n > 0 { UpToAt(xs, f, n - 1, i); }
  }

  /** What Timelines.sort leaves. */
  function SortedTimelines(ts: seq<TimelineContents>): (r: seq<TimelineContents>)
    ensures |r| == |ts|
  {
    UpTo(ts, SortedTimeline, |ts|)
  }

  lemma {:induction false} SortedLookup<T>(list: seq<Series<T>>, key: T -> int, name: string)
    ensures Lookup(SortedSeries(list, key), name) == Sort(Lookup(list, name), key)
  {
    if list != [] { SortedLookup(list[1..], key, name); }
  }

  /** Two ranges that do not overlap, in either order. */
  predicate Apart(a: DataRange, b: DataRange) {
    a.end < b.start || b.end < a.start
  }

  /** The input condition for the searches: proper ranges, no two of which overlap, in any order. */
  predicate AllApart(rs: seq<DataRange>) {
    && (forall i | 0 <= i < |rs| :: rs[i].start <= rs[i].end)
    && (forall i, j | 0 <= i < j < |rs| :: Apart(rs[i], rs[j]))
  }

  predicate ApartFrom(rs: seq<DataRange>, x: DataRange) {
    x.start <= x.end && forall r | r in rs :: Apart(r, x)
  }

  lemma InsertMember(xs: seq<DataRange>, x: DataRange, y: DataRange)
    ensures y in Insert(xs, x, StartOf) <==> y in xs || y == x
  {
    InsertElements(xs, x, StartOf);
    assert y in Insert(xs, x, StartOf) <==> y in multiset(Insert(xs, x, StartOf));
    assert y in xs <==> y in multiset(xs);
  }

  lemma AppendDisjoint(xs: seq<DataRange>, y: DataRange)
    ensures Disjoint(xs + [y]) <==> Disjoint(xs) && y.start <= y.end && forall r | r in xs :: r.end < y.start
  {
    var zs := xs + [y];
    if Disjoint(zs) {
      assert zs[|xs|] == y;
      forall i | 0 <= i < |xs| ensures xs[i].start <= xs[i].end < y.start {
        assert xs[i] == zs[i];
      }
      forall i, j | 0 <= i < j < |xs| ensures xs[i].end < xs[j].start {
        assert xs[i] == zs[i] && xs[j] == zs[j];
      }
    }
  }

  lemma InsertBehind(xs: seq<DataRange>, x: DataRange)
    requires forall r | r in xs :: r.start <= x.start
    ensures Disjoint(xs + [x]) <==> Disjoint(xs) && ApartFrom(xs, x)
  {
    AppendDisjoint(xs, x);
    if Disjoint(xs) && ApartFrom(xs, x) {
      forall r | r in xs ensures r.end < x.start { assert Apart(r, x); }
    }
  }

  lemma InsertBefore(init: seq<DataRange>, last: DataRange, x: DataRange, inserted: seq<DataRange>)
    requires x.start < last.start && forall r :: r in inserted <==> r in init || r == x
    requires Disjoint(inserted) <==> Disjoint(init) && ApartFrom(init, x)
    ensures Disjoint(inserted + [last]) <==> Disjoint(init + [last]) && ApartFrom(init + [last], x)
  {
    AppendDisjoint(inserted, last);
    AppendDisjoint(init, last);
    assert x in inserted && forall r | r in init :: r in inserted;
    ApartFromAppend(init, last, x);
    assert last.start <= last.end ==> (Apart(last, x) <==> x.end < last.start);
  }

  lemma ApartFromAppend(rs: seq<DataRange>, y: DataRange, x: DataRange)
    ensures ApartFrom(rs + [y], x) <==> ApartFrom(rs, x) && Apart(y, x)
  {
    assert forall r :: r in rs + [y] <==> r in rs || r == y;
  }

  lemma {:induction false} InsertDisjoint(xs: seq<DataRange>, x: DataRange)
    requires SortedBy(xs, StartOf)
    ensures Disjoint(Insert(xs, x, StartOf)) <==> Disjoint(xs) && ApartFrom(xs, x)
  {
    if xs == [] || xs[|xs| - 1].start <= x.start {
      forall r | r in xs ensures r.start <= x.start {
        var i :| 0 <= i < |xs| && xs[i] == r;
        assert i < |xs| - 1 ==> StartOf(xs[i]) <= StartOf(xs[|xs| - 1]);
      }
      InsertBehind(xs, x);
    } else {
      var init, last := xs[..|xs| - 1], xs[|xs| - 1];
      InsertDisjoint(init, x);
      forall r ensures r in Insert(init, x, StartOf) <==> r in init || r == x { InsertMember(init, x, r); }
      InsertBefore(init, last, x, Insert(init, x, StartOf));
      assert xs == init + [last];
    }
  }

  lemma AppendApart(rs: seq<DataRange>, x: DataRange)
    ensures AllApart(rs + [x]) <==> AllApart(rs) && ApartFrom(rs, x)
  {
    var zs := rs + [x];
    assert zs[|rs|] == x;
    assert forall i | 0 <= i < |rs| :: zs[i] == rs[i];
    if AllApart(zs) {
      assert zs[|rs|].start <= zs[|rs|].end;
      forall i, j | 0 <= i < j < |rs| ensures Apart(rs[i], rs[j]) { assert Apart(zs[i], zs[j]); }
      forall i | 0 <= i < |rs| ensures rs[i].start <= rs[i].end && Apart(rs[i], x) { assert Apart(zs[i], zs[|rs|]); }
    }
  }

  lemma SortMember<T>(xs: seq<T>, key: T -> int, x: T)
    ensures x in Sort(xs, key) <==> x in xs
  {
    SortSorts(xs, key);
    assert x in Sort(xs, key) <==> x in multiset(Sort(xs, key));
    assert x in xs <==> x in multiset(xs);
  }

  lemma SortIsSorted(rs: seq<DataRange>)
    ensures SortedBy(Sort(rs, StartOf), StartOf)
  {
    SortSorts(rs, StartOf);
  }

  lemma SortedApart(rs: seq<DataRange>, x: DataRange)
    ensures ApartFrom(Sort(rs, StartOf), x) <==> ApartFrom(rs, x)
  {
    forall r ensures r in Sort(rs, StartOf) <==> r in rs { SortMember(rs, StartOf, r); }
  }

  /** Sorting puts the ranges one behind the other exactly when no two of them overlap. */
  lemma {:induction false} SortedIsDisjoint(rs: seq<DataRange>)
    ensures Disjoint(Sort(rs, StartOf)) <==> AllApart(rs)
  {
    if rs != [] {
      var init, x := rs[..|rs| - 1], rs[|rs| - 1];
      SortedIsDisjoint(init);
      SortIsSorted(init);
      InsertDisjoint(Sort(init, StartOf), x);
      SortedApart(init, x);
      AppendApart(init, x);
      assert rs == init + [x];
    }
  }

  /** Two ranges that overlap stay in each other's way. */
  lemma OverlapStays(v: string)
    ensures var rs := [DataRange(0, 5, v), DataRange(3, 8, v)]; !AllApart(rs) && !Disjoint(Sort(rs, StartOf))
  {
    var rs := [DataRange(0, 5, v), DataRange(3, 8, v)];
    assert !Apart(rs[0], rs[1]);
    SortedIsDisjoint(rs);
  }

  // ---------------------------------------------------------------- bounds

  function Widen(a: (int, int), b: (int, int)): (int, int) {
    (if b.0 < a.0 then b.0 else a.0, if b.1 > a.1 then b.1 else a.1)
  }

  /** The loop of get_bounds: start from (0, 0) and widen by every interval. */
  function WidenAll(bs: seq<(int, int)>): (int, int) {
    if bs == [] then (0, 0) else Widen(WidenAll(bs[..|bs| - 1]), bs[|bs| - 1])
  }

  lemma {:induction false} WidenAllIsHull(bs: seq<(int, int)>)
    ensures var w := WidenAll(bs);
            && w.0 <= 0 <= w.1
            && (forall i | 0 <= i < |bs| :: w.0 <= bs[i].0 && bs[i].1 <= w.1)
            && (w.0 == 0 || exists i :: 0 <= i < |bs| && bs[i].0 == w.0)
            && (w.1 == 0 || exists i :: 0 <= i < |bs| && bs[i].1 == w.1)
  {
    if bs != [] {
      var n := |bs| - 1;
      WidenAllIsHull(bs[..n]);
      var w := WidenAll(bs[..n]);
      if w.0 != 0 { var i :| 0 <= i < n && bs[..n][i].0 == w.0; assert bs[i].0 == w.0; }
      if w.1 != 0 { var i :| 0 <= i < n && bs[..n][i].1 == w.1; assert bs[i].1 == w.1; }
      assert bs[n].0 == bs[n].0 && bs[n].1 == bs[n].1;
      forall i | 0 <= i < |bs| ensures WidenAll(bs).0 <= bs[i].0 && bs[i].1 <= WidenAll(bs).1 {
        if i < n { assert bs[..n][i] == bs[i]; }
      }
    }
  }

  function BoundsOf<T>(list: seq<Series<T>>, bounds: seq<T> -> (int, int)): (bs: seq<(int, int)>)
    ensures |bs| == |list| && forall i | 0 <= i < |list| :: bs[i] == bounds(list[i].items)
  {
    seq(|list|, i requires 0 <= i < |list| => bounds(list[i].items))
  }

  /** The intervals that Timeline.get_bounds looks at, in its order. */
  function SeriesBounds(t: TimelineContents): seq<(int, int)> {
    BoundsOf(t.ranges, RangesBounds) + BoundsOf(t.eventStr, EventsBounds) + BoundsOf(t.eventInt, EventsBounds)
  }

  function TimelineBounds(t: TimelineContents): (int, int) {
    WidenAll(SeriesBounds(t))
  }

  function TimelinesBounds(ts: seq<TimelineContents>): (bs: seq<(int, int)>)
    ensures |bs| == |ts| && forall i | 0 <= i < |ts| :: bs[i] == TimelineBounds(ts[i])
  {
    seq(|ts|, i requires 0 <= i < |ts| => TimelineBounds(ts[i]))
  }

  ghost predicate IsPoint(t: TimelineContents, p: int) {
    || (exists i, j :: 0 <= i < |t.ranges| && 0 <= j < |t.ranges[i].items|
                       && (t.ranges[i].items[j].start == p || t.ranges[i].items[j].end == p))
    || (exists i, j :: 0 <= i < |t.eventStr| && 0 <= j < |t.eventStr[i].items| && t.eventStr[i].items[j].at == p)
    || (exists i, j :: 0 <= i < |t.eventInt| && 0 <= j < |t.eventInt[i].items| && t.eventInt[i].items[j].at == p)
  }

  /** What holds of a timeline after sort when the ranges of each series do not overlap. */
  predicate InOrder(t: TimelineContents) {
    && (forall i | 0 <= i < |t.ranges| :: Disjoint(t.ranges[i].items))
    && (forall i | 0 <= i < |t.eventStr| :: SortedBy(t.eventStr[i].items, TimeOf))
    && (forall i | 0 <= i < |t.eventInt| :: SortedBy(t.eventInt[i].items, TimeOf))
  }

  /** What get_bounds needs of a timeline: less than the searches do. */
  predicate BoundsReady(t: TimelineContents) {
    && (forall i | 0 <= i < |t.ranges| :: InStartOrder(t.ranges[i].items) && LastEndsLast(t.ranges[i].items))
    && (forall i | 0 <= i < |t.eventStr| :: SortedBy(t.eventStr[i].items, TimeOf))
    && (forall i | 0 <= i < |t.eventInt| :: SortedBy(t.eventInt[i].items, TimeOf))
  }

  lemma InOrderIsBoundsReady(t: TimelineContents)
    requires InOrder(t)
    ensures BoundsReady(t)
  {
    forall i | 0 <= i < |t.ranges| ensures InStartOrder(t.ranges[i].items) && LastEndsLast(t.ranges[i].items) {
      DisjointEndsLast(t.ranges[i].items);
    }
  }

  /** sort establishes this order exactly when no two ranges of a series overlap. */
  lemma SortedIsInOrder(t: TimelineContents)
    ensures InOrder(SortedTimeline(t)) <==> forall i | 0 <= i < |t.ranges| :: AllApart(t.ranges[i].items)
  {
    var u := SortedTimeline(t);
    forall i | 0 <= i < |t.ranges| ensures Disjoint(u.ranges[i].items) <==> AllApart(t.ranges[i].items) {
      SortedSeriesAt(t.ranges, StartOf, i);
      SortedIsDisjoint(t.ranges[i].items);
    }
    forall i | 0 <= i < |t.eventStr| ensures SortedBy(u.eventStr[i].items, TimeOf) {
      SortedSeriesAt(t.eventStr, TimeOf, i);
      SortSorts(t.eventStr[i].items, TimeOf);
    }
    forall i | 0 <= i < |t.eventInt| ensures SortedBy(u.eventInt[i].items, TimeOf) {
      SortedSeriesAt(t.eventInt, TimeOf, i);
      SortSorts(t.eventInt[i].items, TimeOf);
    }
  }

  lemma SeriesBoundsAreTight(t: TimelineContents, k: nat)
    requires k < |SeriesBounds(t)|
    ensures var b := SeriesBounds(t)[k]; (b.0 == 0 || IsPoint(t, b.0)) && (b.1 == 0 || IsPoint(t, b.1))
  {
    var b, n, m := SeriesBounds(t)[k], |t.ranges|, |t.ranges| + |t.eventStr|;
    if k < n {
      var items := t.ranges[k].items;
      if items != [] { assert t.ranges[k].items[0].start == b.0 && t.ranges[k].items[|items| - 1].end == b.1; }
    } else if k < m {
      var items := t.eventStr[k - n].items;
      if items != [] { assert t.eventStr[k - n].items[0].at == b.0 && t.eventStr[k - n].items[|items| - 1].at == b.1; }
    } else {
      var items := t.eventInt[k - m].items;
      if items != [] { assert t.eventInt[k - m].items[0].at == b.0 && t.eventInt[k - m].items[|items| - 1].at == b.1; }
    }
  }

  lemma PointInSomeSeries(t: TimelineContents, p: int) returns (k: nat)
    requires BoundsReady(t) && IsPoint(t, p)
    ensures k < |SeriesBounds(t)| && Within(p, SeriesBounds(t)[k])
  {
    var n := |t.ranges|;
    if i, j :| 0 <= i < n && 0 <= j < |t.ranges[i].items|
               && (t.ranges[i].items[j].start == p || t.ranges[i].items[j].end == p) {
      RangesBoundsCover(t.ranges[i].items, j);
      k := i;
    } else if i, j :| 0 <= i < |t.eventStr| && 0 <= j < |t.eventStr[i].items| && t.eventStr[i].items[j].at == p {
      EventsBoundsCover(t.eventStr[i].items, j);
      k := n + i;
    } else {
      var i, j :| 0 <= i < |t.eventInt| && 0 <= j < |t.eventInt[i].items| && t.eventInt[i].items[j].at == p;
      EventsBoundsCover(t.eventInt[i].items, j);
      k := n + |t.eventStr| + i;
    }
  }

  /** b is the smallest interval that contains 0 and every point. */
  ghost predicate IsHull(b: (int, int), points: iset<int>) {
    && Within(0, b) && (forall p | p in points :: Within(p, b))
    && (b.0 == 0 || b.0 in points) && (b.1 == 0 || b.1 in points)
  }

  ghost function PointsOf(t: TimelineContents): iset<int> {
    iset p | IsPoint(t, p)
  }

  lemma TimelineHull(t: TimelineContents)
    requires BoundsReady(t)
    ensures IsHull(TimelineBounds(t), PointsOf(t))
  {
    var bs := SeriesBounds(t);
    var w := WidenAll(bs);
    WidenAllIsHull(bs);
    forall p | p in PointsOf(t) ensures Within(p, w) {
      var k := PointInSomeSeries(t, p);
    }
    if w.0 != 0 { var k :| 0 <= k < |bs| && bs[k].0 == w.0; SeriesBoundsAreTight(t, k); }
    if w.1 != 0 { var k :| 0 <= k < |bs| && bs[k].1 == w.1; SeriesBoundsAreTight(t, k); }
  }

  ghost function AllPoints(ts: seq<TimelineContents>): iset<int> {
    iset p | IsPointOfSome(ts, p)
  }

  ghost predicate IsPointOfSome(ts: seq<TimelineContents>, p: int) {
    exists i :: 0 <= i < |ts| && IsPoint(ts[i], p)
  }

  predicate AllInOrder(ts: seq<TimelineContents>) {
    forall i | 0 <= i < |ts| :: InOrder(ts[i])
  }

  predicate AllBoundsReady(ts: seq<TimelineContents>) {
    forall i | 0 <= i < |ts| :: BoundsReady(ts[i])
  }

  /** Timelines.get_bounds: the smallest interval that contains 0, every event and both ends of every range. */
  lemma BoundsAreHull(ts: seq<TimelineContents>)
    requires AllBoundsReady(ts)
    ensures IsHull(WidenAll(TimelinesBounds(ts)), AllPoints(ts))
  {
    var bs := TimelinesBounds(ts);
    var w := WidenAll(bs);
    WidenAllIsHull(bs);
    forall p | p in AllPoints(ts) ensures Within(p, w) {
      var i :| 0 <= i < |ts| && IsPoint(ts[i], p);
      TimelineHull(ts[i]);
      assert p in PointsOf(ts[i]) && Within(p, bs[i]);
    }
    if w.0 != 0 { var k :| 0 <= k < |bs| && bs[k].0 == w.0; EndIsPoint(ts, k, w.0); }
    if w.1 != 0 { var k :| 0 <= k < |bs| && bs[k].1 == w.1; EndIsPoint(ts, k, w.1); }
  }

  lemma EndIsPoint(ts: seq<TimelineContents>, k: nat, p: int)
    requires k < |ts| && BoundsReady(ts[k]) && p != 0
    requires p == TimelinesBounds(ts)[k].0 || p == TimelinesBounds(ts)[k].1
    ensures p in AllPoints(ts)
  {
    TimelineHull(ts[k]);
    assert p in PointsOf(ts[k]);
    assert IsPoint(ts[k], p);
  }

  lemma TimelinesBoundsNext(ts: seq<TimelineContents>, i: nat)
    requires i < |ts|
    ensures TimelinesBounds(ts[..i + 1]) == TimelinesBounds(ts[..i]) + [TimelineBounds(ts[i])]
  {
    assert ts[..i + 1] == ts[..i] + [ts[i]];
  }

  lemma WidenNext(bs: seq<(int, int)>, b: (int, int))
    ensures WidenAll(bs + [b]) == Widen(WidenAll(bs), b)
  {
    assert (bs + [b])[..|bs|] == bs;
  }

  lemma WidenStep(before: seq<(int, int)>, bs: seq<(int, int)>, n: nat)
    requires n < |bs|
    ensures WidenAll(before + bs[..n + 1]) == Widen(WidenAll(before + bs[..n]), bs[n])
  {
    assert before + bs[..n + 1] == (before + bs[..n]) + [bs[n]];
    WidenNext(before + bs[..n], bs[n]);
  }

  lemma WidenStart(before: seq<(int, int)>, bs: seq<(int, int)>)
    ensures before + bs[..0] == before && before + bs[..|bs|] == before + bs
  {
    assert bs[..|bs|] == bs;
  }

  /** What read_data promises of the sorted timelines. */
  ghost predicate Holds(ts: seq<TimelineContents>, records: seq<Record>) {
    && WellNamed(ts)
    && forall timeline, series {:trigger RangesOf(records, timeline, series)} {:trigger Lookup(Find(ts, timeline).ranges, series)} ::
         var t := Find(ts, timeline);
         && Lookup(t.ranges, series) == Sort(RangesOf(records, timeline, series), StartOf)
         && Lookup(t.eventStr, series) == Sort(EventStrsOf(records, timeline, series), TimeOf)
         && Lookup(t.eventInt, series) == Sort(EventIntsOf(records, timeline, series), TimeOf)
  }

  lemma SortedDistinct<T>(list: seq<Series<T>>, key: T -> int)
    requires DistinctNames(list)
    ensures DistinctNames(SortedSeries(list, key))
  {
    forall i | 0 <= i < |list| ensures SortedSeries(list, key)[i].name == list[i].name {
      SortedSeriesAt(list, key, i);
    }
  }

  lemma SortedNames(ts: seq<TimelineContents>)
    requires WellNamed(ts)
    ensures WellNamed(SortedTimelines(ts))
  {
    forall i | 0 <= i < |ts| ensures SortedTimelines(ts)[i] == SortedTimeline(ts[i]) {
      UpToAt(ts, SortedTimeline, |ts|, i);
    }
    forall i | 0 <= i < |ts|
      ensures var t := SortedTimeline(ts[i]);
              DistinctNames(t.ranges) && DistinctNames(t.eventStr) && DistinctNames(t.eventInt)
    {
      SortedDistinct(ts[i].ranges, StartOf);
      SortedDistinct(ts[i].eventStr, TimeOf);
      SortedDistinct(ts[i].eventInt, TimeOf);
    }
  }

  /** After sorting, each series holds exactly the records with its key, stably sorted. */
  lemma SortedGroupsHold(records: seq<Record>)
    ensures var g := Grouped(records); Holds(SortedTimelines(g), records)
  {
    var g := Grouped(records);
    var ts := SortedTimelines(g);
    GroupedWellNamed(records);
    SortedNames(g);
    forall i | 0 <= i < |g| ensures ts[i] == SortedTimeline(g[i]) {
      UpToAt(g, SortedTimeline, |g|, i);
    }
    forall timeline, series
      ensures var t := Find(ts, timeline);
              && Lookup(t.ranges, series) == Sort(RangesOf(records, timeline, series), StartOf)
              && Lookup(t.eventStr, series) == Sort(EventStrsOf(records, timeline, series), TimeOf)
              && Lookup(t.eventInt, series) == Sort(EventIntsOf(records, timeline, series), TimeOf)
    {
      GroupedLookup(records, timeline, series);
      SortedFind(g, ts, timeline);
      var t := Find(g, timeline);
      SortedLookup(t.ranges, StartOf, series);
      SortedLookup(t.eventStr, TimeOf, series);
      SortedLookup(t.eventInt, TimeOf, series);
    }
  }

  lemma {:induction false} SortedFind(a: seq<TimelineContents>, b: seq<TimelineContents>, name: string)
    requires |a| == |b| && forall i | 0 <= i < |a| :: b[i] == SortedTimeline(a[i])
    ensures Find(b, name) == SortedTimeline(Find(a, name))
  {
    if a != [] {
      assert forall i | 0 <= i < |a| - 1 :: b[1..][i] == SortedTimeline(a[1..][i]);
      SortedFind(a[1..], b[1..], name);
    } else {
      assert SortedTimeline(TimelineContents(name, [], [], [])) == TimelineContents(name, [], [], []);
    }
  }
}
