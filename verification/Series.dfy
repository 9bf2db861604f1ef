/**
 The bounded history on the agent and the phone that follows it incrementally.
 */
module Series {
  import opened ByteStrings
  import Counters

  /** One tick: a millisecond stamp, and a reading per path (its fields are opaque here). */
  datatype Entry = Entry(t: int, paths: map<string, nat>)

  const SERIES_CAP := 720

  // ---------------------------------------------------------------- the store

  datatype Reply = Reply(points: seq<Entry>, count: nat, capacity: nat, downsampled: bool)

  /** `int(x)`: toward zero. */
  function Truncate(x: real): int {
    if x >= 0.0 then x.Floor else -((-x).Floor)
  }

  function Tail<T>(s: seq<T>, n: nat): (r: seq<T>)
    ensures |r| == if |s| <= n then |s| else n
    ensures r == s[|s| - |r|..]
  {
    if |s| <= n then s else s[|s| - n..]
  }

  function PathMap(paths: seq<(string, nat)>): map<string, nat> {
    if paths == [] then map[] else PathMap(paths[..|paths| - 1])[paths[|paths| - 1].0 := paths[|paths| - 1].1]
  }

  function Newer(pts: seq<Entry>, since: int): seq<Entry> {
    if pts == [] then []
    else Newer(pts[..|pts| - 1], since) + if pts[|pts| - 1].t > since then [pts[|pts| - 1]] else []
  }

  function Served(points: seq<Entry>, since: Option<int>, maxPoints: Option<int>): seq<Entry> {
    var pts := if since.Some? then Newer(points, since.value) else points;
    if maxPoints.Some? && maxPoints.value > 0 && |pts| > maxPoints.value then Counters.Thin(pts, maxPoints.value) else pts
  }

  class SeriesStore {
    var points: seq<Entry>
    const maxlen: nat

    constructor (maxlen: nat)
      ensures points == [] && this.maxlen == maxlen
    {
      points, this.maxlen := [], maxlen;
    }

    method Append(paths: seq<(string, nat)>, wall: real)
      modifies this
      ensures points == Tail(old(points) + [Entry(Truncate(wall * 1000.0), PathMap(paths))], maxlen)
    {
      var readings: map<string, nat> := map[];
      for i := 0 to |paths|
        invariant readings == PathMap(paths[..i])
      {
        assert paths[..i + 1][..i] == paths[..i];
        readings := readings[paths[i].0 := paths[i].1];
      }
      assert paths[..|paths|] == paths;
      points := Tail(points + [Entry(Truncate(wall * 1000.0), readings)], maxlen);
    }

    method ToDict(since: Option<int>, maxPoints: Option<int>) returns (r: Reply)
      ensures r.points == Served(points, since, maxPoints)
      ensures r.count == |r.points| && r.capacity == maxlen
      ensures r.downsampled <==> maxPoints.Some? && maxPoints.value > 0 &&
                                 maxPoints.value < |if since.Some? then Newer(points, since.value) else points|
    {
      var pts := points;
      if since.Some? {
        var kept: seq<Entry> := [];
        for i := 0 to |points|
          invariant kept == Newer(points[..i], since.value)
        {
          assert points[..i + 1][..i] == points[..i];
          if points[i].t > since.value {
            kept := kept + [points[i]];
          }
        }
        assert points[..|points|] == points;
        pts := kept;
      }
      var downsampled := false;
      if maxPoints.Some? && maxPoints.value > 0 && |pts| > maxPoints.value {
        pts := Counters.Thin(pts, maxPoints.value);
        downsampled := true;
      }
      return Reply(pts, |pts|, maxlen, downsampled);
    }
  }

  // ---------------------------------------------------------------- the phone

  /** `series.compactMap(\.t).max()`. */
  function Cursor(series: seq<Entry>): Option<int> {
    if series == [] then None
    else
      var rest, t := Cursor(series[..|series| - 1]), series[|series| - 1].t;
      if rest.None? || t > rest.value then Some(t) else rest
  }

  /** The buffer after a successful fetch of `served`. */
  function Merged(series: seq<Entry>, served: seq<Entry>): seq<Entry> {
    if Cursor(series).None? then served else Tail(series + served, SERIES_CAP)
  }

  /** A fixed sorted listing of a set of names. */
  type Listing = set<string> -> seq<string>

  ghost predicate Lists(sorted: Listing) {
    forall names: set<string> :: ListsOne(sorted(names), names)
  }

  ghost predicate ListsOne(listed: seq<string>, names: set<string>) {
    forall n :: n in listed <==> n in names
  }

  /** The display order after a window: kept, then extended by the names not yet in it. */
  ghost predicate OrderExtends(before: seq<string>, after: seq<string>, points: seq<Entry>) {
    && before <= after
    && (forall i, j | |before| <= j < |after| && 0 <= i < j :: after[i] != after[j])
    && (forall k | 0 <= k < |points| :: forall n | n in points[k].paths :: n in after)
    && (forall j | |before| <= j < |after| :: exists k | 0 <= k < |points| :: after[j] in points[k].paths)
  }

  class Phone {
    var series: seq<Entry>
    var seriesOrder: seq<string>

    constructor ()
      ensures series == [] && seriesOrder == []
    {
      series, seriesOrder := [], [];
    }

    method ComputeCursor() returns (cursor: Option<int>)
      ensures cursor == Cursor(series)
    {
      cursor := None;
      for i := 0 to |series|
        invariant cursor == Cursor(series[..i])
      {
        assert series[..i + 1][..i] == series[..i];
        if cursor.None? || series[i].t > cursor.value {
          cursor := Some(series[i].t);
        }
      }
      assert series[..|series|] == series;
    }

    /** `fetch(i, since)` is candidate i's answer, None when it fails. The first that answers is used. */
    method RefreshSeries(candidates: nat, fetch: (nat, Option<int>) -> Option<seq<Entry>>, sorted: Listing)
      returns (answered: Option<nat>)
      requires Lists(sorted)
      modifies this
      ensures answered.None? ==> series == old(series) && seriesOrder == old(seriesOrder)
      ensures answered.None? ==> forall i: nat | i < candidates :: fetch(i, Cursor(old(series))).None?
      ensures answered.Some? ==>
                && answered.value < candidates
                && (forall i: nat | i < answered.value :: fetch(i, Cursor(old(series))).None?)
                && fetch(answered.value, Cursor(old(series))).Some?
                && series == Merged(old(series), fetch(answered.value, Cursor(old(series))).value)
                && OrderExtends(old(seriesOrder), seriesOrder, series)
    {
      for i := 0 to candidates
        invariant series == old(series) && seriesOrder == old(seriesOrder)
        invariant forall j: nat | j < i :: fetch(j, Cursor(old(series))).None?
      {
        var cursor := ComputeCursor();
        var reply := fetch(i, cursor);
        if reply.Some? {
          series := if cursor.None? then reply.value else Tail(series + reply.value, SERIES_CAP);
          ExtendOrder(sorted);
          return Some(i);
        }
      }
      return None;
    }

    method ExtendOrder(sorted: Listing)
      requires Lists(sorted)
      modifies this`seriesOrder
      ensures OrderExtends(old(seriesOrder), seriesOrder, series)
    {
      hide OrderExtends;
      var seen := seriesOrder;
      EmptyWindow(seen, series);
      for k := 0 to |series|
        invariant OrderExtends(old(seriesOrder), seen, series[..k])
      {
        var names := sorted(series[k].paths.Keys);
        assert ListsOne(names, series[k].paths.Keys);
        ghost var start := seen;
        SoFar(old(seriesOrder), start, series[..k]);
        for m := 0 to |names|
          invariant start <= seen && old(seriesOrder) <= start
          invariant forall i, j | |old(seriesOrder)| <= j < |seen| && 0 <= i < j :: seen[i] != seen[j]
          invariant forall i | 0 <= i < m :: names[i] in seen
          invariant forall j | |start| <= j < |seen| :: seen[j] in series[k].paths
        {
          if names[m] !in seen {
            assert names[m] in names;
            seen := seen + [names[m]];
          }
        }
        NextWindow(old(seriesOrder), start, seen, series, k);
      }
      assert series[..|series|] == series;
      seriesOrder := seen;
    }
  }

  lemma EmptyWindow(seen: seq<string>, series: seq<Entry>)
    ensures OrderExtends(seen, seen, series[..0])
  {
  }

  lemma SoFar(before: seq<string>, start: seq<string>, points: seq<Entry>)
    requires OrderExtends(before, start, points)
    ensures before <= start
    ensures forall i, j | |before| <= j < |start| && 0 <= i < j :: start[i] != start[j]
  {
  }

  lemma NextWindow(before: seq<string>, start: seq<string>, seen: seq<string>, series: seq<Entry>, k: nat)
    requires k < |series| && start <= seen
    requires OrderExtends(before, start, series[..k])
    requires forall i, j | |before| <= j < |seen| && 0 <= i < j :: seen[i] != seen[j]
    requires forall n | n in series[k].paths :: n in seen
    requires forall j | |start| <= j < |seen| :: seen[j] in series[k].paths
    ensures OrderExtends(before, seen, series[..k + 1])
  {
    var window := series[..k + 1];
    assert window == series[..k] + [series[k]];
    forall j | |before| <= j < |seen|
      ensures exists m | 0 <= m < |window| :: seen[j] in window[m].paths
    {
      if j < |start| {
        var m :| 0 <= m < |series[..k]| && start[j] in series[..k][m].paths;
        assert window[m] == series[..k][m] && seen[j] == start[j];
      } else {
        assert seen[j] in window[k].paths;
      }
    }
    forall m, n | 0 <= m < |window| && n in window[m].paths ensures n in seen {
      if m < k {
        assert window[m] == series[..k][m];
        assert n in start;
      }
    }
  }

  // ---------------------------------------------------------------- what a reply holds

  predicate Increasing(pts: seq<Entry>) {
    forall i, j | 0 <= i < j < |pts| :: pts[i].t < pts[j].t
  }

  predicate AllIn(pts: seq<Entry>, all: seq<Entry>) {
    forall e | e in pts :: e in all
  }

  lemma AllInTrans(s: seq<Entry>, m: seq<Entry>, all: seq<Entry>)
    requires AllIn(s, m) && AllIn(m, all)
    ensures AllIn(s, all)
  {
  }

  lemma AllInAppend(a: seq<Entry>, b: seq<Entry>, all: seq<Entry>)
    requires AllIn(a, all) && AllIn(b, all)
    ensures AllIn(a + b, all)
  {
  }

  lemma AllInLonger(s: seq<Entry>, all: seq<Entry>, more: seq<Entry>)
    requires AllIn(s, all)
    ensures AllIn(s, all + more)
  {
  }

  lemma AllInSuffix(all: seq<Entry>, k: nat)
    requires k <= |all|
    ensures AllIn(all[k..], all)
  {
  }

  lemma {:induction false} NewerAreMembers(pts: seq<Entry>, since: int)
    ensures AllIn(Newer(pts, since), pts) && |Newer(pts, since)| <= |pts|
  {
    if pts != [] {
      NewerAreMembers(pts[..|pts| - 1], since);
    }
  }

  lemma {:induction false} NewerInOrder(pts: seq<Entry>, since: int)
    requires Increasing(pts)
    ensures Increasing(Newer(pts, since))
  {
    if pts != [] {
      var front, last := pts[..|pts| - 1], pts[|pts| - 1];
      NewerInOrder(front, since);
      NewerAreMembers(front, since);
      forall i | 0 <= i < |Newer(front, since)| ensures Newer(front, since)[i].t < last.t {
        assert Newer(front, since)[i] in front;
      }
    }
  }

  lemma {:induction false} NewerIs(pts: seq<Entry>, since: int)
    ensures forall i | 0 <= i < |Newer(pts, since)| :: Newer(pts, since)[i].t > since
    ensures pts != [] && pts[|pts| - 1].t > since ==>
              Newer(pts, since) != [] && Newer(pts, since)[|Newer(pts, since)| - 1] == pts[|pts| - 1]
    ensures (forall i | 0 <= i < |pts| :: pts[i].t <= since) ==> Newer(pts, since) == []
  {
    if pts != [] {
      NewerIs(pts[..|pts| - 1], since);
    }
  }

  lemma ThinIs(pts: seq<Entry>, k: nat)
    requires 1 <= k < |pts|
    ensures AllIn(Counters.Thin(pts, k), pts)
    ensures Increasing(pts) ==> Increasing(Counters.Thin(pts, k))
  {
    if k >= 2 {
      Counters.ThinIsEven(pts, k);
      forall i, j | 0 <= i < j < k && Increasing(pts) ensures Counters.Thin(pts, k)[i].t < Counters.Thin(pts, k)[j].t {
        assert Counters.Pick(i, |pts|, k) < Counters.Pick(j, |pts|, k);
      }
    }
  }

  /** A reply, thinned or not: entries of the store, in the store's order, never more than the cap. */
  lemma ServedAreMembers(points: seq<Entry>, since: Option<int>, maxPoints: Option<int>)
    ensures AllIn(Served(points, since, maxPoints), points)
    ensures Increasing(points) ==> Increasing(Served(points, since, maxPoints))
    ensures maxPoints.Some? && maxPoints.value > 0 ==> |Served(points, since, maxPoints)| <= maxPoints.value
    ensures |Served(points, since, maxPoints)| <= |points|
  {
    hide AllIn, Increasing, Counters.Pick, Newer;
    var pts := if since.Some? then Newer(points, since.value) else points;
    AllInSuffix(points, 0);
    assert points[0..] == points;
    if since.Some? {
      NewerAreMembers(points, since.value);
      if Increasing(points) {
        NewerInOrder(points, since.value);
      }
    }
    if maxPoints.Some? && maxPoints.value > 0 && |pts| > maxPoints.value {
      ThinIs(pts, maxPoints.value);
      AllInTrans(Counters.Thin(pts, maxPoints.value), pts, points);
    }
  }

  /** Everything in a reply is newer than the cursor; and it ends with the store's newest entry exactly
      when that one is newer than the cursor. */
  lemma ServedIs(points: seq<Entry>, since: Option<int>, maxPoints: Option<int>)
    ensures var served := Served(points, since, maxPoints);
            && (since.Some? ==> forall i | 0 <= i < |served| :: served[i].t > since.value)
            && (points != [] ==>
                  (since.None? || points[|points| - 1].t > since.value <==>
                     served != [] && served[|served| - 1] == points[|points| - 1]))
  {
    hide Newer, Counters.Pick;
    var pts := if since.Some? then Newer(points, since.value) else points;
    if since.Some? {
      NewerIs(points, since.value);
    }
    if maxPoints.Some? && maxPoints.value > 0 && |pts| > maxPoints.value {
      var thinned := Counters.Thin(pts, maxPoints.value);
      ThinIs(pts, maxPoints.value);
      assert forall i | 0 <= i < |thinned| :: thinned[i] in thinned && thinned[i] in pts;
    }
  }

  lemma {:induction false} CursorIsLast(series: seq<Entry>)
    requires Increasing(series)
    ensures Cursor(series) == if series == [] then None else Some(series[|series| - 1].t)
  {
    if series != [] {
      CursorIsLast(series[..|series| - 1]);
    }
  }

  // ---------------------------------------------------------------- runs

  datatype Event =
    | Append(entry: Entry)
    | Restart
    | PollOk(maxPoints: Option<int>)
    | PollFailed

  /** The store, the phone's buffer, everything ever appended, and whether a poll has been incremental. */
  datatype World = World(maxlen: nat, points: seq<Entry>, series: seq<Entry>, ever: seq<Entry>, incremental: bool)

  function Happen(w: World, e: Event): World {
    match e
    case Append(entry) => w.(points := Tail(w.points + [entry], w.maxlen), ever := w.ever + [entry])
    case Restart => w.(points := [])
    case PollFailed => w
    case PollOk(maxPoints) =>
      w.(series := Merged(w.series, Served(w.points, Cursor(w.series), maxPoints)),
         incremental := w.incremental || Cursor(w.series).Some?)
  }

  function History(maxlen: nat, events: seq<Event>): World {
    if events == [] then World(maxlen, [], [], [], false)
    else Happen(History(maxlen, events[..|events| - 1]), events[|events| - 1])
  }

  /** Every appended stamp is later than the ones before it. */
  predicate StampsIncrease(maxlen: nat, events: seq<Event>) {
    Increasing(History(maxlen, events).ever)
  }

  /** `s` can be obtained from `all` by leaving elements out. */
  predicate Subsequence(s: seq<Entry>, all: seq<Entry>) {
    if s == [] then true
    else if all == [] then false
    else if s[|s| - 1] == all[|all| - 1] then Subsequence(s[..|s| - 1], all[..|all| - 1])
    else Subsequence(s, all[..|all| - 1])
  }

  lemma {:induction false} MembersInOrderAreSubsequence(s: seq<Entry>, all: seq<Entry>)
    requires Increasing(s) && Increasing(all) && AllIn(s, all)
    ensures Subsequence(s, all)
  {
    if s != [] {
      var last := s[|s| - 1];
      assert last in all;
      var front := all[..|all| - 1];
      if last == all[|all| - 1] {
        forall e | e in s[..|s| - 1] ensures e in front {
          assert e in s && e in all && e.t < last.t;
        }
        MembersInOrderAreSubsequence(s[..|s| - 1], front);
      } else {
        var m :| 0 <= m < |all| && all[m] == last;
        forall e | e in s ensures e in front {
          assert e in all && e.t <= last.t < all[|all| - 1].t;
        }
        MembersInOrderAreSubsequence(s, front);
      }
    }
  }

  /** What holds in every state: the store holds the newest part of what was appended, and the buffer is
      in stamp order and made of appended entries only. */
  ghost predicate Synced(w: World) {
    && Increasing(w.ever) && |w.points| <= |w.ever| && |w.points| <= w.maxlen
    && w.points == w.ever[|w.ever| - |w.points|..]
    && Increasing(w.series) && AllIn(w.series, w.ever)
    && (w.incremental ==> 0 < |w.series| <= SERIES_CAP)
  }

  lemma TailOfSuffix(ever: seq<Entry>, points: seq<Entry>, entry: Entry, maxlen: nat)
    requires |points| <= |ever| && points == ever[|ever| - |points|..]
    ensures var kept := Tail(points + [entry], maxlen);
            |kept| <= |ever| + 1 && |kept| <= maxlen && kept == (ever + [entry])[|ever| + 1 - |kept|..]
  {
    assert points + [entry] == (ever + [entry])[|ever| - |points|..];
  }

  lemma AppendStaysSynced(w: World, entry: Entry)
    requires Synced(w) && Increasing(w.ever + [entry])
    ensures Synced(Happen(w, Append(entry)))
  {
    hide AllIn, Increasing, Tail;
    AllInLonger(w.series, w.ever, [entry]);
    TailOfSuffix(w.ever, w.points, entry, w.maxlen);
  }

  lemma TailIs(s: seq<Entry>, n: nat)
    requires n > 0
    ensures Increasing(s) ==> Increasing(Tail(s, n))
    ensures s != [] ==> Tail(s, n) != [] && Tail(s, n)[|Tail(s, n)| - 1] == s[|s| - 1]
  {
    var tail := Tail(s, n);
    assert forall i | 0 <= i < |tail| :: tail[i] == s[|s| - |tail| + i];
  }

  /** Merging a later run of entries into the buffer keeps it in order, bounded once incremental, and
      ending where the later run ends. */
  lemma MergedInOrder(series: seq<Entry>, served: seq<Entry>)
    requires Increasing(series) && Increasing(served)
    requires series != [] ==> forall i | 0 <= i < |served| :: served[i].t > series[|series| - 1].t
    ensures Increasing(Merged(series, served))
    ensures Cursor(series).Some? ==> |Merged(series, served)| <= SERIES_CAP
    ensures var merged := Merged(series, served);
            if served != [] then merged != [] && merged[|merged| - 1] == served[|served| - 1]
            else series != [] ==> merged != [] && merged[|merged| - 1] == series[|series| - 1]
  {
    hide Cursor;
    CursorIsLast(series);
    var whole := series + served;
    LaterInOrder(series, served);
    hide Increasing;
    TailIs(whole, SERIES_CAP);
  }

  lemma LaterInOrder(series: seq<Entry>, served: seq<Entry>)
    requires Increasing(series) && Increasing(served)
    requires series != [] ==> forall i | 0 <= i < |served| :: served[i].t > series[|series| - 1].t
    ensures Increasing(series + served)
  {
    var whole := series + served;
    forall i, j | 0 <= i < j < |whole| ensures whole[i].t < whole[j].t {
      if i < |series| <= j {
        assert series[i].t <= series[|series| - 1].t < served[j - |series|].t;
      }
    }
  }

  lemma MergedAreMembers(series: seq<Entry>, served: seq<Entry>, all: seq<Entry>)
    requires AllIn(series, all) && AllIn(served, all)
    ensures AllIn(Merged(series, served), all)
  {
    hide AllIn, Cursor;
    var whole := series + served;
    AllInAppend(series, served, all);
    AllInSuffix(whole, |whole| - |Tail(whole, SERIES_CAP)|);
    AllInTrans(Tail(whole, SERIES_CAP), whole, all);
  }

  /** When nothing in the store is later than the buffer's end, that end is the newest appended entry and
      nothing is served. */
  lemma NothingLater(w: World, served: seq<Entry>)
    requires Synced(w) && w.points != [] && w.series != []
    requires w.points[|w.points| - 1].t <= w.series[|w.series| - 1].t
    requires served != [] ==> served[0].t <= w.ever[|w.ever| - 1].t
    requires forall i | 0 <= i < |served| :: served[i].t > w.series[|w.series| - 1].t
    ensures served == [] && w.series[|w.series| - 1] == w.points[|w.points| - 1]
  {
    assert w.series[|w.series| - 1] in w.series;
  }

  lemma FirstIsNoLater(served: seq<Entry>, ever: seq<Entry>)
    requires Increasing(ever) && AllIn(served, ever)
    ensures served != [] ==> ever != [] && served[0].t <= ever[|ever| - 1].t
  {
    if served != [] {
      assert served[0] in ever;
    }
  }

  lemma SuffixInOrder(pts: seq<Entry>, k: nat)
    requires Increasing(pts) && k <= |pts|
    ensures Increasing(pts[k..])
  {
  }

  /** What a poll brings to a buffer in sync. */
  lemma ServedInSync(w: World, maxPoints: Option<int>)
    requires Synced(w)
    ensures var served := Served(w.points, Cursor(w.series), maxPoints);
      && Increasing(served) && AllIn(served, w.ever)
      && (w.series != [] ==> forall i | 0 <= i < |served| :: served[i].t > w.series[|w.series| - 1].t)
  {
    hide Served, AllIn, Cursor, Increasing;
    var cursor := Cursor(w.series);
    var served := Served(w.points, cursor, maxPoints);
    SuffixInOrder(w.ever, |w.ever| - |w.points|);
    CursorIsLast(w.series);
    ServedIs(w.points, cursor, maxPoints);
    ServedAreMembers(w.points, cursor, maxPoints);
    AllInSuffix(w.ever, |w.ever| - |w.points|);
    AllInTrans(served, w.points, w.ever);
  }

  /** It ends with the newest point, or that one is already the buffer's last. */
  lemma NewestInSync(w: World, maxPoints: Option<int>)
    requires Synced(w) && w.points != []
    ensures var served := Served(w.points, Cursor(w.series), maxPoints);
      if served != [] then served[|served| - 1] == w.points[|w.points| - 1]
      else w.series != [] && w.series[|w.series| - 1] == w.points[|w.points| - 1]
  {
    hide Served, AllIn, Cursor, Increasing;
    var cursor := Cursor(w.series);
    var served := Served(w.points, cursor, maxPoints);
    CursorIsLast(w.series);
    ServedIs(w.points, cursor, maxPoints);
    ServedInSync(w, maxPoints);
    FirstIsNoLater(served, w.ever);
    if w.series != [] && w.points[|w.points| - 1].t <= cursor.value {
      NothingLater(w, served);
    }
  }

  /** A successful poll: the invariant, and the newest point. */
  lemma PollStaysSynced(w: World, maxPoints: Option<int>)
    requires Synced(w)
    ensures var after := Happen(w, PollOk(maxPoints));
            && Synced(after)
            && (w.points != [] ==> after.series != [] && after.series[|after.series| - 1] == w.points[|w.points| - 1])
  {
    hide Served, Merged, AllIn, Cursor, Increasing;
    var served := Served(w.points, Cursor(w.series), maxPoints);
    ServedInSync(w, maxPoints);
    if w.points != [] {
      NewestInSync(w, maxPoints);
    }
    CursorExactly(w.series);
    MergedInOrder(w.series, served);
    MergedAreMembers(w.series, served, w.ever);
  }

  lemma {:induction false} HistoryIsSynced(maxlen: nat, events: seq<Event>)
    requires StampsIncrease(maxlen, events)
    ensures Synced(History(maxlen, events))
  {
    if events != [] {
      var before, e := events[..|events| - 1], events[|events| - 1];
      var w := History(maxlen, before);
      assert w.ever <= History(maxlen, events).ever;
      HistoryIsSynced(maxlen, before);
      match e
      case Append(entry) => AppendStaysSynced(w, entry);
      case Restart =>
      case PollFailed =>
      case PollOk(maxPoints) => PollStaysSynced(w, maxPoints);
    }
  }

  /** THE SYNC IS SOUND. Over any run of appends, evictions, agent restarts, thinned replies and failed
      polls, given strictly increasing stamps: the phone's buffer is always a subsequence, in stamp order,
      of everything ever appended; once incremental it is never longer than its cap; and after each
      successful poll it ends with the store's newest point. */
  lemma SyncIsSound(maxlen: nat, events: seq<Event>)
    requires StampsIncrease(maxlen, events)
    ensures var w := History(maxlen, events);
            && Increasing(w.series) && Subsequence(w.series, w.ever)
            && (w.incremental ==> |w.series| <= SERIES_CAP)
            && (events != [] && events[|events| - 1].PollOk? && w.points != [] ==>
                  w.series != [] && w.series[|w.series| - 1] == w.points[|w.points| - 1])
  {
    hide Subsequence, Happen, AllIn;
    HistoryIsSynced(maxlen, events);
    SyncedIsSubsequence(History(maxlen, events));
    if events != [] && events[|events| - 1].PollOk? {
      EarlierStampsIncrease(maxlen, events);
      PollKeepsPoints(maxlen, events);
      AfterPollHoldsNewest(maxlen, events[..|events| - 1], events[|events| - 1].maxPoints);
    }
  }

  lemma EarlierStampsIncrease(maxlen: nat, events: seq<Event>)
    requires events != [] && StampsIncrease(maxlen, events)
    ensures StampsIncrease(maxlen, events[..|events| - 1])
  {
    assert History(maxlen, events[..|events| - 1]).ever <= History(maxlen, events).ever;
  }

  lemma PollKeepsPoints(maxlen: nat, events: seq<Event>)
    requires events != [] && events[|events| - 1].PollOk?
    ensures History(maxlen, events).points == History(maxlen, events[..|events| - 1]).points
    ensures History(maxlen, events) == Happen(History(maxlen, events[..|events| - 1]), PollOk(events[|events| - 1].maxPoints))
  {
  }

  lemma SyncedIsSubsequence(w: World)
    requires Synced(w)
    ensures Subsequence(w.series, w.ever)
  {
    MembersInOrderAreSubsequence(w.series, w.ever);
  }

  lemma AfterPollHoldsNewest(maxlen: nat, before: seq<Event>, maxPoints: Option<int>)
    requires StampsIncrease(maxlen, before)
    ensures var w, after := History(maxlen, before), Happen(History(maxlen, before), PollOk(maxPoints));
            w.points != [] ==> after.series != [] && after.series[|after.series| - 1] == w.points[|w.points| - 1]
  {
    HistoryIsSynced(maxlen, before);
    PollStaysSynced(History(maxlen, before), maxPoints);
  }

  /** The first, full reply is bounded by what the server caps it at, or by what the store holds. */
  lemma FirstFetchIsBounded(w: World, maxPoints: Option<int>)
    requires Synced(w) && w.series == []
    ensures |Happen(w, PollOk(maxPoints)).series| <=
            if maxPoints.Some? && 0 < maxPoints.value < w.maxlen then maxPoints.value else w.maxlen
  {
    ServedAreMembers(w.points, None, maxPoints);
  }

  lemma NewerUnfolds(pts: seq<Entry>, since: int)
    requires pts != []
    ensures |Newer(pts, since)| == |Newer(pts[..|pts| - 1], since)| + if pts[|pts| - 1].t > since then 1 else 0
  {
  }

  lemma {:induction false} NewerNoneExactly(pts: seq<Entry>, since: int)
    ensures Newer(pts, since) == [] <==> forall i | 0 <= i < |pts| :: pts[i].t <= since
  {
    if pts != [] {
      NewerUnfolds(pts, since);
      hide Newer;
      var front := pts[..|pts| - 1];
      NewerNoneExactly(front, since);
      assert forall i | 0 <= i < |front| :: front[i] == pts[i];
      assert forall i | 0 <= i < |pts| - 1 :: pts[i] == front[i];
    }
  }

  lemma ServedNothingExactly(points: seq<Entry>, since: int, maxPoints: Option<int>)
    ensures Served(points, Some(since), maxPoints) == [] <==> forall i | 0 <= i < |points| :: points[i].t <= since
  {
    hide Newer, Counters.Pick;
    NewerNoneExactly(points, since);
    var pts := Newer(points, since);
    if maxPoints.Some? && maxPoints.value > 0 && |pts| > maxPoints.value {
      ThinIs(pts, maxPoints.value);
    }
  }

  lemma MergedEnds(series: seq<Entry>, served: seq<Entry>)
    ensures Cursor(series).None? <==> series == []
    ensures var merged := Merged(series, served);
      if served != [] then merged != [] && merged[|merged| - 1] == served[|served| - 1]
      else series != [] ==> merged != [] && merged[|merged| - 1] == series[|series| - 1]
  {
    hide Cursor, Tail, Increasing;
    CursorExactly(series);
    var whole := series + served;
    TailIs(whole, SERIES_CAP);
    assert served == [] ==> whole == series;
  }

  /** WHEN A POLL CATCHES UP, whatever the stamps and whatever the store and the buffer hold: a successful poll
      leaves the buffer ending with the store's newest point if and only if there was no cursor, or that
      point is newer than it, or nothing in the store is and the buffer already ended with that point. */
  lemma NewestIsHeldExactly(w: World, maxPoints: Option<int>)
    requires w.points != []
    ensures var after := Happen(w, PollOk(maxPoints));
      var cursor, newest := Cursor(w.series), w.points[|w.points| - 1];
      (after.series != [] && after.series[|after.series| - 1] == newest) <==>
        || cursor.None?
        || newest.t > cursor.value
        || (w.series[|w.series| - 1] == newest && forall i | 0 <= i < |w.points| :: w.points[i].t <= cursor.value)
  {
    hide Served, Merged, Cursor;
    var cursor := Cursor(w.series);
    var served := Served(w.points, cursor, maxPoints);
    MergedEnds(w.series, served);
    ServedIs(w.points, cursor, maxPoints);
    if cursor.Some? {
      ServedNothingExactly(w.points, cursor.value, maxPoints);
    }
  }

  /** Increasing stamps are needed: from any store and any buffer, an entry stamped no later than the cursor -
      two ticks in one millisecond, or a clock set back - is the store's newest and is not sent, so the phone
      holds it after the poll only if it did before. */
  lemma RepeatedStampIsNeverSent(w: World, late: Entry, maxPoints: Option<int>)
    requires w.series != [] && w.maxlen > 0
    requires late.t <= Cursor(w.series).value
    ensures var after := Happen(Happen(w, Append(late)), PollOk(maxPoints));
      && after.points != [] && after.points[|after.points| - 1] == late
      && (late in after.series ==> late in w.series)
  {
    hide Served, Cursor;
    var cursor := Cursor(w.series);
    var points := Tail(w.points + [late], w.maxlen);
    var served := Served(points, cursor, maxPoints);
    TailIs(w.points + [late], w.maxlen);
    MergedEnds(w.series, served);
    ServedIs(points, cursor, maxPoints);
    forall i | 0 <= i < |served| ensures served[i] != late {
      assert served[i].t > cursor.value;
    }
    MembersOfMerged(w.series, served);
  }

  lemma MembersOfMerged(series: seq<Entry>, served: seq<Entry>)
    ensures forall e | e in Merged(series, served) :: e in series || e in served
  {
    hide Cursor;
    var all := series + served;
    var merged := Merged(series, served);
    forall i | 0 <= i < |merged| ensures merged[i] in series || merged[i] in served {
      assert merged == served || merged[i] == all[|all| - |merged| + i];
    }
  }

  // ---------------------------------------------------------------- order, whatever the stamps

  /** The entries at some positions of what was appended. */
  function At(ever: seq<Entry>, places: seq<nat>): (r: seq<Entry>)
    requires forall i | 0 <= i < |places| :: places[i] < |ever|
    ensures |r| == |places|
  {
    seq(|places|, i requires 0 <= i < |places| => ever[places[i]])
  }

  predicate Within(places: seq<nat>, lo: nat, hi: nat) {
    forall i | 0 <= i < |places| :: lo <= places[i] < hi
  }

  predicate Ascending(places: seq<nat>) {
    forall i, j | 0 <= i < j < |places| :: places[i] < places[j]
  }

  /** The places from `lo` up to `hi` whose entry is newer than the cursor. */
  function NewerPlaces(ever: seq<Entry>, lo: nat, hi: nat, since: Option<int>): seq<nat>
    requires lo <= hi <= |ever|
  {
    if lo == hi then []
    else NewerPlaces(ever, lo, hi - 1, since) + if since.None? || ever[hi - 1].t > since.value then [hi - 1] else []
  }

  /** The place of the oldest point in the store. */
  function StoreStart(w: World): (lo: nat)
    ensures lo <= |w.ever| && (|w.points| <= |w.ever| ==> lo == |w.ever| - |w.points|)
  {
    if |w.points| <= |w.ever| then |w.ever| - |w.points| else 0
  }

  /** Which of the points a reply holds. */
  function ServedPlaces(w: World, maxPoints: Option<int>): seq<nat> {
    var newer := NewerPlaces(w.ever, StoreStart(w), |w.ever|, Cursor(w.series));
    if maxPoints.Some? && maxPoints.value > 0 && |newer| > maxPoints.value then Counters.Thin(newer, maxPoints.value) else newer
  }

  /** The store holds the newest part of what was appended. */
  ghost predicate Stored(w: World) {
    |w.points| <= |w.ever| && |w.points| <= w.maxlen && w.points == w.ever[|w.ever| - |w.points|..]
  }

  /** The buffer holds the entries of those places, in that order. */
  ghost predicate Holds(w: World, places: seq<nat>) {
    Within(places, 0, |w.ever|) && w.series == At(w.ever, places)
  }

  /** The places the buffer holds after an event. */
  function PlacesAfter(w: World, places: seq<nat>, e: Event): seq<nat> {
    if !e.PollOk? then places
    else if Cursor(w.series).None? then ServedPlaces(w, e.maxPoints)
    else Tail(places + ServedPlaces(w, e.maxPoints), SERIES_CAP)
  }

  lemma {:induction false} NewerPlacesAscend(ever: seq<Entry>, lo: nat, hi: nat, since: Option<int>)
    requires lo <= hi <= |ever|
    ensures Within(NewerPlaces(ever, lo, hi, since), lo, hi) && Ascending(NewerPlaces(ever, lo, hi, since))
    ensures |NewerPlaces(ever, lo, hi, since)| <= hi - lo
    decreases hi - lo
  {
    if lo < hi {
      NewerPlacesAscend(ever, lo, hi - 1, since);
    }
  }

  lemma {:induction false} NewerPlacesMembers(ever: seq<Entry>, lo: nat, hi: nat, since: Option<int>)
    requires lo <= hi <= |ever|
    ensures forall p: nat :: p in NewerPlaces(ever, lo, hi, since) <==> lo <= p < hi && (since.None? || ever[p].t > since.value)
    decreases hi - lo
  {
    if lo < hi {
      NewerPlacesMembers(ever, lo, hi - 1, since);
    }
  }

  lemma AtAppends(ever: seq<Entry>, a: seq<nat>, b: seq<nat>)
    requires Within(a, 0, |ever|) && Within(b, 0, |ever|)
    ensures At(ever, a + b) == At(ever, a) + At(ever, b)
  {
  }

  lemma AtSuffix(ever: seq<Entry>, places: seq<nat>, n: nat)
    requires Within(places, 0, |ever|) && n <= |places|
    ensures Within(places[n..], 0, |ever|) && At(ever, places[n..]) == At(ever, places)[n..]
  {
  }

  /** What a reply to this cursor is chosen from. */
  function NewerThan(pts: seq<Entry>, since: Option<int>): seq<Entry> {
    if since.Some? then Newer(pts, since.value) else pts
  }

  lemma NewerOfSlice(ever: seq<Entry>, lo: nat, hi: nat, since: Option<int>)
    requires lo < hi <= |ever|
    ensures NewerThan(ever[lo..hi], since) ==
            NewerThan(ever[lo..hi - 1], since) + if since.None? || ever[hi - 1].t > since.value then [ever[hi - 1]] else []
  {
    assert ever[lo..hi][..hi - lo - 1] == ever[lo..hi - 1];
    assert ever[lo..hi] == ever[lo..hi - 1] + [ever[hi - 1]];
  }

  lemma NoNewerPlaces(ever: seq<Entry>, lo: nat, since: Option<int>)
    requires lo <= |ever|
    ensures At(ever, NewerPlaces(ever, lo, lo, since)) == NewerThan(ever[lo..lo], since)
  {
  }

  lemma WithinFromZero(places: seq<nat>, lo: nat, hi: nat, n: nat)
    requires Within(places, lo, hi) && hi <= n
    ensures Within(places, 0, n)
  {
  }

  lemma {:induction false} NewerPlacesRead(ever: seq<Entry>, lo: nat, hi: nat, since: Option<int>)
    requires lo <= hi <= |ever|
    ensures Within(NewerPlaces(ever, lo, hi, since), 0, |ever|)
    ensures At(ever, NewerPlaces(ever, lo, hi, since)) == NewerThan(ever[lo..hi], since)
    decreases hi - lo
  {
    hide NewerThan, Ascending, At;
    NewerPlacesAscend(ever, lo, hi, since);
    WithinFromZero(NewerPlaces(ever, lo, hi, since), lo, hi, |ever|);
    if lo < hi {
      NewerPlacesRead(ever, lo, hi - 1, since);
      NewerOfSlice(ever, lo, hi, since);
      OneMoreAt(ever, NewerPlaces(ever, lo, hi - 1, since), hi - 1);
      Reassociate(NewerThan(ever[lo..hi - 1], since), [], []);
    } else {
      NoNewerPlaces(ever, lo, since);
    }
  }

  lemma OneMoreAt(ever: seq<Entry>, places: seq<nat>, p: nat)
    requires Within(places, 0, |ever|) && p < |ever|
    ensures Within(places + [p], 0, |ever|) && At(ever, places + [p]) == At(ever, places) + [ever[p]]
    ensures places + [] == places && At(ever, places) + [] == At(ever, places)
  {
  }

  lemma ThinnedPlaces(ever: seq<Entry>, places: seq<nat>, k: nat, lo: nat)
    requires Ascending(places) && Within(places, lo, |ever|) && 1 <= k < |places|
    ensures var thinned := Counters.Thin(places, k);
            && Ascending(thinned) && Within(thinned, lo, |ever|)
            && At(ever, thinned) == Counters.Thin(At(ever, places), k)
            && thinned[0] == places[if k == 1 then |places| - 1 else 0]
  {
    if k >= 2 {
      hide Counters.Pick;
      Counters.ThinIsEven(places, k);
      Counters.ThinIsEven(At(ever, places), k);
    }
  }

  /** A reply's points and where they stand. */
  lemma ServedPlacesRead(w: World, maxPoints: Option<int>)
    requires Stored(w)
    ensures var served := ServedPlaces(w, maxPoints);
            && Ascending(served) && Within(served, |w.ever| - |w.points|, |w.ever|)
            && At(w.ever, served) == Served(w.points, Cursor(w.series), maxPoints)
  {
    hide At, Cursor, Counters.Thin, Ascending;
    var lo, since := |w.ever| - |w.points|, Cursor(w.series);
    NewerPlacesAscend(w.ever, lo, |w.ever|, since);
    NewerPlacesRead(w.ever, lo, |w.ever|, since);
    var newer := NewerPlaces(w.ever, lo, |w.ever|, since);
    assert w.ever[lo..] == w.ever[lo..|w.ever|];
    if maxPoints.Some? && maxPoints.value > 0 && |newer| > maxPoints.value {
      ThinnedPlaces(w.ever, newer, maxPoints.value, lo);
    }
  }

  lemma AtLonger(ever: seq<Entry>, places: seq<nat>, entry: Entry)
    requires Within(places, 0, |ever|)
    ensures At(ever + [entry], places) == At(ever, places)
  {
  }

  lemma PlacesFollowAppend(w: World, places: seq<nat>, entry: Entry)
    requires Stored(w) && Holds(w, places)
    ensures Stored(Happen(w, Append(entry))) && Holds(Happen(w, Append(entry)), places)
  {
    hide At, Tail;
    TailOfSuffix(w.ever, w.points, entry, w.maxlen);
    AtLonger(w.ever, places, entry);
  }

  lemma PlacesFollowPoll(w: World, places: seq<nat>, maxPoints: Option<int>)
    requires Stored(w) && Holds(w, places)
    ensures Holds(Happen(w, PollOk(maxPoints)), PlacesAfter(w, places, PollOk(maxPoints)))
  {
    hide At, Served, Cursor, ServedPlaces;
    ServedPlacesRead(w, maxPoints);
    var served := ServedPlaces(w, maxPoints);
    AtAppends(w.ever, places, served);
    var all := places + served;
    AtSuffix(w.ever, all, |all| - |Tail(all, SERIES_CAP)|);
  }

  lemma PlacesFollow(w: World, places: seq<nat>, e: Event)
    requires Stored(w) && Holds(w, places)
    ensures Stored(Happen(w, e)) && Holds(Happen(w, e), PlacesAfter(w, places, e))
  {
    hide Holds, Served, Cursor, ServedPlaces, Tail, Merged;
    match e
    case Append(entry) => PlacesFollowAppend(w, places, entry);
    case Restart => RestartHolds(w, places);
    case PollFailed =>
    case PollOk(maxPoints) => PlacesFollowPoll(w, places, maxPoints);
  }

  lemma RestartHolds(w: World, places: seq<nat>)
    requires Stored(w) && Holds(w, places)
    ensures Stored(Happen(w, Restart)) && Holds(Happen(w, Restart), places)
  {
  }

  /** The places the buffer holds at the end of a run. */
  function Places(maxlen: nat, events: seq<Event>): seq<nat> {
    if events == [] then []
    else PlacesAfter(History(maxlen, events[..|events| - 1]), Places(maxlen, events[..|events| - 1]), events[|events| - 1])
  }

  lemma {:induction false} PlacesHold(maxlen: nat, events: seq<Event>)
    ensures Stored(History(maxlen, events)) && Holds(History(maxlen, events), Places(maxlen, events))
  {
    hide Happen, PlacesAfter;
    if events != [] {
      var before := events[..|events| - 1];
      PlacesHold(maxlen, before);
      PlacesFollow(History(maxlen, before), Places(maxlen, before), events[|events| - 1]);
    }
  }

  /** The store holds a point from before the last one held, left out of the reply that brought that one,
      and newer than the cursor. */
  ghost predicate LeftBehind(w: World, places: seq<nat>) {
    places != [] && w.series != [] && places[|places| - 1] < |w.ever| &&
    exists p | StoreStart(w) <= p < places[|places| - 1] :: w.ever[p].t > Cursor(w.series).value
  }

  /** ... and the next reply brings it: it does not fill the whole buffer, and is not thinned to a point
      from behind the last one held. */
  ghost predicate ComesBack(w: World, places: seq<nat>, maxPoints: Option<int>) {
    && LeftBehind(w, places)
    && |ServedPlaces(w, maxPoints)| < SERIES_CAP
    && (maxPoints == Some(1) ==>
          forall p | places[|places| - 1] < p < |w.ever| && p >= StoreStart(w) :: w.ever[p].t <= Cursor(w.series).value)
  }

  lemma AscendingAppend(a: seq<nat>, b: seq<nat>)
    requires Ascending(a) && Ascending(b)
    ensures Ascending(a + b) <==> a == [] || b == [] || a[|a| - 1] < b[0]
  {
    var all := a + b;
    if a != [] && b != [] {
      assert all[|a| - 1] == a[|a| - 1] && all[|a|] == b[0];
      if a[|a| - 1] < b[0] {
        forall i, j | 0 <= i < j < |all| ensures all[i] < all[j] {
          if i < |a| <= j {
            assert a[i] <= a[|a| - 1] && b[0] <= b[j - |a|];
          }
        }
      }
    } else {
      assert a + b == a || a + b == b;
    }
  }

  /** The tail of two runs put together, when it keeps some of the first. */
  lemma AscendingTail(a: seq<nat>, b: seq<nat>, n: nat)
    requires Ascending(a) && Ascending(b) && n > 0
    ensures Ascending(Tail(a + b, n)) <==> a == [] || b == [] || |b| >= n || a[|a| - 1] < b[0]
  {
    hide Ascending, Tail;
    if |b| >= n {
      TailOfSecond(a, b, n);
      SuffixAscends(b, |b| - n);
    } else {
      var cut := TailOfBoth(a, b, n);
      SuffixAscends(a, cut);
      AscendingAppend(a[cut..], b);
    }
  }

  lemma TailOfSecond(a: seq<nat>, b: seq<nat>, n: nat)
    requires |b| >= n
    ensures Tail(a + b, n) == b[|b| - n..]
  {
  }

  lemma TailOfBoth(a: seq<nat>, b: seq<nat>, n: nat) returns (cut: nat)
    requires |b| < n
    ensures cut <= |a| && Tail(a + b, n) == a[cut..] + b && (a != [] ==> a[cut..] != [])
  {
    cut := if |a + b| <= n then 0 else |a + b| - n;
  }

  lemma SuffixAscends(places: seq<nat>, k: nat)
    requires Ascending(places) && k <= |places|
    ensures Ascending(places[k..])
  {
  }

  /** The first point of a reply. */
  lemma FirstServed(w: World, maxPoints: Option<int>)
    requires Stored(w)
    ensures var newer, served := NewerPlaces(w.ever, |w.ever| - |w.points|, |w.ever|, Cursor(w.series)), ServedPlaces(w, maxPoints);
            && (served == [] <==> newer == [])
            && (newer != [] ==> served[0] == newer[if maxPoints == Some(1) then |newer| - 1 else 0])
  {
    hide Cursor, Counters.Thin, Ascending, NewerPlaces, At, Served;
    ServedPlacesRead(w, maxPoints);
    var lo, since := |w.ever| - |w.points|, Cursor(w.series);
    NewerPlacesAscend(w.ever, lo, |w.ever|, since);
    var newer := NewerPlaces(w.ever, lo, |w.ever|, since);
    if maxPoints.Some? && maxPoints.value > 0 && |newer| > maxPoints.value {
      ThinnedPlaces(w.ever, newer, maxPoints.value, lo);
    }
  }

  /** Where the newer points lie, about an old one. */
  lemma NewerAround(ever: seq<Entry>, lo: nat, since: int, last: nat)
    requires lo <= |ever| && last < |ever| && ever[last].t <= since
    ensures var newer := NewerPlaces(ever, lo, |ever|, Some(since));
            && (newer != [] && newer[0] <= last <==> exists p | lo <= p < last :: ever[p].t > since)
            && (newer != [] && newer[|newer| - 1] <= last <==>
                  (exists p | lo <= p < last :: ever[p].t > since) && forall p | last < p < |ever| && p >= lo :: ever[p].t <= since)
  {
    hide NewerPlaces;
    NewerPlacesMembers(ever, lo, |ever|, Some(since));
    NewerPlacesAscend(ever, lo, |ever|, Some(since));
    var newer := NewerPlaces(ever, lo, |ever|, Some(since));
    if newer != [] {
      assert newer[0] in newer && newer[|newer| - 1] in newer;
      assert forall p | p in newer :: newer[0] <= p <= newer[|newer| - 1];
    }
    if p :| lo <= p < last && ever[p].t > since {
      assert p in newer;
    }
    if p :| last < p < |ever| && p >= lo && ever[p].t > since {
      assert p in newer;
    }
  }

  lemma CursorExactly(series: seq<Entry>)
    ensures Cursor(series).None? <==> series == []
  {
  }

  /** A reply that starts no later than the last point held starts with one left behind. */
  lemma FirstComesBack(w: World, places: seq<nat>, maxPoints: Option<int>)
    requires Stored(w) && Holds(w, places) && places != []
    ensures var served := ServedPlaces(w, maxPoints);
            ComesBack(w, places, maxPoints) <==> served != [] && served[0] <= places[|places| - 1] && |served| < SERIES_CAP
  {
    hide Counters.Thin, ServedPlaces, Cursor, At, NewerPlaces;
    var lo, last := |w.ever| - |w.points|, places[|places| - 1];
    CursorExactly(w.series);
    FirstServed(w, maxPoints);
    LastHeldIsOld(w, places);
    NewerAround(w.ever, lo, Cursor(w.series).value, last);
  }

  /** WHEN A POLL KEEPS THE ORDER, whatever the stamps: from a buffer in order of appending, the next one is in
      order if and only if no point left behind comes back. */
  lemma PollKeepsOrderExactly(w: World, places: seq<nat>, maxPoints: Option<int>)
    requires Stored(w) && Holds(w, places) && Ascending(places)
    ensures Ascending(PlacesAfter(w, places, PollOk(maxPoints))) <==> !ComesBack(w, places, maxPoints)
  {
    hide ServedPlaces, Cursor, At, Ascending, Tail;
    ServedPlacesRead(w, maxPoints);
    CursorExactly(w.series);
    if places != [] {
      hide ComesBack;
      FirstComesBack(w, places, maxPoints);
      AscendingTail(places, ServedPlaces(w, maxPoints), SERIES_CAP);
    }
  }

  lemma LastHeldIsOld(w: World, places: seq<nat>)
    requires Holds(w, places) && places != []
    ensures w.series != [] && w.ever[places[|places| - 1]].t <= Cursor(w.series).value
  {
    assert w.series[|w.series| - 1] == w.ever[places[|places| - 1]];
  }

  /** At no poll of the run does a point left behind come back. */
  ghost predicate NoneComesBack(maxlen: nat, events: seq<Event>) {
    forall k | 0 <= k < |events| :: events[k].PollOk? ==>
      !ComesBack(History(maxlen, events[..k]), Places(maxlen, events[..k]), events[k].maxPoints)
  }

  /** At every moment of the run the buffer is in order of appending, no point twice. */
  ghost predicate AlwaysInOrder(maxlen: nat, events: seq<Event>) {
    forall k | 0 <= k <= |events| :: Ascending(Places(maxlen, events[..k]))
  }

  lemma PlacesUnfold(maxlen: nat, events: seq<Event>, k: nat)
    requires k < |events|
    ensures Places(maxlen, events[..k + 1]) == PlacesAfter(History(maxlen, events[..k]), Places(maxlen, events[..k]), events[k])
  {
    assert events[..k + 1][..k] == events[..k];
  }

  lemma {:induction false} InOrderUpTo(maxlen: nat, events: seq<Event>, n: nat)
    requires n <= |events| && NoneComesBack(maxlen, events)
    ensures Ascending(Places(maxlen, events[..n]))
  {
    hide Ascending, ComesBack, PlacesAfter, Happen, Stored, Holds;
    PlacesHold(maxlen, events[..if n == 0 then 0 else n - 1]);
    if n == 0 {
      NoPlaces(maxlen);
    } else {
      InOrderUpTo(maxlen, events, n - 1);
      PlacesUnfold(maxlen, events, n - 1);
      hide Places, History;
      if events[n - 1].PollOk? {
        PollKeepsOrderExactly(History(maxlen, events[..n - 1]), Places(maxlen, events[..n - 1]), events[n - 1].maxPoints);
      } else {
        QuietKeepsPlaces(History(maxlen, events[..n - 1]), Places(maxlen, events[..n - 1]), events[n - 1]);
      }
    }
  }

  lemma QuietKeepsPlaces(w: World, places: seq<nat>, e: Event)
    requires !e.PollOk?
    ensures PlacesAfter(w, places, e) == places
  {
  }

  lemma NoPlaces(maxlen: nat)
    ensures Ascending(Places(maxlen, []))
  {
  }

  /** THE BUFFER IS ALWAYS IN ORDER IF AND ONLY IF NO POINT LEFT BEHIND EVER COMES BACK, over every run, with
      any stamps, any capacity and any replies. */
  lemma OrderIsKeptExactly(maxlen: nat, events: seq<Event>)
    ensures AlwaysInOrder(maxlen, events) <==> NoneComesBack(maxlen, events)
  {
    hide Ascending, ComesBack, Places, History, PlacesAfter, Stored, Holds;
    if NoneComesBack(maxlen, events) {
      forall k | 0 <= k <= |events| ensures Ascending(Places(maxlen, events[..k])) {
        InOrderUpTo(maxlen, events, k);
      }
    }
    if AlwaysInOrder(maxlen, events) {
      forall k | 0 <= k < |events| && events[k].PollOk?
        ensures !ComesBack(History(maxlen, events[..k]), Places(maxlen, events[..k]), events[k].maxPoints)
      {
        PlacesUnfold(maxlen, events, k);
        PlacesHold(maxlen, events[..k]);
        PollKeepsOrderExactly(History(maxlen, events[..k]), Places(maxlen, events[..k]), events[k].maxPoints);
      }
    }
  }

  // ---------------------------------------------------------------- what order means for the entries

  lemma {:induction false} AscendingIsSubsequence(ever: seq<Entry>, places: seq<nat>)
    requires Within(places, 0, |ever|) && Ascending(places)
    ensures Subsequence(At(ever, places), ever)
    decreases |ever|
  {
    if places != [] {
      assert 0 <= places[0] < |ever|;
      var front := ever[..|ever| - 1];
      var before, last := places[..|places| - 1], places[|places| - 1];
      var s := At(ever, places);
      assert s[..|s| - 1] == At(ever, before);
      assert forall i | 0 <= i < |places| - 1 :: places[i] < last;
      assert At(ever, before) == At(front, before);
      AscendingIsSubsequence(front, before);
      if last < |ever| - 1 {
        assert s == At(front, places);
        AscendingIsSubsequence(front, places);
      }
    }
  }

  predicate NoTwins(ever: seq<Entry>) {
    forall i, j | 0 <= i < j < |ever| :: ever[i] != ever[j]
  }

  lemma {:induction false} SubsequenceMembers(s: seq<Entry>, all: seq<Entry>)
    requires Subsequence(s, all)
    ensures forall e | e in s :: e in all
  {
    if s != [] {
      assert s == s[..|s| - 1] + [s[|s| - 1]] && all == all[..|all| - 1] + [all[|all| - 1]];
      SubsequenceMembers(if s[|s| - 1] == all[|all| - 1] then s[..|s| - 1] else s, all[..|all| - 1]);
    }
  }

  lemma InFront(ever: seq<Entry>, places: seq<nat>)
    requires ever != [] && NoTwins(ever) && Within(places, 0, |ever|)
    requires forall e | e in At(ever, places) :: e in ever[..|ever| - 1]
    ensures Within(places, 0, |ever| - 1) && At(ever[..|ever| - 1], places) == At(ever, places)
  {
    forall i | 0 <= i < |places| ensures places[i] < |ever| - 1 {
      assert At(ever, places)[i] in At(ever, places);
    }
  }

  lemma AtFront(ever: seq<Entry>, places: seq<nat>)
    requires Within(places, 0, |ever|) && places != []
    ensures var before := places[..|places| - 1];
            Within(before, 0, |ever|) && At(ever, before) == At(ever, places)[..|places| - 1]
  {
  }

  /** Where no two entries are alike, only an ascending choice is a subsequence. */
  lemma {:induction false} SubsequenceIsAscending(ever: seq<Entry>, places: seq<nat>)
    requires Within(places, 0, |ever|) && NoTwins(ever) && Subsequence(At(ever, places), ever)
    ensures Ascending(places)
    decreases |ever|
  {
    if places != [] {
      assert 0 <= places[0] < |ever|;
      var front := ever[..|ever| - 1];
      var before, last := places[..|places| - 1], places[|places| - 1];
      if last == |ever| - 1 {
        AtFront(ever, places);
        SubsequenceMembers(At(ever, before), front);
        InFront(ever, before);
        SubsequenceIsAscending(front, before);
      } else {
        SubsequenceMembers(At(ever, places), front);
        InFront(ever, places);
        SubsequenceIsAscending(front, places);
      }
    }
  }

  /** SO FOR THE ENTRIES THEMSELVES: a buffer whose run never brings a point back is a subsequence of what was
      appended; and where no two entries are alike it is one if and only if its places are in order. */
  lemma OrderedEntriesExactly(maxlen: nat, events: seq<Event>)
    ensures var w, places := History(maxlen, events), Places(maxlen, events);
            && (Ascending(places) ==> Subsequence(w.series, w.ever))
            && (NoTwins(w.ever) ==> (Subsequence(w.series, w.ever) <==> Ascending(places)))
            && (NoneComesBack(maxlen, events) ==> Subsequence(w.series, w.ever))
  {
    hide Ascending, Subsequence, At, NoneComesBack, NoTwins, History, Places;
    PlacesHold(maxlen, events);
    var w, places := History(maxlen, events), Places(maxlen, events);
    if NoneComesBack(maxlen, events) {
      assert events[..|events|] == events;
      InOrderUpTo(maxlen, events, |events|);
    }
    if Ascending(places) {
      AscendingIsSubsequence(w.ever, places);
    }
    if NoTwins(w.ever) && Subsequence(w.series, w.ever) {
      SubsequenceIsAscending(w.ever, places);
    }
  }

  // ---------------------------------------------------------------- without thinning

  /** No reply of the run is thinned. */
  ghost predicate Unthinned(maxlen: nat, events: seq<Event>) {
    forall k | 0 <= k < |events| && events[k].PollOk? :: !Thins(History(maxlen, events[..k]), events[k].maxPoints)
  }

  predicate Thins(w: World, maxPoints: Option<int>) {
    maxPoints.Some? && 0 < maxPoints.value < |NewerThan(w.points, Cursor(w.series))|
  }

  /** Everything in the store up to the last point held is covered by the cursor. */
  ghost predicate NothingLeftBehind(w: World, places: seq<nat>) {
    |places| <= SERIES_CAP && !LeftBehind(w, places)
  }

  lemma UnthinnedReply(w: World, maxPoints: Option<int>)
    requires Stored(w) && !Thins(w, maxPoints)
    ensures ServedPlaces(w, maxPoints) == NewerPlaces(w.ever, |w.ever| - |w.points|, |w.ever|, Cursor(w.series))
    ensures Served(w.points, Cursor(w.series), maxPoints) == NewerThan(w.points, Cursor(w.series))
  {
    hide Cursor, NewerPlaces, At;
    NewerPlacesRead(w.ever, |w.ever| - |w.points|, |w.ever|, Cursor(w.series));
    assert w.ever[|w.ever| - |w.points|..] == w.ever[|w.ever| - |w.points|..|w.ever|];
  }

  lemma {:induction false} CursorIsGreatest(series: seq<Entry>)
    ensures forall e | e in series :: Cursor(series).Some? && e.t <= Cursor(series).value
    ensures Cursor(series).Some? ==> exists e | e in series :: e.t == Cursor(series).value
  {
    if series != [] {
      CursorIsGreatest(series[..|series| - 1]);
      assert series == series[..|series| - 1] + [series[|series| - 1]];
    }
  }

  lemma HeldIsCovered(w: World, places: seq<nat>)
    requires Holds(w, places)
    ensures forall p | p in places :: w.series != [] && w.ever[p].t <= Cursor(w.series).value
  {
    CursorIsGreatest(w.series);
    forall p | p in places ensures w.series != [] && w.ever[p].t <= Cursor(w.series).value {
      var i :| 0 <= i < |places| && places[i] == p;
      assert w.series[i] in w.series;
    }
  }

  /** The whole of a reply that fits stays in the buffer. */
  lemma ReplyStays(a: seq<nat>, b: seq<nat>, n: nat)
    requires |b| <= n && |a| <= n
    ensures forall p | p in b :: p in Tail(a + b, n)
    ensures b == [] ==> Tail(a + b, n) == a
    ensures b != [] ==> Tail(a + b, n) != [] && Tail(a + b, n)[|Tail(a + b, n)| - 1] == b[|b| - 1]
  {
    var all := a + b;
    var cut := |all| - |Tail(all, n)|;
    assert Tail(all, n) == a[cut..] + b;
    assert a + [] == a;
  }

  /** When all the newer points are held and there are some, the cursor covers the whole store. */
  lemma AllCovered(w: World, held: seq<nat>, newer: seq<nat>, since: Option<int>)
    requires |w.points| <= |w.ever| && Holds(w, held) && newer != []
    requires forall p: nat :: p in newer <==> |w.ever| - |w.points| <= p < |w.ever| && (since.None? || w.ever[p].t > since.value)
    requires forall p | p in newer :: p in held
    ensures !LeftBehind(w, held)
  {
    hide Cursor, At;
    HeldIsCovered(w, held);
    CursorExactly(w.series);
    assert newer[0] in newer;
    forall p: nat | |w.ever| - |w.points| <= p < |w.ever| ensures w.series != [] && w.ever[p].t <= Cursor(w.series).value {
      if p in newer {
        assert p in held;
      } else {
        assert newer[0] in held;
      }
    }
  }

  /** A whole reply leaves nothing behind. */
  lemma WholeReplyLeavesNothing(w: World, places: seq<nat>, maxPoints: Option<int>)
    requires Stored(w) && Holds(w, places) && w.maxlen <= SERIES_CAP
    requires NothingLeftBehind(w, places) && !Thins(w, maxPoints)
    ensures NothingLeftBehind(Happen(w, PollOk(maxPoints)), PlacesAfter(w, places, PollOk(maxPoints)))
  {
    hide Served, NewerThan, Cursor, At, NewerPlaces, Merged, ServedPlaces, Thins, LeftBehind, Within;
    var after, held := Happen(w, PollOk(maxPoints)), PlacesAfter(w, places, PollOk(maxPoints));
    var lo := |w.ever| - |w.points|;
    var newer := NewerPlaces(w.ever, lo, |w.ever|, Cursor(w.series));
    UnthinnedReply(w, maxPoints);
    NewerPlacesAscend(w.ever, lo, |w.ever|, Cursor(w.series));
    PlacesFollow(w, places, PollOk(maxPoints));
    ReplyStays(places, newer, SERIES_CAP);
    CursorExactly(w.series);
    if newer != [] {
      NewerPlacesMembers(w.ever, lo, |w.ever|, Cursor(w.series));
      AllCovered(after, held, newer, Cursor(w.series));
    } else {
      SameHeld(w, after, places, held);
    }
  }

  lemma SameHeld(w: World, after: World, places: seq<nat>, held: seq<nat>)
    requires Holds(w, places) && Holds(after, held) && !LeftBehind(w, places)
    requires after.points == w.points && after.ever == w.ever && (held == places || held == [])
    ensures !LeftBehind(after, held)
  {
  }

  lemma NothingAtFirst(maxlen: nat)
    ensures NothingLeftBehind(History(maxlen, []), Places(maxlen, []))
  {
  }

  lemma {:induction false} NothingIsLeft(maxlen: nat, events: seq<Event>, n: nat)
    requires n <= |events| && maxlen <= SERIES_CAP && Unthinned(maxlen, events)
    ensures NothingLeftBehind(History(maxlen, events[..n]), Places(maxlen, events[..n]))
  {
    hide Places, NothingLeftBehind, PlacesAfter, Thins, Happen, History;
    if n == 0 {
      NothingAtFirst(maxlen);
    } else {
      NothingIsLeft(maxlen, events, n - 1);
      PlacesHold(maxlen, events[..n - 1]);
      PlacesUnfold(maxlen, events, n - 1);
      KeepsMaxlen(maxlen, events[..n - 1]);
      HistoryUnfolds(maxlen, events[..n - 1], events[n - 1]);
      assert events[..n - 1] + [events[n - 1]] == events[..n];
      var w, places, e := History(maxlen, events[..n - 1]), Places(maxlen, events[..n - 1]), events[n - 1];
      if e.PollOk? {
        WholeReplyLeavesNothing(w, places, e.maxPoints);
      } else {
        QuietLeavesNothing(w, places, e);
      }
    }
  }

  lemma HappenKeepsMaxlen(w: World, e: Event)
    ensures Happen(w, e).maxlen == w.maxlen
  {
  }

  lemma {:induction false} KeepsMaxlen(maxlen: nat, events: seq<Event>)
    ensures History(maxlen, events).maxlen == maxlen
  {
    hide Happen;
    if events != [] {
      KeepsMaxlen(maxlen, events[..|events| - 1]);
      HappenKeepsMaxlen(History(maxlen, events[..|events| - 1]), events[|events| - 1]);
    }
  }

  lemma QuietLeavesNothing(w: World, places: seq<nat>, e: Event)
    requires Stored(w) && Holds(w, places) && NothingLeftBehind(w, places) && !e.PollOk?
    ensures NothingLeftBehind(Happen(w, e), PlacesAfter(w, places, e))
  {
  }

  /** WITHOUT THINNING THE ORDER IS ALWAYS KEPT, whatever the stamps ... */
  lemma UnthinnedKeepsOrder(maxlen: nat, events: seq<Event>)
    requires maxlen <= SERIES_CAP && Unthinned(maxlen, events)
    ensures AlwaysInOrder(maxlen, events) && Subsequence(History(maxlen, events).series, History(maxlen, events).ever)
  {
    hide AlwaysInOrder, Subsequence, History, Places, LeftBehind;
    forall k | 0 <= k < |events| && events[k].PollOk?
      ensures !ComesBack(History(maxlen, events[..k]), Places(maxlen, events[..k]), events[k].maxPoints)
    {
      NothingIsLeft(maxlen, events, k);
    }
    OrderIsKeptExactly(maxlen, events);
    OrderedEntriesExactly(maxlen, events);
  }

  function Appends(es: seq<Entry>): (events: seq<Event>)
    ensures |events| == |es|
  {
    seq(|es|, i requires 0 <= i < |es| => Append(es[i]))
  }

  lemma {:induction false} AfterAppends(maxlen: nat, es: seq<Entry>)
    requires |es| <= maxlen
    ensures var w := History(maxlen, Appends(es));
      w.maxlen == maxlen && w.points == es && w.series == [] && w.ever == es && !w.incremental
  {
    hide History, Happen, Appends;
    if es == [] {
      NoneAppended(maxlen);
    } else {
      var front, last := es[..|es| - 1], es[|es| - 1];
      AfterAppends(maxlen, front);
      HistoryUnfolds(maxlen, Appends(front), Append(last));
      AppendsOneMore(front, last);
      assert front + [last] == es;
      OneMoreAppended(World(maxlen, front, [], front, false), last);
    }
  }

  lemma NoneAppended(maxlen: nat)
    ensures History(maxlen, Appends([])) == World(maxlen, [], [], [], false)
  {
    assert Appends([]) == [];
  }

  lemma AppendsOneMore(es: seq<Entry>, e: Entry)
    ensures Appends(es + [e]) == Appends(es) + [Append(e)]
  {
  }

  lemma OneMoreAppended(w: World, e: Entry)
    requires |w.points| < w.maxlen
    ensures Happen(w, Append(e)) == w.(points := w.points + [e], ever := w.ever + [e])
  {
  }

  lemma HistoryUnfolds(maxlen: nat, before: seq<Event>, e: Event)
    ensures History(maxlen, before + [e]) == Happen(History(maxlen, before), e)
  {
    assert (before + [e])[..|before|] == before;
  }

  /** A point first in the store with the greatest stamp, and a buffer's worth of older-stamped points behind it. */
  ghost predicate LateFirst(late: Entry, rest: seq<Entry>) {
    |rest| == SERIES_CAP && forall i | 0 <= i < |rest| :: rest[i].t < late.t
  }

  lemma {:induction false} NewerFirst(late: Entry, rest: seq<Entry>, since: int)
    requires forall i | 0 <= i < |rest| :: rest[i].t <= since
    ensures Newer([late] + rest, since) == if late.t > since then [late] else []
  {
    var all := [late] + rest;
    if rest == [] {
      assert all[..0] == [];
    } else {
      var front := rest[..|rest| - 1];
      assert all[..|all| - 1] == [late] + front;
      NewerFirst(late, front, since);
    }
  }

  lemma {:induction false} CursorOfLateFirst(late: Entry, rest: seq<Entry>)
    requires forall i | 0 <= i < |rest| :: rest[i].t < late.t
    ensures Cursor([late] + rest) == Some(late.t)
  {
    var all := [late] + rest;
    if rest == [] {
      assert all[..0] == [];
    } else {
      assert all[..|all| - 1] == [late] + rest[..|rest| - 1];
      CursorOfLateFirst(late, rest[..|rest| - 1]);
    }
  }

  /** A whole reply, with the cursor and the newer points known. */
  lemma WholeReply(w: World, cursor: Option<int>, newer: seq<Entry>)
    requires Cursor(w.series) == cursor && NewerThan(w.points, cursor) == newer
    ensures Happen(w, PollOk(None)) ==
            w.(series := if cursor.None? then newer else Tail(w.series + newer, SERIES_CAP), incremental := w.incremental || cursor.Some?)
  {
  }

  /** Three whole replies over a store longer than the buffer: all of it; nothing, and the first point is
      pushed out; that point again, at the end. */
  lemma LongStoreShuffles(w: World, late: Entry, rest: seq<Entry>)
    requires LateFirst(late, rest) && w.points == w.ever == [late] + rest && w.series == []
    ensures Happen(Happen(Happen(w, PollOk(None)), PollOk(None)), PollOk(None)).series == rest[1..] + [late]
    ensures Happen(Happen(Happen(w, PollOk(None)), PollOk(None)), PollOk(None)).ever == w.ever
  {
    hide Newer, Cursor, Tail, Happen;
    var all := [late] + rest;
    CursorExactly([]);
    WholeReply(w, None, all);
    var once := w.(series := all);
    CursorOfLateFirst(late, rest);
    NewerFirst(late, rest, late.t);
    TailIsAll(all, [], rest, SERIES_CAP);
    WholeReply(once, Some(late.t), []);
    LateComesBack(once.(series := rest, incremental := true), late, rest);
  }

  lemma LateComesBack(w: World, late: Entry, rest: seq<Entry>)
    requires LateFirst(late, rest) && w.points == [late] + rest && w.series == rest
    ensures Happen(w, PollOk(None)) == w.(series := rest[1..] + [late], incremental := true)
  {
    hide Newer, Cursor, Tail, Happen;
    CursorExactly(rest);
    CursorIsGreatest(rest);
    assert forall i | 0 <= i < |rest| :: rest[i] in rest;
    NewerFirst(late, rest, Cursor(rest).value);
    TailIsAll(rest, [late], rest[1..] + [late], SERIES_CAP);
    WholeReply(w, Cursor(rest), [late]);
  }

  lemma TailIsAll(a: seq<Entry>, b: seq<Entry>, tail: seq<Entry>, n: nat)
    requires |tail| == n <= |a + b| && tail == (a + b)[|a + b| - n..]
    ensures Tail(a + b, n) == tail
  {
  }

  /** ... AND ONLY BECAUSE THE STORE IS NO LONGER THAN THE BUFFER: with a longer store three whole replies can
      bring a point back. */
  lemma OrderNeedsRoom(maxlen: nat)
    ensures (forall events | Unthinned(maxlen, events) :: AlwaysInOrder(maxlen, events)) <==> maxlen <= SERIES_CAP
  {
    if maxlen <= SERIES_CAP {
      forall events | Unthinned(maxlen, events) ensures AlwaysInOrder(maxlen, events) {
        UnthinnedKeepsOrder(maxlen, events);
      }
    } else {
      var events := LongStoreRun(maxlen);
      assert Unthinned(maxlen, events) && !AlwaysInOrder(maxlen, events);
    }
  }

  lemma LongStoreRun(maxlen: nat) returns (events: seq<Event>)
    requires maxlen > SERIES_CAP
    ensures Unthinned(maxlen, events) && !AlwaysInOrder(maxlen, events)
  {
    hide History, Happen, Places;
    var late, rest := Entry(1, map[]), seq(SERIES_CAP, i => Entry(0, map[]));
    var all, poll := [late] + rest, PollOk(None);
    AfterAppends(maxlen, all);
    var w := History(maxlen, Appends(all));
    LongStoreShuffles(w, late, rest);
    var polls := Appends(all) + [poll];
    HistoryUnfolds(maxlen, Appends(all), poll);
    HistoryUnfolds(maxlen, Appends(all) + [poll], poll);
    HistoryUnfolds(maxlen, Appends(all) + [poll] + [poll], poll);
    events := Appends(all) + [poll] + [poll] + [poll];
    PlacesHold(maxlen, events);
    LateIsLast(History(maxlen, events), Places(maxlen, events), late, rest);
    assert events[..|events|] == events;
  }

  lemma LateIsLast(w: World, places: seq<nat>, late: Entry, rest: seq<Entry>)
    requires LateFirst(late, rest) && Holds(w, places) && w.ever == [late] + rest && w.series == rest[1..] + [late]
    ensures !Ascending(places)
  {
    assert |places| == |rest[1..] + [late]| == SERIES_CAP;
    var p := places[SERIES_CAP - 1];
    assert w.ever[p] == w.series[SERIES_CAP - 1] == late;
    assert forall q | 0 < q < |w.ever| :: w.ever[q] == rest[q - 1];
    assert p == 0 <= places[0];
  }

  lemma NewerOfThree(a: Entry, b: Entry, c: Entry, since: int)
    requires a.t <= since && c.t <= since
    ensures Newer([a, b, c], since) == if b.t > since then [b] else []
  {
    NewerOneMore([], a, since);
    NewerOneMore([a], b, since);
    NewerOneMore([a, b], c, since);
    hide Newer;
    assert [] + [a] == [a] && [a] + [b] == [a, b] && [a, b] + [c] == [a, b, c];
  }

  lemma NewerOneMore(pts: seq<Entry>, e: Entry, since: int)
    ensures Newer(pts + [e], since) == Newer(pts, since) + if e.t > since then [e] else []
    ensures Newer([], since) == []
  {
    assert (pts + [e])[..|pts|] == pts;
  }

  lemma CursorOfTwo(a: Entry, c: Entry)
    ensures Cursor([a, c]) == Some(if c.t > a.t then c.t else a.t)
  {
    assert [a, c][..1] == [a] && [a][..0] == [];
    assert Cursor([a]) == Some(a.t);
  }

  lemma SubsequenceUnfolds(s: seq<Entry>, e: Entry, all: seq<Entry>, last: Entry)
    ensures Subsequence(s + [e], all + [last]) <==> if e == last then Subsequence(s, all) else Subsequence(s + [e], all)
    ensures Subsequence([], all) && !Subsequence(s + [e], [])
  {
    assert (s + [e])[..|s|] == s && (all + [last])[..|all|] == all;
  }

  lemma OrderOfThree(a: Entry, b: Entry, c: Entry)
    ensures Subsequence([a, c], [a, b, c])
    ensures b.t > a.t && b.t > c.t ==> !Subsequence([a, c, b], [a, b, c])
  {
    SubsequenceUnfolds([a], c, [a, b], c);
    SubsequenceUnfolds([], a, [a], b);
    SubsequenceUnfolds([], a, [], a);
    SubsequenceUnfolds([a, c], b, [a, b], c);
    SubsequenceUnfolds([a, c], b, [a], b);
    SubsequenceUnfolds([a], c, [], a);
    hide Subsequence;
    assert [] + [a] == [a] && [a] + [c] == [a, c] && [a, c] + [b] == [a, c, b];
    assert [a] + [b] == [a, b] && [a, b] + [c] == [a, b, c];
  }

  /** A THINNED REPLY CAN BRING A POINT BACK, and exactly when, on the smallest run: three points of which the
      middle one is thinned out. It comes back behind the third if its stamp exceeds both others' - one
      step back of the clock - and only then. */
  lemma ThinnedPointComesBack(maxlen: nat, a: Entry, b: Entry, c: Entry)
    requires maxlen >= 3
    ensures var w := History(maxlen, [Append(a), Append(b), Append(c), PollOk(Some(2)), PollOk(None)]);
      && w.ever == [a, b, c]
      && w.series == (if b.t > a.t && b.t > c.t then [a, c, b] else [a, c])
      && (Subsequence(w.series, w.ever) <==> !(b.t > a.t && b.t > c.t))
  {
    hide Subsequence, History, Happen, Appends;
    var es, poll := [a, b, c], PollOk(Some(2));
    AfterAppends(maxlen, es);
    HistoryUnfolds(maxlen, Appends(es), poll);
    HistoryUnfolds(maxlen, Appends(es) + [poll], PollOk(None));
    FiveEvents(a, b, c);
    var w := World(maxlen, es, [], es, false);
    ThinnedFirstReply(w, a, b, c);
    WholeSecondReply(w, a, b, c);
    OrderOfThree(a, b, c);
  }

  lemma FiveEvents(a: Entry, b: Entry, c: Entry)
    ensures Appends([a, b, c]) + [PollOk(Some(2))] + [PollOk(None)]
            == [Append(a), Append(b), Append(c), PollOk(Some(2)), PollOk(None)]
  {
  }

  lemma WholeSecondReply(w: World, a: Entry, b: Entry, c: Entry)
    requires w.points == [a, b, c]
    ensures Happen(w.(series := [a, c]), PollOk(None))
            == w.(series := if b.t > a.t && b.t > c.t then [a, c, b] else [a, c], incremental := true)
  {
    hide Newer, Cursor, Happen;
    CursorOfTwo(a, c);
    NewerOfThree(a, b, c, Cursor([a, c]).value);
    WholeReply(w.(series := [a, c]), Cursor([a, c]), Newer([a, b, c], Cursor([a, c]).value));
    assert [a, c] + [] == [a, c] && [a, c] + [b] == [a, c, b];
  }

  lemma ThinnedFirstReply(w: World, a: Entry, b: Entry, c: Entry)
    requires w.points == [a, b, c] && w.series == []
    ensures Happen(w, PollOk(Some(2))) == w.(series := [a, c])
  {
    hide Cursor, Counters.Thin, Newer;
    CursorExactly([]);
    ThinnedToTwo(a, b, c);
  }

  lemma ThinnedToTwo(a: Entry, b: Entry, c: Entry)
    ensures Counters.Thin([a, b, c], 2) == [a, c]
  {
    Counters.ThinIsEven([a, b, c], 2);
  }

  // ---------------------------------------------------------------- what a point holds

  /** EACH NAME GETS ITS LAST READING, and only the names read are there. */
  lemma {:induction false} PathMapIs(paths: seq<(string, nat)>, name: string)
    ensures name in PathMap(paths) <==> exists i | 0 <= i < |paths| :: paths[i].0 == name
    ensures forall i | 0 <= i < |paths| && paths[i].0 == name && (forall j | i < j < |paths| :: paths[j].0 != name) ::
              PathMap(paths)[name] == paths[i].1
  {
    if paths != [] {
      var front, last := paths[..|paths| - 1], |paths| - 1;
      PathMapIs(front, name);
      assert forall i | 0 <= i < |front| :: front[i] == paths[i];
      if name in PathMap(paths) && paths[last].0 != name {
        var i :| 0 <= i < |front| && front[i].0 == name;
        assert paths[i].0 == name;
      }
    }
  }

  /** The stamp is the wall clock's millisecond, cut toward zero. */
  lemma StampIsTheMillisecond(wall: real)
    ensures var t := Truncate(wall * 1000.0) as real;
      if wall >= 0.0 then 0.0 <= t <= wall * 1000.0 < t + 1.0 else t - 1.0 < wall * 1000.0 <= t <= 0.0
  {
    var ms := wall * 1000.0;
    if wall >= 0.0 {
      FloorIs(ms);
    } else {
      FloorIs(-ms);
    }
  }

  lemma FloorIs(x: real)
    requires x >= 0.0
    ensures 0.0 <= x.Floor as real <= x < x.Floor as real + 1.0
  {
  }

  // ---------------------------------------------------------------- nothing newer is left out

  lemma {:induction false} NewerIsComplete(pts: seq<Entry>, since: int, e: Entry)
    ensures e in Newer(pts, since) <==> e in pts && e.t > since
  {
    if pts != [] {
      NewerIsComplete(pts[..|pts| - 1], since, e);
      assert pts == pts[..|pts| - 1] + [pts[|pts| - 1]];
    }
  }

  lemma {:induction false} NewerIsSubsequence(pts: seq<Entry>, since: int)
    ensures Subsequence(Newer(pts, since), pts)
  {
    hide Subsequence, Newer;
    if pts == [] {
      NewerOneMore([], Entry(0, map[]), since);
      SubsequenceUnfolds([], Entry(0, map[]), [], Entry(0, map[]));
    } else {
      var front, last := pts[..|pts| - 1], pts[|pts| - 1];
      assert front + [last] == pts;
      NewerIsSubsequence(front, since);
      NewerOneMore(front, last, since);
      if last.t > since {
        SubsequenceUnfolds(Newer(front, since), last, front, last);
      } else {
        Reassociate(Newer(front, since), [], []);
        StillSubsequence(Newer(front, since), front, last);
      }
    }
  }

  lemma {:induction false} StillSubsequence(s: seq<Entry>, all: seq<Entry>, last: Entry)
    requires Subsequence(s, all)
    ensures Subsequence(s, all + [last])
    decreases |all|, 1
  {
    assert (all + [last])[..|all|] == all;
    if s != [] && s[|s| - 1] == last {
      DropsFront(s, all);
    }
  }

  lemma {:induction false} DropsFront(s: seq<Entry>, all: seq<Entry>)
    requires s != [] && Subsequence(s, all)
    ensures Subsequence(s[..|s| - 1], all)
    decreases |all|, 0
  {
    var front := all[..|all| - 1];
    if s[|s| - 1] == all[|all| - 1] {
      StillSubsequence(s[..|s| - 1], front, all[|all| - 1]);
      assert front + [all[|all| - 1]] == all;
    } else {
      DropsFront(s, front);
      StillSubsequence(s[..|s| - 1], front, all[|all| - 1]);
      assert front + [all[|all| - 1]] == all;
    }
  }

  /** A WHOLE REPLY LEAVES NOTHING OUT: what it holds is exactly what the store has that is newer than the cursor,
      in the store's order. */
  lemma WholeReplyIsComplete(points: seq<Entry>, since: Option<int>, maxPoints: Option<int>)
    requires maxPoints.None? || maxPoints.value <= 0 || |NewerThan(points, since)| <= maxPoints.value
    ensures var served := Served(points, since, maxPoints);
      && (forall e :: e in served <==> e in points && (since.None? || e.t > since.value))
      && (since.Some? ==> Subsequence(served, points)) && (since.None? ==> served == points)
  {
    hide Newer, Subsequence;
    if since.Some? {
      NewerIsSubsequence(points, since.value);
      forall e ensures e in Newer(points, since.value) <==> e in points && e.t > since.value {
        NewerIsComplete(points, since.value, e);
      }
    }
  }

  // ---------------------------------------------------------------- nothing is missed

  /** Every point in the store up to the buffer's last is in the buffer. */
  ghost predicate Complete(w: World) {
    && |w.series| <= SERIES_CAP
    && (w.series != [] ==> forall e | e in w.points && e.t <= w.series[|w.series| - 1].t :: e in w.series)
  }

  lemma {:induction false} SubsequenceIsNoLonger(s: seq<Entry>, all: seq<Entry>)
    requires Subsequence(s, all)
    ensures |s| <= |all|
    decreases |all|
  {
    if s != [] {
      SubsequenceIsNoLonger(if s[|s| - 1] == all[|all| - 1] then s[..|s| - 1] else s, all[..|all| - 1]);
    }
  }

  /** In order of stamps, nothing from the first of some points on is pushed out by as many as there are. */
  lemma TailKeeps(whole: seq<Entry>, points: seq<Entry>, n: nat, e: Entry)
    requires Increasing(whole) && Increasing(points) && |points| <= n && e in whole && e in points
    requires forall f | f in whole && f.t >= e.t :: f in points
    ensures e in Tail(whole, n)
  {
    var i :| 0 <= i < |whole| && whole[i] == e;
    var cut := |whole| - |Tail(whole, n)|;
    if i < cut {
      RestIsIn(whole, points, i);
      SuffixInOrder(whole, i);
      hide Increasing, Subsequence, Tail;
      MembersInOrderAreSubsequence(whole[i..], points);
      SubsequenceIsNoLonger(whole[i..], points);
    } else {
      assert Tail(whole, n)[i - cut] == e;
    }
  }

  lemma RestIsIn(whole: seq<Entry>, points: seq<Entry>, i: nat)
    requires Increasing(whole) && i < |whole| && forall f | f in whole && f.t >= whole[i].t :: f in points
    ensures AllIn(whole[i..], points)
  {
    var rest := whole[i..];
    forall f | f in rest ensures f in points {
      var j :| 0 <= j < |rest| && rest[j] == f;
      assert whole[i + j] == f;
    }
  }

  lemma AppendStaysComplete(w: World, entry: Entry)
    requires Synced(w) && Complete(w) && Increasing(w.ever + [entry])
    ensures Complete(Happen(w, Append(entry)))
  {
    var after := Happen(w, Append(entry));
    if w.series != [] {
      var last := w.series[|w.series| - 1];
      assert last in w.series && last in w.ever;
      var i :| 0 <= i < |w.ever| && w.ever[i] == last;
      assert (w.ever + [entry])[i].t < (w.ever + [entry])[|w.ever|].t;
      forall e | e in after.points && e.t <= last.t ensures e in w.series {
        assert e in w.points + [entry];
      }
    }
  }

  /** What the store holds from one of its points on is everything appended from it on. */
  lemma StoreIsTheNewest(w: World, e: Entry, f: Entry)
    requires Synced(w) && e in w.points && f in w.ever && f.t >= e.t
    ensures f in w.points
  {
    hide Increasing, AllIn;
    LaterIsInSuffix(w.ever, |w.ever| - |w.points|, e, f);
  }

  lemma LaterIsInSuffix(ever: seq<Entry>, lo: nat, e: Entry, f: Entry)
    requires Increasing(ever) && lo <= |ever| && e in ever[lo..] && f in ever && f.t >= e.t
    ensures f in ever[lo..]
  {
    var i :| 0 <= i < |ever[lo..]| && ever[lo..][i] == e;
    var j :| 0 <= j < |ever| && ever[j] == f;
    assert ever[lo + i] == e && lo + i <= j;
    assert ever[lo..][j - lo] == f;
  }

  lemma WholePollIsComplete(w: World, maxPoints: Option<int>)
    requires Synced(w) && Complete(w) && w.maxlen <= SERIES_CAP && !Thins(w, maxPoints)
    ensures Complete(Happen(w, PollOk(maxPoints)))
    ensures forall e | e in w.points :: e in Happen(w, PollOk(maxPoints)).series
  {
    hide Served, Cursor, Tail, Subsequence, Increasing;
    var since := Cursor(w.series);
    var served := Served(w.points, since, maxPoints);
    WholeReplyIsComplete(w.points, since, maxPoints);
    ServedInSync(w, maxPoints);
    CursorExactly(w.series);
    CursorIsLast(w.series);
    SuffixInOrder(w.ever, |w.ever| - |w.points|);
    var whole := w.series + served;
    LaterInOrder(w.series, served);
    forall e | e in w.points ensures e in Happen(w, PollOk(maxPoints)).series {
      if w.series != [] {
        assert e in whole;
        forall f | f in whole && f.t >= e.t ensures f in w.points {
          StoreIsTheNewest(w, e, f);
        }
        TailKeeps(whole, w.points, SERIES_CAP, e);
      }
    }
  }

  lemma {:induction false} NothingMissedYet(maxlen: nat, events: seq<Event>)
    requires maxlen <= SERIES_CAP && StampsIncrease(maxlen, events) && Unthinned(maxlen, events)
    ensures Complete(History(maxlen, events)) && Synced(History(maxlen, events))
  {
    HistoryIsSynced(maxlen, events);
    hide Complete, Synced, Thins;
    if events == [] {
      EmptyIsComplete(maxlen);
    } else {
      var before, e := events[..|events| - 1], events[|events| - 1];
      assert before + [e] == events && events[..|before|] == before;
      EarlierIsUnthinned(maxlen, events);
      EarlierStampsIncrease(maxlen, events);
      NothingMissedYet(maxlen, before);
      KeepsMaxlen(maxlen, before);
      StepStaysComplete(maxlen, before, e);
    }
  }

  lemma EmptyIsComplete(maxlen: nat)
    ensures Complete(History(maxlen, []))
  {
  }

  lemma EarlierIsUnthinned(maxlen: nat, events: seq<Event>)
    requires events != [] && Unthinned(maxlen, events)
    ensures Unthinned(maxlen, events[..|events| - 1])
  {
    hide Thins, History;
    var before := events[..|events| - 1];
    forall k | 0 <= k < |before| && before[k].PollOk? ensures !Thins(History(maxlen, before[..k]), before[k].maxPoints) {
      assert before[..k] == events[..k] && before[k] == events[k];
    }
  }

  lemma StepStaysComplete(maxlen: nat, before: seq<Event>, e: Event)
    requires maxlen <= SERIES_CAP && StampsIncrease(maxlen, before + [e]) && Unthinned(maxlen, before + [e])
    requires var w := History(maxlen, before); Complete(w) && Synced(w) && w.maxlen == maxlen
    ensures Complete(History(maxlen, before + [e]))
  {
    hide Complete, Synced, Thins, Merged, Served, Tail, Increasing;
    var w := History(maxlen, before);
    HistoryUnfolds(maxlen, before, e);
    assert (before + [e])[|before|] == e && (before + [e])[..|before|] == before;
    match e
    case Append(entry) => AppendStaysComplete(w, entry);
    case Restart => RestartIsComplete(w);
    case PollFailed =>
    case PollOk(maxPoints) => WholePollIsComplete(w, maxPoints);
  }

  lemma RestartIsComplete(w: World)
    requires Complete(w)
    ensures Complete(Happen(w, Restart))
  {
  }

  /** NOTHING IS MISSED: with increasing stamps, no thinning and a store no longer than the buffer, after any
      successful poll of any run every point in the store is in the buffer - restarts, evictions and failed
      polls in between included. */
  lemma NothingIsMissed(maxlen: nat, events: seq<Event>, maxPoints: Option<int>)
    requires maxlen <= SERIES_CAP && StampsIncrease(maxlen, events) && Unthinned(maxlen, events)
    requires !Thins(History(maxlen, events), maxPoints)
    ensures var w, after := History(maxlen, events), Happen(History(maxlen, events), PollOk(maxPoints));
            forall e | e in w.points :: e in after.series
  {
    NothingMissedYet(maxlen, events);
    KeepsMaxlen(maxlen, events);
    WholePollIsComplete(History(maxlen, events), maxPoints);
  }
}
