/**
 The receive side's reassembler: drop duplicates, restore order, give up on a gap after a bounded stall.

 `Stream` is the plain form: what waits is a map, and "is anything overdue" and "which is lowest" are asked
 of the whole of it. The class answers both from two indexes that are swept lazily, and does the same.
 */
module Reassembler {
  import opened ByteStrings
  import opened Sets

  datatype Config = Config(reorderDeadline: real, maxBuffered: nat, dedupeWindow: nat, originGrace: real)

  /** A waiting payload, and when its sequence was first buffered. */
  datatype Held = Held(payload: seq<Byte>, since: real)

  datatype Stats = Stats(delivered: nat, deliveredBytes: nat, duplicatesDropped: nat, tooLateDropped: nat,
                         gapsAbandoned: nat, lostEstimate: nat, streamRestarts: nat)

  datatype Stream = Stream(next: Option<int>, committed: bool, originDeadline: real, buffer: map<int, Held>,
                           seen: seq<int>, stats: Stats)

  datatype Frame = Frame(keepalive: bool, sequence: int, payload: seq<Byte>)

  /** A payload handed up, with the sequence it had. */
  type Sent = (int, seq<Byte>)

  const FRESH := Stream(None, false, 0.0, map[], [], Stats(0, 0, 0, 0, 0, 0, 0))

  // ---------------------------------------------------------------- the plain form

  function Remembered(seen: seq<int>, sequence: int, window: nat): seq<int> {
    var all := seen + [sequence];
    if |all| <= window then all else all[|all| - window..]
  }

  function Buffered(buffer: map<int, Held>, sequence: int, payload: seq<Byte>, now: real): (r: map<int, Held>)
    ensures r.Keys == buffer.Keys + {sequence}
  {
    buffer[sequence := Held(payload, if sequence in buffer then buffer[sequence].since else now)]
  }

  predicate Ready(s: Stream) {
    s.next.Some? && s.next.value in s.buffer
  }

  /** Hand up the next payload. */
  function Handed(s: Stream): Stream
    requires Ready(s)
  {
    s.(next := Some(s.next.value + 1), buffer := s.buffer - {s.next.value},
       stats := s.stats.(delivered := s.stats.delivered + 1,
                         deliveredBytes := s.stats.deliveredBytes + |s.buffer[s.next.value].payload|))
  }

  /** Hand up payloads until the next one has not arrived. */
  ghost function Drained(s: Stream): (Stream, seq<Sent>)
    decreases s.buffer.Keys
  {
    if !Ready(s) then (s, [])
    else
      assert Handed(s).buffer.Keys == s.buffer.Keys - {s.next.value};
      var rest := Drained(Handed(s));
      (rest.0, [(s.next.value, s.buffer[s.next.value].payload)] + rest.1)
  }

  /** Give up on the gap in front of the lowest waiting payload. */
  ghost function Skipped(s: Stream): Stream
    requires s.next.Some? && s.buffer.Keys != {}
  {
    var low := Lowest(s.buffer.Keys);
    s.(next := Some(low),
       stats := s.stats.(gapsAbandoned := s.stats.gapsAbandoned + 1,
                         lostEstimate := s.stats.lostEstimate + if low > s.next.value then low - s.next.value else 0))
  }

  /** Start the stream at the lowest sequence seen. */
  ghost function Committed(s: Stream): Stream
    requires s.buffer.Keys != {}
  {
    s.(committed := true, next := Some(Lowest(s.buffer.Keys)))
  }

  /** The frame buffered, before the origin is looked at. */
  function Placed(c: Config, s: Stream, f: Frame, t0: real, t1: real): Stream {
    s.(seen := Remembered(s.seen, f.sequence, c.dedupeWindow),
       next := if s.next.None? || f.sequence < s.next.value then Some(f.sequence) else s.next,
       originDeadline := if s.next.None? then t0 + c.originGrace else s.originDeadline,
       buffer := Buffered(s.buffer, f.sequence, f.payload, t1))
  }

  predicate TooLate(s: Stream, sequence: int) {
    s.next.Some? && sequence < s.next.value && s.committed
  }

  /** What `push` does once the origin is settled. */
  ghost function Settled(c: Config, s: Stream): (Stream, seq<Sent>)
    requires s.next.Some? && s.buffer.Keys != {}
  {
    Drained(if |s.buffer| > c.maxBuffered then Skipped(s) else s)
  }

  /** Hold everything until the origin is settled. */
  ghost function Resolved(c: Config, s: Stream, t2: real): (Stream, seq<Sent>)
    requires s.next.Some? && s.buffer.Keys != {}
  {
    if s.committed then Settled(c, s)
    else if t2 < s.originDeadline then (s, [])
    else Settled(c, Committed(s))
  }

  /** `push`: t0, t1 and t2 are the clock readings it may take, in order. */
  ghost function Pushed(c: Config, s: Stream, f: Frame, t0: real, t1: real, t2: real): (Stream, seq<Sent>) {
    if f.keepalive then (s, [])
    else if f.sequence in s.seen then (s.(stats := s.stats.(duplicatesDropped := s.stats.duplicatesDropped + 1)), [])
    else if TooLate(s, f.sequence) then
      (s.(seen := Remembered(s.seen, f.sequence, c.dedupeWindow),
          stats := s.stats.(tooLateDropped := s.stats.tooLateDropped + 1)), [])
    else
      Resolved(c, Placed(c, s, f, t0, t1), t2)
  }

  predicate Overdue(c: Config, s: Stream, now: real) {
    exists n | n in s.buffer :: now - s.buffer[n].since >= c.reorderDeadline
  }

  ghost function Ticked(c: Config, s: Stream, now: real): (Stream, seq<Sent>) {
    if s.next.None? || s.buffer.Keys == {} then (s, [])
    else if !s.committed then
      if now < s.originDeadline then (s, []) else Drained(Committed(s))
    else if !Overdue(c, s, now) then (s, [])
    else Drained(Skipped(s))
  }

  function ResetTo(s: Stream): Stream {
    FRESH.(stats := s.stats.(streamRestarts := s.stats.streamRestarts + 1))
  }

  lemma DrainedUnfolds(s: Stream)
    ensures !Ready(s) ==> Drained(s) == (s, [])
    ensures Ready(s) ==> Drained(s) == (Drained(Handed(s)).0, [(s.next.value, s.buffer[s.next.value].payload)] + Drained(Handed(s)).1)
  {
  }

  // ---------------------------------------------------------------- the object

  function Payloads(sent: seq<Sent>): seq<seq<Byte>> {
    seq(|sent|, i requires 0 <= i < |sent| => sent[i].1)
  }

  lemma PayloadsOfOneMore(sent: seq<Sent>, one: Sent)
    ensures Payloads(sent + [one]) == Payloads(sent) + [one.1] && Payloads([]) == []
  {
  }

  predicate Ascending(heap: seq<int>) {
    forall i, j | 0 <= i < j < |heap| :: heap[i] <= heap[j]
  }

  predicate InTimeOrder(arrivals: seq<(int, real)>) {
    forall i, j | 0 <= i < j < |arrivals| :: arrivals[i].1 <= arrivals[j].1
  }

  /** The heap is kept as the ascending list it pops. */
  function HeapPush(heap: seq<int>, n: int): (r: seq<int>) {
    if heap == [] || n <= heap[0] then [n] + heap else [heap[0]] + HeapPush(heap[1..], n)
  }

  lemma {:induction false} HeapPushAdds(heap: seq<int>, n: int)
    ensures |HeapPush(heap, n)| == |heap| + 1
    ensures forall x :: x in HeapPush(heap, n) <==> x == n || x in heap
  {
    if heap != [] && n > heap[0] {
      HeapPushAdds(heap[1..], n);
      assert heap == [heap[0]] + heap[1..];
    }
  }

  lemma {:induction false} HeapPushSorts(heap: seq<int>, n: int)
    requires Ascending(heap)
    ensures Ascending(HeapPush(heap, n))
  {
    if heap != [] && n > heap[0] {
      HeapPushSorts(heap[1..], n);
      HeapPushAdds(heap[1..], n);
      var rest := HeapPush(heap[1..], n);
      assert forall k | 0 <= k < |rest| :: rest[k] in rest;
      assert HeapPush(heap, n) == [heap[0]] + rest;
    }
  }

  /** Entries of the arrival index: the first entry of a buffered sequence is when it was first buffered. */
  ghost predicate Dated(arrivals: seq<(int, real)>, held: map<int, Held>) {
    forall n | n in held :: (n, held[n].since) in arrivals
  }

  ghost predicate NoneEarlier(arrivals: seq<(int, real)>, held: map<int, Held>) {
    forall i | 0 <= i < |arrivals| && arrivals[i].0 in held :: held[arrivals[i].0].since <= arrivals[i].1
  }

  /** Entries of sequences no longer buffered lie behind the stream. */
  ghost predicate StaleIsPassed(arrivals: seq<(int, real)>, held: map<int, Held>, next: Option<int>, committed: bool) {
    forall i | 0 <= i < |arrivals| && arrivals[i].0 !in held :: committed && next.Some? && arrivals[i].0 < next.value
  }

  ghost predicate UpTo(arrivals: seq<(int, real)>, latest: real) {
    forall i | 0 <= i < |arrivals| :: arrivals[i].1 <= latest
  }

  ghost predicate Listed(heap: seq<int>, held: map<int, Held>) {
    forall n | n in held :: n in heap
  }

  ghost predicate Indexes(arrivals: seq<(int, real)>, heap: seq<int>, held: map<int, Held>, next: Option<int>, committed: bool, latest: real) {
    && InTimeOrder(arrivals) && UpTo(arrivals, latest) && Dated(arrivals, held) && NoneEarlier(arrivals, held)
    && StaleIsPassed(arrivals, held, next, committed)
    && Ascending(heap) && Listed(heap, held)
  }

  lemma PopStaleArrival(arrivals: seq<(int, real)>, heap: seq<int>, held: map<int, Held>, next: Option<int>, committed: bool, latest: real)
    requires Indexes(arrivals, heap, held, next, committed, latest) && arrivals != [] && arrivals[0].0 !in held
    ensures Indexes(arrivals[1..], heap, held, next, committed, latest)
  {
    forall n | n in held ensures (n, held[n].since) in arrivals[1..] {
      var i :| 0 <= i < |arrivals| && arrivals[i] == (n, held[n].since);
      assert arrivals[1..][i - 1] == (n, held[n].since);
    }
  }

  lemma FrontIsOldest(arrivals: seq<(int, real)>, heap: seq<int>, held: map<int, Held>, next: Option<int>, committed: bool, latest: real)
    requires Indexes(arrivals, heap, held, next, committed, latest) && arrivals != [] && arrivals[0].0 in held
    ensures held[arrivals[0].0].since == arrivals[0].1
    ensures forall n | n in held :: arrivals[0].1 <= held[n].since
  {
    forall n | n in held ensures arrivals[0].1 <= held[n].since {
      var i :| 0 <= i < |arrivals| && arrivals[i] == (n, held[n].since);
      assert arrivals[0].1 <= arrivals[i].1;
    }
  }

  lemma PopStaleHead(arrivals: seq<(int, real)>, heap: seq<int>, held: map<int, Held>, next: Option<int>, committed: bool, latest: real)
    requires Indexes(arrivals, heap, held, next, committed, latest) && heap != [] && heap[0] !in held
    ensures Indexes(arrivals, heap[1..], held, next, committed, latest)
  {
    forall n | n in held ensures n in heap[1..] {
      var i :| 0 <= i < |heap| && heap[i] == n;
      assert heap[1..][i - 1] == n;
    }
  }

  lemma HeadIsLowest(arrivals: seq<(int, real)>, heap: seq<int>, held: map<int, Held>, next: Option<int>, committed: bool, latest: real)
    requires Indexes(arrivals, heap, held, next, committed, latest) && heap != [] && heap[0] in held
    ensures heap[0] == Lowest(held.Keys)
  {
    forall n | n in held ensures heap[0] <= n {
      var i :| 0 <= i < |heap| && heap[i] == n;
      assert heap[0] <= heap[i];
    }
  }

  lemma NeitherRunsOut(arrivals: seq<(int, real)>, heap: seq<int>, held: map<int, Held>, next: Option<int>, committed: bool, latest: real)
    requires Indexes(arrivals, heap, held, next, committed, latest) && held.Keys != {}
    ensures arrivals != [] && heap != []
  {
    var n := Any(held.Keys);
    assert n in held && (n, held[n].since) in arrivals && n in heap;
  }

  lemma InsertDates(arrivals: seq<(int, real)>, held: map<int, Held>, f: Frame, arrived: real)
    requires Dated(arrivals, held)
    ensures Dated(arrivals + [(f.sequence, arrived)], Buffered(held, f.sequence, f.payload, arrived))
  {
    var a, h := arrivals + [(f.sequence, arrived)], Buffered(held, f.sequence, f.payload, arrived);
    forall n | n in h ensures (n, h[n].since) in a {
      if n in held {
        assert (n, held[n].since) in arrivals;
      } else {
        assert a[|arrivals|] == (n, h[n].since);
      }
    }
  }

  lemma InsertKeepsIndexes(arrivals: seq<(int, real)>, heap: seq<int>, held: map<int, Held>, next: Option<int>, committed: bool,
                           latest: real, f: Frame, arrived: real)
    requires Indexes(arrivals, heap, held, next, committed, latest) && latest <= arrived
    requires committed ==> next.Some? && next.value <= f.sequence
    ensures Indexes(arrivals + [(f.sequence, arrived)], HeapPush(heap, f.sequence), Buffered(held, f.sequence, f.payload, arrived),
                    next, committed, arrived)
  {
    hide HeapPush, Dated, Ascending, InTimeOrder, NoneEarlier, StaleIsPassed, UpTo, Listed;
    HeapPushSorts(heap, f.sequence);
    InsertLists(heap, held, f, arrived);
    InsertDates(arrivals, held, f, arrived);
    InsertComesLast(arrivals, held, next, committed, latest, f, arrived);
    InsertStaysPassed(arrivals, held, next, committed, f, arrived);
  }

  lemma InsertLists(heap: seq<int>, held: map<int, Held>, f: Frame, arrived: real)
    requires Listed(heap, held)
    ensures Listed(HeapPush(heap, f.sequence), Buffered(held, f.sequence, f.payload, arrived))
  {
    hide HeapPush;
    HeapPushAdds(heap, f.sequence);
  }

  lemma InsertComesLast(arrivals: seq<(int, real)>, held: map<int, Held>, next: Option<int>, committed: bool,
                        latest: real, f: Frame, arrived: real)
    requires InTimeOrder(arrivals) && UpTo(arrivals, latest) && Dated(arrivals, held) && NoneEarlier(arrivals, held) && latest <= arrived
    requires StaleIsPassed(arrivals, held, next, committed) && (committed ==> next.Some? && next.value <= f.sequence)
    ensures InTimeOrder(arrivals + [(f.sequence, arrived)]) && UpTo(arrivals + [(f.sequence, arrived)], arrived)
    ensures NoneEarlier(arrivals + [(f.sequence, arrived)], Buffered(held, f.sequence, f.payload, arrived))
  {
    if f.sequence in held {
      assert (f.sequence, held[f.sequence].since) in arrivals;
    }
  }

  lemma InsertStaysPassed(arrivals: seq<(int, real)>, held: map<int, Held>, next: Option<int>, committed: bool, f: Frame, arrived: real)
    requires StaleIsPassed(arrivals, held, next, committed)
    ensures StaleIsPassed(arrivals + [(f.sequence, arrived)], Buffered(held, f.sequence, f.payload, arrived), next, committed)
  {
  }

  lemma HandKeepsIndexes(arrivals: seq<(int, real)>, heap: seq<int>, held: map<int, Held>, n: int, latest: real)
    requires Indexes(arrivals, heap, held, Some(n), true, latest)
    ensures Indexes(arrivals, heap, held - {n}, Some(n + 1), true, latest)
  {
    forall k | k in held - {n} ensures (k, (held - {n})[k].since) in arrivals {
      assert (k, held[k].since) in arrivals;
    }
  }

  lemma NothingIsIndexed(latest: real)
    ensures Indexes([], [], map[], None, false, latest)
  {
  }

  lemma IndexesOutlast(arrivals: seq<(int, real)>, heap: seq<int>, held: map<int, Held>, next: Option<int>, committed: bool,
                       latest: real, next': Option<int>, committed': bool, latest': real)
    requires Indexes(arrivals, heap, held, next, committed, latest) && latest <= latest'
    requires committed ==> committed' && (next.Some? ==> next'.Some? && next.value <= next'.value)
    ensures Indexes(arrivals, heap, held, next', committed', latest')
  {
  }

  function Last(s: seq<int>, n: nat): seq<int>
    requires n <= |s|
  {
    s[|s| - n..]
  }

  lemma LastOf(s: seq<int>, n: nat)
    requires n <= |s|
    ensures |Last(s, n)| == n && Last(s, |s|) == s
    ensures n > 0 ==> Last(s, n)[1..] == Last(s, n - 1)
  {
  }

  lemma RememberedIsLast(seen: seq<int>, sequence: int, window: nat)
    ensures var all := seen + [sequence];
      Remembered(seen, sequence, window) == if |all| <= window then all else Last(all, window)
  {
  }

  class Reassembler {
    const config: Config
    var nextSeq: Option<int>
    var originCommitted: bool
    var originDeadline: real
    var buffer: map<int, (seq<Byte>, real)>
    var seen: seq<int>
    var arrivals: seq<(int, real)>
    var seqHeap: seq<int>
    var stats: Stats
    ghost var held: map<int, Held>
    ghost var latest: real

    ghost function State(): Stream
      reads this
    {
      Stream(nextSeq, originCommitted, originDeadline, held, seen, stats)
    }

    ghost predicate Valid()
      reads this
    {
      && held.Keys == buffer.Keys
      && (forall n | n in buffer :: held[n].payload == buffer[n].0)
      && (nextSeq.None? ==> buffer.Keys == {} && !originCommitted)
      && (forall n | n in held :: nextSeq.Some? && nextSeq.value <= n)
      && Indexed()
    }

    /** Both indexes cover the buffer, and what they hold beyond it is behind the stream. */
    ghost predicate Indexed()
      reads this
    {
      Indexes(arrivals, seqHeap, held, nextSeq, originCommitted, latest)
    }

    constructor (c: Config)
      ensures Valid() && State() == FRESH && config == c
    {
      config := c;
      nextSeq, originCommitted, originDeadline := None, false, 0.0;
      buffer, seen, arrivals, seqHeap, stats := map[], [], [], [], Stats(0, 0, 0, 0, 0, 0, 0);
      held, latest := map[], 0.0;
    }

    method Remember(sequence: int) returns (isNew: bool)
      requires Valid()
      modifies this`seen
      ensures Valid()
      ensures isNew == (sequence !in old(seen))
      ensures seen == if isNew then Remembered(old(seen), sequence, config.dedupeWindow) else old(seen)
    {
      hide Indexes, Last;
      RememberedIsLast(seen, sequence, config.dedupeWindow);
      if sequence in seen {
        return false;
      }
      seen := seen + [sequence];
      ghost var all := seen;
      LastOf(all, |all|);
      while |seen| > config.dedupeWindow
        invariant Valid() && |seen| <= |all| && seen == Last(all, |seen|)
        invariant |all| <= config.dedupeWindow ==> seen == all
        invariant |all| > config.dedupeWindow ==> |seen| >= config.dedupeWindow
      {
        LastOf(all, |seen|);
        seen := seen[1..];
      }
      isNew := true;
    }

    /** Drop what the two indexes still hold of payloads already handed up, and answer from their fronts. */
    method Sweep() returns (oldest: Option<real>, lowest: Option<int>)
      requires Valid()
      modifies this`arrivals, this`seqHeap
      ensures Valid()
      ensures oldest.Some? == lowest.Some? == (held.Keys != {})
      ensures lowest.Some? ==> lowest.value == Lowest(held.Keys)
      ensures oldest.Some? ==> (exists n | n in held :: held[n].since == oldest.value)
      ensures oldest.Some? ==> forall n | n in held :: oldest.value <= held[n].since
      ensures held.Keys == {} ==> arrivals == [] && seqHeap == []
    {
      hide Indexes, Lowest;
      while arrivals != [] && arrivals[0].0 !in buffer
        invariant Valid()
        decreases |arrivals|
      {
        PopStaleArrival(arrivals, seqHeap, held, nextSeq, originCommitted, latest);
        arrivals := arrivals[1..];
      }
      while seqHeap != [] && seqHeap[0] !in buffer
        invariant Valid() && (arrivals == [] || arrivals[0].0 in buffer)
        decreases |seqHeap|
      {
        PopStaleHead(arrivals, seqHeap, held, nextSeq, originCommitted, latest);
        seqHeap := seqHeap[1..];
      }
      if held.Keys != {} {
        NeitherRunsOut(arrivals, seqHeap, held, nextSeq, originCommitted, latest);
      }
      oldest := if arrivals != [] then Some(arrivals[0].1) else None;
      lowest := if seqHeap != [] then Some(seqHeap[0]) else None;
      if arrivals != [] {
        FrontIsOldest(arrivals, seqHeap, held, nextSeq, originCommitted, latest);
      }
      if seqHeap != [] {
        HeadIsLowest(arrivals, seqHeap, held, nextSeq, originCommitted, latest);
      }
    }

    method Drain() returns (out: seq<seq<Byte>>)
      requires Valid() && originCommitted
      modifies this`nextSeq, this`buffer, this`stats, this`held
      ensures Valid()
      ensures State() == Drained(old(State())).0 && out == Payloads(Drained(old(State())).1)
    {
      hide Indexes, Drained, Payloads;
      out := [];
      PayloadsOfOneMore([], (0, []));
      ghost var sent: seq<Sent> := [];
      ghost var was := State();
      Reassociate(Drained(was).1, [], []);
      while nextSeq.Some? && nextSeq.value in buffer
        invariant Valid() && out == Payloads(sent)
        invariant Drained(was) == (Drained(State()).0, sent + Drained(State()).1)
        decreases buffer.Keys
      {
        var payload := buffer[nextSeq.value].0;
        ghost var before := State();
        DrainedUnfolds(before);
        HandKeepsIndexes(arrivals, seqHeap, held, nextSeq.value, latest);
        PayloadsOfOneMore(sent, (nextSeq.value, payload));
        Reassociate(sent, [(nextSeq.value, payload)], Drained(Handed(before)).1);
        out, sent := out + [payload], sent + [(nextSeq.value, payload)];
        buffer, held := buffer - {nextSeq.value}, held - {nextSeq.value};
        nextSeq := Some(nextSeq.value + 1);
        stats := stats.(delivered := stats.delivered + 1, deliveredBytes := stats.deliveredBytes + |payload|);
        assert State() == Handed(before);
      }
      DrainedUnfolds(State());
      Reassociate(sent, [], []);
    }

    method ForceSkip()
      requires Valid() && originCommitted
      modifies this`nextSeq, this`arrivals, this`seqHeap, this`stats
      ensures Valid()
      ensures State() == if old(held).Keys == {} then old(State()) else Skipped(old(State()))
    {
      hide Indexes, Lowest, Drained;
      if nextSeq.None? || buffer.Keys == {} {
        return;
      }
      var oldest, lowest := Sweep();
      IndexesOutlast(arrivals, seqHeap, held, nextSeq, true, latest, lowest, true, latest);
      var gap := if lowest.value > nextSeq.value then lowest.value - nextSeq.value else 0;
      stats := stats.(gapsAbandoned := stats.gapsAbandoned + 1, lostEstimate := stats.lostEstimate + gap);
      nextSeq := Some(lowest.value);
    }

    /** Put a frame into the buffer and into both indexes. */
    method Insert(f: Frame, arrived: real)
      requires Valid() && latest <= arrived && nextSeq.Some? && nextSeq.value <= f.sequence
      modifies this`buffer, this`arrivals, this`seqHeap, this`held, this`latest
      ensures Valid() && latest == arrived
      ensures held == Buffered(old(held), f.sequence, f.payload, arrived)
    {
      hide Indexes, HeapPush;
      InsertKeepsIndexes(arrivals, seqHeap, held, nextSeq, originCommitted, latest, f, arrived);
      buffer := buffer[f.sequence := (f.payload, arrived)];
      arrivals := arrivals + [(f.sequence, arrived)];
      seqHeap := HeapPush(seqHeap, f.sequence);
      held, latest := Buffered(held, f.sequence, f.payload, arrived), arrived;
    }

    method Settle() returns (out: seq<seq<Byte>>)
      requires Valid() && originCommitted && nextSeq.Some? && held.Keys != {}
      modifies this`nextSeq, this`buffer, this`arrivals, this`seqHeap, this`stats, this`held
      ensures Valid()
      ensures State() == Settled(config, old(State())).0 && out == Payloads(Settled(config, old(State())).1)
    {
      hide Indexes, Lowest, Drained;
      assert |buffer.Keys| == |held.Keys|;
      if |buffer| > config.maxBuffered {
        ForceSkip();
      }
      out := Drain();
    }

    /** Start the stream at the lowest sequence seen. */
    method Commit(lowest: Option<int>)
      requires Valid() && !originCommitted && held.Keys != {} && lowest == Some(Lowest(held.Keys))
      modifies this`nextSeq, this`originCommitted
      ensures Valid() && State() == Committed(old(State()))
      ensures originCommitted && nextSeq == lowest
    {
      hide Indexes, Lowest;
      IndexesOutlast(arrivals, seqHeap, held, nextSeq, false, latest, lowest, true, latest);
      originCommitted, nextSeq := true, lowest;
    }

    /** Aim the stream at a sequence at or before all that waits, while its origin is open. */
    method Aim(sequence: int)
      requires Valid() && !originCommitted && (nextSeq.Some? ==> sequence <= nextSeq.value)
      modifies this`nextSeq
      ensures Valid() && nextSeq == Some(sequence)
    {
      hide Indexes;
      IndexesOutlast(arrivals, seqHeap, held, nextSeq, false, latest, Some(sequence), false, latest);
      nextSeq := Some(sequence);
    }

    /** Hold everything until the origin is settled. */
    method Resolve(t2: real) returns (out: seq<seq<Byte>>)
      requires Valid() && nextSeq.Some? && held.Keys != {}
      modifies this`nextSeq, this`originCommitted, this`buffer, this`arrivals, this`seqHeap, this`stats, this`held
      ensures Valid()
      ensures State() == Resolved(config, old(State()), t2).0 && out == Payloads(Resolved(config, old(State()), t2).1)
    {
      hide Indexes, Lowest, Settled;
      if !originCommitted {
        if t2 < originDeadline {
          return [];
        }
        var oldest, lowest := Sweep();
        Commit(lowest);
      }
      out := Settle();
    }

    /** Does what the plain form does, given a clock that never runs backwards. */
    method Push(f: Frame, t0: real, t1: real, t2: real) returns (out: seq<seq<Byte>>)
      requires Valid() && latest <= t0 <= t1 <= t2
      modifies this
      ensures Valid() && latest <= t2
      ensures State() == Pushed(config, old(State()), f, t0, t1, t2).0
      ensures out == Payloads(Pushed(config, old(State()), f, t0, t1, t2).1)
    {
      hide Indexes, Remembered, Resolved;
      ghost var was := State();
      if f.keepalive {
        return [];
      }
      var isNew := Remember(f.sequence);
      if !isNew {
        stats := stats.(duplicatesDropped := stats.duplicatesDropped + 1);
        return [];
      }
      if nextSeq.None? {
        originDeadline := t0 + config.originGrace;
        Aim(f.sequence);
      } else if f.sequence < nextSeq.value {
        if originCommitted {
          stats := stats.(tooLateDropped := stats.tooLateDropped + 1);
          return [];
        }
        Aim(f.sequence);
      }
      Insert(f, t1);
      assert State() == Placed(config, was, f, t0, t1);
      out := Resolve(t2);
    }

    /** Does what the plain form does, and leaves nothing in the indexes of an empty buffer. */
    method Tick(now: real) returns (out: seq<seq<Byte>>)
      requires Valid() && latest <= now
      modifies this
      ensures Valid() && latest <= now
      ensures State() == Ticked(config, old(State()), now).0
      ensures out == Payloads(Ticked(config, old(State()), now).1)
      ensures old(held).Keys == {} ==> arrivals == [] && seqHeap == []
    {
      hide Indexes, Lowest, Drained, Skipped, Committed;
      var oldest, lowest := Sweep();
      if nextSeq.None? || buffer.Keys == {} {
        return [];
      }
      if !originCommitted {
        if now < originDeadline {
          return [];
        }
        Commit(lowest);
        out := Drain();
        return;
      }
      if oldest.None? || now - oldest.value < config.reorderDeadline {
        return [];
      }
      ForceSkip();
      out := Drain();
    }

    method ResetStream()
      requires Valid()
      modifies this
      ensures Valid() && State() == ResetTo(old(State())) && latest == old(latest)
    {
      hide Indexes;
      NothingIsIndexed(latest);
      buffer, seen, arrivals, seqHeap, held := map[], [], [], [], map[];
      nextSeq, originCommitted, originDeadline := None, false, 0.0;
      stats := stats.(streamRestarts := stats.streamRestarts + 1);
    }
  }

  // ---------------------------------------------------------------- whole runs

  datatype Event =
    | Arrive(frame: Frame, t0: real, t1: real, t2: real)
    | Pass(now: real)
    | Restart

  /** A stream, and what happened since its last restart. */
  datatype History = History(stream: Stream, sent: seq<Sent>, arrived: set<Sent>, lostBefore: nat)

  ghost function Stepped(c: Config, h: History, e: Event): History {
    match e
    case Arrive(f, t0, t1, t2) =>
      var r := Pushed(c, h.stream, f, t0, t1, t2);
      History(r.0, h.sent + r.1, if f.keepalive then h.arrived else h.arrived + {(f.sequence, f.payload)}, h.lostBefore)
    case Pass(now) =>
      var r := Ticked(c, h.stream, now);
      h.(stream := r.0, sent := h.sent + r.1)
    case Restart =>
      History(ResetTo(h.stream), [], {}, h.stream.stats.lostEstimate)
  }

  ghost function After(c: Config, events: seq<Event>): History {
    if events == [] then History(FRESH, [], {}, 0)
    else Stepped(c, After(c, events[..|events| - 1]), events[|events| - 1])
  }

  /** Sequences given up as lost since the last restart. */
  function Lost(h: History): int {
    h.stream.stats.lostEstimate - h.lostBefore
  }

  ghost predicate InOrder(sent: seq<Sent>) {
    forall i, j | 0 <= i < j < |sent| :: sent[i].0 < sent[j].0
  }

  ghost predicate BehindAndReal(sent: seq<Sent>, next: int, arrived: set<Sent>) {
    forall i | 0 <= i < |sent| :: sent[i].0 < next && sent[i] in arrived
  }

  ghost predicate WaitingIsReal(buffer: map<int, Held>, next: int, arrived: set<Sent>) {
    forall n | n in buffer :: next <= n && (n, buffer[n].payload) in arrived
  }

  ghost predicate AheadWaits(buffer: map<int, Held>, next: int, arrived: set<Sent>) {
    forall p | p in arrived && next <= p.0 :: p.0 in buffer
  }

  ghost predicate SeenWaits(seen: seq<int>, next: int, buffer: map<int, Held>) {
    forall i | 0 <= i < |seen| && next <= seen[i] :: seen[i] in buffer
  }

  ghost predicate NothingLeft(h: History) {
    && (forall p | p in h.arrived :: p.0 in h.stream.buffer)
    && (forall i | 0 <= i < |h.stream.seen| :: h.stream.seen[i] in h.stream.buffer)
  }

  /** What holds of a stream whose next sequence is known, even halfway through a drain. */
  ghost predicate Kept(h: History) {
    && h.stream.next.Some?
    && InOrder(h.sent) && BehindAndReal(h.sent, h.stream.next.value, h.arrived)
    && WaitingIsReal(h.stream.buffer, h.stream.next.value, h.arrived)
    && AheadWaits(h.stream.buffer, h.stream.next.value, h.arrived)
    && SeenWaits(h.stream.seen, h.stream.next.value, h.stream.buffer)
    && (h.sent == [] ==> Lost(h) == 0)
    && (h.sent != [] ==> h.stream.next.value == h.sent[0].0 + |h.sent| + Lost(h))
  }

  /** What holds between events. */
  ghost predicate Sound(h: History) {
    if h.stream.next.None? then !h.stream.committed && h.stream.buffer.Keys == {} && h.stream.seen == [] && h.sent == [] && h.arrived == {} && Lost(h) == 0
    else if !h.stream.committed then Kept(h) && h.sent == [] && h.stream.next.value in h.stream.buffer && NothingLeft(h)
    else Kept(h) && h.sent != [] && h.stream.next.value !in h.stream.buffer
  }

  ghost function HandedUp(h: History): History
    requires Ready(h.stream)
  {
    h.(stream := Handed(h.stream), sent := h.sent + [(h.stream.next.value, h.stream.buffer[h.stream.next.value].payload)])
  }

  lemma HandKeeps(h: History)
    requires Kept(h) && Ready(h.stream)
    ensures Kept(HandedUp(h))
  {
    var after := HandedUp(h);
    assert after.stream.buffer.Keys == h.stream.buffer.Keys - {h.stream.next.value};
  }

  ghost function DrainedUp(h: History): History {
    h.(stream := Drained(h.stream).0, sent := h.sent + Drained(h.stream).1)
  }

  lemma {:induction false} DrainKeeps(h: History)
    requires Kept(h)
    ensures Kept(DrainedUp(h)) && !Ready(DrainedUp(h).stream) && DrainedUp(h).stream.committed == h.stream.committed
    ensures h.sent != [] || Ready(h.stream) ==> DrainedUp(h).sent != []
    decreases h.stream.buffer.Keys
  {
    hide Kept, Drained;
    DrainedUnfolds(h.stream);
    if Ready(h.stream) {
      HandKeeps(h);
      assert HandedUp(h).stream.buffer.Keys == h.stream.buffer.Keys - {h.stream.next.value};
      DrainKeeps(HandedUp(h));
      Reassociate(h.sent, [(h.stream.next.value, h.stream.buffer[h.stream.next.value].payload)], Drained(Handed(h.stream)).1);
      assert DrainedUp(h) == DrainedUp(HandedUp(h));
    } else {
      Reassociate(h.sent, [], []);
      assert DrainedUp(h) == h;
    }
  }

  lemma SkipKeeps(h: History)
    requires Kept(h) && h.stream.buffer.Keys != {} && (h.sent == [] ==> Ready(h.stream))
    ensures Kept(h.(stream := Skipped(h.stream))) && Ready(Skipped(h.stream)) && Skipped(h.stream).committed == h.stream.committed
  {
  }

  lemma KeptHasNext(h: History)
    requires Kept(h)
    ensures h.stream.next.Some?
  {
  }

  lemma SettleKeeps(c: Config, h: History)
    requires h.stream.next.Some? && Kept(h) && h.stream.committed && h.stream.buffer.Keys != {} && (h.sent == [] ==> Ready(h.stream))
    ensures Sound(h.(stream := Settled(c, h.stream).0, sent := h.sent + Settled(c, h.stream).1))
  {
    hide Kept, Skipped, Drained;
    if |h.stream.buffer| > c.maxBuffered {
      SkipKeeps(h);
      DrainKeeps(h.(stream := Skipped(h.stream)));
    } else {
      DrainKeeps(h);
    }
    KeptHasNext(h.(stream := Settled(c, h.stream).0, sent := h.sent + Settled(c, h.stream).1));
  }

  /** A frame put into the buffer. */
  lemma PlaceKeeps(c: Config, h: History, f: Frame, t0: real, t1: real)
    requires Sound(h) && !f.keepalive && f.sequence !in h.stream.seen && !TooLate(h.stream, f.sequence)
    ensures Kept(PlacedIn(c, h, f, t0, t1))
    ensures !h.stream.committed ==> NothingLeft(PlacedIn(c, h, f, t0, t1)) && Ready(PlacedIn(c, h, f, t0, t1).stream)
  {
    var after := PlacedIn(c, h, f, t0, t1);
    RememberedIs(h.stream.seen, f.sequence, c.dedupeWindow);
    assert after.stream.buffer.Keys == h.stream.buffer.Keys + {f.sequence};
  }

  lemma RememberedIs(seen: seq<int>, sequence: int, window: nat)
    ensures forall i | 0 <= i < |Remembered(seen, sequence, window)| ::
      Remembered(seen, sequence, window)[i] == sequence || Remembered(seen, sequence, window)[i] in seen
  {
  }

  ghost function PlacedIn(c: Config, h: History, f: Frame, t0: real, t1: real): History {
    h.(stream := Placed(c, h.stream, f, t0, t1), arrived := h.arrived + {(f.sequence, f.payload)})
  }

  lemma CommitKeeps(h: History)
    requires Kept(h) && Ready(h.stream) && NothingLeft(h)
    ensures Committed(h.stream) == h.stream.(committed := true)
  {
  }

  /** A frame that is not taken: a duplicate, or one the stream has passed. */
  lemma DropKeeps(c: Config, h: History, f: Frame, after: Stream)
    requires Sound(h) && (f.sequence in h.stream.seen || TooLate(h.stream, f.sequence))
    requires after.seen == h.stream.seen || (TooLate(h.stream, f.sequence) && after.seen == Remembered(h.stream.seen, f.sequence, c.dedupeWindow))
    requires after == h.stream.(seen := after.seen, stats := after.stats) && after.stats.lostEstimate == h.stream.stats.lostEstimate
    ensures Sound(h.(stream := after, arrived := h.arrived + {(f.sequence, f.payload)}))
  {
    hide Remembered;
    RememberedIs(h.stream.seen, f.sequence, c.dedupeWindow);
  }

  lemma ResolveKeeps(c: Config, h: History, t2: real)
    requires Kept(h) && h.stream.next.Some? && h.stream.buffer.Keys != {}
    requires if h.stream.committed then h.sent != [] else h.sent == [] && NothingLeft(h) && Ready(h.stream)
    ensures Sound(h.(stream := Resolved(c, h.stream, t2).0, sent := h.sent + Resolved(c, h.stream, t2).1))
  {
    hide Settled;
    Reassociate(h.sent, [], []);
    if h.stream.committed {
      SettleKeeps(c, h);
    } else if t2 >= h.stream.originDeadline {
      CommitKeeps(h);
      SettleKeeps(c, h.(stream := Committed(h.stream)));
    }
  }

  lemma ArrivalKeeps(c: Config, h: History, f: Frame, t0: real, t1: real, t2: real)
    requires Sound(h)
    ensures Sound(Stepped(c, h, Arrive(f, t0, t1, t2)))
  {
    hide Sound, Kept, Resolved, Remembered, NothingLeft;
    Reassociate(h.sent, [], []);
    if f.keepalive {
      assert Stepped(c, h, Arrive(f, t0, t1, t2)) == h;
    } else if f.sequence in h.stream.seen || TooLate(h.stream, f.sequence) {
      DropKeeps(c, h, f, Pushed(c, h.stream, f, t0, t1, t2).0);
    } else {
      PlaceKeeps(c, h, f, t0, t1);
      SoundSent(h);
      ResolveKeeps(c, PlacedIn(c, h, f, t0, t1), t2);
    }
  }

  lemma SoundSent(h: History)
    requires Sound(h)
    ensures h.stream.committed <==> h.sent != []
  {
  }

  lemma PassKeeps(c: Config, h: History, now: real)
    requires Sound(h)
    ensures Sound(Stepped(c, h, Pass(now)))
  {
    hide Drained, Skipped, Overdue;
    Reassociate(h.sent, [], []);
    var s := h.stream;
    if s.next.None? || s.buffer.Keys == {} || (!s.committed && now < s.originDeadline) || (s.committed && !Overdue(c, s, now)) {
      assert Stepped(c, h, Pass(now)) == h;
    } else if !s.committed {
      CommitKeeps(h);
      DrainedIsSound(h.(stream := Committed(s)));
    } else {
      SkipKeeps(h);
      DrainedIsSound(h.(stream := Skipped(s)));
    }
  }

  lemma DrainedIsSound(h: History)
    requires Kept(h) && Ready(h.stream) && h.stream.committed
    ensures Sound(DrainedUp(h))
  {
    hide Drained;
    DrainKeeps(h);
  }

  /** Every state any run of arrivals, ticks and restarts reaches, at any clock readings. */
  lemma {:induction false} EveryRunIsSound(c: Config, events: seq<Event>)
    ensures Sound(After(c, events))
  {
    hide Sound;
    if events == [] {
      FreshIsSound(FRESH.stats);
    } else {
      var before := After(c, events[..|events| - 1]);
      EveryRunIsSound(c, events[..|events| - 1]);
      match events[|events| - 1]
      case Arrive(f, t0, t1, t2) => ArrivalKeeps(c, before, f, t0, t1, t2);
      case Pass(now) => PassKeeps(c, before, now);
      case Restart => FreshIsSound(ResetTo(before.stream).stats);
    }
  }

  lemma FreshIsSound(stats: Stats)
    ensures Sound(History(FRESH.(stats := stats), [], {}, stats.lostEstimate))
  {
  }

  // ---------------------------------------------------------------- what a run guarantees

  /** Payloads go up in strictly increasing order, so none twice, and each as it arrived since the last restart. */
  lemma HandsUpInOrderOnce(c: Config, events: seq<Event>)
    ensures InOrder(After(c, events).sent)
    ensures forall i | 0 <= i < |After(c, events).sent| :: After(c, events).sent[i] in After(c, events).arrived
  {
    hide After;
    EveryRunIsSound(c, events);
  }

  function Between(low: int, high: int): (r: set<int>)
    ensures forall n :: n in r <==> low <= n < high
    ensures |r| == if low <= high then high - low else 0
    decreases high - low
  {
    if low >= high then {} else Between(low, high - 1) + {high - 1}
  }

  function Numbers(sent: seq<Sent>): set<int> {
    set i | 0 <= i < |sent| :: sent[i].0
  }

  lemma NumbersGrow(sent: seq<Sent>, one: Sent)
    ensures Numbers(sent + [one]) == Numbers(sent) + {one.0}
  {
    var all := sent + [one];
    forall n | n in Numbers(all) ensures n in Numbers(sent) + {one.0} {
      var i :| 0 <= i < |all| && all[i].0 == n;
      assert i < |sent| ==> sent[i].0 == n;
    }
    forall n | n in Numbers(sent) ensures n in Numbers(all) {
      var i :| 0 <= i < |sent| && sent[i].0 == n;
      assert all[i].0 == n;
    }
    assert all[|sent|].0 in Numbers(all);
  }

  lemma {:induction false} NumbersAreDistinct(sent: seq<Sent>)
    requires InOrder(sent)
    ensures |Numbers(sent)| == |sent|
  {
    if sent == [] {
      assert Numbers(sent) == {};
    } else {
      var front, last := sent[..|sent| - 1], sent[|sent| - 1];
      NumbersAreDistinct(front);
      NumbersGrow(front, last);
      assert sent == front + [last];
      assert last.0 !in Numbers(front);
    }
  }

  lemma SizeOfTheRest(all: set<int>, some: set<int>)
    requires some <= all
    ensures |all - some| == |all| - |some|
  {
  }

  /** The sequences skipped over since the first one handed up, neither handed up nor ever to be. */
  function Missing(h: History): set<int>
    requires h.sent != [] && h.stream.next.Some?
  {
    Between(h.sent[0].0, h.stream.next.value) - Numbers(h.sent)
  }

  /** What the loss counter has grown by since the last restart is exactly how many sequences were skipped. */
  lemma LossIsCountedExactly(c: Config, events: seq<Event>)
    requires After(c, events).stream.committed
    ensures After(c, events).sent != [] && After(c, events).stream.next.Some?
    ensures |Missing(After(c, events))| == Lost(After(c, events))
  {
    EveryRunIsSound(c, events);
    var h := After(c, events);
    hide After;
    NumbersAreDistinct(h.sent);
    var first, next := h.sent[0].0, h.stream.next.value;
    forall n | n in Numbers(h.sent) ensures n in Between(first, next) {
      var i :| 0 <= i < |h.sent| && h.sent[i].0 == n;
    }
    SizeOfTheRest(Between(first, next), Numbers(h.sent));
  }

  /** With nothing given up, what went up is the unbroken run of arrivals from the first, in whatever order they came. */
  lemma OrderIsRestored(c: Config, events: seq<Event>)
    requires After(c, events).stream.committed && Lost(After(c, events)) == 0
    ensures var h := After(c, events);
      && h.sent != []
      && (forall i | 0 <= i < |h.sent| :: h.sent[i].0 == h.sent[0].0 + i)
      && forall p | p in h.arrived :: p.0 != h.sent[0].0 + |h.sent|
  {
    EveryRunIsSound(c, events);
    var h := After(c, events);
    hide After;
    forall i | 0 <= i < |h.sent| ensures h.sent[i].0 == h.sent[0].0 + i {
      ClimbsByOne(h.sent, 0, i);
      ClimbsByOne(h.sent, i, |h.sent| - 1);
    }
  }

  lemma {:induction false} ClimbsByOne(sent: seq<Sent>, i: nat, j: nat)
    requires InOrder(sent) && i <= j < |sent|
    ensures sent[i].0 + (j - i) <= sent[j].0
    decreases j - i
  {
    if i < j {
      ClimbsByOne(sent, i, j - 1);
    }
  }

  /** A tick frees a stream exactly when its lowest payload has no reason left to wait, and frees that one first. */
  lemma TickReleasesExactly(c: Config, events: seq<Event>, now: real)
    ensures var s := After(c, events).stream;
      var due := && s.buffer.Keys != {}
                 && if s.committed then exists n | n in s.buffer :: now - s.buffer[n].since >= c.reorderDeadline
                    else now >= s.originDeadline;
      && (Ticked(c, s, now).1 != [] <==> due)
      && (due ==> Ticked(c, s, now).1[0].0 == Lowest(s.buffer.Keys))
  {
    EveryRunIsSound(c, events);
    var s := After(c, events).stream;
    hide After;
    if s.buffer.Keys != {} {
      DrainedUnfolds(Committed(s));
      DrainedUnfolds(Skipped(s));
    }
  }

  ghost predicate ClockRuns(events: seq<Event>) {
    forall i | 0 <= i < |events| && events[i].Arrive? :: events[i].t0 <= events[i].t1 <= events[i].t2
  }

  /** Frames the counters and the buffer can answer for. */
  function Accounted(s: Stream): int {
    s.stats.delivered + s.stats.duplicatesDropped + s.stats.tooLateDropped + |s.buffer|
  }

  function Volume(sent: seq<Sent>): nat {
    if sent == [] then 0 else |sent[0].1| + Volume(sent[1..])
  }

  /** The counters of what went up: how many payloads, and how many bytes. */
  ghost predicate CountedUp(before: Stats, after: Stats, sent: seq<Sent>) {
    after.delivered == before.delivered + |sent| && after.deliveredBytes == before.deliveredBytes + Volume(sent)
  }

  lemma HandingUpIs(s: Stream)
    ensures Ready(s) ==> |Handed(s).buffer| == |s.buffer| - 1 && Handed(s).buffer.Keys == s.buffer.Keys - {s.next.value}
  {
    if Ready(s) {
      assert Handed(s).buffer.Keys == s.buffer.Keys - {s.next.value};
      assert |s.buffer| == |s.buffer.Keys| && |Handed(s).buffer| == |Handed(s).buffer.Keys|;
    }
  }

  /** What a drain moves: payloads from the buffer up, one count and its bytes for each, and nothing else. */
  ghost predicate Moves(s: Stream, after: Stream, sent: seq<Sent>) {
    && |after.buffer| + |sent| == |s.buffer| && after.committed == s.committed
    && Accounted(after) == Accounted(s) && CountedUp(s.stats, after.stats, sent)
  }

  lemma {:induction false} DrainedMoves(s: Stream)
    ensures Moves(s, Drained(s).0, Drained(s).1)
    ensures Ready(s) ==> Drained(s).1 != []
    decreases s.buffer.Keys
  {
    DrainedUnfolds(s);
    hide Drained;
    if Ready(s) {
      HandingUpIs(s);
      DrainedMoves(Handed(s));
      assert Drained(s).1[1..] == Drained(Handed(s)).1;
    }
  }

  /** A settled stream never holds more than the cap, or than it already held. */
  lemma SettledIsBounded(c: Config, s: Stream)
    requires s.next.Some? && s.buffer.Keys != {}
    ensures |Settled(c, s).0.buffer| <= if |s.buffer| <= c.maxBuffered then c.maxBuffered else |s.buffer| - 1
  {
    hide Drained;
    DrainedMoves(s);
    DrainedMoves(Skipped(s));
  }

  lemma SettledMoves(c: Config, s: Stream)
    requires s.next.Some? && s.buffer.Keys != {}
    ensures Moves(s, Settled(c, s).0, Settled(c, s).1)
  {
    hide Drained;
    DrainedMoves(s);
    DrainedMoves(Skipped(s));
  }

  lemma BufferedGrowsByOne(buffer: map<int, Held>, sequence: int, payload: seq<Byte>, now: real)
    ensures |Buffered(buffer, sequence, payload, now)| == |buffer| + if sequence in buffer then 0 else 1
  {
    var after := Buffered(buffer, sequence, payload, now);
    assert after.Keys == buffer.Keys + {sequence};
    assert |after| == |after.Keys| && |buffer| == |buffer.Keys|;
  }

  /** With no grace, the origin is settled by the first payload, and the buffer stays within its cap. */
  ghost predicate Bounded(c: Config, s: Stream) {
    |s.buffer| <= c.maxBuffered && (s.next.Some? ==> s.committed)
  }

  lemma PushStaysBounded(c: Config, s: Stream, f: Frame, t0: real, t1: real, t2: real)
    requires c.originGrace <= 0.0 && t0 <= t2 && Bounded(c, s)
    ensures Bounded(c, Pushed(c, s, f, t0, t1, t2).0)
  {
    hide Settled, Remembered, Buffered;
    if !f.keepalive && f.sequence !in s.seen && !TooLate(s, f.sequence) {
      var placed := Placed(c, s, f, t0, t1);
      BufferedGrowsByOne(s.buffer, f.sequence, f.payload, t1);
      SettledIsBounded(c, placed);
      SettledIsBounded(c, Committed(placed));
      SettledMoves(c, placed);
      SettledMoves(c, Committed(placed));
    }
  }

  lemma TickStaysBounded(c: Config, s: Stream, now: real)
    requires Bounded(c, s)
    ensures Bounded(c, Ticked(c, s, now).0)
  {
    hide Drained, Overdue;
    if s.next.Some? && s.buffer.Keys != {} {
      DrainedMoves(Skipped(s));
    }
  }

  lemma {:induction false} RunsStayBounded(c: Config, events: seq<Event>)
    requires c.originGrace <= 0.0 && ClockRuns(events)
    ensures Bounded(c, After(c, events).stream)
  {
    hide Bounded, Pushed, Ticked;
    if events == [] {
      EmptyIsBounded(c, FRESH);
    } else {
      var before := After(c, events[..|events| - 1]);
      RunsStayBounded(c, events[..|events| - 1]);
      match events[|events| - 1]
      case Arrive(f, t0, t1, t2) => PushStaysBounded(c, before.stream, f, t0, t1, t2);
      case Pass(now) => TickStaysBounded(c, before.stream, now);
      case Restart => EmptyIsBounded(c, ResetTo(before.stream));
    }
  }

  lemma EmptyIsBounded(c: Config, s: Stream)
    requires s.buffer == map[] && s.next.None?
    ensures Bounded(c, s)
  {
  }

  /** So many frames, all at time zero. */
  function Burst(n: nat): (r: seq<Event>)
    ensures |r| == n && ClockRuns(r)
  {
    if n == 0 then [] else Burst(n - 1) + [Arrive(Frame(false, n - 1, []), 0.0, 0.0, 0.0)]
  }

  function CountUp(first: int, n: nat): (r: seq<int>)
    ensures |r| == n
  {
    seq(n, i => first + i)
  }

  function Newest(s: seq<int>, window: nat): seq<int> {
    if |s| <= window then s else s[|s| - window..]
  }

  /** The duplicate window holds the newest of everything put into it. */
  lemma NewestIsRemembered(s: seq<int>, sequence: int, window: nat)
    ensures Remembered(Newest(s, window), sequence, window) == Newest(s + [sequence], window)
    ensures forall n | n in Newest(s, window) :: n in s
  {
  }

  lemma CountOneMore(first: int, n: nat)
    ensures CountUp(first, n) + [first + n] == CountUp(first, n + 1)
    ensures forall k :: k in CountUp(first, n) <==> first <= k < first + n
  {
    var all := CountUp(first, n);
    forall k | first <= k < first + n ensures k in all {
      assert all[k - first] == k;
    }
  }

  /** The state after `n` frames at time zero inside a grace: all of them wait. */
  ghost predicate AllHeld(c: Config, s: Stream, n: nat) {
    && |s.buffer| == n && !s.committed
    && (forall k :: k in s.buffer <==> 0 <= k < n)
    && s.seen == Newest(CountUp(0, n), c.dedupeWindow)
    && (if n == 0 then s.next.None? else s.next == Some(0) && s.originDeadline == c.originGrace)
  }

  lemma OneMoreHeld(c: Config, s: Stream, n: nat)
    requires c.originGrace > 0.0 && AllHeld(c, s, n)
    ensures AllHeld(c, Pushed(c, s, Frame(false, n, []), 0.0, 0.0, 0.0).0, n + 1)
  {
    hide Remembered, Settled, Buffered, Committed;
    var f := Frame(false, n, []);
    CountOneMore(0, n);
    NewestIsRemembered(CountUp(0, n), n, c.dedupeWindow);
    hide Newest, CountUp;
    BufferedGrowsByOne(s.buffer, n, [], 0.0);
    assert Pushed(c, s, f, 0.0, 0.0, 0.0).0 == Placed(c, s, f, 0.0, 0.0);
  }

  lemma AfterOneMore(c: Config, events: seq<Event>, e: Event)
    ensures After(c, events + [e]) == Stepped(c, After(c, events), e)
  {
    hide Stepped;
    assert (events + [e])[..|events|] == events;
  }

  /** Inside the grace nothing is released, whatever the cap. */
  lemma {:induction false} GraceHoldsEverything(c: Config, n: nat)
    requires c.originGrace > 0.0
    ensures AllHeld(c, After(c, Burst(n)).stream, n)
  {
    hide After, Pushed, AllHeld;
    if n == 0 {
      NoneHeld(c);
    } else {
      GraceHoldsEverything(c, n - 1);
      OneMoreHeld(c, After(c, Burst(n - 1)).stream, n - 1);
      AfterOneMore(c, Burst(n - 1), Arrive(Frame(false, n - 1, []), 0.0, 0.0, 0.0));
    }
  }

  lemma NoneHeld(c: Config)
    ensures AllHeld(c, After(c, []).stream, 0)
  {
  }

  /** The cap on the buffer holds over every run exactly when no grace is configured. */
  lemma CapHoldsExactlyWithoutGrace(c: Config)
    ensures (forall events | ClockRuns(events) :: |After(c, events).stream.buffer| <= c.maxBuffered) <==> c.originGrace <= 0.0
  {
    hide After, Burst;
    if c.originGrace <= 0.0 {
      forall events | ClockRuns(events) ensures |After(c, events).stream.buffer| <= c.maxBuffered {
        RunsStayBounded(c, events);
      }
    } else {
      GraceHoldsEverything(c, c.maxBuffered + 1);
    }
  }

  /** Across a whole arrival at a settled stream the buffer stays within the cap, or grows no further. */
  lemma ArrivalIsBounded(c: Config, s: Stream, f: Frame, t0: real, t1: real, t2: real)
    requires s.committed && s.next.Some?
    ensures |Pushed(c, s, f, t0, t1, t2).0.buffer| <= if |s.buffer| <= c.maxBuffered then c.maxBuffered else |s.buffer|
  {
    hide Settled, Remembered, Buffered;
    if !f.keepalive && f.sequence !in s.seen && !TooLate(s, f.sequence) {
      BufferedGrowsByOne(s.buffer, f.sequence, f.payload, t1);
      SettledIsBounded(c, Placed(c, s, f, t0, t1));
    }
  }

  /** Every payload frame is delivered, waiting or counted as dropped, except one whose waiting copy was forgotten. */
  lemma EveryFrameIsAccountedFor(c: Config, s: Stream, f: Frame, t0: real, t1: real, t2: real)
    ensures Accounted(Pushed(c, s, f, t0, t1, t2).0) - Accounted(s)
      == if f.keepalive || (f.sequence in s.buffer && f.sequence !in s.seen && !TooLate(s, f.sequence)) then 0 else 1
  {
    hide Settled, Remembered, Buffered;
    if !f.keepalive && f.sequence !in s.seen && !TooLate(s, f.sequence) {
      var placed := Placed(c, s, f, t0, t1);
      BufferedGrowsByOne(s.buffer, f.sequence, f.payload, t1);
      SettledMoves(c, placed);
      SettledMoves(c, Committed(placed));
    }
  }

  // ---------------------------------------------------------------- the forgotten copy

  /** A payload that waits, whose sequence has fallen out of the duplicate window. */
  ghost predicate Forgotten(s: Stream, n: int) {
    n in s.buffer && n !in s.seen && !TooLate(s, n)
  }

  /** Frame w + 1 is handed up, w + 3 waits, and so many distinct late frames have come. */
  ghost predicate LateComing(c: Config, s: Stream, late: nat) {
    var w := c.dedupeWindow;
    && s.committed && s.next == Some(w + 2) && s.buffer.Keys == {w + 3}
    && s.seen == Newest([w + 1, w + 3] + CountUp(1, late), w)
  }

  function Past(c: Config): real {
    if c.originGrace > 0.0 then c.originGrace else 0.0
  }

  function LateRun(c: Config, late: nat): (r: seq<Event>)
    ensures ClockRuns(r)
  {
    if late == 0 then
      [Arrive(Frame(false, c.dedupeWindow + 1, []), 0.0, 0.0, Past(c)), Arrive(Frame(false, c.dedupeWindow + 3, []), 0.0, 0.0, 0.0)]
    else LateRun(c, late - 1) + [Arrive(Frame(false, late, []), 0.0, 0.0, 0.0)]
  }

  lemma FirstIsHandedUp(c: Config)
    requires c.maxBuffered >= 1
    ensures var n := c.dedupeWindow + 1;
      var s := Pushed(c, FRESH, Frame(false, n, []), 0.0, 0.0, Past(c)).0;
      s.committed && s.next == Some(n + 1) && s.buffer.Keys == {} && s.seen == Newest([n], c.dedupeWindow)
  {
    var n := c.dedupeWindow + 1;
    var placed := Placed(c, FRESH, Frame(false, n, []), 0.0, 0.0);
    assert placed.buffer.Keys == {n} && |placed.buffer| == 1;
    DrainedUnfolds(Committed(placed));
    DrainedUnfolds(Handed(Committed(placed)));
  }

  lemma NextWaits(c: Config, s: Stream)
    requires c.maxBuffered >= 1 && s.committed && s.next == Some(c.dedupeWindow + 2) && s.buffer.Keys == {}
    requires s.seen == Newest([c.dedupeWindow + 1], c.dedupeWindow)
    ensures LateComing(c, Pushed(c, s, Frame(false, c.dedupeWindow + 3, []), 0.0, 0.0, 0.0).0, 0)
  {
    hide Pushed, Newest, CountUp, Remembered, Buffered;
    NextIsRemembered(c.dedupeWindow);
    WaitsAlone(c, s, c.dedupeWindow + 3);
  }

  lemma NextIsRemembered(w: nat)
    ensures w + 3 !in Newest([w + 1], w)
    ensures Remembered(Newest([w + 1], w), w + 3, w) == Newest([w + 1, w + 3] + CountUp(1, 0), w)
  {
    assert [w + 1, w + 3] + CountUp(1, 0) == [w + 1] + [w + 3];
    NewestIsRemembered([w + 1], w + 3, w);
  }

  /** A payload ahead of an empty buffer waits in it. */
  lemma WaitsAlone(c: Config, s: Stream, n: int)
    requires c.maxBuffered >= 1 && s.committed && s.next.Some? && s.next.value < n && s.buffer.Keys == {} && n !in s.seen
    ensures var after := Pushed(c, s, Frame(false, n, []), 0.0, 0.0, 0.0).0;
      after.committed && after.next == s.next && after.buffer.Keys == {n} && after.seen == Remembered(s.seen, n, c.dedupeWindow)
  {
    hide Remembered, Drained;
    var placed := Placed(c, s, Frame(false, n, []), 0.0, 0.0);
    assert placed.buffer.Keys == {n} && |placed.buffer.Keys| == 1 && |placed.buffer| == |placed.buffer.Keys|;
    DrainedUnfolds(placed);
  }

  lemma OneMoreLate(c: Config, s: Stream, late: nat)
    requires late < c.dedupeWindow && LateComing(c, s, late)
    ensures LateComing(c, Pushed(c, s, Frame(false, late + 1, []), 0.0, 0.0, 0.0).0, late + 1)
  {
    hide Newest, CountUp, Remembered, Resolved;
    LateSeen(c.dedupeWindow, s.seen, late);
  }

  lemma LateSeen(w: nat, seen: seq<int>, late: nat)
    requires late < w && seen == Newest([w + 1, w + 3] + CountUp(1, late), w)
    ensures late + 1 !in seen
    ensures Remembered(seen, late + 1, w) == Newest([w + 1, w + 3] + CountUp(1, late + 1), w)
  {
    hide Newest, CountUp, Remembered;
    var all := [w + 1, w + 3] + CountUp(1, late);
    CountOneMore(1, late);
    NewestIsRemembered(all, late + 1, w);
    Reassociate([w + 1, w + 3], CountUp(1, late), [late + 1]);
    assert late + 1 !in [w + 1, w + 3] && late + 1 !in CountUp(1, late);
  }

  lemma {:induction false} LateRunIs(c: Config, late: nat)
    requires c.maxBuffered >= 1 && late <= c.dedupeWindow
    ensures LateComing(c, After(c, LateRun(c, late)).stream, late)
  {
    hide After, Pushed, LateComing;
    if late == 0 {
      var first := Arrive(Frame(false, c.dedupeWindow + 1, []), 0.0, 0.0, Past(c));
      var second := Arrive(Frame(false, c.dedupeWindow + 3, []), 0.0, 0.0, 0.0);
      NothingYet(c);
      AfterOneMore(c, [], first);
      AfterOneMore(c, [first], second);
      assert [] + [first] == [first] && [first] + [second] == LateRun(c, 0);
      FirstIsHandedUp(c);
      NextWaits(c, After(c, [first]).stream);
    } else {
      LateRunIs(c, late - 1);
      OneMoreLate(c, After(c, LateRun(c, late - 1)).stream, late - 1);
      AfterOneMore(c, LateRun(c, late - 1), Arrive(Frame(false, late, []), 0.0, 0.0, 0.0));
    }
  }

  lemma NothingYet(c: Config)
    ensures After(c, []).stream == FRESH
  {
  }

  lemma LateRunForgets(c: Config, s: Stream)
    requires LateComing(c, s, c.dedupeWindow)
    ensures Forgotten(s, c.dedupeWindow + 3)
  {
    var w := c.dedupeWindow;
    CountOneMore(1, w);
    assert Newest([w + 1, w + 3] + CountUp(1, w), w) == CountUp(1, w);
  }

  lemma GraceForgets(c: Config, s: Stream)
    requires AllHeld(c, s, c.dedupeWindow + 1)
    ensures Forgotten(s, 0)
  {
    var w := c.dedupeWindow;
    CountOneMore(1, w);
    assert Newest(CountUp(0, w + 1), w) == CountUp(1, w);
  }

  /** A WAITING COPY CAN BE FORGOTTEN EXACTLY WHEN ANYTHING CAN WAIT: when the cap leaves room for a payload or a
      grace is configured, whatever the duplicate window. */
  lemma CopyIsForgottenExactly(c: Config)
    ensures (exists events, n | ClockRuns(events) :: Forgotten(After(c, events).stream, n)) <==> c.maxBuffered >= 1 || c.originGrace > 0.0
  {
    hide After, Burst, LateRun, ClockRuns, Forgotten, LateComing, AllHeld;
    if c.originGrace > 0.0 {
      GraceHoldsEverything(c, c.dedupeWindow + 1);
      GraceForgets(c, After(c, Burst(c.dedupeWindow + 1)).stream);
    } else if c.maxBuffered >= 1 {
      LateRunIs(c, c.dedupeWindow);
      LateRunForgets(c, After(c, LateRun(c, c.dedupeWindow)).stream);
    } else {
      forall events, n | ClockRuns(events) ensures !Forgotten(After(c, events).stream, n) {
        RunsStayBounded(c, events);
        NothingWaits(c, After(c, events).stream, n);
      }
    }
  }

  lemma NothingWaits(c: Config, s: Stream, n: int)
    requires Bounded(c, s) && c.maxBuffered == 0
    ensures !Forgotten(s, n)
  {
    assert |s.buffer| == 0;
  }

  lemma TickKeepsAccounts(c: Config, s: Stream, now: real)
    ensures Accounted(Ticked(c, s, now).0) == Accounted(s)
  {
    hide Drained, Overdue;
    if s.next.Some? && s.buffer.Keys != {} {
      DrainedMoves(Committed(s));
      DrainedMoves(Skipped(s));
    }
  }

  /** The delivery counters grow by exactly the payloads and the bytes an arrival hands up. */
  lemma PushCountsUp(c: Config, s: Stream, f: Frame, t0: real, t1: real, t2: real)
    ensures CountedUp(s.stats, Pushed(c, s, f, t0, t1, t2).0.stats, Pushed(c, s, f, t0, t1, t2).1)
  {
    hide Settled, Remembered, Buffered;
    if !f.keepalive && f.sequence !in s.seen && !TooLate(s, f.sequence) {
      SettledMoves(c, Placed(c, s, f, t0, t1));
      SettledMoves(c, Committed(Placed(c, s, f, t0, t1)));
    }
  }

  /** ... and so do they at a tick. */
  lemma TickCountsUp(c: Config, s: Stream, now: real)
    ensures CountedUp(s.stats, Ticked(c, s, now).0.stats, Ticked(c, s, now).1)
  {
    hide Drained, Overdue;
    if s.next.Some? && s.buffer.Keys != {} {
      DrainedMoves(Committed(s));
      DrainedMoves(Skipped(s));
    }
  }
}
