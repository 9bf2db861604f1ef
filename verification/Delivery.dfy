/**
 What the reassembler does with each frame and at each tick, over every run: when it gives a gap up, what
 it hands up and from where, which frames it drops, and when it starts a stream. Nothing here speaks of
 the plain form's own steps: only of what has arrived, when, and what is waiting.
 */
module Delivery {
  import opened ByteStrings
  import opened Sets
  import opened Reassembler

  // ---------------------------------------------------------------- what goes up

  /** The payloads waiting from `start` on, one after another, up to the first that has not arrived. */
  ghost predicate IsUnbroken(sent: seq<Sent>, buffer: map<int, Held>, start: int) {
    && (forall i | 0 <= i < |sent| :: sent[i].0 == start + i && sent[i].0 in buffer && sent[i].1 == buffer[sent[i].0].payload)
    && start + |sent| !in buffer
  }

  /** The counters a drain leaves alone. */
  ghost predicate SameLosses(a: Stats, b: Stats) {
    && a.lostEstimate == b.lostEstimate && a.gapsAbandoned == b.gapsAbandoned && a.streamRestarts == b.streamRestarts
    && a.duplicatesDropped == b.duplicatesDropped && a.tooLateDropped == b.tooLateDropped
  }

  lemma FirstThenRest(first: Sent, rest: seq<Sent>, buffer: map<int, Held>, start: int)
    requires start in buffer && first == (start, buffer[start].payload) && IsUnbroken(rest, buffer - {start}, start + 1)
    ensures IsUnbroken([first] + rest, buffer, start)
  {
    var sent := [first] + rest;
    forall i | 0 <= i < |sent| ensures sent[i].0 == start + i && sent[i].0 in buffer && sent[i].1 == buffer[sent[i].0].payload {
      if i > 0 {
        assert sent[i] == rest[i - 1];
      }
    }
  }

  lemma {:induction false} DrainedIs(s: Stream)
    requires s.next.Some?
    ensures var (t, sent) := Drained(s);
      && IsUnbroken(sent, s.buffer, s.next.value) && t.next == Some(s.next.value + |sent|)
      && (forall n :: n in t.buffer <==> n in s.buffer && !(s.next.value <= n < s.next.value + |sent|))
      && (forall n | n in t.buffer :: t.buffer[n] == s.buffer[n])
      && SameLosses(t.stats, s.stats)
      && t.committed == s.committed && t.seen == s.seen && t.originDeadline == s.originDeadline
    decreases s.buffer.Keys
  {
    hide Drained;
    DrainedUnfolds(s);
    if Ready(s) {
      var first := (s.next.value, s.buffer[s.next.value].payload);
      assert Handed(s).buffer.Keys == s.buffer.Keys - {s.next.value};
      DrainedIs(Handed(s));
      FirstThenRest(first, Drained(Handed(s)).1, s.buffer, s.next.value);
    }
  }

  // ---------------------------------------------------------------- an arrival at a stream under way

  /** Neither a keepalive, nor remembered, nor behind the stream. */
  ghost predicate IsTaken(s: Stream, f: Frame) {
    !f.keepalive && f.sequence !in s.seen && !(s.committed && s.next.Some? && f.sequence < s.next.value)
  }

  /** What waits once the frame does too. */
  function Waiting(s: Stream, f: Frame): set<int> {
    s.buffer.Keys + {f.sequence}
  }

  /** Too much waits, and the next payload is not among it. */
  ghost predicate GapAtArrival(c: Config, s: Stream, f: Frame) {
    && IsTaken(s, f) && s.committed && s.next.Some?
    && |Waiting(s, f)| > c.maxBuffered && f.sequence != s.next.value
  }

  lemma NextIsAwaited(c: Config, events: seq<Event>)
    ensures var s := After(c, events).stream;
      && (s.committed ==> s.next.Some? && s.next.value !in s.buffer && forall n | n in s.buffer :: n > s.next.value)
      && (!s.committed && s.next.Some? ==> s.next.value in s.buffer && forall n | n in s.buffer :: n >= s.next.value)
      && (s.next.None? ==> !s.committed && s.buffer.Keys == {} && s.seen == [])
  {
    hide After;
    EveryRunIsSound(c, events);
  }

  lemma PlacedIs(c: Config, s: Stream, f: Frame, t0: real, t1: real)
    ensures var p := Placed(c, s, f, t0, t1);
      && p.buffer.Keys == Waiting(s, f) && |p.buffer| == |Waiting(s, f)| && p.stats == s.stats && p.committed == s.committed
  {
    assert |Placed(c, s, f, t0, t1).buffer| == |Placed(c, s, f, t0, t1).buffer.Keys|;
  }

  /** WHEN AN ARRIVAL GIVES A GAP UP, over every run: exactly when, with the frame in it, more waits than the cap
      and the next payload is not there. Then the stream jumps to the lowest waiting one, and what it jumps
      over is what is counted as lost. */
  lemma ArrivalGivesUpExactly(c: Config, events: seq<Event>, f: Frame, t0: real, t1: real, t2: real)
    ensures var s := After(c, events).stream;
      var t := Pushed(c, s, f, t0, t1, t2).0;
      && (t.stats.lostEstimate > s.stats.lostEstimate <==> GapAtArrival(c, s, f))
      && t.stats.lostEstimate == s.stats.lostEstimate + if GapAtArrival(c, s, f) then Lowest(Waiting(s, f)) - s.next.value else 0
  {
    hide After, Drained, Remembered, Buffered;
    NextIsAwaited(c, events);
    var s := After(c, events).stream;
    PlacedIs(c, s, f, t0, t1);
    if IsTaken(s, f) {
      var p := Placed(c, s, f, t0, t1);
      DrainedIs(p);
      DrainedIs(Skipped(p));
      DrainedIs(Committed(p));
      DrainedIs(Skipped(Committed(p)));
    }
  }

  /** WHAT AN ARRIVAL HANDS UP at a stream under way: nothing when it is not taken; otherwise the unbroken run
      from the next payload, or from the lowest waiting one when a gap is given up. */
  lemma ArrivalHandsUp(c: Config, events: seq<Event>, f: Frame, t0: real, t1: real, t2: real)
    requires After(c, events).stream.committed
    ensures var s := After(c, events).stream;
      var sent := Pushed(c, s, f, t0, t1, t2).1;
      s.next.Some? &&
      if !IsTaken(s, f) then sent == []
      else IsUnbroken(sent, Buffered(s.buffer, f.sequence, f.payload, t1),
                      if GapAtArrival(c, s, f) then Lowest(Waiting(s, f)) else s.next.value)
  {
    hide After, Drained, Remembered, Buffered;
    NextIsAwaited(c, events);
    var s := After(c, events).stream;
    PlacedIs(c, s, f, t0, t1);
    if IsTaken(s, f) {
      var p := Placed(c, s, f, t0, t1);
      DrainedIs(p);
      DrainedIs(Skipped(p));
    }
  }

  // ---------------------------------------------------------------- when the stream starts

  /** When the first payload since the last restart came in. */
  ghost function StreamBegan(events: seq<Event>): Option<real> {
    if events == [] then None
    else
      var before := StreamBegan(events[..|events| - 1]);
      match events[|events| - 1]
      case Restart => None
      case Pass(_) => before
      case Arrive(f, t0, _, _) => if f.keepalive || before.Some? then before else Some(t0)
  }

  /** When the first payload of this sequence since the last restart was buffered. */
  ghost function FirstCame(events: seq<Event>, n: int): Option<real> {
    if events == [] then None
    else
      var before := FirstCame(events[..|events| - 1], n);
      match events[|events| - 1]
      case Restart => None
      case Pass(_) => before
      case Arrive(f, _, t1, _) => if f.keepalive || before.Some? || f.sequence != n then before else Some(t1)
  }

  /** What has come since the last restart. */
  ghost function Came(events: seq<Event>): set<int> {
    if events == [] then {}
    else
      var before := Came(events[..|events| - 1]);
      match events[|events| - 1]
      case Restart => {}
      case Pass(_) => before
      case Arrive(f, _, _, _) => if f.keepalive then before else before + {f.sequence}
  }

  /** The deadline a stream that has just taken a frame waits for. */
  function Deadline(c: Config, s: Stream, t0: real): real {
    if s.next.None? then t0 + c.originGrace else s.originDeadline
  }

  /** What an arrival leaves waiting, and whether the stream has started. */
  lemma TakenIs(c: Config, s: Stream, f: Frame, t0: real, t1: real, t2: real)
    requires IsTaken(s, f)
    ensures var t := Pushed(c, s, f, t0, t1, t2).0;
      && t.next.Some? && t.originDeadline == Deadline(c, s, t0)
      && (t.committed <==> s.committed || t2 >= Deadline(c, s, t0))
      && (!t.committed ==> t.buffer == Buffered(s.buffer, f.sequence, f.payload, t1))
      && forall n | n in t.buffer :: n in Waiting(s, f) && t.buffer[n] == Buffered(s.buffer, f.sequence, f.payload, t1)[n]
  {
    hide Drained, Remembered, Buffered;
    PlacedIs(c, s, f, t0, t1);
    var p := Placed(c, s, f, t0, t1);
    DrainedIs(p);
    DrainedIs(Skipped(p));
    DrainedIs(Committed(p));
    DrainedIs(Skipped(Committed(p)));
  }

  lemma NotTakenIs(c: Config, s: Stream, f: Frame, t0: real, t1: real, t2: real)
    requires !IsTaken(s, f)
    ensures var (t, sent) := Pushed(c, s, f, t0, t1, t2);
      && t == s.(seen := t.seen, stats := t.stats) && sent == []
      && t.stats.lostEstimate == s.stats.lostEstimate
  {
    hide Remembered, Resolved;
  }

  lemma TickedIs(c: Config, s: Stream, now: real)
    ensures var t := Ticked(c, s, now).0;
      && t.originDeadline == s.originDeadline && (t.next.Some? <==> s.next.Some?) && t.seen == s.seen
      && (!t.committed ==> t == s)
      && forall n | n in t.buffer :: n in s.buffer && t.buffer[n] == s.buffer[n]
  {
    hide Drained, Overdue;
    if s.next.Some? && s.buffer.Keys != {} {
      DrainedIs(Committed(s));
      DrainedIs(Skipped(s));
    }
  }

  lemma AfterUnfolds(c: Config, events: seq<Event>)
    requires events != []
    ensures After(c, events) == Stepped(c, After(c, events[..|events| - 1]), events[|events| - 1])
  {
    hide Stepped;
  }

  lemma {:induction false} CameIsArrived(c: Config, events: seq<Event>, n: int)
    ensures n in Came(events) <==> exists p | p in After(c, events).arrived :: p.0 == n
  {
    hide Pushed, Ticked;
    if events != [] {
      var before := After(c, events[..|events| - 1]);
      CameIsArrived(c, events[..|events| - 1], n);
      match events[|events| - 1]
      case Restart =>
      case Pass(_) =>
      case Arrive(f, _, _, _) =>
        if !f.keepalive && n == f.sequence {
          assert (f.sequence, f.payload) in After(c, events).arrived;
        }
        if p :| p in before.arrived && p.0 == n {
          assert f.keepalive || p in After(c, events).arrived;
        }
    }
  }

  /** What has come is behind the stream or waits; what waits has come. */
  lemma CameWaits(c: Config, events: seq<Event>, n: int)
    ensures var s := After(c, events).stream;
      && (n in s.buffer ==> n in Came(events))
      && (n in Came(events) ==> s.next.Some? && (n in s.buffer || (s.committed && n < s.next.value)))
  {
    CameIsArrived(c, events, n);
    hide After, Came;
    EveryRunIsSound(c, events);
    var h := After(c, events);
    if n in h.stream.buffer {
      assert (n, h.stream.buffer[n].payload) in h.arrived;
    }
    if p :| p in h.arrived && p.0 == n {
      assert h.stream.next.Some?;
    }
  }

  lemma {:induction false} FirstCameExactly(events: seq<Event>, n: int)
    ensures FirstCame(events, n).Some? <==> n in Came(events)
    ensures n in Came(events) ==> StreamBegan(events).Some?
  {
    if events != [] {
      FirstCameExactly(events[..|events| - 1], n);
    }
  }

  lemma {:induction false} NothingCame(events: seq<Event>)
    ensures StreamBegan(events).None? ==> Came(events) == {}
  {
    if events != [] {
      NothingCame(events[..|events| - 1]);
    }
  }

  /** What waits is dated by its first coming, and a stream not yet started by its first payload. */
  ghost predicate IsDated(c: Config, events: seq<Event>) {
    var s := After(c, events).stream;
    && (forall n | n in s.buffer :: FirstCame(events, n) == Some(s.buffer[n].since))
    && (s.next.Some? <==> StreamBegan(events).Some?)
    && (!s.committed && s.next.Some? ==> s.originDeadline == StreamBegan(events).value + c.originGrace)
  }

  lemma ArrivalIsDated(c: Config, events: seq<Event>, f: Frame, t0: real, t1: real, t2: real)
    requires IsDated(c, events)
    ensures IsDated(c, events + [Arrive(f, t0, t1, t2)])
  {
    hide After, Pushed;
    var all := events + [Arrive(f, t0, t1, t2)];
    AfterOneMore(c, events, Arrive(f, t0, t1, t2));
    assert all[..|events|] == events;
    var s := After(c, events).stream;
    var t := Pushed(c, s, f, t0, t1, t2).0;
    NextIsAwaited(c, events);
    if IsTaken(s, f) {
      TakenIs(c, s, f, t0, t1, t2);
      forall n | n in t.buffer ensures FirstCame(all, n) == Some(t.buffer[n].since) {
        CameWaits(c, events, n);
        FirstCameExactly(events, n);
      }
    } else {
      NotTakenIs(c, s, f, t0, t1, t2);
      if !f.keepalive {
        DroppedHasCome(c, events, f);
      }
      forall n | n in t.buffer ensures FirstCame(all, n) == Some(t.buffer[n].since) {
      }
    }
  }

  /** A payload that is not taken comes to a stream that has begun. */
  lemma DroppedHasCome(c: Config, events: seq<Event>, f: Frame)
    requires !f.keepalive && !IsTaken(After(c, events).stream, f)
    ensures After(c, events).stream.next.Some?
  {
    hide After;
    NextIsAwaited(c, events);
  }

  lemma PassIsDated(c: Config, events: seq<Event>, now: real)
    requires IsDated(c, events)
    ensures IsDated(c, events + [Pass(now)])
  {
    hide After, Ticked;
    var all := events + [Pass(now)];
    AfterOneMore(c, events, Pass(now));
    assert all[..|events|] == events;
    TickedIs(c, After(c, events).stream, now);
  }

  lemma RestartIsDated(c: Config, events: seq<Event>)
    ensures IsDated(c, events + [Restart])
  {
    hide After;
    AfterOneMore(c, events, Restart);
    assert (events + [Restart])[..|events|] == events;
  }

  lemma StartIsDated(c: Config)
    ensures IsDated(c, [])
  {
  }

  lemma {:induction false} EveryRunIsDated(c: Config, events: seq<Event>)
    ensures IsDated(c, events)
  {
    hide IsDated;
    if events == [] {
      StartIsDated(c);
    } else {
      var before, e := events[..|events| - 1], events[|events| - 1];
      EveryRunIsDated(c, before);
      assert before + [e] == events;
      match e
      case Arrive(f, t0, t1, t2) => ArrivalIsDated(c, before, f, t0, t1, t2);
      case Pass(now) => PassIsDated(c, before, now);
      case Restart => RestartIsDated(c, before);
    }
  }

  /** Some payload waits whose first copy came `reorderDeadline` ago or earlier. */
  ghost predicate KeptWaiting(c: Config, events: seq<Event>, now: real) {
    exists n | n in After(c, events).stream.buffer ::
      FirstCame(events, n).Some? && now - FirstCame(events, n).value >= c.reorderDeadline
  }

  /** The first payload came a whole grace ago. */
  ghost predicate GraceIsOver(c: Config, events: seq<Event>, now: real) {
    StreamBegan(events).Some? && now >= StreamBegan(events).value + c.originGrace
  }

  /** WHEN A TICK RELEASES, over every run: a stream under way, exactly when some payload has waited the reorder
      deadline since its first copy came, and then by giving the gap up; one not yet started, exactly when a
      grace has passed since its first payload, and then losing nothing. What goes up starts at the
      lowest payload waiting. */
  lemma TickGivesUpExactly(c: Config, events: seq<Event>, now: real)
    ensures var s := After(c, events).stream;
      var (t, sent) := Ticked(c, s, now);
      var due := s.buffer.Keys != {} && if s.committed then KeptWaiting(c, events, now) else GraceIsOver(c, events, now);
      && (sent != [] <==> due)
      && (due ==> IsUnbroken(sent, s.buffer, Lowest(s.buffer.Keys)) && t.committed)
      && (!due ==> t == s)
      && (t.stats.lostEstimate > s.stats.lostEstimate <==> due && s.committed)
      && (due ==> s.next.Some? && t.stats.lostEstimate == s.stats.lostEstimate + Lowest(s.buffer.Keys) - s.next.value)
  {
    EveryRunIsDated(c, events);
    NextIsAwaited(c, events);
    hide After, Drained, FirstCame;
    var s := After(c, events).stream;
    if s.next.Some? && s.buffer.Keys != {} {
      DrainedIs(Committed(s));
      DrainedIs(Skipped(s));
      OverdueExactly(c, events, now);
    }
  }

  lemma OverdueExactly(c: Config, events: seq<Event>, now: real)
    requires IsDated(c, events)
    ensures Overdue(c, After(c, events).stream, now) <==> KeptWaiting(c, events, now)
  {
    hide After, FirstCame;
  }

  /** WHEN AND WHERE A STREAM STARTS, over every run: at the first arrival that finds the grace since the first
      payload over, with the lowest payload that has come, losing nothing; until then all of them wait. */
  lemma StartIsSettledExactly(c: Config, events: seq<Event>, f: Frame, t0: real, t1: real, t2: real)
    requires !After(c, events).stream.committed
    ensures var s := After(c, events).stream;
      var (t, sent) := Pushed(c, s, f, t0, t1, t2);
      var began := StreamBegan(events + [Arrive(f, t0, t1, t2)]);
      && (t.committed <==> IsTaken(s, f) && began.Some? && t2 >= began.value + c.originGrace)
      && (IsTaken(s, f) ==> Waiting(s, f) == Came(events + [Arrive(f, t0, t1, t2)]))
      && t.stats.lostEstimate == s.stats.lostEstimate
      && (if t.committed then IsUnbroken(sent, Buffered(s.buffer, f.sequence, f.payload, t1), Lowest(Waiting(s, f)))
          else sent == [] && t.buffer.Keys == Came(events + [Arrive(f, t0, t1, t2)]))
  {
    hide After, IsUnbroken, Pushed, Came, StreamBegan, IsTaken;
    var s := After(c, events).stream;
    WaitingHasCome(c, events, f, t0, t1, t2);
    if IsTaken(s, f) {
      TakenIs(c, s, f, t0, t1, t2);
      StartsAtLowest(c, events, f, t0, t1, t2);
    } else {
      NotTakenIs(c, s, f, t0, t1, t2);
    }
  }

  /** Before the start everything that has come waits. */
  lemma WaitingHasCome(c: Config, events: seq<Event>, f: Frame, t0: real, t1: real, t2: real)
    requires !After(c, events).stream.committed
    ensures var s, all := After(c, events).stream, events + [Arrive(f, t0, t1, t2)];
      && (if IsTaken(s, f) then Waiting(s, f) == Came(all) else s.buffer.Keys == Came(all))
      && (IsTaken(s, f) ==> StreamBegan(all).Some? && StreamBegan(all).value + c.originGrace == Deadline(c, s, t0))
  {
    var s := After(c, events).stream;
    var all := events + [Arrive(f, t0, t1, t2)];
    assert all[..|events|] == events;
    EveryRunIsDated(c, events);
    NextIsAwaited(c, events);
    hide After, FirstCame;
    forall n ensures n in s.buffer <==> n in Came(events) {
      CameWaits(c, events, n);
    }
    if !IsTaken(s, f) && !f.keepalive {
      SeenHasCome(c, events, f.sequence);
    }
  }

  lemma StartsAtLowest(c: Config, events: seq<Event>, f: Frame, t0: real, t1: real, t2: real)
    requires !After(c, events).stream.committed && IsTaken(After(c, events).stream, f)
    ensures var s := After(c, events).stream;
      var (t, sent) := Pushed(c, s, f, t0, t1, t2);
      && t.stats.lostEstimate == s.stats.lostEstimate
      && (if t.committed then IsUnbroken(sent, Buffered(s.buffer, f.sequence, f.payload, t1), Lowest(Waiting(s, f))) else sent == [])
  {
    hide After, Drained, Remembered, Buffered, IsUnbroken, SameLosses;
    var s := After(c, events).stream;
    PlacedIs(c, s, f, t0, t1);
    TakenIs(c, s, f, t0, t1, t2);
    var p := Placed(c, s, f, t0, t1);
    DrainedKeepsLost(Committed(p));
    DrainedKeepsLost(Skipped(Committed(p)));
    DrainedIs(Committed(p));
    DrainedIs(Skipped(Committed(p)));
  }

  lemma DrainedKeepsLost(s: Stream)
    requires s.next.Some?
    ensures Drained(s).0.stats.lostEstimate == s.stats.lostEstimate
  {
    DrainedIs(s);
  }

  lemma SeenHasCome(c: Config, events: seq<Event>, n: int)
    requires !After(c, events).stream.committed && n in After(c, events).stream.seen
    ensures n in After(c, events).stream.buffer
  {
    hide After;
    EveryRunIsSound(c, events);
  }

  /** HOW OFTEN A GAP IS COUNTED AS GIVEN UP: once at an arrival that leaves more waiting than the cap, at a stream
      under way or just started - even when the next payload is the one that overflows it and nothing is lost -
      and once at a tick that releases a stream under way. */
  lemma GapsExactly(c: Config, events: seq<Event>, f: Frame, t0: real, t1: real, t2: real)
    ensures var s := After(c, events).stream;
      var t := Pushed(c, s, f, t0, t1, t2).0;
      t.stats.gapsAbandoned
      == s.stats.gapsAbandoned + if IsTaken(s, f) && t.committed && |Waiting(s, f)| > c.maxBuffered then 1 else 0
  {
    hide After, Drained, Remembered, Buffered;
    NextIsAwaited(c, events);
    var s := After(c, events).stream;
    PlacedIs(c, s, f, t0, t1);
    if IsTaken(s, f) {
      var p := Placed(c, s, f, t0, t1);
      DrainedIs(p);
      DrainedIs(Skipped(p));
      DrainedIs(Committed(p));
      DrainedIs(Skipped(Committed(p)));
    }
  }

  /** A RESTART forgets the stream and keeps the counters. */
  lemma RestartForgets(c: Config, events: seq<Event>)
    ensures var s, t := After(c, events).stream, After(c, events + [Restart]).stream;
      && t.next.None? && !t.committed && t.buffer.Keys == {} && t.seen == []
      && t.stats == s.stats.(streamRestarts := s.stats.streamRestarts + 1)
  {
    hide After, Pushed, Ticked;
    AfterOneMore(c, events, Restart);
  }

  // ---------------------------------------------------------------- whole runs

  /** At this event a gap is given up: too much waits at an arrival, or something has waited too long at a tick. */
  ghost predicate GivesUp(c: Config, events: seq<Event>, e: Event) {
    match e
    case Arrive(f, _, _, _) => GapAtArrival(c, After(c, events).stream, f)
    case Pass(now) => After(c, events).stream.committed && KeptWaiting(c, events, now)
    case Restart => false
  }

  /** No event since the last restart gave a gap up. */
  ghost predicate NoneGivenUp(c: Config, events: seq<Event>) {
    if events == [] || events[|events| - 1].Restart? then true
    else NoneGivenUp(c, events[..|events| - 1]) && !GivesUp(c, events[..|events| - 1], events[|events| - 1])
  }

  lemma OneEventLoses(c: Config, events: seq<Event>, e: Event)
    ensures var before, after := Lost(After(c, events)), Lost(After(c, events + [e]));
      if e.Restart? then after == 0 else after >= before && (after > before <==> GivesUp(c, events, e))
  {
    AfterOneMore(c, events, e);
    hide After, Pushed, Ticked, KeptWaiting, GapAtArrival;
    match e
    case Arrive(f, t0, t1, t2) =>
      ArrivalGivesUpExactly(c, events, f, t0, t1, t2);
      GapIsWide(c, events, f);
    case Pass(now) =>
      TickGivesUpExactly(c, events, now);
      WaitingIsAhead(c, events, now);
    case Restart =>
  }

  lemma GapIsWide(c: Config, events: seq<Event>, f: Frame)
    ensures var s := After(c, events).stream; GapAtArrival(c, s, f) ==> Lowest(Waiting(s, f)) > s.next.value
  {
    hide After;
    NextIsAwaited(c, events);
  }

  lemma WaitingIsAhead(c: Config, events: seq<Event>, now: real)
    ensures var s := After(c, events).stream;
      && (KeptWaiting(c, events, now) ==> s.buffer.Keys != {})
      && (s.buffer.Keys != {} ==> s.next.Some? && Lowest(s.buffer.Keys) >= s.next.value)
  {
    hide After, FirstCame;
    NextIsAwaited(c, events);
  }

  /** NOTHING IS LOST IF AND ONLY IF NOTHING WAS GIVEN UP: over every run, the loss counted since the last restart
      is zero exactly when no arrival found more waiting than the cap without the next payload, and no tick
      found a payload that had waited the deadline. */
  lemma {:induction false} NothingIsLostExactly(c: Config, events: seq<Event>)
    ensures Lost(After(c, events)) >= 0
    ensures Lost(After(c, events)) == 0 <==> NoneGivenUp(c, events)
  {
    hide After, GivesUp;
    if events == [] {
      NothingLostYet(c);
    } else {
      var before, e := events[..|events| - 1], events[|events| - 1];
      assert before + [e] == events;
      NothingIsLostExactly(c, before);
      OneEventLoses(c, before, e);
    }
  }

  lemma NothingLostYet(c: Config)
    ensures Lost(After(c, [])) == 0
  {
  }

  /** So then what went up is the unbroken run from the first payload, and the next one has not come. */
  lemma InOrderUnlessGivenUp(c: Config, events: seq<Event>)
    requires After(c, events).stream.committed && NoneGivenUp(c, events)
    ensures var h := After(c, events);
      && h.sent != []
      && (forall i | 0 <= i < |h.sent| :: h.sent[i].0 == h.sent[0].0 + i)
      && h.sent[0].0 + |h.sent| !in Came(events)
  {
    hide After, NoneGivenUp;
    NothingIsLostExactly(c, events);
    OrderIsRestored(c, events);
    CameIsArrived(c, events, After(c, events).sent[0].0 + |After(c, events).sent|);
  }

  // ---------------------------------------------------------------- what is dropped

  /** The sequences taken into the window since the last restart: those that came while not in it. */
  ghost function Admitted(c: Config, events: seq<Event>): seq<int> {
    if events == [] then []
    else
      var before := Admitted(c, events[..|events| - 1]);
      match events[|events| - 1]
      case Restart => []
      case Pass(_) => before
      case Arrive(f, _, _, _) => if f.keepalive || f.sequence in Newest(before, c.dedupeWindow) then before else before + [f.sequence]
  }

  lemma SeenGrows(c: Config, s: Stream, f: Frame, t0: real, t1: real, t2: real)
    ensures Pushed(c, s, f, t0, t1, t2).0.seen
            == if f.keepalive || f.sequence in s.seen then s.seen else Remembered(s.seen, f.sequence, c.dedupeWindow)
  {
    hide Drained, Remembered, Buffered;
    var p := Placed(c, s, f, t0, t1);
    DrainedIs(p);
    DrainedIs(Skipped(p));
    DrainedIs(Committed(p));
    DrainedIs(Skipped(Committed(p)));
  }

  lemma {:induction false} SeenIsNewest(c: Config, events: seq<Event>)
    ensures After(c, events).stream.seen == Newest(Admitted(c, events), c.dedupeWindow)
  {
    hide Pushed, Ticked, Newest, Remembered;
    if events == [] {
      NothingSeen(c);
    } else {
      var before, e := events[..|events| - 1], events[|events| - 1];
      SeenIsNewest(c, before);
      var s := After(c, before).stream;
      match e
      case Arrive(f, t0, t1, t2) =>
        SeenGrows(c, s, f, t0, t1, t2);
        NewestIsRemembered(Admitted(c, before), f.sequence, c.dedupeWindow);
      case Pass(now) => TickedIs(c, s, now);
      case Restart => NothingSeen(c);
    }
  }

  lemma NothingSeen(c: Config)
    ensures Newest([], c.dedupeWindow) == []
  {
  }

  /** WHAT IS DROPPED AS A DUPLICATE, over every run: exactly the payloads whose sequence is among the last
      `dedupeWindow` taken into the window since the last restart. Dropping one changes nothing else. */
  lemma DuplicateExactly(c: Config, events: seq<Event>, f: Frame, t0: real, t1: real, t2: real)
    ensures var s := After(c, events).stream;
      var (t, sent) := Pushed(c, s, f, t0, t1, t2);
      var again := !f.keepalive && f.sequence in Newest(Admitted(c, events), c.dedupeWindow);
      && t.stats.duplicatesDropped == s.stats.duplicatesDropped + (if again then 1 else 0)
      && (again ==> sent == [] && t == s.(stats := s.stats.(duplicatesDropped := s.stats.duplicatesDropped + 1)))
  {
    SeenIsNewest(c, events);
    hide After, Newest, Remembered, Drained, Buffered, Admitted;
    var s := After(c, events).stream;
    if IsTaken(s, f) {
      var p := Placed(c, s, f, t0, t1);
      DrainedIs(p);
      DrainedIs(Skipped(p));
      DrainedIs(Committed(p));
      DrainedIs(Skipped(Committed(p)));
    }
  }

  /** Sequences handed up from somewhere on, up to just before the next one. */
  ghost predicate UpToNext(sent: seq<Sent>, next: Option<int>) {
    sent != [] && next == Some(sent[|sent| - 1].0 + 1)
  }

  lemma DrainReachesNext(s: Stream)
    requires s.next.Some?
    ensures var (t, sent) := Drained(s); if sent == [] then t.next == s.next else UpToNext(sent, t.next)
    ensures s.next.value in s.buffer ==> Drained(s).1 != []
  {
    DrainedIs(s);
  }

  lemma ArrivalReachesNext(c: Config, s: Stream, f: Frame, t0: real, t1: real, t2: real)
    ensures var (t, sent) := Pushed(c, s, f, t0, t1, t2);
      if sent == [] then (t.committed ==> s.committed && t.next == s.next) else UpToNext(sent, t.next)
  {
    hide Drained, Remembered, Buffered, UpToNext;
    if IsTaken(s, f) {
      var p := Placed(c, s, f, t0, t1);
      PlacedIs(c, s, f, t0, t1);
      DrainReachesNext(p);
      DrainReachesNext(Skipped(p));
      DrainReachesNext(Committed(p));
      DrainReachesNext(Skipped(Committed(p)));
    } else {
      NotTakenIs(c, s, f, t0, t1, t2);
    }
  }

  lemma TickReachesNext(c: Config, s: Stream, now: real)
    ensures var (t, sent) := Ticked(c, s, now);
      if sent == [] then (t.committed ==> s.committed && t.next == s.next) else UpToNext(sent, t.next)
  {
    hide Drained, Overdue, UpToNext;
    if s.next.Some? && s.buffer.Keys != {} {
      DrainReachesNext(Committed(s));
      DrainReachesNext(Skipped(s));
    }
  }

  /** A stream under way has just handed up the payload before its next one. */
  lemma {:induction false} NextFollowsLast(c: Config, events: seq<Event>)
    ensures After(c, events).stream.committed ==> UpToNext(After(c, events).sent, After(c, events).stream.next)
  {
    hide Pushed, Ticked;
    if events != [] {
      var before, e := events[..|events| - 1], events[|events| - 1];
      NextFollowsLast(c, before);
      var h := After(c, before);
      match e
      case Arrive(f, t0, t1, t2) => ArrivalReachesNext(c, h.stream, f, t0, t1, t2);
      case Pass(now) => TickReachesNext(c, h.stream, now);
      case Restart =>
    }
  }

  /** WHAT IS DROPPED AS TOO LATE, over every run: exactly the payloads the window does not hold that come no later
      in sequence than the last one handed up. Nothing goes up, and the buffer stays. */
  lemma TooLateExactly(c: Config, events: seq<Event>, f: Frame, t0: real, t1: real, t2: real)
    ensures var h := After(c, events);
      var (t, sent) := Pushed(c, h.stream, f, t0, t1, t2);
      var late := && !f.keepalive && f.sequence !in Newest(Admitted(c, events), c.dedupeWindow)
                  && h.sent != [] && f.sequence <= h.sent[|h.sent| - 1].0;
      && t.stats.tooLateDropped == h.stream.stats.tooLateDropped + (if late then 1 else 0)
      && (late ==> sent == [] && t.buffer == h.stream.buffer && t.next == h.stream.next)
  {
    SeenIsNewest(c, events);
    NextFollowsLast(c, events);
    StartedExactly(c, events);
    hide After, Newest, Remembered, Drained, Buffered, Admitted;
    var s := After(c, events).stream;
    if IsTaken(s, f) {
      var p := Placed(c, s, f, t0, t1);
      DrainedIs(p);
      DrainedIs(Skipped(p));
      DrainedIs(Committed(p));
      DrainedIs(Skipped(Committed(p)));
    }
  }

  lemma StartedExactly(c: Config, events: seq<Event>)
    ensures After(c, events).stream.committed <==> After(c, events).sent != []
  {
    EveryRunIsSound(c, events);
  }

  /** The window's sequences have all come, and what has come is among them or was. */
  lemma {:induction false} AdmittedHaveCome(c: Config, events: seq<Event>, n: int)
    ensures n in Admitted(c, events) <==> n in Came(events)
  {
    if events != [] {
      AdmittedHaveCome(c, events[..|events| - 1], n);
      NewestAreMembers(Admitted(c, events[..|events| - 1]), c.dedupeWindow);
    }
  }

  lemma NewestAreMembers(s: seq<int>, window: nat)
    ensures forall n | n in Newest(s, window) :: n in s
    ensures |Newest(s, window)| == if |s| <= window then |s| else window
  {
  }
}
