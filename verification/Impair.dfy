/**
 Deterministic leg impairment: per-leg loss from a seeded stream, per-leg fixed delay through a bounded
 queue. The pseudo-random stream of a seed is a parameter, and so is what the system answers to a leg's
 n-th sendto: None is an OSError.
 */
module Impair {
  import opened ByteStrings
  import opened Sets

  const MAX_DELAYED_PER_LEG := 8192
  const LEG_SALT := 0x9E37_79B1
  const WORD := 0x1_0000_0000

  datatype Impairment = Impairment(loss: real, delayMs: real)

  predicate Legal(i: Impairment) {
    0.0 <= i.loss <= 1.0 && i.delayMs >= 0.0
  }

  const CLEAN := Impairment(0.0, 0.0)

  datatype Datagram = Datagram(data: seq<Byte>, addr: nat)

  datatype Held = Held(due: real, datagram: Datagram)

  /** One sendto on a leg's socket; `times` is when it was due and when it was released, if it was held. */
  datatype Sent = Sent(socket: nat, datagram: Datagram, times: Option<(real, real)>)

  datatype Fate = Dropped | Overflowed | Delayed | Direct

  /** The n-th value of the stream a 32-bit seed starts. */
  type Stream = (int, nat) -> real

  type Answers = nat -> Option<nat>

  function LegSeed(seed: int, pathId: int): int {
    (seed * 1000003 + pathId * LEG_SALT) % WORD
  }

  const SALT_INVERSE := 244002641

  lemma MultipleOfWordIsZero(d: int, k: int)
    requires -WORD < d < WORD && d == WORD * k
    ensures d == 0
  {
  }

  /** The salt is odd, so it has an inverse modulo 2^32 and multiplying by it can be undone. */
  lemma SaltCancels(d: int, k: int)
    requires d * LEG_SALT == WORD * k
    ensures d == WORD * (k * SALT_INVERSE - d * 150801925)
  {
    assert LEG_SALT * SALT_INVERSE == 1 + WORD * 150801925;
  }

  lemma SameRemainder(x: int, y: int)
    requires x % WORD == y % WORD
    ensures x - y == WORD * (x / WORD - y / WORD)
  {
  }

  /** Distinct path ids give distinct seeds, whatever the run's. */
  lemma LegSeedsDiffer(seed: int, p: int, q: int)
    requires 0 <= p < WORD && 0 <= q < WORD && LegSeed(seed, p) == LegSeed(seed, q)
    ensures p == q
  {
    var x, y := seed * 1000003 + p * LEG_SALT, seed * 1000003 + q * LEG_SALT;
    SameRemainder(x, y);
    var k := x / WORD - y / WORD;
    assert (p - q) * LEG_SALT == WORD * k;
    SaltCancels(p - q, k);
    MultipleOfWordIsZero(p - q, k * SALT_INVERSE - (p - q) * 150801925);
  }

  const RUN_SALT_INVERSE := 2021759595

  lemma RunSaltCancels(d: int, k: int)
    requires d * 1000003 == WORD * k
    ensures d == WORD * (k * RUN_SALT_INVERSE - d * 470729)
  {
    assert 1000003 * RUN_SALT_INVERSE == 1 + WORD * 470729;
  }

  /** ... and so do distinct run seeds, on every leg. */
  lemma RunSeedsDiffer(s: int, t: int, pathId: int)
    requires 0 <= s < WORD && 0 <= t < WORD && LegSeed(s, pathId) == LegSeed(t, pathId)
    ensures s == t
  {
    var x, y := s * 1000003 + pathId * LEG_SALT, t * 1000003 + pathId * LEG_SALT;
    SameRemainder(x, y);
    var k := x / WORD - y / WORD;
    assert (s - t) * 1000003 == WORD * k;
    RunSaltCancels(s - t, k);
    MultipleOfWordIsZero(s - t, k * RUN_SALT_INVERSE - (s - t) * 470729);
  }

  // ---------------------------------------------------------------- one leg, as a value

  /** A leg: the source's fields, then what an observer saw - every offer with its fate, every sendto. */
  datatype Leg = Leg(imp: Impairment, inner: nat, seed: int, draws: nat, queue: seq<Held>,
                     offered: nat, dropped: nat, delayed: nat, overflowed: nat, passed: nat,
                     offers: seq<(Datagram, Fate)>, wire: seq<Sent>)

  function NewLeg(imp: Impairment, seed: int, pathId: int, sock: nat): Leg {
    Leg(imp, sock, LegSeed(seed, pathId), 0, [], 0, 0, 0, 0, 0, [], [])
  }

  function LegPut(answers: Answers, leg: Leg, d: Datagram, times: Option<(real, real)>): Leg {
    leg.(wire := leg.wire + [Sent(leg.inner, d, times)],
         passed := leg.passed + if answers(|leg.wire|).Some? then 1 else 0)
  }

  function LegRelease(answers: Answers, leg: Leg, now: real): Leg
    decreases |leg.queue|
  {
    if leg.queue != [] && leg.queue[0].due <= now then
      var head := leg.queue[0];
      LegRelease(answers, LegPut(answers, leg.(queue := leg.queue[1..]), head.datagram, Some((head.due, now))), now)
    else leg
  }

  /** A delayed leg takes a datagram: what is due leaves first, then the queue takes it or is full. */
  function LegHold(answers: Answers, leg: Leg, d: Datagram, now: real): Leg {
    var released := LegRelease(answers, leg, now);
    if |released.queue| >= MAX_DELAYED_PER_LEG then
      released.(overflowed := released.overflowed + 1, offers := released.offers + [(d, Overflowed)])
    else
      released.(queue := released.queue + [Held(now + leg.imp.delayMs / 1000.0, d)],
                delayed := released.delayed + 1, offers := released.offers + [(d, Delayed)])
  }

  function LegSend(stream: Stream, answers: Answers, leg: Leg, d: Datagram, now: real): Leg {
    var lossy := leg.imp.loss > 0.0;
    var drawn := leg.(offered := leg.offered + 1, draws := leg.draws + if lossy then 1 else 0);
    if lossy && stream(leg.seed, leg.draws) < leg.imp.loss then
      drawn.(dropped := leg.dropped + 1, offers := leg.offers + [(d, Dropped)])
    else if leg.imp.delayMs > 0.0 then
      LegHold(answers, drawn, d, now)
    else
      LegPut(answers, drawn.(offers := leg.offers + [(d, Direct)]), d, None)
  }

  /** What the caller is told: the datagram's length whether it was lost, held or refused by the socket, so
      that loss is never signalled; otherwise what the socket said. */
  function Told(stream: Stream, answers: Answers, leg: Leg, d: Datagram): nat {
    var lost := leg.imp.loss > 0.0 && stream(leg.seed, leg.draws) < leg.imp.loss;
    if lost || leg.imp.delayMs > 0.0 || answers(|leg.wire|).None? then |d.data| else answers(|leg.wire|).value
  }

  // ---------------------------------------------------------------- the harness objects

  class LegState {
    const imp: Impairment
    const answers: Answers
    const seed: int
    var inner: nat
    var draws: nat
    var queue: seq<Held>
    var offered: nat
    var dropped: nat
    var delayed: nat
    var overflowed: nat
    var passed: nat
    var attempts: nat
    ghost var offers: seq<(Datagram, Fate)>
    ghost var wire: seq<Sent>

    ghost predicate Valid()
      reads this
    {
      attempts == |wire|
    }

    ghost function View(): Leg
      reads this
    {
      Leg(imp, inner, seed, draws, queue, offered, dropped, delayed, overflowed, passed, offers, wire)
    }

    lemma ViewHasQueue()
      ensures View().queue == queue
    {
    }

    constructor (imp: Impairment, seed: int, pathId: int, sock: nat, answers: Answers)
      ensures Valid() && View() == NewLeg(imp, seed, pathId, sock) && this.answers == answers
    {
      this.imp, this.answers, this.seed, inner := imp, answers, LegSeed(seed, pathId), sock;
      draws, queue, offered, dropped, delayed, overflowed, passed, attempts := 0, [], 0, 0, 0, 0, 0, 0;
      offers, wire := [], [];
    }

    method Put(d: Datagram, ghost times: Option<(real, real)>) returns (n: nat)
      requires Valid()
      modifies this`attempts, this`wire, this`passed
      ensures Valid() && View() == LegPut(answers, old(View()), d, times)
      ensures n == if answers(|old(wire)|).Some? then answers(|old(wire)|).value else |d.data|
    {
      var answer := answers(attempts);
      attempts := attempts + 1;
      wire := wire + [Sent(inner, d, times)];
      if answer.None? {
        return |d.data|;
      }
      passed := passed + 1;
      return answer.value;
    }

    method Release(now: real)
      requires Valid()
      modifies this`queue, this`attempts, this`wire, this`passed
      ensures Valid() && View() == LegRelease(answers, old(View()), now)
    {
      while queue != [] && queue[0].due <= now
        invariant Valid()
        invariant LegRelease(answers, View(), now) == LegRelease(answers, old(View()), now)
        decreases |queue|
      {
        var head := queue[0];
        queue := queue[1..];
        var _ := Put(head.datagram, Some((head.due, now)));
      }
    }

    method Hold(d: Datagram, now: real)
      requires Valid()
      modifies this`queue, this`attempts, this`wire, this`passed, this`overflowed, this`delayed, this`offers
      ensures Valid() && View() == LegHold(answers, old(View()), d, now)
    {
      hide LegRelease;
      Release(now);
      if |queue| >= MAX_DELAYED_PER_LEG {
        overflowed := overflowed + 1;
        offers := offers + [(d, Overflowed)];
      } else {
        queue := queue + [Held(now + imp.delayMs / 1000.0, d)];
        delayed := delayed + 1;
        offers := offers + [(d, Delayed)];
      }
    }

    method Send(stream: Stream, d: Datagram, now: real) returns (n: nat)
      requires Valid()
      modifies this
      ensures Valid() && View() == LegSend(stream, answers, old(View()), d, now)
      ensures n == Told(stream, answers, old(View()), d)
    {
      hide LegHold;
      offered := offered + 1;
      if imp.loss > 0.0 {
        var drawn := stream(seed, draws);
        draws := draws + 1;
        if drawn < imp.loss {
          dropped := dropped + 1;
          offers := offers + [(d, Dropped)];
          return |d.data|;
        }
      }
      if imp.delayMs > 0.0 {
        Hold(d, now);
        return |d.data|;
      }
      offers := offers + [(d, Direct)];
      n := Put(d, None);
    }
  }

  lemma SameBut(before: map<int, Leg>, after: map<int, Leg>, pathId: int, leg: Leg)
    requires after.Keys == before.Keys + {pathId} && after[pathId] == leg
    requires forall p | p in after && p != pathId :: p in before && after[p] == before[p]
    ensures after == before[pathId := leg]
  {
  }

  class Impairer {
    const seed: int
    const plan: map<int, Impairment>
    const stream: Stream
    const kernel: (int, nat) -> Option<nat>
    var legs: map<int, LegState>

    ghost predicate Valid()
      reads this, legs.Values
    {
      && (forall p | p in legs :: legs[p].Valid() && legs[p].answers == AnswersOf(kernel, p))
      && (forall p, q | p in legs && q in legs && legs[p] == legs[q] :: p == q)
    }

    /** Every leg as a value. */
    ghost function View(): map<int, Leg>
      reads this, legs.Values
    {
      map p | p in legs :: legs[p].View()
    }

    constructor (seed: int, plan: map<int, Impairment>, stream: Stream, kernel: (int, nat) -> Option<nat>)
      ensures Valid() && View() == map[]
      ensures this.seed == seed && this.plan == plan && this.stream == stream && this.kernel == kernel
    {
      this.seed, this.plan, this.stream, this.kernel, legs := seed, plan, stream, kernel, map[];
    }

    method Wrap(pathId: int, sock: nat)
      requires Valid()
      modifies this, legs.Values
      ensures Valid() && fresh(legs.Values - old(legs.Values))
      ensures View() == Wrapped(seed, plan, old(View()), pathId, sock)
    {
      if pathId in legs {
        legs[pathId].inner := sock;
        assert legs[pathId].View() == old(legs[pathId].View()).(inner := sock);
      } else {
        AddLeg(pathId, sock);
      }
      ghost var was := old(View());
      forall p | p in legs && p != pathId ensures p in was && View()[p] == was[p] {
        assert legs[p].View() == old(legs[p].View());
      }
      hide NewLeg;
      SameBut(was, View(), pathId, View()[pathId]);
    }

    method AddLeg(pathId: int, sock: nat)
      requires Valid() && pathId !in legs
      modifies this`legs
      ensures Valid() && pathId in legs && fresh(legs[pathId]) && legs == old(legs)[pathId := legs[pathId]]
      ensures legs[pathId].View() == NewLeg(if pathId in plan then plan[pathId] else CLEAN, seed, pathId, sock)
    {
      var imp := if pathId in plan then plan[pathId] else CLEAN;
      var leg := new LegState(imp, seed, pathId, sock, AnswersOf(kernel, pathId));
      legs := legs[pathId := leg];
    }

    method Send(pathId: int, d: Datagram, now: real) returns (n: nat)
      requires Valid() && pathId in legs
      modifies legs.Values
      ensures Valid()
      ensures View() == old(View())[pathId := LegSend(stream, AnswersOf(kernel, pathId), old(View())[pathId], d, now)]
      ensures n == Told(stream, AnswersOf(kernel, pathId), old(View())[pathId], d)
    {
      ghost var before := View();
      n := legs[pathId].Send(stream, d, now);
      assert forall p | p in legs && p != pathId :: legs[p] != legs[pathId] && legs[p].View() == before[p];
    }

    /** Release everything now due on every leg; the order of the legs does not matter. */
    method Pump(now: real)
      requires Valid()
      modifies legs.Values
      ensures Valid() && View() == Pumped(kernel, old(View()), now)
    {
      hide LegPut, LegRelease, LegState.View;
      ghost var before := View();
      var rest := legs.Keys;
      while rest != {}
        invariant Valid() && rest <= legs.Keys
        invariant forall p | p in rest :: legs[p].View() == before[p]
        invariant forall p | p in legs && p !in rest :: legs[p].View() == LegRelease(AnswersOf(kernel, p), before[p], now)
        decreases rest
      {
        var p := Choose(rest);
        var leg := legs[p];
        NothingToRelease(leg.answers, leg.View(), now);
        leg.ViewHasQueue();
        if leg.queue != [] {
          leg.Release(now);
        }
        rest := rest - {p};
      }
    }

    method Pending(pathId: int) returns (n: nat)
      requires Valid() && pathId in legs
      ensures n == |View()[pathId].queue|
    {
      n := |legs[pathId].queue|;
    }
  }

  lemma NothingToRelease(answers: Answers, leg: Leg, now: real)
    ensures leg.queue == [] ==> LegRelease(answers, leg, now) == leg
  {
  }

  function AnswersOf(kernel: (int, nat) -> Option<nat>, pathId: int): Answers {
    n => kernel(pathId, n)
  }

  /** Wrapping a known leg swaps its socket and nothing else: counters, queue and stream go on. */
  function Wrapped(seed: int, plan: map<int, Impairment>, legs: map<int, Leg>, pathId: int, sock: nat): map<int, Leg> {
    if pathId in legs then legs[pathId := legs[pathId].(inner := sock)]
    else legs[pathId := NewLeg(if pathId in plan then plan[pathId] else CLEAN, seed, pathId, sock)]
  }

  function Pumped(kernel: (int, nat) -> Option<nat>, legs: map<int, Leg>, now: real): map<int, Leg> {
    map p | p in legs :: LegRelease(AnswersOf(kernel, p), legs[p], now)
  }

  // ---------------------------------------------------------------- the books of a leg

  function CountFate(offers: seq<(Datagram, Fate)>, f: Fate): nat {
    if offers == [] then 0
    else CountFate(offers[..|offers| - 1], f) + if offers[|offers| - 1].1 == f then 1 else 0
  }

  function CountAccepted(answers: Answers, n: nat): nat {
    if n == 0 then 0 else CountAccepted(answers, n - 1) + if answers(n - 1).Some? then 1 else 0
  }

  /** The datagrams neither dropped nor overflowed, in the order they were offered. */
  function Survivors(offers: seq<(Datagram, Fate)>): seq<Datagram> {
    if offers == [] then []
    else
      var last := offers[|offers| - 1];
      Survivors(offers[..|offers| - 1]) + if last.1.Delayed? || last.1.Direct? then [last.0] else []
  }

  function OnWire(wire: seq<Sent>): seq<Datagram> {
    seq(|wire|, i requires 0 <= i < |wire| => wire[i].datagram)
  }

  function InQueue(queue: seq<Held>): seq<Datagram> {
    seq(|queue|, i requires 0 <= i < |queue| => queue[i].datagram)
  }

  /** The n-th offer is dropped exactly when the n-th value of the leg's own stream is below its loss. */
  ghost predicate DropsFollowStream(stream: Stream, leg: Leg) {
    && leg.draws == (if leg.imp.loss > 0.0 then |leg.offers| else 0)
    && forall n: nat | n < |leg.offers| ::
         leg.offers[n].1.Dropped? <==> leg.imp.loss > 0.0 && stream(leg.seed, n) < leg.imp.loss
  }

  /** Every offer is in one place, every sendto is accounted for. */
  ghost predicate Conserved(answers: Answers, leg: Leg) {
    && leg.offered == |leg.offers|
    && leg.dropped == CountFate(leg.offers, Dropped)
    && leg.overflowed == CountFate(leg.offers, Overflowed)
    && leg.delayed == CountFate(leg.offers, Delayed)
    && leg.passed == CountAccepted(answers, |leg.wire|)
    && |leg.queue| <= MAX_DELAYED_PER_LEG
    && (if leg.imp.delayMs > 0.0 then
          leg.offered == leg.dropped + leg.overflowed + leg.delayed && leg.delayed == |leg.wire| + |leg.queue|
        else
          leg.queue == [] && leg.overflowed == 0 && leg.delayed == 0 && leg.offered == leg.dropped + |leg.wire|)
  }

  /** What has left, followed by what is queued, is what survived, in offered order. */
  ghost predicate InOrder(leg: Leg) {
    OnWire(leg.wire) + InQueue(leg.queue) == Survivors(leg.offers)
  }

  /** Nothing left before it was due. */
  ghost predicate NotEarly(leg: Leg) {
    forall i | 0 <= i < |leg.wire| && leg.wire[i].times.Some? :: leg.wire[i].times.value.0 <= leg.wire[i].times.value.1
  }

  ghost predicate Booked(stream: Stream, answers: Answers, leg: Leg) {
    DropsFollowStream(stream, leg) && Conserved(answers, leg) && InOrder(leg) && NotEarly(leg)
  }

  lemma HeadToWire(wire: seq<Sent>, queue: seq<Held>, sent: Sent)
    requires queue != [] && sent.datagram == queue[0].datagram
    ensures OnWire(wire + [sent]) + InQueue(queue[1..]) == OnWire(wire) + InQueue(queue)
  {
  }

  /** Releasing keeps the books; what it leaves at the head is due later. */
  lemma {:induction false} ReleaseKeepsBooks(stream: Stream, answers: Answers, leg: Leg, now: real)
    requires leg.imp.delayMs > 0.0 || leg.queue == []
    requires Booked(stream, answers, leg)
    ensures var after := LegRelease(answers, leg, now);
            && Booked(stream, answers, after)
            && after.offers == leg.offers && after.offered == leg.offered && after.imp == leg.imp && after.seed == leg.seed
            && after.inner == leg.inner && after.draws == leg.draws
            && after.dropped == leg.dropped && after.delayed == leg.delayed && after.overflowed == leg.overflowed
            && |after.queue| <= |leg.queue| && after.queue == leg.queue[|leg.queue| - |after.queue|..]
            && (after.queue != [] ==> after.queue[0].due > now)
    decreases |leg.queue|
  {
    if leg.queue != [] && leg.queue[0].due <= now {
      var head := leg.queue[0];
      var next := LegPut(answers, leg.(queue := leg.queue[1..]), head.datagram, Some((head.due, now)));
      HeadStaysBooked(stream, answers, leg, now);
      hide Booked, LegPut;
      ReleaseKeepsBooks(stream, answers, next, now);
      assert next.queue == leg.queue[1..];
    }
  }

  lemma HeadStaysBooked(stream: Stream, answers: Answers, leg: Leg, now: real)
    requires leg.imp.delayMs > 0.0 && leg.queue != [] && leg.queue[0].due <= now
    requires Booked(stream, answers, leg)
    ensures var head := leg.queue[0];
            Booked(stream, answers, LegPut(answers, leg.(queue := leg.queue[1..]), head.datagram, Some((head.due, now))))
  {
    var head := leg.queue[0];
    var next := LegPut(answers, leg.(queue := leg.queue[1..]), head.datagram, Some((head.due, now)));
    HeadToWire(leg.wire, leg.queue, Sent(leg.inner, head.datagram, Some((head.due, now))));
    assert InOrder(next) && NotEarly(next) && Conserved(answers, next) && DropsFollowStream(stream, next);
  }

  lemma OfferOne(offers: seq<(Datagram, Fate)>, d: Datagram, f: Fate)
    ensures var more := offers + [(d, f)];
            && (forall g: Fate :: CountFate(more, g) == CountFate(offers, g) + if g == f then 1 else 0)
            && Survivors(more) == Survivors(offers) + (if f.Delayed? || f.Direct? then [d] else [])
            && (forall n: nat | n < |offers| :: more[n] == offers[n]) && more[|offers|] == (d, f)
  {
    assert (offers + [(d, f)])[..|offers|] == offers;
  }

  lemma QueueOne(wire: seq<Sent>, queue: seq<Held>, h: Held)
    ensures OnWire(wire) + InQueue(queue + [h]) == OnWire(wire) + InQueue(queue) + [h.datagram]
  {
  }

  lemma PutOne(wire: seq<Sent>, s: Sent)
    ensures OnWire(wire + [s]) + InQueue([]) == OnWire(wire) + InQueue([]) + [s.datagram]
  {
  }

  lemma SendKeepsBooks(stream: Stream, answers: Answers, leg: Leg, d: Datagram, now: real)
    requires leg.imp.delayMs >= 0.0 && Booked(stream, answers, leg)
    ensures Booked(stream, answers, LegSend(stream, answers, leg, d, now))
  {
    hide CountFate, Survivors, OnWire, InQueue;
    var lossy := leg.imp.loss > 0.0;
    if lossy && stream(leg.seed, leg.draws) < leg.imp.loss {
      OfferOne(leg.offers, d, Dropped);
    } else if leg.imp.delayMs > 0.0 {
      ReleaseThenOffer(stream, answers, leg, d, now);
    } else {
      OfferOne(leg.offers, d, Direct);
      PutOne(leg.wire, Sent(leg.inner, d, None));
    }
  }

  /** Release does not look at the counters send has already touched. */
  lemma {:induction false} ReleaseIgnoresCounters(answers: Answers, leg: Leg, offered: nat, draws: nat, now: real)
    ensures LegRelease(answers, leg.(offered := offered, draws := draws), now)
            == LegRelease(answers, leg, now).(offered := offered, draws := draws)
    decreases |leg.queue|
  {
    if leg.queue != [] && leg.queue[0].due <= now {
      var head := leg.queue[0];
      var next := LegPut(answers, leg.(queue := leg.queue[1..]), head.datagram, Some((head.due, now)));
      ReleaseIgnoresCounters(answers, next, offered, draws, now);
    }
  }

  lemma ReleaseThenOffer(stream: Stream, answers: Answers, leg: Leg, d: Datagram, now: real)
    requires leg.imp.delayMs > 0.0 && Booked(stream, answers, leg)
    requires !(leg.imp.loss > 0.0 && stream(leg.seed, leg.draws) < leg.imp.loss)
    ensures Booked(stream, answers, LegSend(stream, answers, leg, d, now))
  {
    hide LegRelease, Booked;
    var draws := leg.draws + if leg.imp.loss > 0.0 then 1 else 0;
    ReleaseKeepsBooks(stream, answers, leg, now);
    ReleaseIgnoresCounters(answers, leg, leg.offered + 1, draws, now);
    var released := LegRelease(answers, leg, now);
    if |released.queue| >= MAX_DELAYED_PER_LEG {
      OverflowIsBooked(stream, answers, released, d);
    } else {
      HeldIsBooked(stream, answers, released, Held(now + leg.imp.delayMs / 1000.0, d));
    }
  }

  /** One more offer, not lost and lost to a full queue. */
  lemma OverflowIsBooked(stream: Stream, answers: Answers, leg: Leg, d: Datagram)
    requires leg.imp.delayMs > 0.0 && Booked(stream, answers, leg)
    requires !(leg.imp.loss > 0.0 && stream(leg.seed, leg.draws) < leg.imp.loss)
    ensures Booked(stream, answers, leg.(offered := leg.offered + 1, draws := leg.draws + if leg.imp.loss > 0.0 then 1 else 0,
                                         overflowed := leg.overflowed + 1, offers := leg.offers + [(d, Overflowed)]))
  {
    hide CountFate, Survivors, OnWire, InQueue;
    OfferOne(leg.offers, d, Overflowed);
  }

  /** One more offer, taken by the queue. */
  lemma HeldIsBooked(stream: Stream, answers: Answers, leg: Leg, h: Held)
    requires leg.imp.delayMs > 0.0 && Booked(stream, answers, leg) && |leg.queue| < MAX_DELAYED_PER_LEG
    requires !(leg.imp.loss > 0.0 && stream(leg.seed, leg.draws) < leg.imp.loss)
    ensures Booked(stream, answers, leg.(offered := leg.offered + 1, draws := leg.draws + if leg.imp.loss > 0.0 then 1 else 0,
                                         queue := leg.queue + [h], delayed := leg.delayed + 1, offers := leg.offers + [(h.datagram, Delayed)]))
  {
    hide CountFate, Survivors, OnWire, InQueue;
    OfferOne(leg.offers, h.datagram, Delayed);
    QueueOne(leg.wire, leg.queue, h);
  }

  // ---------------------------------------------------------------- runs

  datatype Event =
    | DoWrap(pathId: int, sock: nat)
    | DoSend(pathId: int, datagram: Datagram, now: real)
    | DoPump(now: real)

  /** A harness: what is fixed before the run. */
  datatype Rig = Rig(seed: int, plan: map<int, Impairment>, stream: Stream, kernel: (int, nat) -> Option<nat>)

  ghost predicate LegalRig(r: Rig) {
    forall p | p in r.plan :: Legal(r.plan[p])
  }

  function PlanOf(r: Rig, pathId: int): Impairment {
    if pathId in r.plan then r.plan[pathId] else CLEAN
  }

  /** One event; a send on a leg that was never wrapped does not happen. */
  function Happen(r: Rig, legs: map<int, Leg>, e: Event): map<int, Leg> {
    match e
    case DoWrap(p, sock) => Wrapped(r.seed, r.plan, legs, p, sock)
    case DoSend(p, d, now) => if p in legs then legs[p := LegSend(r.stream, AnswersOf(r.kernel, p), legs[p], d, now)] else legs
    case DoPump(now) => Pumped(r.kernel, legs, now)
  }

  function History(r: Rig, events: seq<Event>): map<int, Leg> {
    if events == [] then map[] else Happen(r, History(r, events[..|events| - 1]), events[|events| - 1])
  }

  ghost predicate Kept(r: Rig, p: int, leg: Leg) {
    leg.imp == PlanOf(r, p) && leg.seed == LegSeed(r.seed, p) && Booked(r.stream, AnswersOf(r.kernel, p), leg)
  }

  lemma EventKeepsBooks(r: Rig, legs: map<int, Leg>, e: Event, p: int)
    requires LegalRig(r) && p in Happen(r, legs, e)
    requires p in legs ==> Kept(r, p, legs[p])
    ensures Kept(r, p, Happen(r, legs, e)[p])
  {
    hide CountFate, Survivors, LegSend, LegRelease;
    if p in legs {
      match e
      case DoWrap(_, _) =>
      case DoSend(q, d, now) =>
        if q == p {
          SendKeepsBooks(r.stream, AnswersOf(r.kernel, p), legs[p], d, now);
          SendKeepsLeg(r.stream, AnswersOf(r.kernel, p), legs[p], d, now);
        }
      case DoPump(now) =>
        ReleaseKeepsBooks(r.stream, AnswersOf(r.kernel, p), legs[p], now);
    } else {
      NewLegIsBooked(r.stream, AnswersOf(r.kernel, p), PlanOf(r, p), r.seed, p, Happen(r, legs, e)[p].inner);
    }
  }

  lemma {:induction false} ReleaseKeepsLeg(answers: Answers, leg: Leg, now: real)
    ensures LegRelease(answers, leg, now).imp == leg.imp && LegRelease(answers, leg, now).seed == leg.seed
    decreases |leg.queue|
  {
    if leg.queue != [] && leg.queue[0].due <= now {
      var head := leg.queue[0];
      ReleaseKeepsLeg(answers, LegPut(answers, leg.(queue := leg.queue[1..]), head.datagram, Some((head.due, now))), now);
    }
  }

  lemma SendKeepsLeg(stream: Stream, answers: Answers, leg: Leg, d: Datagram, now: real)
    ensures LegSend(stream, answers, leg, d, now).imp == leg.imp && LegSend(stream, answers, leg, d, now).seed == leg.seed
  {
    ReleaseKeepsLeg(answers, leg.(offered := leg.offered + 1, draws := leg.draws + if leg.imp.loss > 0.0 then 1 else 0), now);
  }

  lemma NewLegIsBooked(stream: Stream, answers: Answers, imp: Impairment, seed: int, p: int, sock: nat)
    ensures Booked(stream, answers, NewLeg(imp, seed, p, sock))
  {
  }

  lemma {:induction false} EveryLegIsBooked(r: Rig, events: seq<Event>, p: int)
    requires LegalRig(r) && p in History(r, events)
    ensures Kept(r, p, History(r, events)[p])
  {
    var before := events[..|events| - 1];
    if p in History(r, before) {
      EveryLegIsBooked(r, before, p);
    }
    EventKeepsBooks(r, History(r, before), events[|events| - 1], p);
  }

  /** DROPS ARE DETERMINISTIC. Over any interleaving of sends on many legs, pumps and re-wraps, at any
      times and whatever the sockets answer, the n-th datagram offered on a leg is dropped exactly when
      the n-th value of the stream for (seed, leg) is below that leg's loss. */
  lemma DropsAreDeterministic(r: Rig, events: seq<Event>, p: int, n: nat)
    requires LegalRig(r) && p in History(r, events) && n < |History(r, events)[p].offers|
    ensures History(r, events)[p].offers[n].1.Dropped? <==>
            PlanOf(r, p).loss > 0.0 && r.stream(LegSeed(r.seed, p), n) < PlanOf(r, p).loss
  {
    EveryLegIsBooked(r, events, p);
  }

  /** So two runs of the same seed and plan agree leg by leg, as far as both went, however differently
      they were scheduled and whatever the sockets answered in each. */
  lemma TwoRunsAgree(r: Rig, kernel: (int, nat) -> Option<nat>, events: seq<Event>, others: seq<Event>, p: int, n: nat)
    requires LegalRig(r)
    requires p in History(r, events) && n < |History(r, events)[p].offers|
    requires p in History(r.(kernel := kernel), others) && n < |History(r.(kernel := kernel), others)[p].offers|
    ensures History(r, events)[p].offers[n].1.Dropped? <==> History(r.(kernel := kernel), others)[p].offers[n].1.Dropped?
  {
    DropsAreDeterministic(r, events, p, n);
    DropsAreDeterministic(r.(kernel := kernel), others, p, n);
  }

  /** QUEUES CONSERVE AND KEEP ORDER, on every leg of every run: each offer is dropped, overflowed, held
      or put; a held one is released or still queued; the queue is bounded; the sockets see the surviving
      datagrams in offered order; and none leaves before it is due. No assumption on the clock. */
  lemma QueuesConserveAndKeepOrder(r: Rig, events: seq<Event>, p: int)
    requires LegalRig(r) && p in History(r, events)
    ensures var leg := History(r, events)[p];
            && Conserved(AnswersOf(r.kernel, p), leg)
            && OnWire(leg.wire) + InQueue(leg.queue) == Survivors(leg.offers)
            && OnWire(leg.wire) <= Survivors(leg.offers)
            && NotEarly(leg)
  {
    hide CountFate, Survivors, History;
    EveryLegIsBooked(r, events, p);
  }

  // ---------------------------------------------------------------- with a clock that never goes back

  /** Dues in queue order, none beyond what the last send could have set. */
  ghost predicate Sorted(leg: Leg, clock: real) {
    && (forall i, j | 0 <= i < j < |leg.queue| :: leg.queue[i].due <= leg.queue[j].due)
    && (forall i | 0 <= i < |leg.queue| :: leg.queue[i].due <= clock + leg.imp.delayMs / 1000.0)
  }

  /** The clock readings of the sends on one leg never decrease. */
  predicate Monotone(events: seq<Event>, p: int) {
    forall i, j | 0 <= i < j < |events| && SendsOn(events[i], p) && SendsOn(events[j], p) :: events[i].now <= events[j].now
  }

  predicate SendsOn(e: Event, p: int) {
    e.DoSend? && e.pathId == p
  }

  ghost predicate LastClock(events: seq<Event>, p: int, clock: real) {
    forall i | 0 <= i < |events| && SendsOn(events[i], p) :: events[i].now <= clock
  }

  lemma {:induction false} ReleaseKeepsSuffix(answers: Answers, leg: Leg, now: real)
    ensures var after := LegRelease(answers, leg, now);
            && |after.queue| <= |leg.queue| && after.queue == leg.queue[|leg.queue| - |after.queue|..]
            && (after.queue != [] ==> after.queue[0].due > now)
    decreases |leg.queue|
  {
    if leg.queue != [] && leg.queue[0].due <= now {
      var head := leg.queue[0];
      ReleaseKeepsSuffix(answers, LegPut(answers, leg.(queue := leg.queue[1..]), head.datagram, Some((head.due, now))), now);
    }
  }

  /** A release of a sorted queue leaves only entries due later. */
  lemma ReleaseLeavesOnlyLater(answers: Answers, leg: Leg, clock: real, now: real)
    requires Sorted(leg, clock)
    ensures var after := LegRelease(answers, leg, now);
            && Sorted(after, clock)
            && forall i | 0 <= i < |after.queue| :: after.queue[i].due > now
  {
    hide LegRelease;
    ReleaseKeepsSuffix(answers, leg, now);
    ReleaseKeepsLeg(answers, leg, now);
  }

  lemma SendKeepsSorted(stream: Stream, answers: Answers, leg: Leg, clock: real, d: Datagram, now: real)
    requires Sorted(leg, clock) && clock <= now
    ensures Sorted(LegSend(stream, answers, leg, d, now), now)
  {
    hide LegRelease;
    var drawn := leg.(offered := leg.offered + 1, draws := leg.draws + if leg.imp.loss > 0.0 then 1 else 0);
    ReleaseLeavesOnlyLater(answers, drawn, clock, now);
    ReleaseKeepsLeg(answers, drawn, now);
  }

  lemma {:induction false} MonotoneRunIsSorted(r: Rig, events: seq<Event>, p: int, clock: real)
    requires Monotone(events, p) && LastClock(events, p, clock) && p in History(r, events)
    ensures Sorted(History(r, events)[p], clock)
  {
    hide LegSend, LegRelease;
    var before, e := events[..|events| - 1], events[|events| - 1];
    assert forall i | 0 <= i < |before| :: before[i] == events[i];
    var legs := History(r, before);
    if p in legs {
      if SendsOn(e, p) {
        MonotoneRunIsSorted(r, before, p, e.now);
        SendKeepsSorted(r.stream, AnswersOf(r.kernel, p), legs[p], e.now, e.datagram, e.now);
        assert events[|events| - 1].now <= clock;
        LaterClock(History(r, events)[p], e.now, clock);
      } else {
        MonotoneRunIsSorted(r, before, p, clock);
        if e.DoPump? {
          ReleaseLeavesOnlyLater(AnswersOf(r.kernel, p), legs[p], clock, e.now);
        }
      }
    }
  }

  lemma LaterClock(leg: Leg, early: real, late: real)
    requires Sorted(leg, early) && early <= late
    ensures Sorted(leg, late)
  {
  }

  /** With a monotone clock a pump leaves nothing that is due, on any leg, after any run. */
  lemma PumpLeavesNothingDue(r: Rig, events: seq<Event>, p: int, clock: real, now: real)
    requires Monotone(events, p) && LastClock(events, p, clock) && p in History(r, events)
    ensures p in Happen(r, History(r, events), DoPump(now))
    ensures forall h | h in Happen(r, History(r, events), DoPump(now))[p].queue :: h.due > now
  {
    hide LegRelease, History;
    MonotoneRunIsSorted(r, events, p, clock);
    ReleaseLeavesOnlyLater(AnswersOf(r.kernel, p), History(r, events)[p], clock, now);
  }

  // ---------------------------------------------------------------- what leaves, and when a queue is full

  /** How many entries at the head are due. */
  function DueAtHead(queue: seq<Held>, now: real): (n: nat)
    ensures n <= |queue|
    ensures forall i | 0 <= i < n :: queue[i].due <= now
    ensures n < |queue| ==> queue[n].due > now
  {
    if queue == [] || queue[0].due > now then 0 else 1 + DueAtHead(queue[1..], now)
  }

  /** The sendtos that let some entries go. */
  function LetGo(queue: seq<Held>, socket: nat, now: real): (wire: seq<Sent>)
    ensures |wire| == |queue|
  {
    seq(|queue|, i requires 0 <= i < |queue| => Sent(socket, queue[i].datagram, Some((queue[i].due, now))))
  }

  /** A RELEASE lets exactly the entries due from the head go, in order, through the leg's socket. */
  lemma {:induction false} ReleaseIs(answers: Answers, leg: Leg, now: real)
    ensures var after, n := LegRelease(answers, leg, now), DueAtHead(leg.queue, now);
      && after.queue == leg.queue[n..] && after.wire == leg.wire + LetGo(leg.queue[..n], leg.inner, now)
      && after.inner == leg.inner && after.imp == leg.imp && after.offers == leg.offers && after.overflowed == leg.overflowed
      && after.delayed == leg.delayed
    decreases |leg.queue|
  {
    var n := DueAtHead(leg.queue, now);
    ReleaseUnfolds(answers, leg, now);
    hide LegRelease, DueAtHead, LetGo, LegPut;
    if leg.queue != [] && leg.queue[0].due <= now {
      var head, rest := leg.queue[0], leg.queue[1..];
      var next := LegPut(answers, leg.(queue := rest), head.datagram, Some((head.due, now)));
      ReleaseIs(answers, next, now);
      HeadThenRest(leg.queue, leg.inner, now, n);
      Reassociate(leg.wire, [Sent(leg.inner, head.datagram, Some((head.due, now)))], LetGo(rest[..n - 1], leg.inner, now));
    } else {
      NothingLetGo(leg.queue, leg.inner, now);
      Reassociate(leg.wire, [], []);
    }
  }

  lemma ReleaseUnfolds(answers: Answers, leg: Leg, now: real)
    ensures if leg.queue == [] || leg.queue[0].due > now then DueAtHead(leg.queue, now) == 0 && LegRelease(answers, leg, now) == leg
      else
        var head, rest := leg.queue[0], leg.queue[1..];
        var next := LegPut(answers, leg.(queue := rest), head.datagram, Some((head.due, now)));
        && DueAtHead(leg.queue, now) == 1 + DueAtHead(rest, now) && LegRelease(answers, leg, now) == LegRelease(answers, next, now)
        && next.queue == rest && next.wire == leg.wire + [Sent(leg.inner, head.datagram, Some((head.due, now)))]
        && next.inner == leg.inner && next.imp == leg.imp && next.offers == leg.offers && next.overflowed == leg.overflowed
        && next.delayed == leg.delayed
  {
  }

  lemma NothingLetGo(queue: seq<Held>, socket: nat, now: real)
    ensures queue[0..] == queue && LetGo(queue[..0], socket, now) == []
  {
  }

  lemma HeadThenRest(queue: seq<Held>, socket: nat, now: real, n: nat)
    requires 0 < n <= |queue|
    ensures queue[1..][n - 1..] == queue[n..]
    ensures LetGo(queue[..n], socket, now)
            == [Sent(socket, queue[0].datagram, Some((queue[0].due, now)))] + LetGo(queue[1..][..n - 1], socket, now)
  {
  }

  predicate IsLost(stream: Stream, leg: Leg) {
    leg.imp.loss > 0.0 && stream(leg.seed, leg.draws) < leg.imp.loss
  }

  /** WHAT A SEND ON A DELAYED LEG DOES with a datagram that is not lost: what is due leaves; then it overflows
      exactly when the queue is still full, and otherwise waits behind the rest for the leg's delay. */
  lemma HeldExactly(stream: Stream, answers: Answers, leg: Leg, d: Datagram, now: real)
    requires leg.imp.delayMs > 0.0 && !IsLost(stream, leg)
    ensures var after := LegSend(stream, answers, leg, d, now);
      var left := leg.queue[DueAtHead(leg.queue, now)..];
      var full := |left| >= MAX_DELAYED_PER_LEG;
      && after.overflowed == leg.overflowed + (if full then 1 else 0)
      && after.offers == leg.offers + [(d, if full then Overflowed else Delayed)]
      && after.queue == left + (if full then [] else [Held(now + leg.imp.delayMs / 1000.0, d)])
      && after.wire == leg.wire + LetGo(leg.queue[..DueAtHead(leg.queue, now)], leg.inner, now)
      && after.inner == leg.inner && after.imp == leg.imp
  {
    hide LegRelease;
    ReleaseIs(answers, leg.(offered := leg.offered + 1, draws := leg.draws + if leg.imp.loss > 0.0 then 1 else 0), now);
  }

  /** LOSS IS NEVER SIGNALLED: the caller is told the datagram's whole length, unless it goes out at once through a
      socket that takes it; then it is told what the socket said. */
  lemma ToldExactly(stream: Stream, answers: Answers, leg: Leg, d: Datagram, n: nat)
    ensures leg.imp.delayMs > 0.0 || IsLost(stream, leg) || answers(|leg.wire|) == None ==> Told(stream, answers, leg, d) == |d.data|
    ensures leg.imp.delayMs <= 0.0 && !IsLost(stream, leg) && answers(|leg.wire|) == Some(n) ==> Told(stream, answers, leg, d) == n
  {
  }

  /** ... and one that is lost, or goes out at once. */
  lemma NotHeldExactly(stream: Stream, answers: Answers, leg: Leg, d: Datagram, now: real)
    requires leg.imp.delayMs <= 0.0 || IsLost(stream, leg)
    ensures var after := LegSend(stream, answers, leg, d, now);
      && after.overflowed == leg.overflowed && after.queue == leg.queue && after.inner == leg.inner && after.imp == leg.imp
      && after.offers == leg.offers + [(d, if IsLost(stream, leg) then Dropped else Direct)]
      && after.wire == leg.wire + if IsLost(stream, leg) then [] else [Sent(leg.inner, d, None)]
  {
    assert leg.wire + [] == leg.wire;
  }

  /** An overflow needs a full queue's worth of offers before it. */
  ghost predicate OverflowsLate(leg: Leg) {
    leg.overflowed > 0 ==> |leg.offers| > MAX_DELAYED_PER_LEG
  }

  lemma SendOverflowsLate(stream: Stream, answers: Answers, leg: Leg, d: Datagram, now: real)
    requires Booked(stream, answers, leg) && OverflowsLate(leg)
    ensures OverflowsLate(LegSend(stream, answers, leg, d, now))
  {
    hide LegSend, CountFate, InOrder, NotEarly, DropsFollowStream;
    if leg.imp.delayMs > 0.0 && !IsLost(stream, leg) {
      HeldExactly(stream, answers, leg, d, now);
    } else {
      NotHeldExactly(stream, answers, leg, d, now);
    }
  }

  lemma {:induction false} RunOverflowsLate(r: Rig, events: seq<Event>, p: int)
    requires LegalRig(r) && p in History(r, events)
    ensures OverflowsLate(History(r, events)[p])
  {
    hide LegSend, LegRelease, Booked;
    var before, e := events[..|events| - 1], events[|events| - 1];
    var legs := History(r, before);
    if p in legs {
      RunOverflowsLate(r, before, p);
      EveryLegIsBooked(r, before, p);
      match e
      case DoWrap(_, _) =>
      case DoSend(q, d, now) =>
        if q == p {
          SendOverflowsLate(r.stream, AnswersOf(r.kernel, p), legs[p], d, now);
        }
      case DoPump(now) => ReleaseIs(AnswersOf(r.kernel, p), legs[p], now);
    }
  }

  lemma {:induction false} NoneCounted(offers: seq<(Datagram, Fate)>, f: Fate)
    ensures CountFate(offers, f) == 0 ==> forall i | 0 <= i < |offers| :: offers[i].1 != f
  {
    if offers != [] {
      NoneCounted(offers[..|offers| - 1], f);
      assert forall i | 0 <= i < |offers| - 1 :: offers[i] == offers[..|offers| - 1][i];
    }
  }

  /** THE QUEUE HOLDS WHAT IT SAYS: over every run, a leg offered no more datagrams than its queue holds loses none
      to a full queue. */
  lemma NoOverflowWithinTheBound(r: Rig, events: seq<Event>, p: int)
    requires LegalRig(r) && p in History(r, events) && |History(r, events)[p].offers| <= MAX_DELAYED_PER_LEG
    ensures var leg := History(r, events)[p];
      leg.overflowed == 0 && forall i | 0 <= i < |leg.offers| :: !leg.offers[i].1.Overflowed?
  {
    hide History;
    RunOverflowsLate(r, events, p);
    EveryLegIsBooked(r, events, p);
    NoneCounted(History(r, events)[p].offers, Overflowed);
  }

  // ---------------------------------------------------------------- the delay

  /** This datagram was offered on the leg at that time. */
  ghost predicate OfferedAt(events: seq<Event>, p: int, d: Datagram, at: real) {
    exists i | 0 <= i < |events| :: events[i] == DoSend(p, d, at)
  }

  /** What waits is due its delay after it was offered, and so was what was let go. */
  ghost predicate DelaysKept(events: seq<Event>, p: int, leg: Leg) {
    && (forall h | h in leg.queue :: OfferedAt(events, p, h.datagram, h.due - leg.imp.delayMs / 1000.0))
    && (forall s | s in leg.wire && s.times.Some? ::
          && OfferedAt(events, p, s.datagram, s.times.value.0 - leg.imp.delayMs / 1000.0)
          && s.times.value.1 >= s.times.value.0)
  }

  lemma OfferedBefore(events: seq<Event>, e: Event, p: int, d: Datagram, at: real)
    requires OfferedAt(events, p, d, at)
    ensures OfferedAt(events + [e], p, d, at)
  {
    var i :| 0 <= i < |events| && events[i] == DoSend(p, d, at);
    assert (events + [e])[i] == events[i];
  }

  lemma DelaysStayKept(events: seq<Event>, e: Event, p: int, leg: Leg)
    requires DelaysKept(events, p, leg)
    ensures DelaysKept(events + [e], p, leg)
  {
    hide OfferedAt;
    forall h | h in leg.queue ensures OfferedAt(events + [e], p, h.datagram, h.due - leg.imp.delayMs / 1000.0) {
      OfferedBefore(events, e, p, h.datagram, h.due - leg.imp.delayMs / 1000.0);
    }
    forall s | s in leg.wire && s.times.Some?
      ensures OfferedAt(events + [e], p, s.datagram, s.times.value.0 - leg.imp.delayMs / 1000.0)
    {
      OfferedBefore(events, e, p, s.datagram, s.times.value.0 - leg.imp.delayMs / 1000.0);
    }
  }

  /** Letting the due entries go keeps it, and so does one more held. */
  lemma LettingGoKeepsDelays(events: seq<Event>, p: int, leg: Leg, now: real, after: Leg)
    requires DelaysKept(events, p, leg) && after.imp == leg.imp
    requires after.queue == leg.queue[DueAtHead(leg.queue, now)..]
    requires after.wire == leg.wire + LetGo(leg.queue[..DueAtHead(leg.queue, now)], leg.inner, now)
    ensures DelaysKept(events, p, after)
  {
    hide OfferedAt, LetGo, DueAtHead;
    var n := DueAtHead(leg.queue, now);
    DueAreDue(leg.queue, now);
    forall h | h in after.queue ensures h in leg.queue {
    }
    forall s | s in after.wire && s !in leg.wire
      ensures s.times.Some? && OfferedAt(events, p, s.datagram, s.times.value.0 - leg.imp.delayMs / 1000.0) && s.times.value.1 >= s.times.value.0
    {
      assert s in LetGo(leg.queue[..n], leg.inner, now);
      var h := LetGoWas(leg.queue[..n], leg.inner, now, s);
      assert h in leg.queue;
    }
  }

  lemma DueAreDue(queue: seq<Held>, now: real)
    ensures forall h | h in queue[..DueAtHead(queue, now)] :: h.due <= now
  {
  }

  lemma LetGoWas(queue: seq<Held>, socket: nat, now: real, s: Sent) returns (h: Held)
    requires s in LetGo(queue, socket, now)
    ensures h in queue && s == Sent(socket, h.datagram, Some((h.due, now)))
  {
    var i :| 0 <= i < |queue| && LetGo(queue, socket, now)[i] == s;
    h := queue[i];
  }

  lemma OneMoreHeldKeepsDelays(events: seq<Event>, p: int, leg: Leg, h: Held, after: Leg)
    requires DelaysKept(events, p, leg) && after.imp == leg.imp && after.queue == leg.queue + [h] && after.wire == leg.wire
    requires OfferedAt(events, p, h.datagram, h.due - leg.imp.delayMs / 1000.0)
    ensures DelaysKept(events, p, after)
  {
  }

  lemma DirectKeepsDelays(events: seq<Event>, p: int, leg: Leg, s: Sent, after: Leg)
    requires DelaysKept(events, p, leg) && after.imp == leg.imp && after.queue == leg.queue
    requires after.wire == leg.wire || (after.wire == leg.wire + [s] && s.times.None?)
    ensures DelaysKept(events, p, after)
  {
  }

  lemma SendKeepsDelays(stream: Stream, answers: Answers, events: seq<Event>, p: int, leg: Leg, d: Datagram, now: real)
    requires DelaysKept(events, p, leg)
    ensures DelaysKept(events + [DoSend(p, d, now)], p, LegSend(stream, answers, leg, d, now))
  {
    hide LegSend, DelaysKept;
    var all := events + [DoSend(p, d, now)];
    var after := LegSend(stream, answers, leg, d, now);
    DelaysStayKept(events, DoSend(p, d, now), p, leg);
    if leg.imp.delayMs > 0.0 && !IsLost(stream, leg) {
      HeldExactly(stream, answers, leg, d, now);
      var n := DueAtHead(leg.queue, now);
      var mid := leg.(queue := leg.queue[n..], wire := leg.wire + LetGo(leg.queue[..n], leg.inner, now));
      LettingGoKeepsDelays(all, p, leg, now, mid);
      assert all[|events|] == DoSend(p, d, now);
      var h := Held(now + leg.imp.delayMs / 1000.0, d);
      if after.queue == mid.queue {
        DirectKeepsDelays(all, p, mid, Sent(leg.inner, d, None), after);
      } else {
        OneMoreHeldKeepsDelays(all, p, mid, h, after);
      }
    } else {
      NotHeldExactly(stream, answers, leg, d, now);
      assert leg.wire + [] == leg.wire;
      DirectKeepsDelays(all, p, leg, Sent(leg.inner, d, None), after);
    }
  }

  /** EVERY DATAGRAM WAITS ITS DELAY, over every run: whatever was let go had been offered on that leg at least the
      leg's delay before, and whatever waits is due exactly that long after it was offered. No assumption on
      the clock. */
  lemma {:induction false} EveryDatagramWaits(r: Rig, events: seq<Event>, p: int)
    requires p in History(r, events)
    ensures DelaysKept(events, p, History(r, events)[p])
  {
    hide LegSend, LegRelease, DelaysKept;
    var before, e := events[..|events| - 1], events[|events| - 1];
    assert before + [e] == events;
    var legs := History(r, before);
    if p in legs {
      EveryDatagramWaits(r, before, p);
      DelaysStayKept(before, e, p, legs[p]);
      match e
      case DoWrap(_, sock) =>
        DirectKeepsDelays(events, p, legs[p], Sent(0, Datagram([], 0), None), History(r, events)[p]);
      case DoSend(q, d, now) =>
        if q == p {
          SendKeepsDelays(r.stream, AnswersOf(r.kernel, p), before, p, legs[p], d, now);
        }
      case DoPump(now) =>
        ReleaseIs(AnswersOf(r.kernel, p), legs[p], now);
        LettingGoKeepsDelays(events, p, legs[p], now, History(r, events)[p]);
    } else {
      NewLegDelays(events, p, PlanOf(r, p), r.seed, History(r, events)[p].inner);
    }
  }

  lemma NewLegDelays(events: seq<Event>, p: int, imp: Impairment, seed: int, sock: nat)
    ensures DelaysKept(events, p, NewLeg(imp, seed, p, sock))
  {
  }

  // ---------------------------------------------------------------- the socket

  /** The socket the leg was last wrapped around. */
  function LastSocket(events: seq<Event>, p: int): Option<nat> {
    if events == [] then None
    else if events[|events| - 1].DoWrap? && events[|events| - 1].pathId == p then Some(events[|events| - 1].sock)
    else LastSocket(events[..|events| - 1], p)
  }

  /** A leg exists once it was wrapped, and sends through the socket it was last wrapped around. */
  lemma {:induction false} SocketIsTheLast(r: Rig, events: seq<Event>, p: int)
    ensures p in History(r, events) <==> LastSocket(events, p).Some?
    ensures p in History(r, events) ==> Some(History(r, events)[p].inner) == LastSocket(events, p)
  {
    hide LegSend, LegRelease;
    if events != [] {
      var before, e := events[..|events| - 1], events[|events| - 1];
      SocketIsTheLast(r, before, p);
      var legs := History(r, before);
      if p in legs {
        match e
        case DoWrap(_, _) =>
        case DoSend(q, d, now) =>
          if legs[p].imp.delayMs > 0.0 && !IsLost(r.stream, legs[p]) {
            HeldExactly(r.stream, AnswersOf(r.kernel, p), legs[p], d, now);
          } else {
            NotHeldExactly(r.stream, AnswersOf(r.kernel, p), legs[p], d, now);
          }
        case DoPump(now) => ReleaseIs(AnswersOf(r.kernel, p), legs[p], now);
      }
    }
  }
}
