/**
 Per-path counters: the sampler that turns byte counters into rates, and the even downsampler.
 Rates are exact reals.
 */
module Counters {
  import opened ByteStrings

  // ---------------------------------------------------------------- downsampling

  /** Python's `round` of the exact quotient num / den: to nearest, a tie to the even neighbour. */
  function Round(num: nat, den: nat): nat
    requires den > 0
  {
    var q, rem := num / den, num % den;
    if 2 * rem < den || (2 * rem == den && q % 2 == 0) then q else q + 1
  }

  /** The i-th index _thin picks from n points when it keeps k. */
  function Pick(i: nat, n: nat, k: nat): nat
    requires k >= 2 && n >= 1
  {
    Round(i * (n - 1), k - 1)
  }

  lemma AtLeastOne(m: int, b: int)
    requires b > 0
    ensures m >= 1 ==> m * b >= b
    ensures m <= -1 ==> m * b <= -b
    ensures m >= 2 ==> m * b >= 2 * b
    ensures m <= -2 ==> m * b <= -2 * b
  {
    if m >= 1 {
      assert (m - 1) * b >= 0;
    }
    if m <= -1 {
      assert (-m - 1) * b >= 0;
    }
    if m >= 2 {
      assert (m - 2) * b >= 0;
    }
    if m <= -2 {
      assert (-m - 2) * b >= 0;
    }
  }

  lemma DivMod(m: nat, b: nat)
    requires b > 0
    ensures m == (m / b) * b + m % b && 0 <= m % b < b
  {
  }

  lemma DivUnique(m: nat, b: nat, q: int, r: int)
    requires b > 0 && m == q * b + r && 0 <= r < b
    ensures m / b == q && m % b == r
  {
    DivMod(m, b);
    var d := m / b - q;
    assert d * b == (m / b) * b - q * b;
    AtLeastOne(d, b);
  }

  /** The rounded quotient is within half of the exact one. */
  lemma RoundIsNear(num: nat, den: nat)
    requires den > 0
    ensures 0 - den <= 2 * (num - Round(num, den) * den) <= den
    ensures 2 * (num - Round(num, den) * den) in {0 - den, den} ==> Round(num, den) % 2 == 0
  {
    DivMod(num, den);
    assert (num / den + 1) * den == (num / den) * den + den;
  }

  lemma RoundOfMultiple(m: nat, b: nat)
    requires b > 0
    ensures Round(m * b, b) == m
  {
    DivUnique(m * b, b, m, 0);
  }

  lemma PickEnds(n: nat, k: nat)
    requires 2 <= k < n
    ensures Pick(0, n, k) == 0
    ensures Pick(k - 1, n, k) == n - 1
  {
    RoundOfMultiple(0, k - 1);
    RoundOfMultiple(n - 1, k - 1);
    assert (k - 1) * (n - 1) == (n - 1) * (k - 1);
  }

  /** Two positions a stride a/b apart, each rounded, lie the floor or the ceiling of the stride apart. */
  lemma GapArithmetic(a: int, b: int, q: int, r: int, gap: int)
    requires b > 0 && a == q * b + r && 0 < r < b
    requires -b <= a - gap * b <= b
    ensures gap == q || gap == q + 1
  {
    var d := q - gap;
    assert d * b == q * b - gap * b;
    AtLeastOne(d, b);
  }

  lemma GapOfWholeStride(i: nat, b: nat, q: nat)
    requires b > 0
    ensures Round((i + 1) * (q * b), b) - Round(i * (q * b), b) == q
  {
    assert i * (q * b) == (i * q) * b && (i + 1) * (q * b) == (i * q + q) * b;
    RoundOfMultiple(i * q, b);
    RoundOfMultiple(i * q + q, b);
  }

  lemma GapNearStride(x: nat, a: nat, b: nat)
    requires b > 0
    ensures 0 - b <= a - (Round(x + a, b) - Round(x, b)) * b <= b
  {
    RoundIsNear(x, b);
    RoundIsNear(x + a, b);
    Distribute(Round(x + a, b), Round(x, b), b);
  }

  lemma Distribute(y: int, x: int, b: int)
    ensures (y - x) * b == y * b - x * b
  {
  }

  /** Two neighbouring picks differ by the floor or the ceiling of the stride (n-1)/(k-1). */
  lemma GapIsEven(i: nat, n: nat, k: nat)
    requires 2 <= k < n
    ensures EvenGap(i, n, k)
  {
    hide Round;
    var a, b := n - 1, k - 1;
    DivMod(a, b);
    if a % b == 0 {
      assert a == (a / b) * b;
      GapOfWholeStride(i, b, a / b);
    } else {
      assert (i + 1) * a == i * a + a;
      GapNearStride(i * a, a, b);
      GapArithmetic(a, b, a / b, a % b, Pick(i + 1, n, k) - Pick(i, n, k));
    }
  }

  /** The gap after the i-th pick: the stride rounded down, or up when it is not whole. */
  predicate EvenGap(i: nat, n: nat, k: nat)
    requires 2 <= k < n
  {
    var gap, floor := Pick(i + 1, n, k) - Pick(i, n, k), (n - 1) / (k - 1);
    gap == floor || (gap == floor + 1 && (n - 1) % (k - 1) != 0)
  }

  lemma StrideAtLeastOne(n: nat, k: nat)
    requires 2 <= k < n
    ensures (n - 1) / (k - 1) >= 1
  {
    DivMod(n - 1, k - 1);
    AtLeastOne((n - 1) / (k - 1), k - 1);
  }

  lemma {:induction false} PicksIncrease(i: nat, j: nat, n: nat, k: nat)
    requires 2 <= k < n && i < j
    ensures Pick(i, n, k) < Pick(j, n, k)
    decreases j - i
  {
    GapIsEven(i, n, k);
    StrideAtLeastOne(n, k);
    if i + 1 < j {
      PicksIncrease(i + 1, j, n, k);
    }
  }

  lemma PickInRange(i: nat, n: nat, k: nat)
    requires 2 <= k < n && i < k
    ensures Pick(i, n, k) < n
  {
    PickEnds(n, k);
    if i < k - 1 {
      PicksIncrease(i, k - 1, n, k);
    }
  }

  function Thin<T>(pts: seq<T>, k: int): (r: seq<T>)
    requires pts != [] || k >= 0
    ensures k >= |pts| ==> r == pts
    ensures 1 <= k < |pts| ==> |r| == k && r[k - 1] == pts[|pts| - 1]
    ensures k < |pts| ==> |r| >= 1
  {
    var n := |pts|;
    if k >= n then pts
    else if k <= 1 then [pts[n - 1]]
    else
      PickEnds(n, k);
      seq(k, i requires 0 <= i < k => PickInRange(i, n, k); pts[Pick(i, n, k)])
  }

  /** DOWNSAMPLING IS EVEN AND INJECTIVE. For 2 <= k < n the chosen indices are k in number, strictly
      increasing, start at 0, end at n - 1, and every gap is the floor or the ceiling of the stride. */
  lemma ThinIsEven<T>(pts: seq<T>, k: nat)
    requires 2 <= k < |pts|
    ensures var n := |pts|;
            && |Thin(pts, k)| == k
            && Thin(pts, k)[0] == pts[0] && Thin(pts, k)[k - 1] == pts[n - 1]
            && (forall i | 0 <= i < k :: Pick(i, n, k) < n && Thin(pts, k)[i] == pts[Pick(i, n, k)])
            && (forall i, j | 0 <= i < j < k :: Pick(i, n, k) < Pick(j, n, k))
            && (forall i | 0 <= i < k - 1 :: EvenGap(i, n, k))
  {
    hide Pick;
    var n := |pts|;
    PickEnds(n, k);
    forall i | 0 <= i < k ensures Pick(i, n, k) < n {
      PickInRange(i, n, k);
    }
    forall i, j | 0 <= i < j < k ensures Pick(i, n, k) < Pick(j, n, k) {
      PicksIncrease(i, j, n, k);
    }
    forall i | 0 <= i < k - 1 ensures EvenGap(i, n, k) {
      GapIsEven(i, n, k);
    }
  }

  /** EACH PICK IS THE NEAREST to its even share of the way, a tie going to the even neighbour. */
  lemma PicksAreNearest(i: nat, n: nat, k: nat)
    requires k >= 2 && n >= 1
    ensures var off := 2 * (i * (n - 1) - Pick(i, n, k) * (k - 1));
      0 - (k - 1) <= off <= k - 1 && (off in {0 - (k - 1), k - 1} ==> Pick(i, n, k) % 2 == 0)
  {
    RoundIsNear(i * (n - 1), k - 1);
  }

  // ---------------------------------------------------------------- the sampler

  datatype Baseline = Baseline(tx: nat, rx: nat, at: real)

  /** What one sample reports: absolute counters, and rates where there is one. */
  datatype Reading = Reading(txBytes: Option<nat>, rxBytes: Option<nat>, txBps: Option<real>, rxBps: Option<real>)

  const NO_READING := Reading(None, None, None, None)

  /** The rates a sample may report against its baseline: none across a stalled clock or a decrease. */
  function Rated(prev: Baseline, tx: nat, rx: nat, now: real): Reading {
    if now <= prev.at || tx < prev.tx || rx < prev.rx then Reading(Some(tx), Some(rx), None, None)
    else
      Reading(Some(tx), Some(rx),
              Some((tx - prev.tx) as real * 8.0 / (now - prev.at)),
              Some((rx - prev.rx) as real * 8.0 / (now - prev.at)))
  }

  function NextPrev(prev: map<string, Baseline>, iface: string, tx: Option<nat>, rx: Option<nat>, now: real): map<string, Baseline> {
    if tx.None? || rx.None? then prev - {iface} else prev[iface := Baseline(tx.value, rx.value, now)]
  }

  function Reported(prev: map<string, Baseline>, iface: string, tx: Option<nat>, rx: Option<nat>, now: real): Reading {
    if tx.None? || rx.None? then NO_READING
    else if iface !in prev then Reading(tx, rx, None, None)
    else Rated(prev[iface], tx.value, rx.value, now)
  }

  class CounterSampler {
    var prev: map<string, Baseline>

    constructor ()
      ensures prev == map[]
    {
      prev := map[];
    }

    /** `tx` and `rx` are what the two sysfs reads gave, None for a failed one. */
    method Sample(iface: string, tx: Option<nat>, rx: Option<nat>, now: real) returns (r: Reading)
      modifies this
      ensures prev == NextPrev(old(prev), iface, tx, rx, now)
      ensures r == Reported(old(prev), iface, tx, rx, now)
    {
      if tx.None? || rx.None? {
        prev := prev - {iface};
        return NO_READING;
      }
      var had := if iface in prev then Some(prev[iface]) else None;
      prev := prev[iface := Baseline(tx.value, rx.value, now)];
      if had.None? {
        return Reading(tx, rx, None, None);
      }
      var elapsed := now - had.value.at;
      if elapsed <= 0.0 {
        return Reading(tx, rx, None, None);
      }
      if tx.value < had.value.tx || rx.value < had.value.rx {
        return Reading(tx, rx, None, None);
      }
      return Reading(tx, rx, Some((tx.value - had.value.tx) as real * 8.0 / elapsed),
                     Some((rx.value - had.value.rx) as real * 8.0 / elapsed));
    }
  }

  // ---------------------------------------------------------------- the world it samples

  /** One interface: what its counters show and what it has truly moved. */
  datatype Wire = Wire(tx: nat, rx: nat, movedTx: nat, movedRx: nat)

  datatype Event =
    | Move(iface: string, tx: nat, rx: nat)
    | Reset(iface: string)
    | Poll(iface: string, now: real, txReads: bool, rxReads: bool)

  /** The sampler, the wires, and what has been reported for each interface: rate times elapsed, summed. */
  datatype World = World(prev: map<string, Baseline>, wires: map<string, Wire>, tally: map<string, Tally>)

  datatype Tally = Tally(txBits: real, rxBits: real)

  function WireOf(w: World, iface: string): Wire {
    if iface in w.wires then w.wires[iface] else Wire(0, 0, 0, 0)
  }

  function TallyOf(w: World, iface: string): Tally {
    if iface in w.tally then w.tally[iface] else Tally(0.0, 0.0)
  }

  function ReadingAt(w: World, iface: string, now: real, txReads: bool, rxReads: bool): Reading {
    var wire := WireOf(w, iface);
    Reported(w.prev, iface, if txReads then Some(wire.tx) else None, if rxReads then Some(wire.rx) else None, now)
  }

  /** Rate times the time it covers. */
  function Bits(rate: Option<real>, w: World, iface: string, now: real): real {
    if rate.Some? && iface in w.prev then rate.value * (now - w.prev[iface].at) else 0.0
  }

  function Happen(w: World, e: Event): World {
    match e
    case Move(iface, tx, rx) =>
      var wire := WireOf(w, iface);
      w.(wires := w.wires[iface := Wire(wire.tx + tx, wire.rx + rx, wire.movedTx + tx, wire.movedRx + rx)])
    case Reset(iface) =>
      w.(wires := w.wires[iface := WireOf(w, iface).(tx := 0, rx := 0)])
    case Poll(iface, now, txReads, rxReads) =>
      var wire := WireOf(w, iface);
      var r := ReadingAt(w, iface, now, txReads, rxReads);
      var t := TallyOf(w, iface);
      w.(prev := NextPrev(w.prev, iface, if txReads then Some(wire.tx) else None, if rxReads then Some(wire.rx) else None, now),
         tally := w.tally[iface := Tally(t.txBits + Bits(r.txBps, w, iface, now), t.rxBits + Bits(r.rxBps, w, iface, now))])
  }

  function History(events: seq<Event>): World {
    if events == [] then World(map[], map[], map[]) else Happen(History(events[..|events| - 1]), events[|events| - 1])
  }

  lemma RateTimesElapsed(delta: nat, elapsed: real, rate: real)
    requires elapsed > 0.0 && rate == delta as real * 8.0 / elapsed
    ensures rate >= 0.0
    ensures rate * elapsed == 8.0 * delta as real
  {
    var bits := delta as real * 8.0;
    assert bits / elapsed * elapsed == bits;
  }

  /** Every reported rate is non-negative, and times its interval it is eight times a counter difference. */
  lemma ReportedBits(w: World, iface: string, now: real, txReads: bool, rxReads: bool)
    ensures var r := ReadingAt(w, iface, now, txReads, rxReads);
            && (r.txBps.Some? <==> r.rxBps.Some?)
            && (r.txBps.Some? ==>
                  && iface in w.prev && r.txBps.value >= 0.0 && r.rxBps.value >= 0.0
                  && WireOf(w, iface).tx >= w.prev[iface].tx && WireOf(w, iface).rx >= w.prev[iface].rx
                  && Bits(r.txBps, w, iface, now) == 8.0 * (WireOf(w, iface).tx - w.prev[iface].tx) as real
                  && Bits(r.rxBps, w, iface, now) == 8.0 * (WireOf(w, iface).rx - w.prev[iface].rx) as real)
  {
    var r, wire := ReadingAt(w, iface, now, txReads, rxReads), WireOf(w, iface);
    if r.txBps.Some? {
      RateTimesElapsed(wire.tx - w.prev[iface].tx, now - w.prev[iface].at, r.txBps.value);
      RateTimesElapsed(wire.rx - w.prev[iface].rx, now - w.prev[iface].at, r.rxBps.value);
    }
  }

  /** The state of one interface's books: `base` is what had truly moved at the baseline. */
  ghost predicate Sound(w: World, iface: string, baseTx: nat, baseRx: nat) {
    var wire, t := WireOf(w, iface), TallyOf(w, iface);
    && baseTx <= wire.movedTx && baseRx <= wire.movedRx
    && t.txBits <= 8.0 * baseTx as real && t.rxBits <= 8.0 * baseRx as real
    && (iface in w.prev ==>
          && wire.tx + baseTx <= w.prev[iface].tx + wire.movedTx
          && wire.rx + baseRx <= w.prev[iface].rx + wire.movedRx)
  }

  lemma PollStaysSound(w: World, e: Event, iface: string, baseTx: nat, baseRx: nat)
    requires e.Poll? && e.iface == iface && Sound(w, iface, baseTx, baseRx)
    ensures Sound(Happen(w, e), iface, WireOf(w, iface).movedTx, WireOf(w, iface).movedRx)
  {
    ReportedBits(w, iface, e.now, e.txReads, e.rxReads);
  }

  lemma {:induction false} HistoryIsSound(events: seq<Event>, iface: string) returns (baseTx: nat, baseRx: nat)
    ensures Sound(History(events), iface, baseTx, baseRx)
  {
    baseTx, baseRx := 0, 0;
    if events != [] {
      var w, e := History(events[..|events| - 1]), events[|events| - 1];
      baseTx, baseRx := HistoryIsSound(events[..|events| - 1], iface);
      if e.Poll? && e.iface == iface {
        PollStaysSound(w, e, iface, baseTx, baseRx);
        baseTx, baseRx := WireOf(w, iface).movedTx, WireOf(w, iface).movedRx;
      }
    }
  }

  /** RATES NEVER EXCEED REALITY. Over any run of transfers on any interfaces, resets whether or not the
      next sample could tell, failed reads and stalled or backward clocks: the sum of rate times elapsed
      for an interface is at most eight times the bytes it truly moved, in each direction, and every
      rate the next sample could report is non-negative. */
  lemma RatesNeverExceedReality(events: seq<Event>, iface: string, now: real, txReads: bool, rxReads: bool)
    ensures var w := History(events);
            var r := ReadingAt(w, iface, now, txReads, rxReads);
            && TallyOf(w, iface).txBits <= 8.0 * WireOf(w, iface).movedTx as real
            && TallyOf(w, iface).rxBits <= 8.0 * WireOf(w, iface).movedRx as real
            && (r.txBps.Some? ==> r.txBps.value >= 0.0 && r.rxBps.value >= 0.0)
  {
    var baseTx, baseRx := HistoryIsSound(events, iface);
    ReportedBits(History(events), iface, now, txReads, rxReads);
  }

  // ---------------------------------------------------------------- when nothing is lost

  /** Nothing reset, failed or stalled on this interface. */
  predicate Undisturbed(events: seq<Event>, iface: string) {
    forall i | 0 <= i < |events| && events[i].iface == iface ::
      match events[i]
      case Move(_, _, _) => true
      case Reset(_) => false
      case Poll(_, now, txReads, rxReads) =>
        txReads && rxReads && forall j | 0 <= j < i && events[j].iface == iface && events[j].Poll? :: events[j].now < now
  }

  predicate Polled(events: seq<Event>, iface: string) {
    exists i | 0 <= i < |events| :: events[i].Poll? && events[i].iface == iface
  }

  /** What had truly moved when the interface was first sampled, or so far if it never was. */
  function FirstMoved(events: seq<Event>, iface: string): (nat, nat) {
    if events != [] && Polled(events[..|events| - 1], iface) then FirstMoved(events[..|events| - 1], iface)
    else (WireOf(History(events), iface).movedTx, WireOf(History(events), iface).movedRx)
  }

  /** The books after an undisturbed run: counters show everything moved, and what was reported is
      exactly what moved between the first sample and the baseline. */
  ghost predicate Exact(events: seq<Event>, iface: string, base: (nat, nat)) {
    var w := History(events);
    var wire, t := WireOf(w, iface), TallyOf(w, iface);
    && wire.tx == wire.movedTx && wire.rx == wire.movedRx
    && (Polled(events, iface) <==> iface in w.prev)
    && (if iface in w.prev then
          && w.prev[iface].tx == base.0 && w.prev[iface].rx == base.1
          && t.txBits == 8.0 * (base.0 - FirstMoved(events, iface).0) as real
          && t.rxBits == 8.0 * (base.1 - FirstMoved(events, iface).1) as real
          && LastPolledAt(events, iface, w.prev[iface].at)
        else t == Tally(0.0, 0.0))
  }

  ghost predicate LastPolledAt(events: seq<Event>, iface: string, at: real) {
    exists i | 0 <= i < |events| :: events[i].Poll? && events[i].iface == iface && events[i].now == at
  }

  lemma QuietIsNoPoll(before: seq<Event>, e: Event, iface: string, at: real)
    requires e.iface != iface || !e.Poll?
    ensures Polled(before + [e], iface) <==> Polled(before, iface)
    ensures LastPolledAt(before, iface, at) ==> LastPolledAt(before + [e], iface, at)
  {
    var events := before + [e];
    assert events[|before|] == e;
    assert forall i | 0 <= i < |before| :: events[i] == before[i];
    if i :| 0 <= i < |before| && before[i].Poll? && before[i].iface == iface {
      assert events[i].Poll?;
    }
    if i :| 0 <= i < |before| && before[i].Poll? && before[i].iface == iface && before[i].now == at {
      assert events[i].Poll?;
    }
  }

  lemma QuietStepIsExact(events: seq<Event>, iface: string, base: (nat, nat))
    requires events != [] && Exact(events[..|events| - 1], iface, base)
    requires var e := events[|events| - 1]; e.iface != iface || e.Move?
    ensures Exact(events, iface, base)
  {
    hide Polled, LastPolledAt, Happen, WireOf, TallyOf;
    var before, e := events[..|events| - 1], events[|events| - 1];
    assert events == before + [e];
    var w := History(before);
    QuietIsNoPoll(before, e, iface, if iface in w.prev then w.prev[iface].at else 0.0);
    QuietWorld(w, e, iface);
  }

  lemma QuietWorld(w: World, e: Event, iface: string)
    requires e.iface != iface || e.Move?
    ensures var after := Happen(w, e);
      && (iface in after.prev <==> iface in w.prev) && (iface in w.prev ==> after.prev[iface] == w.prev[iface])
      && TallyOf(after, iface) == TallyOf(w, iface)
      && (WireOf(w, iface).tx == WireOf(w, iface).movedTx ==> WireOf(after, iface).tx == WireOf(after, iface).movedTx)
      && (WireOf(w, iface).rx == WireOf(w, iface).movedRx ==> WireOf(after, iface).rx == WireOf(after, iface).movedRx)
  {
  }

  lemma PollStepIsExact(events: seq<Event>, iface: string, base: (nat, nat))
    requires events != [] && Exact(events[..|events| - 1], iface, base)
    requires Undisturbed(events, iface)
    requires var e := events[|events| - 1]; e.iface == iface && e.Poll?
    requires var wire := WireOf(History(events[..|events| - 1]), iface); base.0 <= wire.movedTx && base.1 <= wire.movedRx
    ensures var wire := WireOf(History(events), iface); Exact(events, iface, (wire.movedTx, wire.movedRx))
  {
    var before, e := events[..|events| - 1], events[|events| - 1];
    var w := History(before);
    ReportedBits(w, iface, e.now, e.txReads, e.rxReads);
    assert events[|events| - 1].iface == iface;
    assert LastPolledAt(events, iface, e.now);
    if iface in w.prev {
      var i :| 0 <= i < |before| && before[i].Poll? && before[i].iface == iface && before[i].now == w.prev[iface].at;
      assert events[i] == before[i];
      assert w.prev[iface].at < e.now;
    }
  }

  lemma {:induction false} UndisturbedIsExact(events: seq<Event>, iface: string) returns (base: (nat, nat))
    requires Undisturbed(events, iface)
    ensures Exact(events, iface, base)
    ensures var wire := WireOf(History(events), iface); base.0 <= wire.movedTx && base.1 <= wire.movedRx
    ensures events != [] && events[|events| - 1].Poll? && events[|events| - 1].iface == iface ==>
              var wire := WireOf(History(events), iface); base == (wire.movedTx, wire.movedRx)
  {
    base := (0, 0);
    if events != [] {
      var before, e := events[..|events| - 1], events[|events| - 1];
      assert forall i | 0 <= i < |before| :: before[i] == events[i];
      base := UndisturbedIsExact(before, iface);
      if e.iface == iface && e.Poll? {
        PollStepIsExact(events, iface, base);
        var wire := WireOf(History(events), iface);
        base := (wire.movedTx, wire.movedRx);
      } else {
        assert events[|events| - 1] == e;
        QuietStepIsExact(events, iface, base);
      }
    }
  }

  /** ... WITH EQUALITY WHEN NOTHING IS LOST. If no reset, failed read or stalled clock touched the
      interface, then at each sample the sum is exactly eight times what moved since the first one. */
  lemma UndisturbedRatesAreExact(events: seq<Event>, iface: string)
    requires Undisturbed(events, iface)
    requires events != [] && events[|events| - 1].Poll? && events[|events| - 1].iface == iface
    ensures var w := History(events);
            && TallyOf(w, iface).txBits == 8.0 * (WireOf(w, iface).movedTx - FirstMoved(events, iface).0) as real
            && TallyOf(w, iface).rxBits == 8.0 * (WireOf(w, iface).movedRx - FirstMoved(events, iface).1) as real
  {
    var base := UndisturbedIsExact(events, iface);
    assert Polled(events, iface) by {
      assert events[|events| - 1].Poll?;
    }
  }

  // ---------------------------------------------------------------- each sample, from the run before it

  /** What the last sample of an interface read, and when, if both reads succeeded. */
  ghost function LastRead(events: seq<Event>, iface: string): Option<Baseline> {
    if events == [] then None
    else
      var before, e := events[..|events| - 1], events[|events| - 1];
      if e.Poll? && e.iface == iface then
        if e.txReads && e.rxReads then Some(Baseline(WireOf(History(before), iface).tx, WireOf(History(before), iface).rx, e.now)) else None
      else LastRead(before, iface)
  }

  lemma {:induction false} BaselineIsTheLastRead(events: seq<Event>, iface: string)
    ensures var w := History(events);
      LastRead(events, iface) == if iface in w.prev then Some(w.prev[iface]) else None
  {
    if events != [] {
      BaselineIsTheLastRead(events[..|events| - 1], iface);
    }
  }

  /** EACH SAMPLE IN FULL, over every run: it shows both counters as they stand when both could be read and
      nothing otherwise; and it gives rates exactly when the sample before also read both, the clock has gone
      on and neither counter has gone back, each rate then being eight times what its own counter gained over
      the time between. */
  lemma SampleExactly(events: seq<Event>, iface: string, now: real, txReads: bool, rxReads: bool)
    ensures var w := History(events);
      var r, wire, last := ReadingAt(w, iface, now, txReads, rxReads), WireOf(w, iface), LastRead(events, iface);
      && r.txBytes == (if txReads && rxReads then Some(wire.tx) else None)
      && r.rxBytes == (if txReads && rxReads then Some(wire.rx) else None)
      && (r.txBps.Some? <==> r.rxBps.Some?)
      && (r.txBps.Some? <==> txReads && rxReads && last.Some? && now > last.value.at && wire.tx >= last.value.tx && wire.rx >= last.value.rx)
      && (r.txBps.Some? ==>
            && r.txBps.value * (now - last.value.at) == 8.0 * (wire.tx - last.value.tx) as real
            && r.rxBps.value * (now - last.value.at) == 8.0 * (wire.rx - last.value.rx) as real)
  {
    BaselineIsTheLastRead(events, iface);
    var w := History(events);
    ReadingShows(w, iface, now, txReads, rxReads);
    ReportedBits(w, iface, now, txReads, rxReads);
    hide ReadingAt, WireOf, History, LastRead;
  }

  lemma ReadingShows(w: World, iface: string, now: real, txReads: bool, rxReads: bool)
    ensures var r, wire := ReadingAt(w, iface, now, txReads, rxReads), WireOf(w, iface);
      && r.txBytes == (if txReads && rxReads then Some(wire.tx) else None)
      && r.rxBytes == (if txReads && rxReads then Some(wire.rx) else None)
      && (r.txBps.Some? <==> r.rxBps.Some?)
      && (r.txBps.Some? <==> && txReads && rxReads && iface in w.prev && now > w.prev[iface].at
                             && wire.tx >= w.prev[iface].tx && wire.rx >= w.prev[iface].rx)
  {
  }
}
