/**
 The hub's fire-and-forget pipelines - Metrics, one producer and four lines a cycle, and Tracer, many
 producers and one span an item - as one machine of concurrent steps: producers putting without
 blocking on a bounded queue, one worker draining it in batches, and a close that queues a sentinel.

 A step is one action that no other thread can be seen inside: a queue operation, the call to the
 sender, or a counter updated under the lock.
 */
module Pipeline {
  import opened ByteStrings

  /** `queueMax` 0 is an unbounded queue, as `queue.Queue` has it. */
  datatype Config = Config(queueMax: nat, batchMax: nat)

  datatype Entry<T> = Item(lines: seq<T>) | Stop

  /** Between putting an item and counting it a producer holds the number of lines it put. */
  datatype Producer = Ready | Uncounted(lines: nat) | Refused

  datatype Worker<T> =
    | Waiting
    | Filling(batch: seq<T>)
    | Sending(batch: seq<T>, last: bool)
    | Counting(batch: seq<T>, last: bool, ok: bool)
    | Exited

  datatype State<T> = State(
    queue: seq<Entry<T>>, worker: Worker<T>, producers: seq<Producer>,
    submitted: nat, dropped: nat, sent: nat, failed: nat,
    // what an observer has seen: entries the queue took, entries the worker took off it, batches given
    // to the sender, items refused, lines in batches the sender raised on
    accepted: seq<Entry<T>>, taken: seq<Entry<T>>, handed: seq<seq<T>>, refused: nat, lost: nat)

  datatype Action<T> =
    | Put(producer: nat, lines: seq<T>)
    | Count(producer: nat)
    | Close
    | Take
    | Fill
    | Send(ok: bool)
    | Report

  predicate HasRoom<T>(c: Config, queue: seq<Entry<T>>) {
    c.queueMax == 0 || |queue| < c.queueMax
  }

  function Start<T>(producers: nat): State<T> {
    State([], Waiting, seq(producers, i => Ready), 0, 0, 0, 0, [], [], [], 0, 0)
  }

  /** One step; an action whose thread is not at that point changes nothing. */
  function Next<T>(c: Config, s: State<T>, a: Action<T>): State<T> {
    match a
    case Put(i, lines) =>
      if i >= |s.producers| || s.producers[i] != Ready then s
      else if HasRoom(c, s.queue) then
        s.(queue := s.queue + [Item(lines)], accepted := s.accepted + [Item(lines)],
           producers := s.producers[i := Uncounted(|lines|)])
      else
        s.(producers := s.producers[i := Refused], refused := s.refused + 1)
    case Count(i) =>
      if i >= |s.producers| then s
      else
        (match s.producers[i]
         case Ready => s
         case Uncounted(n) => s.(submitted := s.submitted + n, producers := s.producers[i := Ready])
         case Refused => s.(dropped := s.dropped + 1, producers := s.producers[i := Ready]))
    case Close =>
      if HasRoom(c, s.queue) then s.(queue := s.queue + [Stop], accepted := s.accepted + [Stop]) else s
    case Take =>
      if !s.worker.Waiting? || s.queue == [] then s
      else
        var t := s.(queue := s.queue[1..], taken := s.taken + [s.queue[0]]);
        (match s.queue[0]
         case Stop => t.(worker := Exited)
         case Item(lines) => t.(worker := Filling(lines)))
    case Fill =>
      if !s.worker.Filling? then s
      else if |s.worker.batch| >= c.batchMax || s.queue == [] then s.(worker := Sending(s.worker.batch, false))
      else
        var t := s.(queue := s.queue[1..], taken := s.taken + [s.queue[0]]);
        (match s.queue[0]
         case Stop => t.(worker := Sending(s.worker.batch, true))
         case Item(lines) => t.(worker := Filling(s.worker.batch + lines)))
    case Send(ok) =>
      if !s.worker.Sending? then s
      else s.(worker := Counting(s.worker.batch, s.worker.last, ok), handed := s.handed + [s.worker.batch])
    case Report =>
      if !s.worker.Counting? then s
      else
        var t := s.(worker := if s.worker.last then Exited else Waiting);
        if s.worker.ok then t.(sent := s.sent + |s.worker.batch|)
        else t.(failed := s.failed + 1, lost := s.lost + |s.worker.batch|)
  }

  function Run<T>(c: Config, s: State<T>, actions: seq<Action<T>>): State<T> {
    if actions == [] then s else Next(c, Run(c, s, actions[..|actions| - 1]), actions[|actions| - 1])
  }

  // ---------------------------------------------------------------- reading the history

  function Concat<T>(parts: seq<seq<T>>): seq<T> {
    if parts == [] then [] else Concat(parts[..|parts| - 1]) + parts[|parts| - 1]
  }

  /** The items among some entries, in order. */
  function Items<T>(entries: seq<Entry<T>>): seq<seq<T>> {
    if entries == [] then []
    else
      Items(entries[..|entries| - 1]) +
      match entries[|entries| - 1] case Item(lines) => [lines] case Stop => []
  }

  ghost predicate StopFree<T>(entries: seq<Entry<T>>) {
    forall i | 0 <= i < |entries| :: entries[i].Item?
  }

  /** What was queued before the first sentinel. */
  function BeforeStop<T>(entries: seq<Entry<T>>): seq<Entry<T>> {
    if entries == [] || entries[0].Stop? then [] else [entries[0]] + BeforeStop(entries[1..])
  }

  function Lines<T>(entries: seq<Entry<T>>): seq<T> {
    Concat(Items(entries))
  }

  /** Lines taken off the queue that the sender has not been given yet. */
  function Held<T>(w: Worker<T>): seq<T> {
    match w case Filling(batch) => batch case Sending(batch, _) => batch case _ => []
  }

  /** Lines the worker has taken and no counter shows yet. */
  function Pending<T>(w: Worker<T>): nat {
    match w case Filling(batch) => |batch| case Sending(batch, _) => |batch| case Counting(batch, _, _) => |batch| case _ => 0
  }

  function UncountedLines(producers: seq<Producer>): nat {
    if producers == [] then 0
    else
      (match producers[0] case Uncounted(n) => n case _ => 0) + UncountedLines(producers[1..])
  }

  function UncountedRefusals(producers: seq<Producer>): nat {
    if producers == [] then 0
    else
      (if producers[0].Refused? then 1 else 0) + UncountedRefusals(producers[1..])
  }

  predicate Stopping<T>(w: Worker<T>) {
    match w case Exited => true case Sending(_, last) => last case Counting(_, last, _) => last case _ => false
  }

  // ---------------------------------------------------------------- lemmas about sequences

  lemma ItemsOneMore<T>(entries: seq<Entry<T>>, e: Entry<T>)
    ensures Items(entries + [e]) == Items(entries) + (if e.Item? then [e.lines] else [])
    ensures Items<T>([]) == []
  {
    assert (entries + [e])[..|entries|] == entries;
  }

  lemma ConcatOneMore<T>(parts: seq<seq<T>>, part: seq<T>)
    ensures Concat(parts + [part]) == Concat(parts) + part
    ensures Concat<T>([]) == []
  {
    assert (parts + [part])[..|parts|] == parts;
  }

  lemma {:induction false} ItemsAppend<T>(a: seq<Entry<T>>, b: seq<Entry<T>>)
    ensures Items(a + b) == Items(a) + Items(b)
  {
    hide Items;
    if b == [] {
      Reassociate(a, [], []);
      ItemsOneMore(a, Stop);
      Reassociate(Items(a), [], []);
    } else {
      var front, last := b[..|b| - 1], b[|b| - 1];
      assert b == front + [last];
      ItemsAppend(a, front);
      Reassociate(a, front, [last]);
      ItemsOneMore(a + front, last);
      ItemsOneMore(front, last);
      Reassociate(Items(a), Items(front), if last.Item? then [last.lines] else []);
    }
  }

  lemma {:induction false} ConcatAppend<T>(a: seq<seq<T>>, b: seq<seq<T>>)
    ensures Concat(a + b) == Concat(a) + Concat(b)
  {
    hide Concat;
    if b == [] {
      Reassociate(a, [], []);
      ConcatOneMore<T>([], []);
      Reassociate(Concat(a), [], []);
    } else {
      var front, last := b[..|b| - 1], b[|b| - 1];
      assert b == front + [last];
      ConcatAppend(a, front);
      Reassociate(a, front, [last]);
      ConcatOneMore(a + front, last);
      ConcatOneMore(front, last);
      Reassociate(Concat(a), Concat(front), last);
    }
  }

  lemma LinesAppend<T>(a: seq<Entry<T>>, b: seq<Entry<T>>)
    ensures Lines(a + b) == Lines(a) + Lines(b)
  {
    ItemsAppend(a, b);
    ConcatAppend(Items(a), Items(b));
  }

  lemma LinesOfOne<T>(e: Entry<T>)
    ensures Lines([e]) == match e case Item(lines) => lines case Stop => []
  {
    assert [e][..0] == [];
    match e
    case Stop =>
      assert Items([e]) == [];
    case Item(lines) =>
      assert Items([e]) == [lines] && [lines][..0] == [];
      assert Concat([lines]) == Concat([lines][..0]) + lines == lines;
  }

  lemma {:induction false} UncountedUpdate(producers: seq<Producer>, i: nat, p: Producer)
    requires i < |producers|
    ensures UncountedLines(producers[i := p]) + UncountedLines([producers[i]]) == UncountedLines(producers) + UncountedLines([p])
    ensures UncountedRefusals(producers[i := p]) + UncountedRefusals([producers[i]]) == UncountedRefusals(producers) + UncountedRefusals([p])
  {
    var updated := producers[i := p];
    if i == 0 {
      assert updated[1..] == producers[1..];
    } else {
      assert updated[1..] == producers[1..][i - 1 := p];
      UncountedUpdate(producers[1..], i - 1, p);
    }
  }

  lemma {:induction false} NothingUncounted(n: nat)
    ensures UncountedLines(seq(n, i => Ready)) == 0 && UncountedRefusals(seq(n, i => Ready)) == 0
  {
    if n > 0 {
      assert seq(n, i => Ready)[1..] == seq(n - 1, i => Ready);
      NothingUncounted(n - 1);
    }
  }

  lemma {:induction false} BeforeStopSplits<T>(a: seq<Entry<T>>, b: seq<Entry<T>>)
    requires StopFree(a)
    ensures BeforeStop(a + b) == a + BeforeStop(b)
  {
    hide BeforeStop;
    if a == [] {
      assert a + b == b;
      Reassociate(BeforeStop(b), [], []);
    } else {
      assert a == [a[0]] + a[1..] && a[0] in a;
      BeforeStopSplits(a[1..], b);
      BeforeStopOneMore(a[0], a[1..] + b);
      Reassociate([a[0]], a[1..], b);
      Reassociate([a[0]], a[1..], BeforeStop(b));
    }
  }

  lemma BeforeStopOneMore<T>(e: Entry<T>, rest: seq<Entry<T>>)
    requires !e.Stop?
    ensures BeforeStop([e] + rest) == [e] + BeforeStop(rest)
  {
    assert ([e] + rest)[1..] == rest;
  }

  // ---------------------------------------------------------------- the invariants

  /** FIFO, exactly once: what the sender was given plus what the worker holds is what was taken off the
      queue, and what was taken plus what is queued is what the queue accepted. */
  ghost predicate InOrder<T>(s: State<T>) {
    && s.accepted == s.taken + s.queue
    && Concat(s.handed) + Held(s.worker) == Lines(s.taken)
  }

  /** The counters explain every accepted line and every refused item. */
  ghost predicate Counted<T>(s: State<T>) {
    && |Lines(s.accepted)| == s.sent + s.lost + |Lines(s.queue)| + Pending(s.worker)
    && |Lines(s.accepted)| == s.submitted + UncountedLines(s.producers)
    && s.refused == s.dropped + UncountedRefusals(s.producers)
  }

  /** A sentinel is the last thing the worker ever takes, and it stops only on one. */
  ghost predicate StopsOnce<T>(s: State<T>) {
    if Stopping(s.worker) then
      s.taken != [] && s.taken[|s.taken| - 1].Stop? && StopFree(s.taken[..|s.taken| - 1])
    else StopFree(s.taken)
  }

  ghost predicate Bounded<T>(c: Config, s: State<T>) {
    c.queueMax == 0 || |s.queue| <= c.queueMax
  }

  ghost predicate Inv<T>(c: Config, s: State<T>) {
    InOrder(s) && Counted(s) && StopsOnce(s) && Bounded(c, s)
  }

  lemma StartInv<T>(c: Config, producers: nat)
    ensures Inv(c, Start<T>(producers))
  {
    NothingUncounted(producers);
  }

  /** The queue took one more entry, and the producers' uncounted lines grew by what it carries. */
  lemma Enqueued<T>(c: Config, s: State<T>, e: Entry<T>, producers: seq<Producer>)
    requires Inv(c, s) && HasRoom(c, s.queue)
    requires UncountedLines(producers) == UncountedLines(s.producers) + |Lines([e])|
    requires UncountedRefusals(producers) == UncountedRefusals(s.producers)
    ensures Inv(c, s.(queue := s.queue + [e], accepted := s.accepted + [e], producers := producers))
  {
    hide Lines, UncountedLines, UncountedRefusals, Concat;
    LinesAppend(s.accepted, [e]);
    LinesAppend(s.queue, [e]);
    assert s.accepted + [e] == s.taken + (s.queue + [e]);
  }

  lemma PutInv<T>(c: Config, s: State<T>, a: Action<T>)
    requires Inv(c, s) && a.Put?
    ensures Inv(c, Next(c, s, a))
  {
    hide Lines, Concat;
    var t := Next(c, s, a);
    if a.producer < |s.producers| {
      UncountedUpdate(s.producers, a.producer, t.producers[a.producer]);
    }
    if t.queue != s.queue {
      hide Inv;
      LinesOfOne(Item(a.lines));
      Enqueued(c, s, Item(a.lines), t.producers);
    }
  }

  lemma CountInv<T>(c: Config, s: State<T>, a: Action<T>)
    requires Inv(c, s) && a.Count?
    ensures Inv(c, Next(c, s, a))
  {
    hide Lines, Concat;
    if a.producer < |s.producers| {
      UncountedUpdate(s.producers, a.producer, Next(c, s, a).producers[a.producer]);
    }
  }

  lemma ProducerStepInv<T>(c: Config, s: State<T>, a: Action<T>)
    requires Inv(c, s) && (a.Put? || a.Count? || a.Close?)
    ensures Inv(c, Next(c, s, a))
  {
    hide Inv, Lines;
    if a.Put? {
      PutInv(c, s, a);
    } else if a.Count? {
      CountInv(c, s, a);
    } else if HasRoom(c, s.queue) {
      LinesOfOne<T>(Stop);
      Enqueued(c, s, Stop, s.producers);
    }
  }

  /** The worker took one entry off the queue and now holds its lines as well. */
  lemma DequeueMovesLines<T>(c: Config, s: State<T>, a: Action<T>)
    requires (a.Take? || a.Fill?) && Next(c, s, a).taken != s.taken
    ensures var t, e := Next(c, s, a), s.queue[0];
      && t == s.(queue := s.queue[1..], taken := s.taken + [e], worker := t.worker)
      && Held(t.worker) == Held(s.worker) + Lines([e])
      && Pending(t.worker) == Pending(s.worker) + |Lines([e])|
      && !Stopping(s.worker) && (Stopping(t.worker) <==> e.Stop?)
  {
    hide Lines;
    LinesOfOne(s.queue[0]);
  }

  lemma DequeueInv<T>(c: Config, s: State<T>, a: Action<T>)
    requires Inv(c, s) && (a.Take? || a.Fill?)
    ensures Inv(c, Next(c, s, a))
  {
    hide Lines, UncountedLines, UncountedRefusals, Concat;
    if Next(c, s, a).taken != s.taken {
      DequeueMovesLines(c, s, a);
      var e := s.queue[0];
      assert s.queue == [e] + s.queue[1..];
      LinesAppend([e], s.queue[1..]);
      LinesAppend(s.taken, [e]);
      assert s.accepted == (s.taken + [e]) + s.queue[1..];
      assert (s.taken + [e])[..|s.taken|] == s.taken;
      Reassociate(Concat(s.handed), Held(s.worker), Lines([e]));
    }
  }

  lemma SendInv<T>(c: Config, s: State<T>, a: Action<T>)
    requires Inv(c, s) && (a.Send? || a.Report?)
    ensures Inv(c, Next(c, s, a))
  {
    hide Lines, Concat, UncountedLines, UncountedRefusals;
    var t := Next(c, s, a);
    assert t.taken == s.taken && t.queue == s.queue && t.accepted == s.accepted && t.producers == s.producers;
    if a.Send? && s.worker.Sending? {
      ConcatOneMore(s.handed, s.worker.batch);
      assert Concat(t.handed) + [] == Concat(t.handed);
    }
  }

  lemma NextInv<T>(c: Config, s: State<T>, a: Action<T>)
    requires Inv(c, s)
    ensures Inv(c, Next(c, s, a))
  {
    hide Inv, Next;
    match a
    case Put(_, _) => ProducerStepInv(c, s, a);
    case Count(_) => ProducerStepInv(c, s, a);
    case Close => ProducerStepInv(c, s, a);
    case Take => DequeueInv(c, s, a);
    case Fill => DequeueInv(c, s, a);
    case Send(_) => SendInv(c, s, a);
    case Report => SendInv(c, s, a);
  }

  lemma StepKeepsProducers<T>(c: Config, s: State<T>, a: Action<T>)
    ensures |Next(c, s, a).producers| == |s.producers|
  {
  }

  lemma {:induction false} ProducersStay<T>(c: Config, s: State<T>, actions: seq<Action<T>>)
    ensures |Run(c, s, actions).producers| == |s.producers|
  {
    hide Next;
    if actions != [] {
      ProducersStay(c, s, actions[..|actions| - 1]);
      StepKeepsProducers(c, Run(c, s, actions[..|actions| - 1]), actions[|actions| - 1]);
    }
  }

  /** Every reachable state of every interleaving satisfies the invariants. */
  lemma {:induction false} EveryRunInv<T>(c: Config, producers: nat, actions: seq<Action<T>>)
    ensures Inv(c, Run(c, Start(producers), actions))
  {
    hide Inv, Next;
    if actions == [] {
      StartInv<T>(c, producers);
    } else {
      EveryRunInv(c, producers, actions[..|actions| - 1]);
      NextInv(c, Run(c, Start(producers), actions[..|actions| - 1]), actions[|actions| - 1]);
    }
  }

  // ---------------------------------------------------------------- what a run promises

  /** EXACTLY ONCE, IN ORDER. In any interleaving the lines given to the sender, with those the worker
      still holds and those still queued, are the accepted lines in the order they were accepted; and
      once the worker has exited, what it handed over is exactly what was queued before the sentinel. */
  lemma HandedInOrder<T>(c: Config, producers: nat, actions: seq<Action<T>>)
    ensures var s := Run(c, Start(producers), actions);
            && Concat(s.handed) + Held(s.worker) + Lines(s.queue) == Lines(s.accepted)
            && (s.worker.Exited? ==> Concat(s.handed) == Lines(BeforeStop(s.accepted)))
  {
    hide Next, Run, Lines, Concat;
    EveryRunInv(c, producers, actions);
    var s := Run(c, Start(producers), actions);
    LinesAppend(s.taken, s.queue);
    if s.worker.Exited? {
      ExitedHasHandedAll(c, s);
    }
  }

  lemma ExitedHasHandedAll<T>(c: Config, s: State<T>)
    requires Inv(c, s) && s.worker.Exited?
    ensures Concat(s.handed) == Lines(BeforeStop(s.accepted))
  {
    hide Lines, Concat;
    var before, stop := s.taken[..|s.taken| - 1], [s.taken[|s.taken| - 1]];
    assert s.taken == before + stop;
    assert s.accepted == before + (stop + s.queue);
    BeforeStopSplits(before, stop + s.queue);
    assert BeforeStop(stop + s.queue) == [];
    LinesAppend(before, stop);
    LinesOfOne(stop[0]);
    assert before + [] == before;
    assert Concat(s.handed) + [] == Concat(s.handed);
  }

  /** CONSERVATION. At every instant the accepted lines are those sent, lost in a failed batch, queued
      or in the worker's hands; `submitted` lags them only by the items put and not yet counted, with a
      single producer by at most that producer's one item; and `dropped` counts every refused item. */
  lemma EveryLineIsAccountedFor<T>(c: Config, producers: nat, actions: seq<Action<T>>)
    ensures var s := Run(c, Start(producers), actions);
            && |s.producers| == producers
            && |Lines(s.accepted)| == s.sent + s.lost + |Lines(s.queue)| + Pending(s.worker)
            && |Lines(s.accepted)| == s.submitted + UncountedLines(s.producers)
            && s.refused == s.dropped + UncountedRefusals(s.producers)
            && (producers == 1 ==>
                  |Lines(s.accepted)| == s.submitted + (match s.producers[0] case Uncounted(n) => n case _ => 0))
            && (c.queueMax == 0 || |s.queue| <= c.queueMax)
  {
    EveryRunInv(c, producers, actions);
    ProducersStay(c, Start<T>(producers), actions);
    var s := Run(c, Start(producers), actions);
    if producers == 1 {
      assert s.producers[1..] == [];
    }
  }

  /** `bundles` says which whole items each batch handed over was made of, `open` those in the open batch. */
  ghost predicate Whole<T>(s: State<T>, bundles: seq<seq<seq<T>>>, open: seq<seq<T>>) {
    && |bundles| == |s.handed|
    && (forall i | 0 <= i < |s.handed| :: s.handed[i] == Concat(bundles[i]))
    && Concat(open) == Held(s.worker)
    && Concat(bundles) + open == Items(s.taken)
    && (!s.worker.Filling? && !s.worker.Sending? ==> open == [])
  }

  lemma DequeueKeepsWhole<T>(c: Config, s: State<T>, a: Action<T>, bundles: seq<seq<seq<T>>>, open: seq<seq<T>>)
    returns (open': seq<seq<T>>)
    requires a.Take? || a.Fill?
    requires Whole(s, bundles, open)
    ensures Whole(Next(c, s, a), bundles, open')
  {
    var t := Next(c, s, a);
    open' := open;
    if t.taken != s.taken {
      var e := s.queue[0];
      assert (s.taken + [e])[..|s.taken|] == s.taken;
      match e
      case Stop =>
        assert Items(t.taken) == Items(s.taken) + [];
      case Item(lines) =>
        open' := open + [lines];
        assert open'[..|open'| - 1] == open;
        assert Items(t.taken) == Items(s.taken) + [lines];
    }
  }

  lemma SendKeepsWhole<T>(c: Config, s: State<T>, ok: bool, bundles: seq<seq<seq<T>>>, open: seq<seq<T>>)
    requires Whole(s, bundles, open) && s.worker.Sending?
    ensures Whole(Next(c, s, Send(ok)), bundles + [open], [])
  {
    assert (bundles + [open])[..|bundles|] == bundles;
  }

  /** WHOLE ITEMS ONLY. Every batch handed over is a run of whole consecutive items, in the order they
      were taken, so a cycle's four lines are never split across two batches. */
  lemma {:induction false} BatchesAreWholeItems<T>(c: Config, producers: nat, actions: seq<Action<T>>)
    returns (bundles: seq<seq<seq<T>>>, open: seq<seq<T>>)
    ensures Whole(Run(c, Start(producers), actions), bundles, open)
  {
    if actions == [] {
      bundles, open := [], [];
    } else {
      var a := actions[|actions| - 1];
      bundles, open := BatchesAreWholeItems(c, producers, actions[..|actions| - 1]);
      var s := Run(c, Start(producers), actions[..|actions| - 1]);
      if a.Take? || a.Fill? {
        open := DequeueKeepsWhole(c, s, a, bundles, open);
      } else if a.Send? && s.worker.Sending? {
        SendKeepsWhole(c, s, a.ok, bundles, open);
        bundles, open := bundles + [open], [];
      }
    }
  }

  /** No batch reaches the limit by more than the item that crossed it. */
  ghost predicate Narrow<T>(c: Config, s: State<T>, width: nat) {
    && (forall i | 0 <= i < |s.handed| :: |s.handed[i]| < c.batchMax + width)
    && |Held(s.worker)| < c.batchMax + width
    && (forall i | 0 <= i < |s.queue| && s.queue[i].Item? :: |s.queue[i].lines| <= width)
  }

  /** When no item is wider than `width` lines, no batch is as long as the limit plus `width`: at most 63
      lines for Metrics' limit of 60 and four lines a cycle. */
  lemma {:induction false} BatchesAreBounded<T>(c: Config, producers: nat, actions: seq<Action<T>>, width: nat)
    requires c.batchMax > 0
    requires forall i | 0 <= i < |actions| && actions[i].Put? :: |actions[i].lines| <= width
    ensures Narrow(c, Run(c, Start(producers), actions), width)
  {
    hide Next, Narrow;
    if actions == [] {
      StartIsNarrow<T>(c, producers, width);
    } else {
      var front, last := actions[..|actions| - 1], actions[|actions| - 1];
      assert forall i | 0 <= i < |front| :: front[i] == actions[i];
      BatchesAreBounded(c, producers, front, width);
      StepStaysNarrow(c, Run(c, Start(producers), front), last, width);
    }
  }

  lemma StartIsNarrow<T>(c: Config, producers: nat, width: nat)
    requires c.batchMax > 0
    ensures Narrow(c, Start<T>(producers), width)
  {
  }

  lemma StepStaysNarrow<T>(c: Config, s: State<T>, a: Action<T>, width: nat)
    requires c.batchMax > 0 && Narrow(c, s, width) && (a.Put? ==> |a.lines| <= width)
    ensures Narrow(c, Next(c, s, a), width)
  {
  }

  // ---------------------------------------------------------------- the worker always finishes

  /** The worker's only possible next action; `oks(n)` is whether the sender takes the n-th batch. */
  function WorkerAction<T>(s: State<T>, oks: nat -> bool): Action<T> {
    match s.worker
    case Waiting => Take
    case Filling(_) => Fill
    case Sending(_, _) => Send(oks(|s.handed|))
    case Counting(_, _, _) => Report
    case Exited => Take
  }

  /** Nothing left for the worker to do: it has exited, or it waits on an empty queue. */
  predicate Quiet<T>(s: State<T>) {
    s.worker.Exited? || (s.worker.Waiting? && s.queue == [])
  }

  function Work<T>(s: State<T>): nat {
    4 * |s.queue| + match s.worker case Waiting => 0 case Counting(_, _, _) => 1 case Sending(_, _) => 2 case Filling(_) => 3 case Exited => 0
  }

  /** The worker runs alone until it is quiet, whatever the sender does. */
  function Drain<T>(c: Config, s: State<T>, oks: nat -> bool): (t: State<T>)
    ensures Quiet(t)
    ensures t.accepted == s.accepted
    decreases Work(s)
  {
    if Quiet(s) then s else Drain(c, Next(c, s, WorkerAction(s, oks)), oks)
  }

  lemma {:induction false} DrainIsARun<T>(c: Config, start: State<T>, actions: seq<Action<T>>, oks: nat -> bool)
    returns (all: seq<Action<T>>)
    ensures Drain(c, Run(c, start, actions), oks) == Run(c, start, all)
    decreases Work(Run(c, start, actions))
  {
    hide Next, Work, WorkerAction, Run, Drain, Quiet;
    var s := Run(c, start, actions);
    DrainUnfolds(c, s, oks);
    if Quiet(s) {
      all := actions;
    } else {
      RunOneMore(c, start, actions, WorkerAction(s, oks));
      WorkDecreases(c, s, oks);
      all := DrainIsARun(c, start, actions + [WorkerAction(s, oks)], oks);
    }
  }

  lemma RunOneMore<T>(c: Config, start: State<T>, actions: seq<Action<T>>, a: Action<T>)
    ensures Run(c, start, actions + [a]) == Next(c, Run(c, start, actions), a)
  {
    hide Next;
    assert (actions + [a])[..|actions|] == actions;
  }

  lemma WorkDecreases<T>(c: Config, s: State<T>, oks: nat -> bool)
    requires !Quiet(s)
    ensures Work(Next(c, s, WorkerAction(s, oks))) < Work(s)
  {
  }

  lemma {:induction false} StopFreeIsWhole<T>(a: seq<Entry<T>>)
    requires StopFree(a)
    ensures BeforeStop(a) == a
  {
    BeforeStopSplits(a, []);
    assert a + [] == a;
  }

  /** NOTHING IS STRANDED. From any reachable state, with the producers silent and the sender succeeding
      or raising as it likes, the worker comes to rest having handed over every line accepted before the
      first sentinel, exactly once and in order, and with every one of them counted. */
  lemma DrainHandsOverEverything<T>(c: Config, producers: nat, actions: seq<Action<T>>, oks: nat -> bool)
    ensures var t := Drain(c, Run(c, Start(producers), actions), oks);
            && Concat(t.handed) == Lines(BeforeStop(t.accepted))
            && t.sent + t.lost == |Lines(BeforeStop(t.accepted))|
  {
    var all := DrainIsARun(c, Start(producers), actions, oks);
    HandedInOrder(c, producers, all);
    EveryRunInv(c, producers, all);
    var t := Run(c, Start(producers), all);
    if t.worker.Waiting? {
      assert t.accepted == t.taken + [] == t.taken;
      StopFreeIsWhole(t.accepted);
    }
    LinesAppend(t.taken, t.queue);
  }

  // ---------------------------------------------------------------- what is taken, and when it is sent

  /** A PUT NEVER WAITS: an item offered by a producer that is ready is queued whole and counted by its lines when
      the queue is unbounded or not full, and refused whole and counted once when it is full. */
  lemma OfferedExactly<T>(c: Config, s: State<T>, i: nat, lines: seq<T>)
    requires i < |s.producers| && s.producers[i].Ready?
    ensures var t := Next(c, Next(c, s, Put(i, lines)), Count(i));
      && t.producers == s.producers && t.worker == s.worker && t.sent == s.sent && t.failed == s.failed
      && (if c.queueMax == 0 || |s.queue| < c.queueMax then
            t.queue == s.queue + [Item(lines)] && t.submitted == s.submitted + |lines| && t.dropped == s.dropped
          else
            t.queue == s.queue && t.submitted == s.submitted && t.dropped == s.dropped + 1)
  {
    assert s.producers[i := Uncounted(|lines|)][i := Ready] == s.producers;
    assert s.producers[i := Refused][i := Ready] == s.producers;
  }

  /** A CLOSE queues its sentinel exactly when there is room for it, and changes nothing else. */
  lemma ClosedExactly<T>(c: Config, s: State<T>)
    ensures var t := Next(c, s, Close);
      && t.queue == s.queue + (if c.queueMax == 0 || |s.queue| < c.queueMax then [Stop] else [])
      && t.worker == s.worker && t.producers == s.producers && t.submitted == s.submitted && t.dropped == s.dropped
  {
    assert s.queue + [] == s.queue;
  }

  /** A BATCH IS SENT SHORT only when there was nothing to add: the worker stops filling exactly when the batch has
      reached its size, the queue is empty, or a sentinel comes; until then it takes the next item. */
  lemma FilledExactly<T>(c: Config, s: State<T>)
    requires s.worker.Filling?
    ensures var t := Next(c, s, Fill);
      && (t.worker.Sending? <==> |s.worker.batch| >= c.batchMax || s.queue == [] || s.queue[0].Stop?)
      && (t.worker.Sending? ==> t.worker.batch == s.worker.batch)
      && (!t.worker.Sending? ==> t.worker == Filling(s.worker.batch + s.queue[0].lines) && t.queue == s.queue[1..])
  {
  }

  // ---------------------------------------------------------------- what the counters say

  /** What the sender did with each batch it was given: true when it took it, false when it raised. */
  ghost function Verdicts<T>(c: Config, start: State<T>, actions: seq<Action<T>>): seq<bool> {
    if actions == [] then []
    else
      var before, a := actions[..|actions| - 1], actions[|actions| - 1];
      Verdicts(c, start, before) + if a.Send? && Run(c, start, before).worker.Sending? then [a.ok] else []
  }

  /** The lines of the first `n` batches with this verdict. */
  function LinesBy<T>(handed: seq<seq<T>>, verdicts: seq<bool>, n: nat, ok: bool): nat
    requires n <= |handed| && n <= |verdicts|
  {
    if n == 0 then 0 else LinesBy(handed, verdicts, n - 1, ok) + if verdicts[n - 1] == ok then |handed[n - 1]| else 0
  }

  function BatchesBy(verdicts: seq<bool>, n: nat, ok: bool): nat
    requires n <= |verdicts|
  {
    if n == 0 then 0 else BatchesBy(verdicts, n - 1, ok) + if verdicts[n - 1] == ok then 1 else 0
  }

  /** Batches whose outcome has reached the counters: all but one that was just sent. */
  function CountedBatches<T>(s: State<T>): nat {
    if s.worker.Counting? && s.handed != [] then |s.handed| - 1 else |s.handed|
  }

  /** The counters follow the verdicts, and a batch just sent is the last one handed over. */
  ghost predicate FollowsVerdicts<T>(s: State<T>, verdicts: seq<bool>) {
    && |verdicts| == |s.handed|
    && (s.worker.Counting? ==>
          s.handed != [] && s.worker.batch == s.handed[|s.handed| - 1] && s.worker.ok == verdicts[|verdicts| - 1])
    && s.sent == LinesBy(s.handed, verdicts, CountedBatches(s), true)
    && s.lost == LinesBy(s.handed, verdicts, CountedBatches(s), false)
    && s.failed == BatchesBy(verdicts, CountedBatches(s), false)
  }

  lemma {:induction false} LinesByPrefix<T>(handed: seq<seq<T>>, batch: seq<T>, verdicts: seq<bool>, v: bool, n: nat, ok: bool)
    requires n <= |handed| && n <= |verdicts|
    ensures LinesBy(handed + [batch], verdicts + [v], n, ok) == LinesBy(handed, verdicts, n, ok)
    ensures BatchesBy(verdicts + [v], n, ok) == BatchesBy(verdicts, n, ok)
  {
    if n > 0 {
      LinesByPrefix(handed, batch, verdicts, v, n - 1, ok);
    }
  }

  lemma StepFollowsVerdicts<T>(c: Config, s: State<T>, verdicts: seq<bool>, a: Action<T>)
    requires FollowsVerdicts(s, verdicts)
    ensures FollowsVerdicts(Next(c, s, a), verdicts + if a.Send? && s.worker.Sending? then [a.ok] else [])
  {
    if a.Send? && s.worker.Sending? {
      LinesByPrefix(s.handed, s.worker.batch, verdicts, a.ok, |s.handed|, true);
      LinesByPrefix(s.handed, s.worker.batch, verdicts, a.ok, |s.handed|, false);
    } else {
      assert verdicts + [] == verdicts;
    }
  }

  /** THE COUNTERS SAY WHAT THE SENDER DID, in every interleaving: `sent` is the lines of the batches it took, `lost`
      those of the batches it raised on, and `failed` how many it raised on - each as soon as the worker has
      counted it. */
  lemma {:induction false} CountersFollowTheSender<T>(c: Config, producers: nat, actions: seq<Action<T>>)
    ensures FollowsVerdicts(Run(c, Start(producers), actions), Verdicts(c, Start(producers), actions))
  {
    hide Next, FollowsVerdicts;
    if actions == [] {
      NothingSentYet<T>(producers);
    } else {
      var before := actions[..|actions| - 1];
      CountersFollowTheSender(c, producers, before);
      StepFollowsVerdicts(c, Run(c, Start(producers), before), Verdicts(c, Start(producers), before), actions[|actions| - 1]);
    }
  }

  lemma NothingSentYet<T>(producers: nat)
    ensures FollowsVerdicts(Start<T>(producers), [])
  {
  }

  /** The answers a sender gives to batches `n` and on. */
  function AnswersFrom(oks: nat -> bool, n: nat, m: nat): seq<bool>
    requires n <= m
  {
    seq(m - n, i requires 0 <= i < m - n => oks(n + i))
  }

  /** A drain asks the sender about each further batch once, in order, and its counters follow the answers. */
  lemma {:induction false} DrainFollowsTheSender<T>(c: Config, s: State<T>, oks: nat -> bool, verdicts: seq<bool>)
    requires FollowsVerdicts(s, verdicts)
    ensures var t := Drain(c, s, oks);
      && |t.handed| >= |s.handed|
      && FollowsVerdicts(t, verdicts + AnswersFrom(oks, |s.handed|, |t.handed|)) && CountedBatches(t) == |t.handed|
    decreases Work(s)
  {
    hide Next, Work, FollowsVerdicts, Drain;
    DrainUnfolds(c, s, oks);
    if Quiet(s) {
      assert verdicts + AnswersFrom(oks, |s.handed|, |s.handed|) == verdicts;
    } else {
      var a := WorkerAction(s, oks);
      var next := Next(c, s, a);
      WorkDecreases(c, s, oks);
      StepFollowsVerdicts(c, s, verdicts, a);
      OneAnswer(c, s, oks);
      var more := verdicts + if a.Send? && s.worker.Sending? then [a.ok] else [];
      DrainFollowsTheSender(c, next, oks, more);
      AnswersJoin(oks, |s.handed|, |next.handed|, |Drain(c, next, oks).handed|, verdicts);
    }
  }

  lemma OneAnswer<T>(c: Config, s: State<T>, oks: nat -> bool)
    requires !Quiet(s)
    ensures var a := WorkerAction(s, oks);
      && |Next(c, s, a).handed| == |s.handed| + (if s.worker.Sending? then 1 else 0)
      && (s.worker.Sending? ==> a.Send? && a.ok == oks(|s.handed|))
  {
  }

  lemma AnswersJoin(oks: nat -> bool, a: nat, b: nat, n: nat, verdicts: seq<bool>)
    requires a <= b <= n && b <= a + 1
    ensures verdicts + AnswersFrom(oks, a, n) == verdicts + (if b == a then [] else [oks(a)]) + AnswersFrom(oks, b, n)
  {
    assert AnswersFrom(oks, a, n) == (if b == a then [] else [oks(a)]) + AnswersFrom(oks, b, n);
  }

  // ---------------------------------------------------------------- the object

  lemma DrainUnfolds<T>(c: Config, s: State<T>, oks: nat -> bool)
    ensures Quiet(s) ==> Drain(c, s, oks) == s
    ensures !Quiet(s) ==> Drain(c, s, oks) == Drain(c, Next(c, s, WorkerAction(s, oks)), oks)
  {
  }

  /** The emitter itself, with one producer; `state` follows it step by step. The sender takes its n-th
      batch or raises as `sender(n)` says. */
  class Metrics<T> {
    const config: Config
    const sender: nat -> bool
    var calls: nat
    var queue: seq<Entry<T>>
    var submitted: nat
    var dropped: nat
    var sent: nat
    var failed: nat
    ghost var state: State<T>

    ghost predicate Follows()
      reads this
    {
      && state.queue == queue && state.submitted == submitted && state.dropped == dropped
      && state.sent == sent && state.failed == failed && |state.handed| == calls
      && |state.producers| == 1 && state.producers[0].Ready?
    }

    constructor (c: Config, sender: nat -> bool)
      ensures Follows() && config == c && this.sender == sender && state == Start(1)
    {
      config, this.sender, calls := c, sender, 0;
      queue, submitted, dropped, sent, failed, state := [], 0, 0, 0, 0, Start(1);
    }

    /** One cycle offered: queued whole and counted by its lines, or refused whole and counted once. */
    method ObserveRouter(lines: seq<T>)
      requires Follows()
      modifies this
      ensures Follows() && state == Next(config, Next(config, old(state), Put(0, lines)), Count(0))
    {
      state := Next(config, Next(config, state, Put(0, lines)), Count(0));
      if HasRoom(config, queue) {
        queue := queue + [Item(lines)];
        submitted := submitted + |lines|;
      } else {
        dropped := dropped + 1;
      }
    }

    method Close()
      requires Follows()
      modifies this
      ensures Follows() && state == Next(config, old(state), Action.Close)
    {
      state := Next(config, state, Action.Close);
      if HasRoom(config, queue) {
        queue := queue + [Stop];
      }
    }

    method Send(batch: seq<T>)
      requires Follows() && state.worker.Sending? && state.worker.batch == batch
      modifies this`calls, this`sent, this`failed, this`state
      ensures Follows() && state.worker == if old(state).worker.last then Exited else Waiting
      ensures Drain(config, state, sender) == Drain(config, old(state), sender)
      ensures state.queue == old(state).queue
    {
      hide Drain;
      DrainUnfolds(config, state, sender);
      state := Next(config, state, Action.Send(sender(calls)));
      DrainUnfolds(config, state, sender);
      state := Next(config, state, Report);
      if sender(calls) {
        sent := sent + |batch|;
      } else {
        failed := failed + 1;
      }
      calls := calls + 1;
    }

    /** The worker's loop, up to where it would block: it comes to rest where the machine's worker does. */
    method DrainQueue()
      requires Follows() && state.worker.Waiting?
      modifies this
      ensures Follows() && state == Drain(config, old(state), sender)
    {
      hide Drain, Next;
      while queue != []
        invariant Follows() && state.worker.Waiting?
        invariant Drain(config, state, sender) == Drain(config, old(state), sender)
        decreases |queue|
      {
        var item := queue[0];
        DrainUnfolds(config, state, sender);
        WorkerTakes(config, state);
        queue, state := queue[1..], Next(config, state, Take);
        if item.Stop? {
          DrainUnfolds(config, state, sender);
          return;
        }
        var batch := item.lines;
        while |batch| < config.batchMax && queue != []
          invariant Follows() && state.worker == Filling(batch)
          invariant Drain(config, state, sender) == Drain(config, old(state), sender)
          decreases |queue|
        {
          var nxt := queue[0];
          DrainUnfolds(config, state, sender);
          WorkerFills(config, state);
          queue, state := queue[1..], Next(config, state, Fill);
          if nxt.Stop? {
            Send(batch);
            DrainUnfolds(config, state, sender);
            return;
          }
          batch := batch + nxt.lines;
        }
        DrainUnfolds(config, state, sender);
        WorkerFills(config, state);
        state := Next(config, state, Fill);
        Send(batch);
      }
      DrainUnfolds(config, state, sender);
    }
  }

  lemma WorkerTakes<T>(c: Config, s: State<T>)
    requires s.worker.Waiting? && s.queue != []
    ensures Next(c, s, Take)
      == s.(queue := s.queue[1..], taken := s.taken + [s.queue[0]],
            worker := match s.queue[0] case Stop => Exited case Item(lines) => Filling(lines))
  {
  }

  lemma WorkerFills<T>(c: Config, s: State<T>)
    requires s.worker.Filling?
    ensures |s.worker.batch| >= c.batchMax || s.queue == [] ==> Next(c, s, Fill) == s.(worker := Sending(s.worker.batch, false))
    ensures |s.worker.batch| < c.batchMax && s.queue != [] ==>
      Next(c, s, Fill)
        == s.(queue := s.queue[1..], taken := s.taken + [s.queue[0]],
              worker := if s.queue[0].Stop? then Sending(s.worker.batch, true) else Filling(s.worker.batch + s.queue[0].lines))
  {
  }
}
