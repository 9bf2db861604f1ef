/**
 The hub's snapshot of every router: the registry, the loop that feeds it, and the answer /api/status
 gives from it. Times are exact seconds; a status document is any value of type `D`.
 */
module Freshness {
  import opened ByteStrings

  const POLL_INTERVAL_S := 5.0
  const ROUTER_POLL_TIMEOUT_S := 4.0
  const STATUS_STALE_CYCLES := 3.0

  datatype Sample<D> = Sample(status: Option<D>, at: real, reachable: bool, configError: Option<string>)

  function Times(n: nat, x: real): real {
    x * n as real
  }

  /** One poll cycle at its longest. */
  function CycleS(routerCount: nat): real {
    POLL_INTERVAL_S + Times(if routerCount < 1 then 1 else routerCount, ROUTER_POLL_TIMEOUT_S)
  }

  function StatusMaxAgeS(routerCount: nat): real {
    STATUS_STALE_CYCLES * CycleS(routerCount)
  }

  // ---------------------------------------------------------------- the registry

  function SampleOf<D>(status: Option<D>, reachable: Option<bool>, configError: Option<string>, now: real): Sample<D> {
    Sample(status, now, if reachable.Some? then reachable.value else status.Some?, configError)
  }

  class Registry<D(==)> {
    var routerState: map<string, Sample<D>>

    constructor ()
      ensures routerState == map[]
    {
      routerState := map[];
    }

    method NoteRouter(name: string, status: Option<D>, reachable: Option<bool>, configError: Option<string>, now: real)
      modifies this
      ensures routerState == old(routerState)[name := SampleOf(status, reachable, configError, now)]
    {
      var answered := if reachable.Some? then reachable.value else status.Some?;
      routerState := routerState[name := Sample(status, now, answered, configError)];
    }

    method RouterSample(name: string) returns (sample: Option<Sample<D>>)
      ensures sample == if name in routerState then Some(routerState[name]) else None
    {
      if name in routerState {
        return Some(routerState[name]);
      }
      return None;
    }

    /** /api/status, read from the snapshot. */
    method CachedStatus(name: string, maxAge: real, now: real) returns (answer: Answer<D>)
      ensures answer == AnswerFrom(routerState, name, maxAge, now)
    {
      var sample := RouterSample(name);
      if sample.None? {
        return Answer(503, None);
      }
      var age := now - sample.value.at;
      if age < 0.0 {
        age := 0.0;
      }
      var stale := age > maxAge;
      if sample.value.configError.Some? && sample.value.configError.value != "" {
        return Answer(500, None);
      }
      if sample.value.status.None? {
        return Answer(502, None);
      }
      if stale {
        return Answer(504, None);
      }
      return Answer(200, sample.value.status);
    }
  }

  /** The HTTP code, and the document for a 200. */
  datatype Answer<D> = Answer(code: int, document: Option<D>)

  function AgeOf<D>(sample: Sample<D>, now: real): real {
    if now < sample.at then 0.0 else now - sample.at
  }

  function AnswerFrom<D>(state: map<string, Sample<D>>, name: string, maxAge: real, now: real): Answer<D> {
    if name !in state then Answer(503, None)
    else
      var s := state[name];
      if s.configError.Some? && s.configError.value != "" then Answer(500, None)
      else if s.status.None? then Answer(502, None)
      else if AgeOf(s, now) > maxAge then Answer(504, None)
      else Answer(200, s.status)
  }

  // ---------------------------------------------------------------- the poll loop

  /** A configured router; its configuration error, if any, is settled once before the first poll. */
  datatype Router = Router(name: string, configError: Option<string>)

  datatype Phase = Polling(index: nat) | Sleeping

  /** The loop and what it has stored. `since` is when the current fetch or sleep began; `notes` is every
      note_router call so far, and `noted` when each position in the list was last noted. */
  datatype Poller<D> = Poller(
    state: map<string, Sample<D>>, phase: Phase, now: real, since: real,
    notes: seq<(string, Sample<D>)>, noted: seq<Option<real>>)

  datatype Step<D> =
    | Pass(seconds: real)
    | Fetched(status: Option<D>, reachable: bool)
    | Wake

  function FirstPhase(routers: seq<Router>): Phase {
    if routers == [] then Sleeping else Polling(0)
  }

  function Start<D>(routers: seq<Router>, now: real): Poller<D> {
    Poller(map[], FirstPhase(routers), now, now, [], seq(|routers|, i => None))
  }

  /** What the loop records for a router: its fetch, or its configuration error without one. */
  function Noted<D>(r: Router, status: Option<D>, reachable: bool, now: real): Sample<D> {
    if r.configError.Some? then SampleOf(None, Some(false), r.configError, now)
    else SampleOf(status, Some(reachable), None, now)
  }

  /** One step; a step the loop is not ready for changes nothing. */
  function Next<D>(routers: seq<Router>, p: Poller<D>, s: Step<D>): Poller<D> {
    match s
    case Pass(d) => if d >= 0.0 then p.(now := p.now + d) else p
    case Wake => if p.phase.Sleeping? then p.(phase := FirstPhase(routers), since := p.now) else p
    case Fetched(status, reachable) =>
      if p.phase.Sleeping? || p.phase.index >= |routers| || |p.noted| != |routers| then p
      else
        var i := p.phase.index;
        var r := routers[i];
        var sample := Noted(r, status, reachable, p.now);
        p.(state := p.state[r.name := sample], notes := p.notes + [(r.name, sample)],
           noted := p.noted[i := Some(p.now)],
           phase := if i + 1 < |routers| then Polling(i + 1) else Sleeping, since := p.now)
  }

  function Run<D>(routers: seq<Router>, p: Poller<D>, steps: seq<Step<D>>): Poller<D> {
    if steps == [] then p else Next(routers, Run(routers, p, steps[..|steps| - 1]), steps[|steps| - 1])
  }

  /** How long the loop may stay where it is: a fetch its timeout, a sleep its interval, and a router that
      is never dialled no time at all. */
  function Patience<D>(routers: seq<Router>, p: Poller<D>): real {
    match p.phase
    case Sleeping => POLL_INTERVAL_S
    case Polling(i) => if i < |routers| && routers[i].configError.Some? then 0.0 else ROUTER_POLL_TIMEOUT_S
  }

  /** A live poller: nothing ever takes longer than it may. */
  ghost predicate Live<D>(routers: seq<Router>, start: Poller<D>, steps: seq<Step<D>>) {
    forall k | 0 <= k <= |steps| :: InTime(routers, Run(routers, start, steps[..k]))
  }

  ghost predicate InTime<D>(routers: seq<Router>, p: Poller<D>) {
    p.now - p.since <= Patience(routers, p)
  }

  // ---------------------------------------------------------------- the age bound

  /** How old position `j`'s last note can be. */
  function AgeBound<D>(n: nat, p: Poller<D>, j: nat): real
    requires j < n && (p.phase.Polling? ==> p.phase.index < n)
  {
    (match p.phase
     case Sleeping => Times(n - 1 - j, ROUTER_POLL_TIMEOUT_S)
     case Polling(i) =>
       if j < i then Times(i - 1 - j, ROUTER_POLL_TIMEOUT_S)
       else Times(n - 1 - j, ROUTER_POLL_TIMEOUT_S) + POLL_INTERVAL_S + Times(i, ROUTER_POLL_TIMEOUT_S))
    + (p.now - p.since)
  }

  ghost predicate Aged<D>(routers: seq<Router>, p: Poller<D>) {
    && |p.noted| == |routers|
    && p.since <= p.now
    && (p.phase.Polling? ==> p.phase.index < |routers|)
    && (forall j | 0 <= j < |routers| && p.noted[j].Some? ::
          && p.now - p.noted[j].value <= AgeBound(|routers|, p, j)
          && routers[j].name in p.state && p.noted[j].value <= p.state[routers[j].name].at <= p.now)
    // a full pass notes everybody
    && (p.phase.Polling? ==> forall j | 0 <= j < p.phase.index :: p.noted[j].Some?)
    && (p.phase.Sleeping? ==> forall j | 0 <= j < |routers| :: p.noted[j].Some?)
  }

  lemma FetchedStaysAged<D>(routers: seq<Router>, p: Poller<D>, s: Step<D>)
    requires Aged(routers, p) && s.Fetched? && p.phase.Polling?
    requires p.now - p.since <= ROUTER_POLL_TIMEOUT_S
    ensures Aged(routers, Next(routers, p, s))
  {
    var q := Next(routers, p, s);
    forall j | 0 <= j < |routers| && q.noted[j].Some?
      ensures q.now - q.noted[j].value <= AgeBound(|routers|, q, j)
    {
      if j != p.phase.index {
        assert p.noted[j].Some? && p.now - p.noted[j].value <= AgeBound(|routers|, p, j);
      }
    }
  }

  lemma {:induction false} LiveRunsStayAged<D>(routers: seq<Router>, now: real, steps: seq<Step<D>>)
    requires Live(routers, Start<D>(routers, now), steps)
    ensures Aged(routers, Run(routers, Start<D>(routers, now), steps))
  {
    if steps != [] {
      var start, before, s := Start<D>(routers, now), steps[..|steps| - 1], steps[|steps| - 1];
      forall k | 0 <= k <= |before|
        ensures InTime(routers, Run(routers, start, before[..k]))
      {
        assert before[..k] == steps[..k];
      }
      LiveRunsStayAged(routers, now, before);
      var p := Run(routers, start, before);
      assert before == before[..|before|];
      assert InTime(routers, Run(routers, start, steps[..|before|]));
      if s.Fetched? && p.phase.Polling? {
        FetchedStaysAged(routers, p, s);
      }
    }
  }

  /** A LIVE POLLER IS NEVER STALE. With every fetch within its timeout and every sleep within its
      interval, for any number of routers: the first pass notes every router, and from then on its sample is at every instant
      at most one cycle old, so the snapshot never answers 504 for it, nor 503. */
  lemma LiveSamplesAreFresh<D>(routers: seq<Router>, now: real, steps: seq<Step<D>>, j: nat)
    requires Live(routers, Start<D>(routers, now), steps)
    requires j < |routers|
    ensures var p := Run(routers, Start<D>(routers, now), steps);
            |p.noted| == |routers| &&
            (p.phase.Sleeping? ==> p.noted[j].Some?) &&
            (p.noted[j].Some? ==>
               var name := routers[j].name;
               && name in p.state && AgeOf(p.state[name], p.now) <= CycleS(|routers|)
               && AnswerFrom(p.state, name, StatusMaxAgeS(|routers|), p.now).code in {200, 500, 502})
  {
    LiveRunsStayAged(routers, now, steps);
    var p := Run(routers, Start<D>(routers, now), steps);
    assert steps[..|steps|] == steps;
    if p.noted[j].Some? {
      assert p.now - p.noted[j].value <= AgeBound(|routers|, p, j) <= CycleS(|routers|);
    }
  }

  // ---------------------------------------------------------------- the bound is reached

  lemma OneMoreLiveStep<D>(routers: seq<Router>, p: Poller<D>, steps: seq<Step<D>>, s: Step<D>)
    requires Live(routers, p, steps) && InTime(routers, Next(routers, Run(routers, p, steps), s))
    ensures Live(routers, p, steps + [s])
    ensures Run(routers, p, steps + [s]) == Next(routers, Run(routers, p, steps), s)
  {
    hide InTime, Next;
    assert (steps + [s])[..|steps|] == steps;
    forall k | 0 <= k <= |steps| + 1 ensures InTime(routers, Run(routers, p, (steps + [s])[..k])) {
      if k <= |steps| {
        assert (steps + [s])[..k] == steps[..k];
      } else {
        assert (steps + [s])[..k] == steps + [s];
      }
    }
  }

  /** Nobody is spared a fetch, and nobody else carries this position's name. */
  predicate AllDialled(routers: seq<Router>, j: nat) {
    && j < |routers|
    && (forall k | 0 <= k < |routers| :: routers[k].configError.None?)
    && (forall k | 0 <= k < |routers| && k != j :: routers[k].name != routers[j].name)
  }

  /** Position `j` was last noted `age` ago, and the loop has just come to `phase`. */
  ghost predicate Stands<D>(routers: seq<Router>, p: Poller<D>, j: nat, phase: Phase, age: real) {
    && j < |routers| && p.phase == phase && p.since == p.now && |p.noted| == |routers|
    && routers[j].name in p.state && p.state[routers[j].name].at == p.now - age
  }

  /** Instant fetches up to and including position `j`. */
  lemma {:induction false} NoteUpTo<D>(routers: seq<Router>, j: nat, i: nat) returns (steps: seq<Step<D>>)
    requires AllDialled(routers, j) && i <= j
    ensures Live(routers, Start<D>(routers, 0.0), steps)
    ensures var p := Run(routers, Start<D>(routers, 0.0), steps);
      p.phase == Polling(i) && p.since == p.now && |p.noted| == |routers|
  {
    var start := Start<D>(routers, 0.0);
    if i == 0 {
      steps := [];
    } else {
      var before := NoteUpTo<D>(routers, j, i - 1);
      OneMoreLiveStep(routers, start, before, Fetched(None, false));
      steps := before + [Fetched(None, false)];
    }
  }

  /** One fetch that takes as long as it may, of a position other than `j`. */
  lemma SlowFetch<D>(routers: seq<Router>, start: Poller<D>, before: seq<Step<D>>, j: nat, i: nat, age: real)
    returns (steps: seq<Step<D>>)
    requires AllDialled(routers, j) && i < |routers| && i != j
    requires Live(routers, start, before) && Stands(routers, Run(routers, start, before), j, Polling(i), age)
    ensures Live(routers, start, steps)
    ensures Stands(routers, Run(routers, start, steps), j, if i + 1 < |routers| then Polling(i + 1) else Sleeping, age + ROUTER_POLL_TIMEOUT_S)
  {
    hide Run, Live;
    OneMoreLiveStep(routers, start, before, Pass(ROUTER_POLL_TIMEOUT_S));
    var mid := before + [Pass(ROUTER_POLL_TIMEOUT_S)];
    OneMoreLiveStep(routers, start, mid, Fetched(None, false));
    steps := mid + [Fetched(None, false)];
  }

  /** Slow fetches from position `i` for `m` positions, none of them `j`. */
  lemma {:induction false} SlowFetches<D>(routers: seq<Router>, start: Poller<D>, before: seq<Step<D>>, j: nat, i: nat, m: nat, age: real)
    returns (steps: seq<Step<D>>)
    requires AllDialled(routers, j) && i + m <= |routers| && (i + m <= j || j < i)
    requires i < |routers| || m == 0
    requires Live(routers, start, before)
    requires Stands(routers, Run(routers, start, before), j, if i < |routers| then Polling(i) else Sleeping, age)
    ensures Live(routers, start, steps)
    ensures Stands(routers, Run(routers, start, steps), j, if i + m < |routers| then Polling(i + m) else Sleeping,
                   age + Times(m, ROUTER_POLL_TIMEOUT_S))
    decreases m
  {
    hide Run, Live, Stands, AllDialled;
    if m == 0 {
      steps := before;
    } else {
      var mid := SlowFetches(routers, start, before, j, i, m - 1, age);
      steps := SlowFetch(routers, start, mid, j, i + m - 1, age + Times(m - 1, ROUTER_POLL_TIMEOUT_S));
    }
  }

  /** A whole sleep, and the start of the next pass. */
  lemma SleepThenWake<D>(routers: seq<Router>, start: Poller<D>, before: seq<Step<D>>, j: nat, age: real)
    returns (steps: seq<Step<D>>)
    requires AllDialled(routers, j)
    requires Live(routers, start, before) && Stands(routers, Run(routers, start, before), j, Sleeping, age)
    ensures Live(routers, start, steps)
    ensures Stands(routers, Run(routers, start, steps), j, Polling(0), age + POLL_INTERVAL_S)
  {
    hide Run, Live;
    OneMoreLiveStep(routers, start, before, Pass(POLL_INTERVAL_S));
    var mid := before + [Pass(POLL_INTERVAL_S)];
    OneMoreLiveStep(routers, start, mid, Wake);
    steps := mid + [Wake];
  }

  lemma NoteNow<D>(routers: seq<Router>, start: Poller<D>, before: seq<Step<D>>, j: nat)
    returns (steps: seq<Step<D>>)
    requires AllDialled(routers, j) && Live(routers, start, before)
    requires var p := Run(routers, start, before); p.phase == Polling(j) && p.since == p.now && |p.noted| == |routers|
    ensures Live(routers, start, steps)
    ensures Stands(routers, Run(routers, start, steps), j, if j + 1 < |routers| then Polling(j + 1) else Sleeping, 0.0)
  {
    hide Run, Live;
    OneMoreLiveStep(routers, start, before, Fetched(None, false));
    steps := before + [Fetched(None, false)];
  }

  /** THE BOUND IS REACHED, for every number of routers and at every position: when nothing is spared a fetch
      and every fetch and the sleep take as long as they may, the sample is one whole cycle old just before
      it is replaced. */
  lemma CycleIsReached<D>(routers: seq<Router>, j: nat) returns (steps: seq<Step<D>>)
    requires AllDialled(routers, j)
    ensures Live(routers, Start<D>(routers, 0.0), steps)
    ensures var p := Run(routers, Start<D>(routers, 0.0), steps);
      routers[j].name in p.state && AgeOf(p.state[routers[j].name], p.now) == CycleS(|routers|)
  {
    hide Run, Live;
    var start, n := Start<D>(routers, 0.0), |routers|;
    var upTo := NoteUpTo<D>(routers, j, j);
    var noted := NoteNow(routers, start, upTo, j);
    var rest := SlowFetches(routers, start, noted, j, j + 1, n - 1 - j, 0.0);
    var age := 0.0 + Times(n - 1 - j, ROUTER_POLL_TIMEOUT_S);
    var woken := SleepThenWake(routers, start, rest, j, age);
    var again := SlowFetches(routers, start, woken, j, 0, j, age + POLL_INTERVAL_S);
    OneMoreLiveStep(routers, start, again, Pass(ROUTER_POLL_TIMEOUT_S));
    steps := again + [Pass(ROUTER_POLL_TIMEOUT_S)];
  }

  // ---------------------------------------------------------------- what a 200 means

  /** The latest note for a name. */
  function LastNote<D>(notes: seq<(string, Sample<D>)>, name: string): Option<Sample<D>> {
    if notes == [] then None
    else if notes[|notes| - 1].0 == name then Some(notes[|notes| - 1].1)
    else LastNote(notes[..|notes| - 1], name)
  }

  lemma {:induction false} StateIsLastNote<D>(routers: seq<Router>, now: real, steps: seq<Step<D>>, name: string)
    ensures var p := Run(routers, Start<D>(routers, now), steps);
            LastNote(p.notes, name) == if name in p.state then Some(p.state[name]) else None
  {
    hide Next, LastNote;
    if steps == [] {
      NoNote<D>(name);
    } else {
      var before := steps[..|steps| - 1];
      StateIsLastNote(routers, now, before, name);
      NextIsLastNote(routers, Run(routers, Start<D>(routers, now), before), steps[|steps| - 1], name);
    }
  }

  lemma NoNote<D>(name: string)
    ensures LastNote<D>([], name) == None
  {
  }

  lemma NextIsLastNote<D>(routers: seq<Router>, p: Poller<D>, s: Step<D>, name: string)
    requires LastNote(p.notes, name) == if name in p.state then Some(p.state[name]) else None
    ensures var q := Next(routers, p, s); LastNote(q.notes, name) == if name in q.state then Some(q.state[name]) else None
  {
    var q := Next(routers, p, s);
    if q.notes != p.notes {
      assert q.notes[..|q.notes| - 1] == p.notes;
    }
  }

  /** WHAT EACH ANSWER MEANS, in any run, live or wedged: the code is decided by the latest note for that
      router and its age alone, and a 200 carries the document of a latest poll that succeeded and is
      within the limit. */
  lemma AnswersMeanTheLatestPoll<D>(routers: seq<Router>, now: real, steps: seq<Step<D>>, name: string, maxAge: real)
    ensures var p := Run(routers, Start<D>(routers, now), steps);
            var answer := AnswerFrom(p.state, name, maxAge, p.now);
            var last := LastNote(p.notes, name);
            && (answer.code == 503 <==> last.None?)
            && (answer.code == 500 <==> last.Some? && last.value.configError.Some? && last.value.configError.value != "")
            && (answer.code == 200 ==> last.Some? && last.value.status.Some? && answer.document == last.value.status
                                       && AgeOf(last.value, p.now) <= maxAge)
            && (last.Some? && last.value.configError.None? ==>
                  && (answer.code == 502 <==> last.value.status.None?)
                  && (answer.code == 504 <==> last.value.status.Some? && AgeOf(last.value, p.now) > maxAge)
                  && (answer.code == 200 <==> last.value.status.Some? && AgeOf(last.value, p.now) <= maxAge))
  {
    StateIsLastNote(routers, now, steps, name);
  }

  // ---------------------------------------------------------------- from the fetch to the answer

  /** One poll of a router: its configuration error, what the fetch gave, and when it ended. */
  datatype Brought<D> = Brought(configError: Option<string>, status: Option<D>, reachable: bool, at: real)

  /** The last fetch the loop was ready for at a position of this name. */
  ghost function LastFetch<D>(routers: seq<Router>, now: real, steps: seq<Step<D>>, name: string): Option<Brought<D>> {
    if steps == [] then None
    else
      var before, s := steps[..|steps| - 1], steps[|steps| - 1];
      var p := Run(routers, Start<D>(routers, now), before);
      if s.Fetched? && p.phase.Polling? && p.phase.index < |routers| && routers[p.phase.index].name == name
      then Some(Brought(routers[p.phase.index].configError, s.status, s.reachable, p.now))
      else LastFetch(routers, now, before, name)
  }

  lemma {:induction false} RunIsSized<D>(routers: seq<Router>, now: real, steps: seq<Step<D>>)
    ensures var p := Run(routers, Start<D>(routers, now), steps);
      |p.noted| == |routers| && (p.phase.Polling? ==> p.phase.index < |routers|)
  {
    if steps != [] {
      RunIsSized(routers, now, steps[..|steps| - 1]);
    }
  }

  /** A SAMPLE IS WHAT THE LAST FETCH BROUGHT, over every run: its document, its reachability and its time, or the
      configuration error that kept the router from being dialled. */
  lemma {:induction false} SampleIsTheLastFetch<D>(routers: seq<Router>, now: real, steps: seq<Step<D>>, name: string)
    ensures var p, last := Run(routers, Start<D>(routers, now), steps), LastFetch(routers, now, steps, name);
      && (name in p.state <==> last.Some?)
      && (last.Some? ==>
            && last.value.at <= p.now
            && p.state[name] == if last.value.configError.Some? then Sample(None, last.value.at, false, last.value.configError)
                                else Sample(last.value.status, last.value.at, last.value.reachable, None))
  {
    if steps != [] {
      SampleIsTheLastFetch(routers, now, steps[..|steps| - 1], name);
      RunIsSized(routers, now, steps[..|steps| - 1]);
    }
  }

  /** SO EACH ANSWER IS DECIDED BY THE LAST FETCH AND ITS AGE: 503 before any, 500 or 502 for a configuration error,
      502 when it brought no document, and otherwise its document while it is within the limit, 504 after. */
  lemma AnswerIsTheLastFetch<D>(routers: seq<Router>, now: real, steps: seq<Step<D>>, name: string, maxAge: real)
    ensures var p, last := Run(routers, Start<D>(routers, now), steps), LastFetch(routers, now, steps, name);
      AnswerFrom(p.state, name, maxAge, p.now) ==
      if last.None? then Answer(503, None)
      else if last.value.configError.Some? then Answer(if last.value.configError == Some("") then 502 else 500, None)
      else if last.value.status.None? then Answer(502, None)
      else if p.now - last.value.at > maxAge then Answer(504, None)
      else Answer(200, last.value.status)
  {
    SampleIsTheLastFetch(routers, now, steps, name);
  }

  /** THE WEDGED POLLER IS CAUGHT: once more than the limit passes with no note, a router whose last poll
      succeeded is answered 504, and no router is answered 200. */
  lemma WedgedPollerIsCaught<D>(routers: seq<Router>, p: Poller<D>, silence: real, name: string)
    requires name in p.state ==> p.state[name].at <= p.now
    requires silence > StatusMaxAgeS(|routers|)
    ensures var later := Next(routers, p, Pass(silence));
      var answer := AnswerFrom(later.state, name, StatusMaxAgeS(|routers|), later.now);
      && answer.code != 200
      && (name in p.state && p.state[name].configError.None? ==> answer.code == if p.state[name].status.Some? then 504 else 502)
  {
  }
}
