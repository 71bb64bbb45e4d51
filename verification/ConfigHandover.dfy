/** The hand-over of the cloud configuration: the heartbeat process writes a file and then publishes its time in
    shared memory; every PHP worker reads the time and then the file. Locks make a shared-memory access one step;
    everything else interleaves. */
module ConfigHandover {

  /** The file as a reader meets it. `Torn` is a write under way, left half done or failed, which parses with an
      error. */
  datatype File = Absent | Torn | Whole(version: int)

  /** Where the heartbeat process stands: between heartbeats, holding a new configuration, writing the file, or
      done with the file, written well or not, and the time not yet published. */
  datatype Writer = Resting | Fetched(time: int) | Writing(time: int) | Written(time: int)

  /** Where a worker's request start stands: the published time it saw, then also the content it read. */
  datatype Reload = Serving | Checked(seen: int) | Loaded(seen: int, content: File) | Updated(seen: int)

  /** A worker holds the configuration of some version and the stamp `latestUpdateTime`. */
  datatype Worker = Worker(held: int, stamp: int, at: Reload)

  /** `latest` is the last time from the backend that was taken up. */
  datatype System = System(file: File, published: int, writer: Writer, latest: int, workers: seq<Worker>)

  datatype Event =
    | Fetch(time: int)
    | Truncate
    | FinishWrite
    | FailWrite
    | Publish
    | Abandon
    | Check(w: nat)
    | Load(w: nat)
    | LoadFails(w: nat)
    | Update(w: nat)
    | Stamp(w: nat)

  const START_WORKER := Worker(0, 0, Serving)

  /** Nothing published yet; a file may be left from before. */
  function Start(file: File, workers: nat): System {
    System(file, 0, Resting, 0, seq(workers, i => START_WORKER))
  }

  /** The writer takes a backend time up that is not negative and differs from the published one. */
  predicate TakesUp(s: System, time: int) {
    time >= 0 && s.published != time
  }

  /** Can the step be taken here? */
  predicate Enabled(s: System, e: Event) {
    match e
    case Fetch(time) => s.writer.Resting?
    case Truncate => s.writer.Fetched?
    case FinishWrite => s.writer.Writing?
    case FailWrite => s.writer.Writing?
    case Publish => s.writer.Written?
    case Abandon => true
    case Check(w) => w < |s.workers| && s.workers[w].at.Serving?
    case Load(w) => w < |s.workers| && s.workers[w].at.Checked?
    case LoadFails(w) => w < |s.workers| && s.workers[w].at.Checked?
    case Update(w) => w < |s.workers| && s.workers[w].at.Loaded?
    case Stamp(w) => w < |s.workers| && s.workers[w].at.Updated?
  }

  function SetWorker(s: System, w: nat, x: Worker): System
    requires w < |s.workers|
  {
    s.(workers := s.workers[w := x])
  }

  function Step(s: System, e: Event): System
    requires Enabled(s, e)
  {
    match e
    case Fetch(time) => if TakesUp(s, time) then s.(writer := Fetched(time), latest := time) else s
    case Truncate => s.(file := Torn, writer := Writing(s.writer.time))
    case FinishWrite => s.(file := Whole(s.writer.time), writer := Written(s.writer.time))
    case FailWrite => s.(writer := Written(s.writer.time))
    case Publish => s.(published := s.writer.time, writer := Resting)
    case Abandon => s.(writer := Resting)
    case Check(w) =>
      var x := s.workers[w];
      if s.published != 0 && s.published > x.stamp then SetWorker(s, w, x.(at := Checked(s.published))) else s
    case Load(w) =>
      var x := s.workers[w];
      SetWorker(s, w, x.(at := Loaded(x.at.seen, s.file)))
    case LoadFails(w) =>
      var x := s.workers[w];
      SetWorker(s, w, x.(at := Loaded(x.at.seen, Torn)))
    case Update(w) =>
      var x := s.workers[w];
      SetWorker(s, w,
        if x.at.content.Whole? then x.(held := x.at.content.version, at := Updated(x.at.seen)) else x.(at := Serving))
    case Stamp(w) =>
      var x := s.workers[w];
      SetWorker(s, w, x.(stamp := x.at.seen, at := Serving))
  }

  /** A run: every step can be taken where it is taken. */
  predicate Runs(s: System, events: seq<Event>)
    decreases |events|
  {
    events == [] || (Enabled(s, events[0]) && Runs(Step(s, events[0]), events[1..]))
  }

  function After(s: System, events: seq<Event>): System
    requires Runs(s, events)
    decreases |events|
  {
    if events == [] then s else After(Step(s, events[0]), events[1..])
  }

  /** The times the backend answers along a run. */
  function Times(events: seq<Event>): seq<int> {
    if events == [] then []
    else (if events[0].Fetch? then [events[0].time] else []) + Times(events[1..])
  }

  /** Times that never decrease, the negative ones aside: they are no times. */
  ghost predicate NeverDecreases(ts: seq<int>) {
    forall i, j :: 0 <= i < j < |ts| && ts[j] >= 0 ==> ts[i] <= ts[j]
  }

  /** The times taken up never decrease along the run. */
  predicate Forward(s: System, events: seq<Event>)
    requires Runs(s, events)
    decreases |events|
  {
    events == [] ||
      ((events[0].Fetch? && TakesUp(s, events[0].time) ==> events[0].time >= s.latest)
       && Forward(Step(s, events[0]), events[1..]))
  }

  // ----- the invariant

  ghost predicate ContentOk(s: System, x: Worker, seen: int, content: File) {
    content.Whole? ==>
      && x.held <= content.version <= s.latest
      && seen <= content.version
      && (s.file.Whole? ==> content.version <= s.file.version)
  }

  ghost predicate WorkerOk(s: System, x: Worker) {
    && x.stamp <= x.held
    && 0 <= x.held <= s.latest
    && (s.file.Whole? ==> x.held <= s.file.version)
    && match x.at
       case Serving => true
       case Checked(seen) => seen <= s.published
       case Loaded(seen, content) => ContentOk(s, x, seen, content)
       case Updated(seen) => seen <= x.held
  }

  ghost predicate Ok(s: System) {
    && 0 <= s.published <= s.latest
    && (s.file.Whole? ==> s.published <= s.file.version <= s.latest)
    && (!s.writer.Resting? ==> s.writer.time == s.latest)
    && (s.writer.Writing? ==> s.file == Torn)
    && (s.writer.Written? ==> s.file == Whole(s.writer.time) || s.file == Torn)
    && forall i :: 0 <= i < |s.workers| ==> WorkerOk(s, s.workers[i])
  }

  /** Before the first publication no worker has read anything. */
  ghost predicate Unpublished(s: System) {
    && s.published == 0
    && (!s.writer.Resting? ==> s.writer.time == s.latest)
    && s.latest >= 0
    && (s.writer.Writing? ==> s.file == Torn)
    && (s.writer.Written? ==> s.file == Whole(s.writer.time) || s.file == Torn)
    && forall i :: 0 <= i < |s.workers| ==> s.workers[i] == START_WORKER
  }

  lemma StepKeepsOk(s: System, e: Event)
    requires (Ok(s) || Unpublished(s)) && Enabled(s, e)
    requires e.Fetch? && TakesUp(s, e.time) ==> e.time >= s.latest
    ensures Ok(Step(s, e)) || Unpublished(Step(s, e))
  {
    var s' := Step(s, e);
    if Ok(s) {
      forall i | 0 <= i < |s'.workers| ensures WorkerOk(s', s'.workers[i]) {
        assert WorkerOk(s, s.workers[i]);
      }
    }
  }

  lemma StepKeepsHeld(s: System, e: Event)
    requires (Ok(s) || Unpublished(s)) && Enabled(s, e)
    ensures |Step(s, e).workers| == |s.workers|
    ensures forall i :: 0 <= i < |s.workers| ==> s.workers[i].held <= Step(s, e).workers[i].held
  {
    forall i | 0 <= i < |s.workers| ensures s.workers[i].held <= Step(s, e).workers[i].held {
      assert Ok(s) ==> WorkerOk(s, s.workers[i]);
    }
  }

  /** However the steps interleave, with times that never decrease a worker's stamp never exceeds the version of the
      configuration it holds, and that version never goes backwards. */
  lemma {:induction false} NeverStale(s: System, events: seq<Event>)
    requires (Ok(s) || Unpublished(s)) && Runs(s, events) && Forward(s, events)
    ensures Ok(After(s, events)) || Unpublished(After(s, events))
    ensures |After(s, events).workers| == |s.workers|
    ensures forall i :: 0 <= i < |s.workers| ==>
      && s.workers[i].held <= After(s, events).workers[i].held
      && After(s, events).workers[i].stamp <= After(s, events).workers[i].held
    decreases |events|
  {
    if events == [] {
      forall i | 0 <= i < |s.workers| ensures s.workers[i].stamp <= s.workers[i].held {
        assert Ok(s) ==> WorkerOk(s, s.workers[i]);
      }
    } else {
      StepKeepsOk(s, events[0]);
      StepKeepsHeld(s, events[0]);
      NeverStale(Step(s, events[0]), events[1..]);
    }
  }

  /** The times among `ts` are not before `lo`. */
  ghost predicate AllFrom(lo: int, ts: seq<int>) {
    forall i :: 0 <= i < |ts| && ts[i] >= 0 ==> lo <= ts[i]
  }

  lemma RestIsLater(t: int, rest: seq<int>, lo: int)
    requires NeverDecreases([t] + rest) && AllFrom(lo, [t] + rest)
    ensures NeverDecreases(rest) && AllFrom(lo, rest) && AllFrom(t, rest) && (t >= 0 ==> lo <= t)
  {
    var ts := [t] + rest;
    assert ts[0] == t && forall i :: 0 <= i < |rest| ==> rest[i] == ts[i + 1];
  }

  /** Each time is not before `lo` nor before the times in front of it. */
  predicate Climbs(lo: int, ts: seq<int>)
    decreases |ts|
  {
    ts == [] || ((ts[0] >= 0 ==> lo <= ts[0]) && Climbs(if ts[0] >= 0 then ts[0] else lo, ts[1..]))
  }

  lemma {:induction false} NeverDecreasesClimbs(lo: int, ts: seq<int>)
    requires NeverDecreases(ts) && AllFrom(lo, ts)
    ensures Climbs(lo, ts)
    decreases |ts|
  {
    if ts != [] {
      assert ts == [ts[0]] + ts[1..];
      RestIsLater(ts[0], ts[1..], lo);
      NeverDecreasesClimbs(if ts[0] >= 0 then ts[0] else lo, ts[1..]);
    }
  }

  lemma {:induction false} ClimbsForward(s: System, events: seq<Event>, lo: int)
    requires Runs(s, events) && s.latest <= lo && Climbs(lo, Times(events))
    ensures Forward(s, events)
    decreases |events|
  {
    if events != [] {
      var ts := Times(events);
      if events[0].Fetch? {
        assert ts[0] == events[0].time && ts[1..] == Times(events[1..]);
        ClimbsForward(Step(s, events[0]), events[1..], if ts[0] >= 0 then ts[0] else lo);
      } else {
        assert ts == Times(events[1..]);
        ClimbsForward(Step(s, events[0]), events[1..], lo);
      }
    }
  }

  /** No worker's stamp exceeds the version it holds. */
  predicate Honest(s: System) {
    forall i :: 0 <= i < |s.workers| ==> s.workers[i].stamp <= s.workers[i].held
  }

  /** So it is in every state that a run from the start reaches while the backend answers the times `ts`. */
  ghost predicate AlwaysHonest(file: File, workers: nat, ts: seq<int>) {
    forall events :: Runs(Start(file, workers), events) && Times(events) <= ts ==>
        Honest(After(Start(file, workers), events))
  }

  lemma HonestRun(file: File, workers: nat, events: seq<Event>, ts: seq<int>)
    requires NeverDecreases(ts) && Runs(Start(file, workers), events) && Times(events) <= ts
    ensures Honest(After(Start(file, workers), events))
  {
    assert forall i :: 0 <= i < |Times(events)| ==> Times(events)[i] == ts[i];
    NeverDecreasesClimbs(0, Times(events));
    ClimbsForward(Start(file, workers), events, 0);
    NeverStale(Start(file, workers), events);
  }

  lemma OneStep(s: System, e: Event, rest: seq<Event>)
    requires Enabled(s, e) && Runs(Step(s, e), rest)
    ensures Runs(s, [e] + rest) && After(s, [e] + rest) == After(Step(s, e), rest)
  {
    assert ([e] + rest)[1..] == rest;
  }

  lemma {:induction false} RunsConcat(s: System, xs: seq<Event>, ys: seq<Event>)
    requires Runs(s, xs) && Runs(After(s, xs), ys)
    ensures Runs(s, xs + ys) && After(s, xs + ys) == After(After(s, xs), ys)
    decreases |xs|
  {
    if xs == [] {
      assert xs + ys == ys;
    } else {
      RunsConcat(Step(s, xs[0]), xs[1..], ys);
      OneStep(s, xs[0], xs[1..] + ys);
      assert xs + ys == [xs[0]] + (xs[1..] + ys);
    }
  }

  lemma ThreeSteps(s: System, a: Event, b: Event, c: Event)
    requires Enabled(s, a) && Enabled(Step(s, a), b) && Enabled(Step(Step(s, a), b), c)
    ensures Runs(s, [a, b, c]) && After(s, [a, b, c]) == Step(Step(Step(s, a), b), c)
  {
    OneStep(Step(Step(s, a), b), c, []);
    OneStep(Step(s, a), b, [c]);
    OneStep(s, a, [b, c]);
    assert [b] + [c] == [b, c] && [a] + [b, c] == [a, b, c];
  }

  // ----- the backend going back in time

  lemma {:induction false} TimesConcat(xs: seq<Event>, ys: seq<Event>)
    ensures Times(xs + ys) == Times(xs) + Times(ys)
  {
    if xs == [] {
      assert xs + ys == ys;
    } else {
      assert (xs + ys)[1..] == xs[1..] + ys && (xs + ys)[0] == xs[0];
      TimesConcat(xs[1..], ys);
      var first := if xs[0].Fetch? then [xs[0].time] else [];
      assert Times(xs + ys) == first + Times(xs[1..] + ys);
      assert first + (Times(xs[1..]) + Times(ys)) == (first + Times(xs[1..])) + Times(ys);
    }
  }

  lemma TimesOfThree(a: Event, b: Event, c: Event)
    ensures Times([a, b, c]) == Times([a]) + Times([b]) + Times([c])
  {
    assert [a, b, c] == [a] + [b] + [c];
    TimesConcat([a] + [b], [c]);
    TimesConcat([a], [b]);
  }

  /** The backend's answers `ts` come to nothing: the writer gives up each time. */
  lemma {:induction false} GivesUp(s: System, ts: seq<int>) returns (run: seq<Event>)
    requires s.writer.Resting?
    ensures Runs(s, run) && Times(run) == ts
    ensures var t := After(s, run); t == s.(latest := t.latest)
    decreases |ts|
  {
    if ts == [] {
      run := [];
    } else {
      var t := Step(Step(s, Fetch(ts[0])), Abandon);
      var rest := GivesUp(t, ts[1..]);
      OneStep(Step(s, Fetch(ts[0])), Abandon, rest);
      OneStep(s, Fetch(ts[0]), [Abandon] + rest);
      run := [Fetch(ts[0])] + ([Abandon] + rest);
      assert run[0] == Fetch(ts[0]) && run[1..] == [Abandon] + rest && run[1..][1..] == rest;
    }
  }

  /** A configuration of time `hi` is written and published, and a worker sees its time. */
  lemma PublishesAndChecks(s: System, hi: int) returns (run: seq<Event>)
    requires s.writer.Resting? && s.published == 0 && hi > 0 && s.workers != [] && s.workers[0] == START_WORKER
    ensures Runs(s, run) && Times(run) == [hi]
    ensures After(s, run)
         == System(Whole(hi), hi, Resting, hi, s.workers[0 := Worker(0, 0, Checked(hi))])
  {
    var t := System(Whole(hi), 0, Written(hi), hi, s.workers);
    ThreeSteps(s, Fetch(hi), Truncate, FinishWrite);
    var u := Step(t, Publish);
    OneStep(u, Check(0), []);
    OneStep(t, Publish, [Check(0)]);
    RunsConcat(s, [Fetch(hi), Truncate, FinishWrite], [Publish] + [Check(0)]);
    run := [Fetch(hi), Truncate, FinishWrite] + ([Publish] + [Check(0)]);
    TimesOfThree(Fetch(hi), Truncate, FinishWrite);
    TimesConcat([Publish], [Check(0)]);
    TimesConcat([Fetch(hi), Truncate, FinishWrite], [Publish] + [Check(0)]);
  }

  /** A configuration of time `v` is written, and read by a worker that saw the time `seen` before. */
  lemma WritesAndReads(s: System, seen: int, v: int) returns (run: seq<Event>)
    requires v >= 0 && v != s.published && s.writer.Resting? && s.workers != [] && s.workers[0].at == Checked(seen)
    ensures Runs(s, run) && Times(run) == [v]
    ensures After(s, run)
         == System(Whole(v), s.published, Written(v), v, s.workers[0 := Worker(v, seen, Serving)])
  {
    var t := s.(file := Whole(v), writer := Written(v), latest := v);
    ThreeSteps(s, Fetch(v), Truncate, FinishWrite);
    ThreeSteps(t, Load(0), Update(0), Stamp(0));
    var a, b := [Fetch(v), Truncate, FinishWrite], [Load(0), Update(0), Stamp(0)];
    RunsConcat(s, a, b);
    run := a + b;
    TimesOfThree(Fetch(v), Truncate, FinishWrite);
    TimesOfThree(Load(0), Update(0), Stamp(0));
    TimesConcat(a, b);
  }

  lemma Chain(s: System, xs: seq<Event>, ys: seq<Event>) returns (run: seq<Event>)
    requires Runs(s, xs) && Runs(After(s, xs), ys)
    ensures run == xs + ys && Runs(s, run) && After(s, run) == After(After(s, xs), ys)
    ensures Times(run) == Times(xs) + Times(ys)
  {
    run := xs + ys;
    RunsConcat(s, xs, ys);
    TimesConcat(xs, ys);
  }

  /** Then one of the earlier time `lo` is written before that worker reads the file: it takes the old configuration
      and stamps it with the newer time, whatever the backend answers in between. */
  lemma ReadsOlderFileLater(s: System, hi: int, between: seq<int>, lo: int) returns (run: seq<Event>)
    requires 0 <= lo < hi == s.published && s.writer.Resting?
    requires s.workers != [] && s.workers[0] == Worker(0, 0, Checked(hi))
    ensures Runs(s, run) && Times(run) == between + [lo] && !Honest(After(s, run))
  {
    var a := GivesUp(s, between);
    var b := WritesAndReads(After(s, a), hi, lo);
    run := Chain(s, a, b);
    assert After(s, run).workers[0] == Worker(lo, hi, Serving);
  }

  lemma PublishesThenReadsOlder(s: System, hi: int, between: seq<int>, lo: int) returns (run: seq<Event>)
    requires 0 <= lo < hi && s.writer.Resting? && s.published == 0 && s.workers != [] && s.workers[0] == START_WORKER
    ensures Runs(s, run) && Times(run) == [hi] + (between + [lo]) && !Honest(After(s, run))
  {
    var a := PublishesAndChecks(s, hi);
    var b := ReadsOlderFileLater(After(s, a), hi, between, lo);
    run := Chain(s, a, b);
  }

  /** Whenever a time is followed by an earlier one, some run breaks the promise. */
  lemma BackwardTimeBreaksStamp(file: File, workers: nat, ts: seq<int>, i: nat, j: nat) returns (run: seq<Event>)
    requires workers >= 1 && i < j < |ts| && 0 <= ts[j] < ts[i]
    ensures Runs(Start(file, workers), run) && Times(run) <= ts && !Honest(After(Start(file, workers), run))
  {
    var s := Start(file, workers);
    var a := GivesUp(s, ts[..i]);
    var b := PublishesThenReadsOlder(After(s, a), ts[i], ts[i + 1..j], ts[j]);
    run := Chain(s, a, b);
    assert ts[..i] + ([ts[i]] + (ts[i + 1..j] + [ts[j]])) == ts[..j + 1];
  }

  /** The promise is kept in every state of every run exactly when the backend's times never decrease. */
  lemma StampPromise(file: File, workers: nat, ts: seq<int>)
    requires workers >= 1
    ensures AlwaysHonest(file, workers, ts) <==> NeverDecreases(ts)
  {
    if NeverDecreases(ts) {
      forall events | Runs(Start(file, workers), events) && Times(events) <= ts
        ensures Honest(After(Start(file, workers), events))
      {
        HonestRun(file, workers, events, ts);
      }
    } else {
      var i, j :| 0 <= i < j < |ts| && ts[j] >= 0 && ts[i] > ts[j];
      var run := BackwardTimeBreaksStamp(file, workers, ts, i, j);
    }
  }

  // ----- catching up

  /** The step is no write: the writer, at rest, is given the published time again or none, or is restarted. */
  predicate NoNews(published: int, e: Event) {
    match e
    case Fetch(time) => time < 0 || time == published
    case Truncate => false
    case FinishWrite => false
    case FailWrite => false
    case Publish => false
    case _ => true
  }

  /** The writer rests, and a time is published. */
  predicate Settled(s: System) {
    s.writer.Resting? && s.published != 0
  }

  /** The worker has the published configuration or a newer one, or is on the way to it. */
  predicate CatchingUp(s: System, w: nat) {
    w < |s.workers| &&
    var x := s.workers[w];
    || x.held >= s.published
    || x.at == Checked(s.published)
    || (x.at.Loaded? && x.at.content.Whole? && x.at.content.version >= s.published)
  }

  /** The worker has an older configuration, and has read no other. */
  predicate LeftBehind(s: System, w: nat) {
    w < |s.workers| &&
    var x := s.workers[w];
    x.held < s.published && (x.at.Serving? || x.at.Checked? || (x.at.Loaded? && !x.at.content.Whole?))
  }

  lemma QuietStep(s: System, e: Event, w: nat)
    requires Ok(s) && Settled(s) && Enabled(s, e) && NoNews(s.published, e) && w < |s.workers|
    ensures Ok(Step(s, e)) && Settled(Step(s, e)) && Step(s, e).published == s.published
    ensures Step(s, e).file == s.file && |Step(s, e).workers| == |s.workers|
    ensures s.file.Whole? && e != LoadFails(w) && (CatchingUp(s, w) || e == Check(w)) ==> CatchingUp(Step(s, e), w)
    ensures !s.file.Whole? && LeftBehind(s, w) ==> LeftBehind(Step(s, e), w)
  {
    StepKeepsOk(s, e);
    assert WorkerOk(s, s.workers[w]);
  }

  /** Once the writer is quiet and the file whole, a worker that starts one more request, whatever the others do
      meanwhile, holds at least the published configuration whenever it is serving after that. */
  lemma {:induction false} OneRequestCatchesUp(s: System, events: seq<Event>, w: nat)
    requires Ok(s) && Settled(s) && s.file.Whole? && Runs(s, events) && w < |s.workers|
    requires forall e :: e in events ==> NoNews(s.published, e) && e != LoadFails(w)
    requires CatchingUp(s, w) || Check(w) in events
    ensures w < |After(s, events).workers| && CatchingUp(After(s, events), w)
    ensures After(s, events).published == s.published && After(s, events).file == s.file
    ensures After(s, events).workers[w].at.Serving? ==>
      s.published <= After(s, events).workers[w].held <= s.file.version
    decreases |events|
  {
    if events != [] {
      assert events[0] in events;
      assert forall e :: e in events[1..] ==> e in events;
      QuietStep(s, events[0], w);
      if !CatchingUp(s, w) && events[0] != Check(w) {
        assert events == [events[0]] + events[1..];
      }
      OneRequestCatchesUp(Step(s, events[0]), events[1..], w);
    } else {
      assert WorkerOk(s, s.workers[w]);
    }
  }

  /** Over a file that is not whole no request catches up, as long as nothing new is written; and the backend repeating
      the published time makes nothing new. */
  lemma {:induction false} TornLeavesBehind(s: System, events: seq<Event>, w: nat)
    requires Ok(s) && Settled(s) && !s.file.Whole? && Runs(s, events) && LeftBehind(s, w)
    requires forall e :: e in events ==> NoNews(s.published, e)
    ensures LeftBehind(After(s, events), w) && After(s, events).published == s.published
    decreases |events|
  {
    if events != [] {
      assert events[0] in events;
      assert forall e :: e in events[1..] ==> e in events;
      QuietStep(s, events[0], w);
      TornLeavesBehind(Step(s, events[0]), events[1..], w);
    }
  }

  /** So one more request catches up exactly when the file is whole, or when it was not needed. */
  lemma CatchesUpExactly(s: System, events: seq<Event>, w: nat)
    requires Ok(s) && Settled(s) && Runs(s, events) && w < |s.workers| && s.workers[w].at.Serving?
    requires forall e :: e in events ==> NoNews(s.published, e) && e != LoadFails(w)
    requires Check(w) in events
    requires w < |After(s, events).workers| && After(s, events).workers[w].at.Serving?
    ensures After(s, events).workers[w].held >= s.published
       <==> s.file.Whole? || s.workers[w].held >= s.published
  {
    if s.file.Whole? {
      OneRequestCatchesUp(s, events, w);
    } else if s.workers[w].held >= s.published {
      SettledKeepsHeld(s, events, w);
    } else {
      TornLeavesBehind(s, events, w);
    }
  }

  lemma {:induction false} SettledKeepsHeld(s: System, events: seq<Event>, w: nat)
    requires Ok(s) && Settled(s) && Runs(s, events) && w < |s.workers|
    requires forall e :: e in events ==> NoNews(s.published, e)
    ensures w < |After(s, events).workers| && s.workers[w].held <= After(s, events).workers[w].held
    decreases |events|
  {
    if events != [] {
      assert events[0] in events;
      assert forall e :: e in events[1..] ==> e in events;
      QuietStep(s, events[0], w);
      StepKeepsHeld(s, events[0]);
      SettledKeepsHeld(Step(s, events[0]), events[1..], w);
    }
  }

  // ----- both promises, from the start

  lemma {:induction false} ForwardSplit(s: System, xs: seq<Event>, ys: seq<Event>)
    requires Runs(s, xs) && Runs(After(s, xs), ys) && Runs(s, xs + ys) && Forward(s, xs + ys)
    ensures Forward(s, xs) && Forward(After(s, xs), ys)
    decreases |xs|
  {
    if xs == [] {
      assert xs + ys == ys;
    } else {
      assert (xs + ys)[1..] == xs[1..] + ys;
      ForwardSplit(Step(s, xs[0]), xs[1..], ys);
    }
  }

  /** A run from the start in two parts, while the backend's times never decrease: in between the state is sound. */
  lemma SoundFromStart(file: File, workers: nat, before: seq<Event>, events: seq<Event>)
    requires Runs(Start(file, workers), before) && Runs(After(Start(file, workers), before), events)
    requires NeverDecreases(Times(before + events))
    ensures var s := After(Start(file, workers), before);
      && (Ok(s) || Unpublished(s))
      && |s.workers| == workers
      && Forward(s, events)
  {
    SoundFrom(Start(file, workers), before, events);
  }

  lemma SoundFrom(s: System, before: seq<Event>, events: seq<Event>)
    requires Unpublished(s) && s.latest == 0
    requires Runs(s, before) && Runs(After(s, before), events) && NeverDecreases(Times(before + events))
    ensures Ok(After(s, before)) || Unpublished(After(s, before))
    ensures |After(s, before).workers| == |s.workers| && Forward(After(s, before), events)
  {
    RunsConcat(s, before, events);
    NeverDecreasesClimbs(0, Times(before + events));
    ClimbsForward(s, before + events, 0);
    ForwardSplit(s, before, events);
    NeverStale(s, before);
  }

  /** No worker's version ever goes backwards, and no stamp exceeds it. */
  lemma HeldNeverGoesBack(file: File, workers: nat, before: seq<Event>, events: seq<Event>, w: nat)
    requires Runs(Start(file, workers), before) && Runs(After(Start(file, workers), before), events)
    requires NeverDecreases(Times(before + events)) && w < workers
    ensures var s := After(Start(file, workers), before);
      var t := After(s, events);
      && |s.workers| == |t.workers| == workers
      && s.workers[w].held <= t.workers[w].held
      && t.workers[w].stamp <= t.workers[w].held
  {
    SoundFromStart(file, workers, before, events);
    NeverStale(After(Start(file, workers), before), events);
  }

  /** In every reachable state in which the writer is quiet, one more request suffices exactly when the file is whole or
      none was needed. */
  lemma OneRequestSuffices(file: File, workers: nat, before: seq<Event>, events: seq<Event>, w: nat)
    requires Runs(Start(file, workers), before) && NeverDecreases(Times(before)) && w < workers
    requires var s := After(Start(file, workers), before);
      && Settled(s) && Runs(s, events) && Check(w) in events
      && (forall e :: e in events ==> NoNews(s.published, e) && e != LoadFails(w))
      && w < |s.workers| && s.workers[w].at.Serving?
      && w < |After(s, events).workers| && After(s, events).workers[w].at.Serving?
    ensures var s := After(Start(file, workers), before);
      After(s, events).workers[w].held >= s.published <==> s.file.Whole? || s.workers[w].held >= s.published
  {
    assert before + [] == before;
    SoundFromStart(file, workers, before, []);
    CatchesUpExactly(After(Start(file, workers), before), events, w);
  }

  // ----- the two programs run on their own

  class Host {
    var file: File
    var published: int
    ghost var latest: int
    var workers: seq<Worker>

    ghost function View(): System
      reads this
    {
      System(file, published, Resting, latest, workers)
    }

    constructor (file: File, n: nat)
      ensures View() == Start(file, n)
    {
      this.file, published := file, 0;
      latest := 0;
      workers := seq(n, i => START_WORKER);
    }

    /** The configuration part of `do_heartbeat`: a new time, a truncated file, its content, then the publication. It is
        published whenever the file could be opened, even if its content could not be written. Returns whether the
        heartbeat is to be repeated at once. */
    method UpdateConfig(time: int, hasConfig: bool, opens: bool, writes: bool)
      returns (again: bool, ghost steps: seq<Event>)
      modifies this
      ensures Runs(old(View()), steps) && View() == After(old(View()), steps) && steps != [] && steps[0] == Fetch(time)
      ensures again <==> time >= 0 && old(published) != time && hasConfig && opens
      ensures again ==> published == time && file == if writes then Whole(time) else Torn
      ensures !again ==> published == old(published) && file == old(file)
    {
      steps, again := [], false;
      ghost var s := View();
      if time >= 0 && published != time {
        latest := time;
        ghost var s1 := Step(s, Fetch(time));
        if hasConfig {
          again := WriteFile(opens, writes, time);
          if again {
            ghost var s2 := Step(s1, Truncate);
            ghost var wrote := if writes then FinishWrite else FailWrite;
            published := time;
            OneStep(Step(s2, wrote), Publish, []);
            OneStep(s2, wrote, [Publish]);
            OneStep(s1, Truncate, [wrote] + [Publish]);
            steps := [Truncate] + ([wrote] + [Publish]);
          } else {
            OneStep(s1, Abandon, []);
            steps := [Abandon];
          }
        } else {
          OneStep(s1, Abandon, []);
          steps := [Abandon];
        }
      }
      OneStep(s, Fetch(time), steps);
      steps := [Fetch(time)] + steps;
    }

    /** `write_string_to_file`: fails only when the file cannot be opened. */
    method WriteFile(opens: bool, writes: bool, time: int) returns (ok: bool)
      modifies this`file
      ensures ok == opens
      ensures file == if !opens then old(file) else if writes then Whole(time) else Torn
    {
      ok := opens;
      if opens {
        file := Torn;
        if writes {
          file := Whole(time);
        }
      }
    }

    /** The reload part of request start. */
    method RequestStart(w: nat) returns (ghost steps: seq<Event>)
      requires w < |workers| && workers[w].at.Serving?
      modifies this`workers
      ensures Runs(old(View()), steps) && View() == After(old(View()), steps) && steps != [] && steps[0] == Check(w)
      ensures forall e :: e in steps ==> e in [Check(w), Load(w), Update(w), Stamp(w)]
      ensures |workers| == old(|workers|) && workers[w].at.Serving?
    {
      ghost var s := View();
      ghost var s1 := Step(s, Check(w));
      steps := [];
      if published != 0 && published > workers[w].stamp {
        var lastUpdate := published;
        var content := file;
        ghost var s2 := Step(s1, Load(w));
        ghost var s3 := Step(s2, Update(w));
        if content.Whole? {
          workers := workers[w := workers[w].(held := content.version)];
          workers := workers[w := workers[w].(stamp := lastUpdate)];
          OneStep(s3, Stamp(w), []);
          assert View() == Step(s3, Stamp(w));
          steps := [Stamp(w)];
        } else {
          assert View() == s3;
        }
        OneStep(s2, Update(w), steps);
        OneStep(s1, Load(w), [Update(w)] + steps);
        steps := [Load(w)] + ([Update(w)] + steps);
      }
      OneStep(s, Check(w), steps);
      steps := [Check(w)] + steps;
    }
  }
}
