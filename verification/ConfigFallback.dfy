/** Exactly when a worker can fall back to an older configuration. */
module ConfigFallback {

  import opened ConfigHandover

  /** No step of the run lowers a worker's version. */
  predicate NeverLowers(s: System, events: seq<Event>)
    requires Runs(s, events)
    decreases |events|
  {
    events == [] ||
      (HeldUpTo(s, Step(s, events[0])) && NeverLowers(Step(s, events[0]), events[1..]))
  }

  predicate HeldUpTo(s: System, t: System) {
    |t.workers| == |s.workers| && forall i :: 0 <= i < |s.workers| ==> s.workers[i].held <= t.workers[i].held
  }

  /** So it is in every run while the backend answers the times `ts`. */
  ghost predicate HeldOnlyGrows(file: File, workers: nat, ts: seq<int>) {
    forall events :: Runs(Start(file, workers), events) && Times(events) <= ts ==>
      NeverLowers(Start(file, workers), events)
  }

  /** After an answer greater than an earlier positive one comes no smaller one. */
  ghost predicate NoPeak(ts: seq<int>) {
    forall i, j, k :: 0 <= i < j < k < |ts| && 0 < ts[i] < ts[j] && ts[k] >= 0 ==> ts[j] <= ts[k]
  }

  /** The same, read from the front: up to the first rise over `m`, the least positive answer so far, answers do as they
      like, and from then on they climb. */
  predicate ClimbsOnceRisen(m: int, ts: seq<int>)
    decreases |ts|
  {
    ts == [] ||
      if ts[0] > m then Climbs(ts[0], ts[1..]) else ClimbsOnceRisen(if ts[0] > 0 then ts[0] else m, ts[1..])
  }

  predicate WriterEvent(e: Event) {
    e.Fetch? || e.Truncate? || e.FinishWrite? || e.FailWrite? || e.Publish? || e.Abandon?
  }

  // Before the first rise: every time seen or stamped is at least as great as all that will be published.

  ghost predicate FallingWorker(s: System, x: Worker, m: int) {
    match x.at
    case Serving => (x.held == 0 && x.stamp == 0) || (x.stamp >= m && x.stamp >= s.published && 0 <= x.held <= x.stamp)
    case Checked(seen) =>
      && x.held == 0 && x.stamp == 0 && seen >= m && seen >= s.published
      && (s.file.Whole? ==> 0 <= s.file.version <= seen)
    case Loaded(seen, content) =>
      && x.held == 0 && x.stamp == 0 && seen >= m && seen >= s.published
      && (content.Whole? ==> 0 <= content.version <= seen)
    case Updated(seen) => seen >= m && seen >= s.published && 0 <= x.held <= seen
  }

  ghost predicate WriterOk(s: System) {
    && s.published >= 0 && s.latest >= 0
    && (!s.writer.Resting? ==> s.writer.time == s.latest)
    && (s.writer.Writing? ==> s.file == Torn)
    && (s.writer.Written? ==> s.file == Whole(s.writer.time) || s.file == Torn)
  }

  ghost predicate Falling(s: System, m: int) {
    && m > 0 && WriterOk(s)
    && (s.latest == 0 || s.latest == m)
    && (s.published > 0 ==> s.published >= m && (s.file.Whole? ==> 0 <= s.file.version <= s.published))
    && forall i :: 0 <= i < |s.workers| ==> FallingWorker(s, s.workers[i], m)
  }

  // After it: a version is either not above its stamp, or from a time behind which nothing older is written.

  predicate Under(s: System, stamp: int, v: int) {
    v <= stamp || (v <= s.latest && (s.file.Whole? ==> v <= s.file.version))
  }

  ghost predicate RisenWorker(s: System, x: Worker) {
    && x.held >= 0
    && match x.at
       case Serving => Under(s, x.stamp, x.held)
       case Checked(seen) =>
         && (s.file.Whole? ==> 0 <= s.file.version)
         && Under(s, x.stamp, x.held)
         && (x.held == 0 || (x.stamp < seen && (s.file.Whole? ==> seen <= s.file.version) && seen <= s.latest))
         && (s.file.Whole? ==> s.file.version <= s.latest || s.file.version <= seen)
       case Loaded(seen, content) =>
         && Under(s, x.stamp, x.held)
         && (content.Whole? ==> x.held <= content.version && Under(s, seen, content.version))
       case Updated(seen) => Under(s, seen, x.held)
  }

  /** Nothing from behind the rise is published: who has reloaded will not reload. */
  ghost predicate Waiting(s: System, x: Worker) {
    match x.at
    case Serving => (x.held == 0 && x.stamp == 0) || x.stamp >= s.published
    case Checked(seen) => x.held == 0 && x.stamp == 0 && seen >= s.published
    case Loaded(seen, content) => x.held == 0 && x.stamp == 0 && seen >= s.published
    case Updated(seen) => seen >= s.published
  }

  ghost predicate AllWait(s: System) {
    forall i :: 0 <= i < |s.workers| ==> Waiting(s, s.workers[i])
  }

  ghost predicate Risen(s: System) {
    && WriterOk(s)
    && (s.published > 0 && s.file.Whole? ==>
         0 <= s.file.version && (s.file.version <= s.published || s.file.version <= s.latest))
    && (forall i :: 0 <= i < |s.workers| ==> RisenWorker(s, s.workers[i]))
    && (|| (s.published <= s.latest && (s.file.Whole? ==> s.published <= s.file.version <= s.latest))
        || AllWait(s))
  }

  lemma FallingStep(s: System, e: Event, m: int)
    requires Falling(s, m) && Enabled(s, e)
    requires e.Fetch? && TakesUp(s, e.time) ==> e.time <= m
    ensures Falling(Step(s, e), if e.Fetch? && e.time > 0 && TakesUp(s, e.time) then e.time else m)
    ensures HeldUpTo(s, Step(s, e))
  {
    var s', m' := Step(s, e), if e.Fetch? && e.time > 0 && TakesUp(s, e.time) then e.time else m;
    forall i | 0 <= i < |s.workers|
      ensures FallingWorker(s', s'.workers[i], m') && s.workers[i].held <= s'.workers[i].held
    {
      assert FallingWorker(s, s.workers[i], m);
    }
  }

  lemma FallingRisen(s: System, m: int)
    requires Falling(s, m)
    ensures Risen(s)
  {
    forall i | 0 <= i < |s.workers| ensures RisenWorker(s, s.workers[i]) && Waiting(s, s.workers[i]) {
      assert FallingWorker(s, s.workers[i], m);
    }
  }

  /** While a worker rests, the file becomes no older than what it holds. */
  lemma RisenWorkerRests(s: System, t: System, x: Worker)
    requires RisenWorker(s, x) && 0 <= s.latest <= t.latest
    requires t.file == s.file || t.file == Torn || t.file == Whole(t.latest)
    ensures RisenWorker(t, x)
  {
  }

  lemma RisenWorkerMoves(s: System, e: Event, i: nat)
    requires Risen(s) && Enabled(s, e) && i < |s.workers| && !WriterEvent(e) && e.w == i
    ensures RisenWorker(Step(s, e), Step(s, e).workers[i])
    ensures s.workers[i].held <= Step(s, e).workers[i].held
  {
    assert RisenWorker(s, s.workers[i]);
    assert AllWait(s) ==> Waiting(s, s.workers[i]);
  }

  lemma RisenWorkerStep(s: System, e: Event, i: nat)
    requires Risen(s) && Enabled(s, e) && (e.Fetch? && TakesUp(s, e.time) ==> e.time >= s.latest)
    requires i < |s.workers|
    ensures RisenWorker(Step(s, e), Step(s, e).workers[i])
    ensures s.workers[i].held <= Step(s, e).workers[i].held
  {
    if !WriterEvent(e) && e.w == i {
      RisenWorkerMoves(s, e, i);
    } else {
      RisenWorkerRests(s, Step(s, e), s.workers[i]);
    }
  }

  lemma WaitingStep(s: System, e: Event)
    requires Risen(s) && AllWait(s) && Enabled(s, e) && !e.Publish?
    ensures AllWait(Step(s, e))
  {
    forall i | 0 <= i < |s.workers| ensures Waiting(Step(s, e), Step(s, e).workers[i]) {
      assert Waiting(s, s.workers[i]);
    }
  }

  lemma RisenStep(s: System, e: Event)
    requires Risen(s) && Enabled(s, e) && (e.Fetch? && TakesUp(s, e.time) ==> e.time >= s.latest)
    ensures Risen(Step(s, e)) && HeldUpTo(s, Step(s, e))
  {
    forall i | 0 <= i < |s.workers|
      ensures RisenWorker(Step(s, e), Step(s, e).workers[i]) && s.workers[i].held <= Step(s, e).workers[i].held
    {
      RisenWorkerStep(s, e, i);
    }
    if AllWait(s) && !e.Publish? {
      WaitingStep(s, e);
    }
  }

  lemma {:induction false} RisenNeverLowers(s: System, events: seq<Event>)
    requires Risen(s) && Runs(s, events) && Forward(s, events)
    ensures NeverLowers(s, events)
    decreases |events|
  {
    if events != [] {
      RisenStep(s, events[0]);
      RisenNeverLowers(Step(s, events[0]), events[1..]);
    }
  }

  lemma {:induction false} FallingNeverLowers(s: System, m: int, events: seq<Event>)
    requires Falling(s, m) && Runs(s, events) && ClimbsOnceRisen(m, Times(events))
    ensures NeverLowers(s, events)
    decreases |events|
  {
    if events != [] {
      var ts, t := Times(events), Step(s, events[0]);
      if events[0].Fetch? {
        assert ts[0] == events[0].time && ts[1..] == Times(events[1..]);
        if ts[0] > m {
          FallingRisen(s, m);
          ClimbsForward(t, events[1..], ts[0]);
          RisenNeverLowers(s, events);
        } else {
          FallingStep(s, events[0], m);
          FallingNeverLowers(t, if ts[0] > 0 then ts[0] else m, events[1..]);
        }
      } else {
        assert ts == Times(events[1..]);
        FallingStep(s, events[0], m);
        FallingNeverLowers(t, m, events[1..]);
      }
    }
  }

  /** After an answer above `m` comes no smaller one. */
  ghost predicate RisesAbove(m: int, ts: seq<int>) {
    forall j, k :: 0 <= j < k < |ts| && m < ts[j] && ts[k] >= 0 ==> ts[j] <= ts[k]
  }

  lemma NoPeakRest(ts: seq<int>)
    requires NoPeak(ts) && ts != []
    ensures NoPeak(ts[1..])
  {
    var rest := ts[1..];
    forall i, j, k | 0 <= i < j < k < |rest| && 0 < rest[i] < rest[j] && rest[k] >= 0 ensures rest[j] <= rest[k] {
      assert ts[i + 1] == rest[i] && ts[j + 1] == rest[j] && ts[k + 1] == rest[k];
    }
  }

  lemma NoPeakRises(ts: seq<int>)
    requires NoPeak(ts) && ts != [] && ts[0] > 0
    ensures RisesAbove(ts[0], ts[1..])
  {
    var rest := ts[1..];
    forall j, k | 0 <= j < k < |rest| && ts[0] < rest[j] && rest[k] >= 0 ensures rest[j] <= rest[k] {
      assert ts[j + 1] == rest[j] && ts[k + 1] == rest[k];
    }
  }

  lemma RisesRest(m: int, ts: seq<int>)
    requires RisesAbove(m, ts) && ts != []
    ensures RisesAbove(m, ts[1..])
  {
    var rest := ts[1..];
    forall j, k | 0 <= j < k < |rest| && m < rest[j] && rest[k] >= 0 ensures rest[j] <= rest[k] {
      assert ts[j + 1] == rest[j] && ts[k + 1] == rest[k];
    }
  }

  lemma RisenRest(m: int, ts: seq<int>)
    requires RisesAbove(m, ts) && ts != [] && ts[0] > m >= 0
    ensures NeverDecreases(ts[1..]) && AllFrom(ts[0], ts[1..])
  {
    var rest := ts[1..];
    forall k | 0 <= k < |rest| && rest[k] >= 0 ensures ts[0] <= rest[k] {
      assert ts[k + 1] == rest[k];
    }
    RisesRest(m, ts);
  }

  lemma {:induction false} NoPeakClimbs(m: int, ts: seq<int>)
    requires m > 0 && NoPeak(ts) && RisesAbove(m, ts)
    ensures ClimbsOnceRisen(m, ts)
    decreases |ts|
  {
    if ts != [] {
      if ts[0] > m {
        RisenRest(m, ts);
        NeverDecreasesClimbs(ts[0], ts[1..]);
      } else {
        NoPeakRest(ts);
        RisesRest(m, ts);
        if ts[0] > 0 {
          NoPeakRises(ts);
        }
        NoPeakClimbs(if ts[0] > 0 then ts[0] else m, ts[1..]);
      }
    }
  }

  /** A bound of all the answers. */
  function Bound(ts: seq<int>): (m: int)
    ensures m > 0 && forall i :: 0 <= i < |ts| ==> ts[i] <= m
  {
    if ts == [] then 1
    else
      var m := Bound(ts[1..]);
      if ts[0] > m then ts[0] else m
  }

  lemma NoPeakPrefix(xs: seq<int>, ts: seq<int>)
    requires xs <= ts && NoPeak(ts)
    ensures NoPeak(xs) && RisesAbove(Bound(xs), xs)
  {
    assert forall i :: 0 <= i < |xs| ==> xs[i] == ts[i];
  }

  lemma NoPeakRun(file: File, workers: nat, events: seq<Event>, ts: seq<int>)
    requires NoPeak(ts) && Runs(Start(file, workers), events) && Times(events) <= ts
    ensures NeverLowers(Start(file, workers), events)
  {
    var xs := Times(events);
    NoPeakPrefix(xs, ts);
    NoPeakClimbs(Bound(xs), xs);
    FallingNeverLowers(Start(file, workers), Bound(xs), events);
  }

  lemma {:induction false} NeverLowersSplit(s: System, xs: seq<Event>, ys: seq<Event>)
    requires Runs(s, xs) && Runs(After(s, xs), ys) && Runs(s, xs + ys) && NeverLowers(s, xs + ys)
    ensures NeverLowers(After(s, xs), ys)
    decreases |xs|
  {
    if xs == [] {
      assert xs + ys == ys;
    } else {
      assert (xs + ys)[1..] == xs[1..] + ys;
      NeverLowersSplit(Step(s, xs[0]), xs[1..], ys);
    }
  }

  lemma {:induction false} NeverLowersUpTo(s: System, events: seq<Event>)
    requires Runs(s, events) && NeverLowers(s, events)
    ensures HeldUpTo(s, After(s, events))
    decreases |events|
  {
    if events != [] {
      NeverLowersUpTo(Step(s, events[0]), events[1..]);
    }
  }

  /** Published, checked again, and over it an older configuration is written and read: the version falls. */
  lemma FallsBack(s: System, hi: int, between: seq<int>, lo: int) returns (run: seq<Event>)
    requires 0 <= lo < hi == s.published && s.writer.Resting? && s.workers != []
    requires s.workers[0].held == hi && s.workers[0].at == Checked(hi)
    ensures Runs(s, run) && Times(run) == between + [lo] && !NeverLowers(s, run)
  {
    var a := GivesUp(s, between);
    var b := WritesAndReads(After(s, a), hi, lo);
    run := Chain(s, a, b);
    if NeverLowers(s, run) {
      NeverLowersUpTo(s, run);
    }
  }

  lemma PublishesAndChecksAgain(s: System, hi: int)
    requires s.writer == Written(hi) && s.workers != [] && s.workers[0].at.Serving? && 0 <= s.workers[0].stamp < hi
    ensures Runs(s, [Publish, Check(0)]) && Times([Publish, Check(0)]) == []
    ensures After(s, [Publish, Check(0)])
         == s.(published := hi, writer := Resting, workers := s.workers[0 := s.workers[0].(at := Checked(hi))])
  {
    var u := Step(s, Publish);
    OneStep(u, Check(0), []);
    OneStep(s, Publish, [Check(0)]);
    assert [Check(0)] + [] == [Check(0)] && [Publish] + [Check(0)] == [Publish, Check(0)];
    TimesConcat([Publish], [Check(0)]);
  }

  /** The rise: a worker that saw the time `mid` holds the configuration of `hi`, and sees that published, too. */
  lemma Rises(s: System, mid: int, between: seq<int>, hi: int) returns (run: seq<Event>)
    requires 0 < mid < hi && s.published == mid && s.writer.Resting?
    requires s.workers != [] && s.workers[0] == Worker(0, 0, Checked(mid))
    ensures Runs(s, run) && Times(run) == between + [hi]
    ensures var t := After(s, run);
      && t.published == hi && t.writer.Resting? && t.workers != []
      && t.workers[0].held == hi && t.workers[0].at == Checked(hi)
  {
    var a := GivesUp(s, between);
    var t := After(s, a);
    var b := WritesAndReads(t, mid, hi);
    var u := After(t, b);
    PublishesAndChecksAgain(u, hi);
    var c := Chain(t, b, [Publish, Check(0)]);
    run := Chain(s, a, c);
  }

  lemma PublishesThenFallsBack(s: System, mid: int, xs: seq<int>, hi: int, ys: seq<int>, lo: int)
    returns (run: seq<Event>)
    requires 0 < mid < hi && 0 <= lo < hi && s.writer.Resting? && s.published == 0
    requires s.workers != [] && s.workers[0] == START_WORKER
    ensures Runs(s, run) && Times(run) == [mid] + ((xs + [hi]) + (ys + [lo])) && !NeverLowers(s, run)
  {
    var a := PublishesAndChecks(s, mid);
    var t := After(s, a);
    var b := Rises(t, mid, xs, hi);
    var c := FallsBack(After(t, b), hi, ys, lo);
    var d := Chain(t, b, c);
    run := Chain(s, a, d);
    if NeverLowers(s, run) {
      RunIsChain(s, a, d, run);
      RunIsChain(t, b, c, d);
    }
  }

  lemma RunIsChain(s: System, xs: seq<Event>, ys: seq<Event>, run: seq<Event>)
    requires Runs(s, xs) && Runs(After(s, xs), ys) && run == xs + ys && Runs(s, run) && NeverLowers(s, run)
    ensures NeverLowers(After(s, xs), ys)
  {
    NeverLowersSplit(s, xs, ys);
  }

  /** Whenever the answers make a peak, some run lowers a worker's version. */
  lemma PeakLowersHeld(file: File, workers: nat, ts: seq<int>, i: nat, j: nat, k: nat) returns (run: seq<Event>)
    requires workers >= 1 && i < j < k < |ts| && 0 < ts[i] < ts[j] && 0 <= ts[k] < ts[j]
    ensures Runs(Start(file, workers), run) && Times(run) <= ts && !NeverLowers(Start(file, workers), run)
  {
    var s := Start(file, workers);
    var a := GivesUp(s, ts[..i]);
    var b := PublishesThenFallsBack(After(s, a), ts[i], ts[i + 1..j], ts[j], ts[j + 1..k], ts[k]);
    run := Chain(s, a, b);
    if NeverLowers(s, run) {
      RunIsChain(s, a, b, run);
    }
    PeakParts(ts, i, j, k);
  }

  lemma PeakParts(ts: seq<int>, i: nat, j: nat, k: nat)
    requires i < j < k < |ts|
    ensures ts[..i] + ([ts[i]] + ((ts[i + 1..j] + [ts[j]]) + (ts[j + 1..k] + [ts[k]]))) <= ts
  {
    assert ts[..i] + ([ts[i]] + ((ts[i + 1..j] + [ts[j]]) + (ts[j + 1..k] + [ts[k]]))) == ts[..k + 1];
  }

  /** No run lowers a worker's version exactly when the backend's answers make no peak. */
  lemma HeldPromise(file: File, workers: nat, ts: seq<int>)
    requires workers >= 1
    ensures HeldOnlyGrows(file, workers, ts) <==> NoPeak(ts)
  {
    if NoPeak(ts) {
      forall events | Runs(Start(file, workers), events) && Times(events) <= ts
        ensures NeverLowers(Start(file, workers), events)
      {
        NoPeakRun(file, workers, events, ts);
      }
    } else {
      var i, j, k :| 0 <= i < j < k < |ts| && 0 < ts[i] < ts[j] && ts[k] >= 0 && ts[j] > ts[k];
      var run := PeakLowersHeld(file, workers, ts, i, j, k);
    }
  }
}
