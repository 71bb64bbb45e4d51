/** The supervisor keeps one process per agent role alive: it forks where no pid is recorded, records the child's pid
    afterwards, and its SIGCHLD handler, which may run between any two of these steps, reaps and clears records. */
module Supervisor {

  // ----- the steps

  /** A child process is alive until it exits and a zombie until it is reaped; a pid is free again after that. */
  datatype Child = Child(role: nat, alive: bool)

  datatype Phase = Idle | Checked(role: nat) | Forked(role: nat, pid: nat)

  /** `recorded[role]` is the pid in shared memory, 0 for none. */
  datatype System = System(recorded: seq<nat>, children: map<nat, Child>, phase: Phase)

  datatype Event = Check(role: nat) | Fork(pid: nat) | ForkFails | Record | Exit(pid: nat) | Reap(pid: nat)

  function Start(roles: nat): System {
    System(seq(roles, _ => 0), map[], Idle)
  }

  predicate Can(s: System, e: Event) {
    match e
    case Check(role) => s.phase.Idle? && role < |s.recorded| && s.recorded[role] == 0
    case Fork(pid) => s.phase.Checked? && pid != 0 && pid !in s.children
    case ForkFails => s.phase.Checked?
    case Record => s.phase.Forked? && s.phase.role < |s.recorded|
    case Exit(pid) => pid in s.children && s.children[pid].alive
    case Reap(pid) => pid in s.children && !s.children[pid].alive
  }

  /** Every record of `pid` is cleared. */
  function Cleared(recorded: seq<nat>, pid: nat): (r: seq<nat>)
    ensures |r| == |recorded|
    ensures forall i :: 0 <= i < |r| ==> r[i] == if recorded[i] == pid then 0 else recorded[i]
  {
    seq(|recorded|, i requires 0 <= i < |recorded| => if recorded[i] == pid then 0 else recorded[i])
  }

  function Step(s: System, e: Event): System
    requires Can(s, e)
  {
    match e
    case Check(role) => s.(phase := Checked(role))
    case Fork(pid) => s.(children := s.children[pid := Child(s.phase.role, true)], phase := Forked(s.phase.role, pid))
    case ForkFails => s.(phase := Idle)
    case Record => s.(recorded := s.recorded[s.phase.role := s.phase.pid], phase := Idle)
    case Exit(pid) => s.(children := s.children[pid := s.children[pid].(alive := false)])
    case Reap(pid) => s.(recorded := Cleared(s.recorded, pid), children := s.children - {pid})
  }

  predicate Runs(s: System, es: seq<Event>)
    decreases es
  {
    es == [] || (Can(s, es[0]) && Runs(Step(s, es[0]), es[1..]))
  }

  function After(s: System, es: seq<Event>): System
    requires Runs(s, es)
    decreases es
  {
    if es == [] then s else After(Step(s, es[0]), es[1..])
  }

  // ----- one child per role

  /** Every child is recorded for its role or has just been forked for it, and a role being served has no record. */
  ghost predicate Ok(s: System) {
    && (s.phase.Idle? || (s.phase.role < |s.recorded| && s.recorded[s.phase.role] == 0))
    && (s.phase.Forked? ==> s.phase.pid != 0)
    && (s.phase.Forked? && s.phase.pid in s.children ==> s.children[s.phase.pid].role == s.phase.role)
    && forall p :: p in s.children ==> p != 0 && Known(s, p)
  }

  predicate Known(s: System, p: nat)
    requires p in s.children
  {
    var role := s.children[p].role;
    role < |s.recorded| && (s.recorded[role] == p || s.phase == Forked(role, p))
  }

  lemma StepKeepsOk(s: System, e: Event)
    requires Ok(s) && Can(s, e)
    ensures Ok(Step(s, e)) && |Step(s, e).recorded| == |s.recorded|
  {
  }

  lemma {:induction false} RunKeepsOk(s: System, es: seq<Event>)
    requires Ok(s) && Runs(s, es)
    ensures Ok(After(s, es)) && |After(s, es).recorded| == |s.recorded|
    decreases es
  {
    if es != [] {
      StepKeepsOk(s, es[0]);
      RunKeepsOk(Step(s, es[0]), es[1..]);
    }
  }

  /** In every reachable state a role has at most one child, alive or not, and outside the window between fork and
      record that child is the recorded one. */
  lemma OneChildPerRole(roles: nat, es: seq<Event>, p: nat, q: nat)
    requires Runs(Start(roles), es)
    requires p in After(Start(roles), es).children && q in After(Start(roles), es).children
    requires var s := After(Start(roles), es); s.children[p].role == s.children[q].role
    ensures p == q
    ensures var s := After(Start(roles), es);
            var role := s.children[p].role;
            role < |s.recorded| && (s.phase != Forked(role, p) ==> s.recorded[role] == p)
  {
    RunKeepsOk(Start(roles), es);
    var s := After(Start(roles), es);
    assert Known(s, p) && Known(s, q);
  }

  // ----- records of children that are gone

  /** The record of a role is not the pid of a child of that role. */
  predicate Stale(s: System, role: nat)
    requires role < |s.recorded|
  {
    var p := s.recorded[role];
    p != 0 && !(p in s.children && s.children[p].role == role)
  }

  /** The child was reaped before its pid is recorded. */
  predicate IsLate(s: System, e: Event, role: nat) {
    e == Record && s.phase.Forked? && s.phase.role == role && s.phase.pid !in s.children
  }

  /** A record goes stale in one way: the child exits and is reaped between fork and record. It stops being stale in
      one way: its pid comes back as another child's and that child is reaped. */
  lemma StaleChanges(s: System, e: Event, role: nat)
    requires Ok(s) && Can(s, e) && role < |s.recorded|
    ensures |Step(s, e).recorded| == |s.recorded|
    ensures !Stale(s, role) ==> (Stale(Step(s, e), role) <==> IsLate(s, e, role))
    ensures Stale(s, role) ==> (Stale(Step(s, e), role) <==> e != Reap(s.recorded[role]))
  {
  }

  /** While the pid is not reaped again the role has no child, and none is ever forked for it. */
  lemma {:induction false} StaleStarves(s: System, es: seq<Event>, role: nat)
    requires Ok(s) && Runs(s, es) && role < |s.recorded| && Stale(s, role)
    requires forall i :: 0 <= i < |es| ==> es[i] != Reap(s.recorded[role])
    ensures var t := After(s, es);
            && |t.recorded| == |s.recorded| && t.recorded[role] == s.recorded[role] && Stale(t, role)
            && forall p :: p in t.children ==> t.children[p].role != role
    decreases es
  {
    if es == [] {
      forall p | p in s.children ensures s.children[p].role != role {
        assert Known(s, p);
      }
    } else {
      var t := Step(s, es[0]);
      StepKeepsOk(s, es[0]);
      StaleChanges(s, es[0], role);
      assert t.recorded[role] == s.recorded[role] by {
        assert es[0] == Record ==> s.phase.role != role;
        assert es[0].Reap? ==> es[0].pid != s.recorded[role];
      }
      StaleStarves(t, es[1..], role);
    }
  }

  predicate NeverLate(s: System, es: seq<Event>, role: nat)
    requires Runs(s, es)
    decreases es
  {
    es == [] || (!IsLate(s, es[0], role) && NeverLate(Step(s, es[0]), es[1..], role))
  }

  lemma {:induction false} NeverLateNeverStale(s: System, es: seq<Event>, role: nat)
    requires Ok(s) && Runs(s, es) && role < |s.recorded| && !Stale(s, role) && NeverLate(s, es, role)
    ensures |After(s, es).recorded| == |s.recorded| && !Stale(After(s, es), role)
    decreases es
  {
    if es != [] {
      StepKeepsOk(s, es[0]);
      StaleChanges(s, es[0], role);
      NeverLateNeverStale(Step(s, es[0]), es[1..], role);
    }
  }

  /** The late record can happen: the only child of the first role is gone and the role is never served again. */
  lemma LateRecord(p: nat)
    requires p != 0
    ensures var es := [Check(0), Fork(p), Exit(p), Reap(p), Record];
            Runs(Start(1), es) && After(Start(1), es) == System([p], map[], Idle) && Stale(After(Start(1), es), 0)
  {
    var s0 := Start(1);
    var s1 := Step(s0, Check(0));
    var s2 := Step(s1, Fork(p));
    var s3 := Step(s2, Exit(p));
    assert s3.children - {p} == map[];
    var s4 := Step(s3, Reap(p));
    assert s4.recorded == [0];
    var s5 := Step(s4, Record);
    assert After(s4, [Record]) == After(s5, []) == s5;
    assert After(s3, [Reap(p), Record]) == s5;
    assert After(s2, [Exit(p), Reap(p), Record]) == s5;
    assert After(s1, [Fork(p), Exit(p), Reap(p), Record]) == s5;
  }

  /** What brings a role back that has no live child. */
  function Recovery(s: System, role: nat, pid: nat): seq<Event>
    requires role < |s.recorded|
  {
    (if s.recorded[role] == 0 then [] else [Reap(s.recorded[role])]) + [Check(role), Fork(pid), Record]
  }

  /** Without a stale record the handler and one turn of the loop bring the role back. */
  lemma Recovers(s: System, role: nat, pid: nat)
    requires Ok(s) && s.phase == Idle && role < |s.recorded| && !Stale(s, role)
    requires forall p :: p in s.children && s.children[p].role == role ==> !s.children[p].alive
    requires pid != 0 && pid !in s.children
    ensures Runs(s, Recovery(s, role, pid))
    ensures var t := After(s, Recovery(s, role, pid));
            && pid in t.children && t.children[pid] == Child(role, true) && t.phase == Idle
            && t.recorded == Cleared(s.recorded, s.recorded[role])[role := pid]
  {
    var es := [Check(role), Fork(pid), Record];
    if s.recorded[role] == 0 {
      assert Recovery(s, role, pid) == es;
      Serves(s, role, pid);
    } else {
      var reap := Reap(s.recorded[role]);
      var t := Step(s, reap);
      Serves(t, role, pid);
      assert Recovery(s, role, pid) == [reap] + es;
      assert ([reap] + es)[1..] == es;
    }
  }

  lemma Serves(s: System, role: nat, pid: nat)
    requires s.phase == Idle && role < |s.recorded| && s.recorded[role] == 0 && pid != 0 && pid !in s.children
    ensures var es := [Check(role), Fork(pid), Record];
            && Runs(s, es)
            && After(s, es) == System(s.recorded[role := pid], s.children[pid := Child(role, true)], Idle)
  {
    var s1 := Step(s, Check(role));
    var s2 := Step(s1, Fork(pid));
    var s3 := Step(s2, Record);
    assert After(s2, [Record]) == After(s3, []) == s3;
    assert After(s1, [Fork(pid), Record]) == s3;
  }

  // ----- the supervisor's own code

  ghost predicate Reaches(s: System, t: System) {
    exists es: seq<Event> :: Runs(s, es) && After(s, es) == t
  }

  lemma {:induction false} RunOn(s: System, es: seq<Event>, fs: seq<Event>)
    requires Runs(s, es) && Runs(After(s, es), fs)
    ensures Runs(s, es + fs) && After(s, es + fs) == After(After(s, es), fs)
    decreases es
  {
    if es == [] {
      assert es + fs == fs;
    } else {
      RunOn(Step(s, es[0]), es[1..], fs);
      assert (es + fs)[1..] == es[1..] + fs;
    }
  }

  lemma ReachesOn(s: System, t: System, u: System)
    requires Reaches(s, t) && Reaches(t, u)
    ensures Reaches(s, u)
  {
    var es: seq<Event> :| Runs(s, es) && After(s, es) == t;
    var fs: seq<Event> :| Runs(t, fs) && After(t, fs) == u;
    RunOn(s, es, fs);
  }

  lemma StepReaches(s: System, e: Event)
    requires Can(s, e)
    ensures Reaches(s, Step(s, e))
  {
    OneStep(s, e, [e]);
  }

  lemma OneStep(s: System, e: Event, es: seq<Event>)
    requires Can(s, e) && es == [e]
    ensures Runs(s, es) && After(s, es) == Step(s, e)
  {
    assert es[0] == e && es[1..] == [];
  }

  lemma StaysReaches(s: System)
    ensures Reaches(s, s)
  {
    assert Runs(s, []) && After(s, []) == s;
  }

  /** What the handler leaves: no zombies, and no record of one. */
  function Reaped(s: System): System {
    s.(recorded := seq(|s.recorded|, i requires 0 <= i < |s.recorded| =>
                     if IsZombie(s.children, s.recorded[i]) then 0 else s.recorded[i]),
       children := map p | p in s.children && s.children[p].alive :: s.children[p])
  }

  predicate IsZombie(children: map<nat, Child>, p: nat) {
    p in children && !children[p].alive
  }

  lemma {:induction false} ReapedIsReached(s: System)
    ensures Reaches(s, Reaped(s))
    decreases |s.children|
  {
    if p :| p in s.children && !s.children[p].alive {
      var t := Step(s, Reap(p));
      StepReaches(s, Reap(p));
      assert t.children.Keys == s.children.Keys - {p};
      ReapedIsReached(t);
      ReapOneMore(s, p);
      ReachesOn(s, t, Reaped(s));
    } else {
      assert Reaped(s) == s;
      StaysReaches(s);
    }
  }

  lemma ReapOneMore(s: System, p: nat)
    requires IsZombie(s.children, p)
    ensures Reaped(Step(s, Reap(p))) == Reaped(s)
  {
    var t := Step(s, Reap(p));
    forall i | 0 <= i < |s.recorded| ensures Reaped(t).recorded[i] == Reaped(s).recorded[i] {
      assert IsZombie(t.children, s.recorded[i]) <==> IsZombie(s.children, s.recorded[i]) && s.recorded[i] != p;
    }
  }

  /** What may happen between two statements: children exit, and SIGCHLD may be delivered. */
  datatype Moment = Moment(exits: seq<nat>, signal: bool)

  function Exited(s: System, exits: seq<nat>): (t: System)
    ensures t.phase == s.phase && t.recorded == s.recorded
    decreases exits
  {
    if exits == [] then s
    else Exited(if Can(s, Exit(exits[0])) then Step(s, Exit(exits[0])) else s, exits[1..])
  }

  function Happens(s: System, m: Moment): (t: System)
    ensures t.phase == s.phase && |t.recorded| == |s.recorded|
    ensures forall i :: 0 <= i < |s.recorded| && s.recorded[i] == 0 ==> t.recorded[i] == 0
  {
    if m.signal then Reaped(Exited(s, m.exits)) else Exited(s, m.exits)
  }

  lemma {:induction false} ExitedIsReached(s: System, exits: seq<nat>)
    ensures Reaches(s, Exited(s, exits))
    decreases exits
  {
    if exits == [] {
      StaysReaches(s);
    } else if Can(s, Exit(exits[0])) {
      StepReaches(s, Exit(exits[0]));
      ExitedIsReached(Step(s, Exit(exits[0])), exits[1..]);
      ReachesOn(s, Step(s, Exit(exits[0])), Exited(s, exits));
    } else {
      ExitedIsReached(s, exits[1..]);
    }
  }

  lemma HappensIsReached(s: System, m: Moment)
    ensures Reaches(s, Happens(s, m))
  {
    var t := Exited(s, m.exits);
    ExitedIsReached(s, m.exits);
    ReapedIsReached(t);
    if m.signal {
      ReachesOn(s, t, Reaped(t));
    }
  }

  /** One turn of the loop with what happens around it; `fork` is the new pid, or not positive when it fails. */
  datatype Turn = Turn(before: Moment, beforeFork: Moment, fork: int, beforeRecord: Moment)

  function Served(s: System, role: nat, w: Turn): (t: System)
    requires s.phase == Idle && role < |s.recorded|
    ensures t.phase == Idle && |t.recorded| == |s.recorded|
  {
    var a := Happens(s, w.before);
    if a.recorded[role] != 0 then a
    else
      var b := Happens(Step(a, Check(role)), w.beforeFork);
      if w.fork > 0 && w.fork !in b.children then
        Step(Happens(Step(b, Fork(w.fork)), w.beforeRecord), Record)
      else
        Step(b, ForkFails)
  }

  lemma ServedIsReached(s: System, role: nat, w: Turn)
    requires s.phase == Idle && role < |s.recorded|
    ensures Reaches(s, Served(s, role, w))
  {
    HappensIsReached(s, w.before);
    var a := Happens(s, w.before);
    if a.recorded[role] == 0 {
      var c := Step(a, Check(role));
      StepReaches(a, Check(role));
      ReachesOn(s, a, c);
      HappensIsReached(c, w.beforeFork);
      var b := Happens(c, w.beforeFork);
      ReachesOn(s, c, b);
      if w.fork > 0 && w.fork !in b.children {
        var f := Step(b, Fork(w.fork));
        StepReaches(b, Fork(w.fork));
        ReachesOn(s, b, f);
        HappensIsReached(f, w.beforeRecord);
        var g := Happens(f, w.beforeRecord);
        ReachesOn(s, f, g);
        StepReaches(g, Record);
        ReachesOn(s, g, Step(g, Record));
      } else {
        StepReaches(b, ForkFails);
        ReachesOn(s, b, Step(b, ForkFails));
      }
    }
  }

  /** The state in which the turn forks, if it does. */
  function AtFork(s: System, role: nat, w: Turn): System
    requires role < |s.recorded|
  {
    Happens(Happens(s, w.before).(phase := Checked(role)), w.beforeFork)
  }

  lemma {:induction false} ExitedChild(s: System, exits: seq<nat>, p: nat)
    requires p in s.children && s.children[p].alive
    ensures p in Exited(s, exits).children && Exited(s, exits).children[p] == Child(s.children[p].role, p !in exits)
    decreases exits
  {
    if exits != [] && exits[0] != p {
      ExitedChild(if Can(s, Exit(exits[0])) then Step(s, Exit(exits[0])) else s, exits[1..], p);
    } else if exits != [] {
      ExitedGone(Step(s, Exit(p)), exits[1..], p);
    }
  }

  lemma {:induction false} ExitedGone(s: System, exits: seq<nat>, p: nat)
    requires p in s.children && !s.children[p].alive
    ensures p in Exited(s, exits).children && Exited(s, exits).children[p] == s.children[p]
    decreases exits
  {
    if exits != [] {
      ExitedGone(if Can(s, Exit(exits[0])) then Step(s, Exit(exits[0])) else s, exits[1..], p);
    }
  }

  predicate IsLiveChild(s: System, p: nat, role: nat) {
    p in s.children && s.children[p] == Child(role, true)
  }

  /** From the fork on: the child is recorded, alive unless it exited meanwhile, and gone when it was reaped as well. */
  lemma AfterFork(b: System, pid: nat, m: Moment)
    requires b.phase.Checked? && b.phase.role < |b.recorded| && Can(b, Fork(pid))
    ensures var role, g := b.phase.role, Happens(Step(b, Fork(pid)), m);
      && g.phase == Forked(role, pid) && |g.recorded| == |b.recorded|
      && var t := Step(g, Record);
      && t.recorded[role] == pid
      && (IsLiveChild(t, pid, role) <==> pid !in m.exits)
      && (Stale(t, role) <==> pid in m.exits && m.signal)
  {
    var f := Step(b, Fork(pid));
    ExitedChild(f, m.exits, pid);
  }

  /** Whatever happens in a turn: the role has a record afterwards exactly when it had one at the check or the fork
      succeeded. A child forked is recorded; it is alive unless it exited before that, and the record is stale when it
      was also reaped before that. */
  lemma TurnServes(s: System, role: nat, w: Turn)
    requires s.phase == Idle && role < |s.recorded|
    ensures var a, b, t := Happens(s, w.before), AtFork(s, role, w), Served(s, role, w);
      var forks := w.fork > 0 && w.fork !in b.children;
      && |a.recorded| == |t.recorded| == |s.recorded|
      && (t.recorded[role] != 0 <==> a.recorded[role] != 0 || forks)
      && (a.recorded[role] == 0 && forks ==>
        && t.recorded[role] == w.fork
        && (IsLiveChild(t, w.fork, role) <==> w.fork !in w.beforeRecord.exits)
        && (Stale(t, role) <==> w.fork in w.beforeRecord.exits && w.beforeRecord.signal))
  {
    var a := Happens(s, w.before);
    if a.recorded[role] == 0 {
      var b := AtFork(s, role, w);
      if w.fork > 0 && w.fork !in b.children {
        AfterFork(b, w.fork, w.beforeRecord);
      }
    }
  }

  /** The turns of the first `n` roles. */
  function Pass(s: System, n: nat, world: nat -> Turn): (t: System)
    requires s.phase == Idle && n <= |s.recorded|
    ensures t.phase == Idle && |t.recorded| == |s.recorded|
  {
    if n == 0 then s
    else Served(Pass(s, n - 1, world), n - 1, world(n - 1))
  }

  // ----- every role is served

  lemma {:induction false} ZombieAfter(s: System, exits: seq<nat>, p: nat)
    ensures IsZombie(Exited(s, exits).children, p) <==> p in s.children && (!s.children[p].alive || p in exits)
    decreases exits
  {
    if exits != [] {
      ZombieAfter(if Can(s, Exit(exits[0])) then Step(s, Exit(exits[0])) else s, exits[1..], p);
    }
  }

  /** A signal comes when the recorded child has exited. */
  predicate Clears(s: System, m: Moment, role: nat)
    requires role < |s.recorded|
  {
    var p := s.recorded[role];
    m.signal && p in s.children && (!s.children[p].alive || p in m.exits)
  }

  lemma MomentClears(s: System, m: Moment, role: nat)
    requires role < |s.recorded|
    ensures |Happens(s, m).recorded| == |s.recorded|
    ensures Happens(s, m).recorded[role] == if Clears(s, m, role) then 0 else s.recorded[role]
  {
    ExitedIsReached(s, m.exits);
    ZombieAfter(s, m.exits, s.recorded[role]);
  }

  /** That happens in the turn of another role. */
  predicate TurnClears(s: System, other: nat, w: Turn, role: nat)
    requires s.phase == Idle && other < |s.recorded| && role < |s.recorded|
  {
    var a := Happens(s, w.before);
    || Clears(s, w.before, role)
    || (a.recorded[other] == 0 &&
         var c := Step(a, Check(other));
         var b := Happens(c, w.beforeFork);
         || Clears(c, w.beforeFork, role)
         || (w.fork > 0 && w.fork !in b.children && Clears(Step(b, Fork(w.fork)), w.beforeRecord, role)))
  }

  /** The turn of another role leaves a record, or clears it in that one way. */
  lemma OtherTurn(s: System, other: nat, w: Turn, role: nat)
    requires s.phase == Idle && other < |s.recorded| && role < |s.recorded| && other != role
    ensures Served(s, other, w).recorded[role] == if TurnClears(s, other, w, role) then 0 else s.recorded[role]
  {
    MomentClears(s, w.before, role);
    var a := Happens(s, w.before);
    if a.recorded[other] == 0 {
      var c := Step(a, Check(other));
      MomentClears(c, w.beforeFork, role);
      var b := Happens(c, w.beforeFork);
      if w.fork > 0 && w.fork !in b.children {
        MomentClears(Step(b, Fork(w.fork)), w.beforeRecord, role);
      }
    }
  }

  /** The record of a role after the first `n` turns. */
  function RecordAfter(s: System, n: nat, world: nat -> Turn, role: nat): nat
    requires s.phase == Idle && role < |s.recorded| && n <= |s.recorded|
  {
    Pass(s, n, world).recorded[role]
  }

  /** The role has a record after its own turn: one is found, or the fork succeeds. */
  lemma OwnTurn(s: System, role: nat, world: nat -> Turn)
    requires s.phase == Idle && role < |s.recorded|
    ensures var b, w := Pass(s, role, world), world(role);
      RecordAfter(s, role + 1, world, role) != 0 <==>
        (b.recorded[role] != 0 && !Clears(b, w.before, role))
        || (w.fork > 0 && w.fork !in AtFork(b, role, w).children)
  {
    TurnServes(Pass(s, role, world), role, world(role));
    MomentClears(Pass(s, role, world), world(role).before, role);
  }

  /** The turn of another role keeps the record, unless a signal comes in it when the recorded child has exited. */
  lemma LaterTurn(s: System, n: nat, world: nat -> Turn, role: nat)
    requires s.phase == Idle && role < |s.recorded| && n < |s.recorded| && role != n
    ensures RecordAfter(s, n + 1, world, role)
         == if TurnClears(Pass(s, n, world), n, world(n), role) then 0 else RecordAfter(s, n, world, role)
  {
    OtherTurn(Pass(s, n, world), n, world(n), role);
  }

  /** The turn of role `n` clears the record of an earlier role. */
  predicate ClearsAt(s: System, n: nat, world: nat -> Turn, role: nat)
    requires s.phase == Idle && role < n < |s.recorded|
  {
    TurnClears(Pass(s, n, world), n, world(n), role)
  }

  /** A later turn, before the first `n` are over, clears it. */
  predicate ClearedLater(s: System, role: nat, n: nat, world: nat -> Turn)
    requires s.phase == Idle && role < n <= |s.recorded|
  {
    exists j :: role < j < n && ClearsAt(s, j, world, role)
  }

  lemma ZeroTurn(s: System, n: nat, world: nat -> Turn, role: nat)
    requires s.phase == Idle && role < n < |s.recorded| && RecordAfter(s, n, world, role) == 0
    ensures RecordAfter(s, n + 1, world, role) == 0
  {
    LaterTurn(s, n, world, role);
  }

  lemma ClearingTurn(s: System, n: nat, world: nat -> Turn, role: nat)
    requires s.phase == Idle && role < n < |s.recorded| && ClearsAt(s, n, world, role)
    ensures RecordAfter(s, n + 1, world, role) == 0
  {
    LaterTurn(s, n, world, role);
  }

  lemma KeepingTurn(s: System, n: nat, world: nat -> Turn, role: nat)
    requires s.phase == Idle && role < n < |s.recorded| && !ClearsAt(s, n, world, role)
    ensures RecordAfter(s, n + 1, world, role) == RecordAfter(s, n, world, role)
  {
    LaterTurn(s, n, world, role);
  }

  lemma {:induction false} ZeroStays(s: System, m: nat, n: nat, world: nat -> Turn, role: nat)
    requires s.phase == Idle && role < m <= n <= |s.recorded| && RecordAfter(s, m, world, role) == 0
    ensures RecordAfter(s, n, world, role) == 0
    decreases n
  {
    if m < n {
      ZeroStays(s, m, n - 1, world, role);
      ZeroTurn(s, n - 1, world, role);
    }
  }

  lemma ClearedStays(s: System, j: nat, n: nat, world: nat -> Turn, role: nat)
    requires s.phase == Idle && role < j < n <= |s.recorded| && ClearsAt(s, j, world, role)
    ensures RecordAfter(s, n, world, role) == 0
  {
    ClearingTurn(s, j, world, role);
    ZeroStays(s, j + 1, n, world, role);
  }

  lemma {:induction false} RecordStays(s: System, n: nat, world: nat -> Turn, role: nat)
    requires s.phase == Idle && role < n <= |s.recorded|
    requires forall j :: role < j < n ==> !ClearsAt(s, j, world, role)
    ensures RecordAfter(s, n, world, role) == RecordAfter(s, role + 1, world, role)
    decreases n
  {
    if n > role + 1 {
      RecordStays(s, n - 1, world, role);
      KeepingTurn(s, n - 1, world, role);
    }
  }

  /** Whatever happens meanwhile: after the call a role has the record of its own turn, unless a later turn cleared
      it. */
  lemma RecordIsLast(s: System, n: nat, world: nat -> Turn, role: nat)
    requires s.phase == Idle && role < n <= |s.recorded|
    ensures RecordAfter(s, n, world, role)
         == if ClearedLater(s, role, n, world) then 0 else RecordAfter(s, role + 1, world, role)
  {
    if j :| role < j < n && ClearsAt(s, j, world, role) {
      ClearedStays(s, j, n, world, role);
    } else {
      RecordStays(s, n, world, role);
    }
  }

  /** No signal comes in the call. */
  ghost predicate NoSignal(n: nat, world: nat -> Turn) {
    forall j :: 0 <= j < n ==> !world(j).before.signal && !world(j).beforeFork.signal && !world(j).beforeRecord.signal
  }

  /** Each fork gives a positive pid that no child has, nor another fork of the call. */
  ghost predicate FreshPids(s: System, n: nat, world: nat -> Turn) {
    && (forall j :: 0 <= j < n ==> world(j).fork > 0 && world(j).fork !in s.children)
    && (forall i, j :: 0 <= i < j < n ==> world(i).fork != world(j).fork)
  }

  lemma {:induction false} ExitsKeepPids(s: System, exits: seq<nat>)
    ensures Exited(s, exits).children.Keys == s.children.Keys
    decreases exits
  {
    if exits != [] {
      ExitsKeepPids(if Can(s, Exit(exits[0])) then Step(s, Exit(exits[0])) else s, exits[1..]);
    }
  }

  predicate OtherForks(n: nat, world: nat -> Turn, p: nat) {
    n == 0 || (world(n - 1).fork != p && OtherForks(n - 1, world, p))
  }

  lemma {:induction false} OtherForksMean(n: nat, world: nat -> Turn, p: nat)
    requires forall j :: 0 <= j < n ==> world(j).fork != p
    ensures OtherForks(n, world, p)
  {
    if n > 0 {
      OtherForksMean(n - 1, world, p);
    }
  }

  lemma {:induction false} PidsOfPass(s: System, n: nat, world: nat -> Turn, p: nat)
    requires s.phase == Idle && n <= |s.recorded| && NoSignal(n, world)
    requires p !in s.children && OtherForks(n, world, p)
    ensures p !in Pass(s, n, world).children
    decreases n
  {
    if n > 0 {
      PidsOfPass(s, n - 1, world, p);
      PidsOfNext(s, n - 1, world, p);
    }
  }

  lemma PidsOfNext(s: System, n: nat, world: nat -> Turn, p: nat)
    requires s.phase == Idle && n < |s.recorded| && NoSignal(n + 1, world)
    requires p !in Pass(s, n, world).children && world(n).fork != p
    ensures p !in Pass(s, n + 1, world).children
  {
    PidsOfTurn(Pass(s, n, world), n, world(n), p);
  }

  lemma PidsOfTurn(s: System, role: nat, w: Turn, p: nat)
    requires s.phase == Idle && role < |s.recorded| && p !in s.children && w.fork != p
    requires !w.before.signal && !w.beforeFork.signal && !w.beforeRecord.signal
    ensures p !in AtFork(s, role, w).children && p !in Served(s, role, w).children
  {
    ExitsKeepPids(s, w.before.exits);
    var a := Happens(s, w.before);
    var c := a.(phase := Checked(role));
    ExitsKeepPids(c, w.beforeFork.exits);
    var b := Happens(c, w.beforeFork);
    if w.fork > 0 && w.fork !in b.children {
      ExitsKeepPids(b.(children := b.children[w.fork := Child(role, true)], phase := Forked(role, w.fork)),
                    w.beforeRecord.exits);
    }
  }

  lemma PidAtFork(s: System, role: nat, w: Turn)
    requires s.phase == Idle && role < |s.recorded| && w.fork > 0 && w.fork !in s.children
    requires !w.before.signal && !w.beforeFork.signal
    ensures w.fork !in AtFork(s, role, w).children
  {
    ExitsKeepPids(s, w.before.exits);
    ExitsKeepPids(Happens(s, w.before).(phase := Checked(role)), w.beforeFork.exits);
  }

  /** Without signals a record stays. */
  lemma QuietTurn(s: System, n: nat, world: nat -> Turn, role: nat)
    requires s.phase == Idle && role < |s.recorded| && n < |s.recorded| && role != n && NoSignal(n + 1, world)
    ensures RecordAfter(s, n + 1, world, role) == RecordAfter(s, n, world, role)
  {
    LaterTurn(s, n, world, role);
  }

  lemma FreshFork(s: System, role: nat, world: nat -> Turn)
    requires s.phase == Idle && role < |s.recorded|
    requires NoSignal(role + 1, world) && FreshPids(s, role + 1, world)
    ensures RecordAfter(s, role + 1, world, role) != 0
  {
    OwnTurn(s, role, world);
    OtherForksMean(role, world, world(role).fork);
    PidsOfPass(s, role, world, world(role).fork);
    PidAtFork(Pass(s, role, world), role, world(role));
  }

  /** So undisturbed by signals every role is served, whatever exits. */
  lemma {:induction false} AllServed(s: System, n: nat, world: nat -> Turn, role: nat)
    requires s.phase == Idle && role < n <= |s.recorded|
    requires NoSignal(n, world) && FreshPids(s, n, world)
    ensures RecordAfter(s, n, world, role) != 0
    decreases n
  {
    if n == role + 1 {
      FreshFork(s, role, world);
    } else {
      AllServed(s, n - 1, world, role);
      QuietTurn(s, n - 1, world, role);
    }
  }

  class OpenraspAgentManager {
    var recorded: seq<nat>
    /** The process table, as far as it is the supervisor's children. */
    var children: map<nat, Child>

    constructor (roles: nat)
      ensures Now(Idle) == Start(roles)
    {
      recorded, children := seq(roles, _ => 0), map[];
    }

    function Now(phase: Phase): System
      reads this
    {
      System(recorded, children, phase)
    }

    /** The SIGCHLD handler. */
    method SigchldHandler()
      modifies this
      ensures forall phase :: Now(phase) == Reaped(System(old(recorded), old(children), phase))
    {
      ghost var start := Now(Idle);
      while exists p :: p in children && !children[p].alive
        invariant Reaped(Now(Idle)) == Reaped(start)
        decreases |children|
      {
        var p :| p in children && !children[p].alive;
        ghost var before := Now(Idle);
        ReapOneMore(before, p);
        assert (children - {p}).Keys == children.Keys - {p};
        children := children - {p};
        for i := 0 to |recorded|
          invariant |recorded| == |before.recorded| && children == before.children - {p}
          invariant forall j :: 0 <= j < |recorded| ==>
            recorded[j] == if j < i && before.recorded[j] == p then 0 else before.recorded[j]
        {
          if p == recorded[i] {
            recorded := recorded[i := 0];
          }
        }
        assert Now(Idle) == Step(before, Reap(p));
      }
      assert Reaped(Now(Idle)) == Now(Idle);
      forall phase ensures Now(phase) == Reaped(System(start.recorded, start.children, phase)) {
        assert Now(phase) == Reaped(start).(phase := phase);
      }
    }

    /** What happens between two statements. */
    method Interrupt(m: Moment, ghost phase: Phase)
      modifies this
      ensures Now(phase) == Happens(System(old(recorded), old(children), phase), m)
    {
      ghost var start := Now(phase);
      for i := 0 to |m.exits|
        invariant Exited(Now(phase), m.exits[i..]) == Exited(start, m.exits)
      {
        var p := m.exits[i];
        assert m.exits[i..][1..] == m.exits[i + 1..];
        if p in children && children[p].alive {
          children := children[p := children[p].(alive := false)];
        }
      }
      if m.signal {
        SigchldHandler();
      }
    }

    /** The body of the loop over the agents. */
    method EnsureAgent(i: nat, turn: Turn)
      requires i < |recorded|
      modifies this
      ensures Now(Idle) == Served(old(Now(Idle)), i, turn)
    {
      Interrupt(turn.before, Idle);
      if recorded[i] == 0 {
        Interrupt(turn.beforeFork, Checked(i));
        var pid := turn.fork;
        if pid > 0 && pid !in children {
          children := children[pid := Child(i, true)];
          Interrupt(turn.beforeRecord, Forked(i, pid));
          recorded := recorded[i := pid];
        }
      }
    }

    method EnsureNextAgent(i: nat, world: nat -> Turn, ghost start: System)
      requires i < |recorded| == |start.recorded| && start.phase == Idle
      requires Now(Idle) == Pass(start, i, world) && Reaches(start, Now(Idle))
      modifies this
      ensures |recorded| == old(|recorded|)
      ensures Now(Idle) == Pass(start, i + 1, world) && Reaches(start, Now(Idle))
    {
      ServedIsReached(Now(Idle), i, world(i));
      ReachesOn(start, Now(Idle), Served(Now(Idle), i, world(i)));
      EnsureAgent(i, world(i));
    }

    /** Whatever happens meanwhile, the call is a run of the steps above. */
    method EnsureAgentProcessesSurvival(world: nat -> Turn)
      modifies this
      ensures Now(Idle) == Pass(old(Now(Idle)), |old(recorded)|, world)
      ensures Reaches(old(Now(Idle)), Now(Idle))
      ensures |recorded| == old(|recorded|)
      ensures NoSignal(|recorded|, world) && FreshPids(old(Now(Idle)), |recorded|, world) ==>
        forall role :: 0 <= role < |recorded| ==> recorded[role] != 0
      ensures forall role :: 0 <= role < |recorded| ==>
        recorded[role] == if ClearedLater(old(Now(Idle)), role, |recorded|, world) then 0
                          else RecordAfter(old(Now(Idle)), role + 1, world, role)
    {
      ghost var start := Now(Idle);
      StaysReaches(start);
      var n := |recorded|;
      for i := 0 to n
        invariant n == |recorded| == |start.recorded| && Now(Idle) == Pass(start, i, world)
        invariant Reaches(start, Now(Idle))
      {
        EnsureNextAgent(i, world, start);
      }
      forall role | 0 <= role < n
        ensures recorded[role] == if ClearedLater(start, role, n, world) then 0
                                  else RecordAfter(start, role + 1, world, role)
        ensures NoSignal(n, world) && FreshPids(start, n, world) ==> recorded[role] != 0
      {
        RecordIsLast(start, n, world, role);
        if NoSignal(n, world) && FreshPids(start, n, world) {
          AllServed(start, n, world, role);
        }
      }
    }
  }
}
