/** What the log agent does not lose: lines that were read stay until a post takes them, and a readable file is read to
    its end. */
module LogDelivery {

  import opened LogLines
  import opened LogShipping

  // ----- no turn loses a line that was read

  lemma OfDayAppends(xs: seq<Piece>, day: string)
    ensures xs + OfDay(day, []) == xs
  {
  }

  /** Whatever a turn does, the lines acknowledged or in the body before it still are so, in the same order. */
  lemma TurnLosesNone(c: Config, s: State, t: Turn)
    ensures Read(s) <= Read(Step(c, s, Work(t)))
    ensures s.acknowledged <= Step(c, s, Work(t)).acknowledged
  {
    OfDayAppends(s.acknowledged, s.cachedDay);
    if s.suffix in t.disk {
      var r := Refreshed(c, s, t.disk[s.suffix], t.inode);
      OfDayAppends(Read(r), r.cachedDay);
    }
  }

  predicate AllWork(events: seq<Event>) {
    forall i :: 0 <= i < |events| ==> events[i].Work?
  }

  /** So it is over any run of one process. */
  lemma {:induction false} RunLosesNone(c: Config, s: State, events: seq<Event>)
    requires AllWork(events)
    ensures Read(s) <= Read(After(c, s, events))
    decreases |events|
  {
    if events != [] {
      TurnLosesNone(c, s, events[0].turn);
      RunLosesNone(c, Step(c, s, events[0]), events[1..]);
    }
  }

  /** And over restarts for what was acknowledged. */
  lemma {:induction false} RunKeepsAcknowledged(c: Config, s: State, events: seq<Event>)
    ensures s.acknowledged <= After(c, s, events).acknowledged
    decreases |events|
  {
    if events != [] {
      if events[0].Work? {
        TurnLosesNone(c, s, events[0].turn);
      }
      RunKeepsAcknowledged(c, Step(c, s, events[0]), events[1..]);
    }
  }

  predicate AllFail(events: seq<Event>) {
    forall i :: 0 <= i < |events| ==> events[i].Work? && !events[i].turn.postOk
  }

  /** While posts fail the body stays as it is, and the status file, too, whatever days pass. */
  lemma {:induction false} FailingKeepsBody(c: Config, s: State, events: seq<Event>)
    requires s.cached != [] && AllFail(events)
    ensures var t := After(c, s, events);
      && t.body == s.body && t.cached == s.cached && t.cachedDay == s.cachedDay
      && t.acknowledged == s.acknowledged && t.saved == s.saved
    decreases |events|
  {
    if events != [] {
      FailingKeepsBody(c, Step(c, s, events[0]), events[1..]);
    }
  }

  /** The first post that succeeds then takes exactly that body. */
  lemma PostTakesBody(c: Config, s: State, t: Turn)
    requires s.cached != []
    ensures Posts(c, s, t) <==> c.enabled && s.suffix in t.disk && t.postOk
    ensures Posts(c, s, t) ==>
      && Step(c, s, Work(t)).acknowledged == Read(s)
      && Step(c, s, Work(t)).cached == [] && Step(c, s, Work(t)).body == ""
  {
  }

  /** An item that is not to collect, or whose file does not exist, reads and posts nothing. */
  lemma {:induction false} IdleReadsNothing(c: Config, s: State, events: seq<Event>)
    requires AllWork(events)
    requires !c.enabled || forall i :: 0 <= i < |events| ==> events[i].turn.disk == map[]
    ensures Read(After(c, s, events)) == Read(s) && After(c, s, events).saved == s.saved
    decreases |events|
  {
    if events != [] {
      IdleReadsNothing(c, Step(c, s, events[0]), events[1..]);
    }
  }

  // ----- what a restart finds

  /** Unsent lines of the saved day, and where it goes on, are behind the saved offset: a restart reads them again. */
  ghost predicate Resumable(s: State) {
    && (s.suffix == s.saved.suffix ==> s.saved.fpos <= s.pos)
    && (s.cachedDay == s.saved.suffix ==> forall i :: 0 <= i < |s.cached| ==> s.saved.fpos <= s.cached[i].from)
  }

  /** So it stays, while no rotation returns to the saved day. */
  lemma StaysResumable(c: Config, s: State, t: Turn)
    requires Resumable(s)
    requires Rotates(c, s, t) ==> t.today != Collected(c, s, t).saved.suffix
    ensures Resumable(Step(c, s, Work(t)))
  {
    if c.enabled && s.suffix in t.disk && s.cached == [] {
      var file := t.disk[s.suffix];
      var b := Gather(file, s.pos, c.room, c.qualified);
      GatherTakesInOrder(file, s.pos, c.room, c.qualified);
      forall i | 0 <= i < |b.lines| ensures s.pos <= b.lines[i].from {
        InOrderBounds(b.lines, s.pos, b.pos, i);
      }
    }
  }

  /** A restart right after a post goes on in the same file where the turn had read to. */
  lemma RestartResumes(c: Config, s: State, t: Turn)
    requires Posts(c, s, t)
    ensures var u := Step(c, Step(c, s, Work(t)), Restart);
      && u.suffix == s.suffix && u.pos == Refreshed(c, s, t.disk[s.suffix], t.inode).pos
      && u.acknowledged == Read(Refreshed(c, s, t.disk[s.suffix], t.inode))
  {
  }

  // ----- the file is read to its end

  /** The lines that fillings take from `pos` on, one filling after the other. */
  function Delivered(file: string, pos: nat, room: nat, qualified: string -> bool): seq<Span>
    decreases |file| - pos
  {
    if pos >= |file| then []
    else
      GatherAdvances(file, pos, room, qualified);
      var b := Gather(file, pos, room, qualified);
      b.lines + Delivered(file, b.pos, room, qualified)
  }

  lemma {:induction false} GatherAdvances(file: string, pos: nat, room: nat, qualified: string -> bool)
    requires pos < |file|
    ensures pos < Gather(file, pos, room, qualified).pos <= |file|
    decreases |file| - pos
  {
    var next := AfterLine(file, pos);
    if room > 0 && qualified(Text(file, Line(file, pos))) && next < |file| {
      GatherAdvances(file, next, room - 1, qualified);
    }
  }

  /** Turns on one file that does not change, on one day, with posts that succeed. */
  predicate Steady(c: Config, s: State, file: string, events: seq<Event>)
    decreases |events|
  {
    events == [] ||
      (&& events[0].Work?
       && var t := events[0].turn;
       && s.suffix in t.disk && t.disk[s.suffix] == file && t.postOk && !Rotates(c, s, t)
       && Steady(c, Step(c, s, events[0]), file, events[1..]))
  }

  lemma OfDayConcat(ps: seq<Piece>, day: string, xs: seq<Span>, ys: seq<Span>)
    ensures ps + OfDay(day, xs + ys) == ps + OfDay(day, xs) + OfDay(day, ys)
  {
  }

  lemma FirstFilling(file: string, pos: nat, room: nat, qualified: string -> bool)
    returns (lines: seq<Span>, next: nat)
    ensures Batch(lines, next) == Gather(file, pos, room, qualified) && (next > pos || next >= |file|)
    ensures Delivered(file, pos, room, qualified) == lines + Delivered(file, next, room, qualified)
  {
    lines, next := Gather(file, pos, room, qualified).lines, Gather(file, pos, room, qualified).pos;
    if pos < |file| {
      GatherAdvances(file, pos, room, qualified);
    }
  }

  lemma SteadyTurn(c: Config, s: State, file: string, t: Turn)
    requires c.enabled && s.cached == [] && t.postOk && !Rotates(c, s, t)
    requires s.suffix in t.disk && t.disk[s.suffix] == file
    ensures var r, b := Step(c, s, Work(t)), Gather(file, s.pos, c.room, c.qualified);
      && r.cached == [] && r.suffix == s.suffix && r.pos == b.pos
      && r.acknowledged == s.acknowledged + OfDay(s.suffix, b.lines)
  {
    OfDayAppends(s.acknowledged, s.suffix);
  }

  /** As many turns as there are characters left are enough to acknowledge all that the fillings take. */
  lemma {:induction false} ReadsToTheEnd(c: Config, s: State, file: string, events: seq<Event>)
    requires c.enabled && s.cached == [] && Steady(c, s, file, events) && s.pos + |events| >= |file|
    ensures var t := After(c, s, events);
      && t.pos >= |file| && t.cached == []
      && t.acknowledged == s.acknowledged + OfDay(s.suffix, Delivered(file, s.pos, c.room, c.qualified))
    decreases |events|
  {
    if events == [] {
      OfDayAppends(s.acknowledged, s.suffix);
    } else {
      var lines, pos := FirstFilling(file, s.pos, c.room, c.qualified);
      SteadyTurn(c, s, file, events[0].turn);
      ReadsToTheEnd(c, Step(c, s, events[0]), file, events[1..]);
      OfDayConcat(s.acknowledged, s.suffix, lines, Delivered(file, pos, c.room, c.qualified));
    }
  }
}
