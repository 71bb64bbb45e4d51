/** When the log agent acknowledges a line twice: the days it rotates to, and the clock. */
module LogRotation {

  import opened LogLines
  import opened LogShipping

  // ----- when a line is acknowledged twice

  /** The days the run rotates to. */
  function Rotations(c: Config, s: State, events: seq<Event>): seq<string>
    decreases |events|
  {
    if events == [] then []
    else
      (if events[0].Work? && Rotates(c, s, events[0].turn) then [events[0].turn.today] else [])
        + Rotations(c, Step(c, s, events[0]), events[1..])
  }

  /** Days that are new when they come. */
  predicate NewDays(seen: set<string>, days: seq<string>)
    decreases |days|
  {
    days == [] || (days[0] !in seen && NewDays(seen + {days[0]}, days[1..]))
  }

  /** All the item knows of is of these days. */
  ghost predicate Knows(s: State, seen: set<string>) {
    && s.suffix in seen && s.saved.suffix in seen
    && forall i :: 0 <= i < |Read(s)| ==> Read(s)[i].day in seen
  }

  lemma CollectedKnows(c: Config, s: State, t: Turn, seen: set<string>)
    requires Knows(s, seen)
    ensures Knows(Collected(c, s, t), seen)
  {
    var r := Collected(c, s, t);
    forall i | 0 <= i < |s.acknowledged| ensures s.acknowledged[i].day in seen {
      assert Read(s)[i] == s.acknowledged[i];
    }
    if s.cached != [] {
      assert Read(s)[|s.acknowledged|].day == s.cachedDay;
    }
  }

  lemma StepKnows(c: Config, s: State, e: Event, seen: set<string>)
    requires Knows(s, seen)
    ensures Knows(Step(c, s, e), if e.Work? && Rotates(c, s, e.turn) then seen + {e.turn.today} else seen)
    ensures e.Work? && Rotates(c, s, e.turn) && e.turn.today !in seen ==> Fresh(c, s, e)
  {
    match e
    case Work(t) =>
      CollectedKnows(c, s, t, seen);
      assert Read(Step(c, s, e)) == Read(Collected(c, s, t));
    case Restart =>
      assert Read(Step(c, s, e)) == s.acknowledged;
      forall i | 0 <= i < |s.acknowledged| ensures s.acknowledged[i].day in seen {
        assert Read(s)[i] == s.acknowledged[i];
      }
  }

  lemma {:induction false} NewDaysFresh(c: Config, s: State, events: seq<Event>, seen: set<string>)
    requires Knows(s, seen) && NewDays(seen, Rotations(c, s, events))
    ensures FreshRun(c, s, events)
    decreases |events|
  {
    if events != [] {
      StepKnows(c, s, events[0], seen);
      if events[0].Work? && Rotates(c, s, events[0].turn) {
        assert Rotations(c, s, events)[1..] == Rotations(c, Step(c, s, events[0]), events[1..]);
        NewDaysFresh(c, Step(c, s, events[0]), events[1..], seen + {events[0].turn.today});
      } else {
        assert Rotations(c, s, events) == Rotations(c, Step(c, s, events[0]), events[1..]);
        NewDaysFresh(c, Step(c, s, events[0]), events[1..], seen);
      }
    }
  }

  /** No rotation returns to a day that was active before. */
  ghost predicate NeverReturns(days: seq<string>) {
    forall i, j :: 0 <= i < j < |days| ==> days[i] != days[j]
  }

  lemma {:induction false} NewDaysMean(seen: set<string>, days: seq<string>)
    requires NeverReturns(days) && forall i :: 0 <= i < |days| ==> days[i] !in seen
    ensures NewDays(seen, days)
    decreases |days|
  {
    if days != [] {
      NewDaysMean(seen + {days[0]}, days[1..]);
    }
  }

  /** Whatever happens in a run that rotates to these days, restarts included, no line is acknowledged twice. */
  ghost predicate AlwaysOnce(c: Config, suffix: string, last: int, days: seq<string>) {
    forall events :: Growing(map[], events) && Rotations(c, NewState(suffix, last), events) == days ==>
      NoneTwice(After(c, NewState(suffix, last), events).acknowledged)
  }

  lemma NewRunOnce(c: Config, suffix: string, last: int, events: seq<Event>)
    requires !c.qualified("") && Growing(map[], events)
    requires NeverReturns([suffix] + Rotations(c, NewState(suffix, last), events))
    ensures NoneTwice(After(c, NewState(suffix, last), events).acknowledged)
  {
    var s, days := NewState(suffix, last), Rotations(c, NewState(suffix, last), events);
    var ds := [suffix] + days;
    assert ds[0] == suffix && forall i :: 0 <= i < |days| ==> days[i] == ds[i + 1];
    NewDaysMean({suffix}, days);
    NewDaysFresh(c, s, events, {suffix});
    ReadOnce(c, s, map[], events);
  }

  lemma {:induction false} StaysKnown(c: Config, s: State, events: seq<Event>, seen: set<string>)
    requires Knows(s, seen) && Rotations(c, s, events) == []
    ensures Knows(After(c, s, events), seen) && FreshRun(c, s, events)
    decreases |events|
  {
    if events != [] {
      StepKnows(c, s, events[0], seen);
      StaysKnown(c, Step(c, s, events[0]), events[1..], seen);
    }
  }

  /** Without a rotation all acknowledged lines are lines of the one file, in its order. */
  lemma OneFile(c: Config, suffix: string, last: int, events: seq<Event>, i: nat, j: nat)
    requires !c.qualified("") && Growing(map[], events) && Rotations(c, NewState(suffix, last), events) == []
    requires i < j < |After(c, NewState(suffix, last), events).acknowledged|
    ensures var ps, disk := After(c, NewState(suffix, last), events).acknowledged, DiskAfter(map[], events);
      && ps[i].day == ps[j].day == suffix
      && ps[i].from < ps[i].to <= ps[j].from < ps[j].to
      && IsGenuine(disk, ps[i], c.qualified) && IsGenuine(disk, ps[j], c.qualified)
  {
    var s := NewState(suffix, last);
    StaysKnown(c, s, events, {suffix});
    ReadOnce(c, s, map[], events);
    var t := After(c, s, events);
    assert Read(t)[i] == t.acknowledged[i] && Read(t)[j] == t.acknowledged[j];
  }

  // ----- a run that acknowledges a line twice

  lemma {:induction false} LineEndOf(line: string, pos: nat)
    requires pos <= |line| && '\n' !in line
    ensures LineEnd(line + "\n", pos) == |line|
    decreases |line| - pos
  {
    if pos < |line| {
      LineEndOf(line, pos + 1);
    }
  }

  lemma OneLineFile(line: string, room: nat, qualified: string -> bool)
    requires room > 0 && '\n' !in line && qualified(line)
    ensures Gather(line + "\n", 0, room, qualified) == Batch([Span(0, |line|)], |line| + 1)
  {
    LineEndOf(line, 0);
    TextIsSlice(line + "\n", Span(0, |line|));
    assert (line + "\n")[0..|line|] == line;
  }

  /** Every turn finds the one file of `day`, with one line; posts succeed. */
  function Visit(day: string, line: string, time: int, today: string): Turn {
    Turn(map[day := line + "\n"], 0, true, time, time, today)
  }

  function OneLine(day: string, suffix: string, line: string): seq<Piece> {
    if suffix == day then [Piece(day, 0, |line|)] else []
  }

  /** At the start of a file, with nothing unsent. */
  predicate AtStart(s: State) {
    s.pos == 0 && s.cached == []
  }

  lemma VisitStep(c: Config, s: State, day: string, line: string, time: int, today: string)
    requires c.enabled && c.room > 0 && '\n' !in line && c.qualified(line) && AtStart(s)
    ensures var t := Step(c, s, Work(Visit(day, line, time, today)));
      && t.acknowledged == s.acknowledged + OneLine(day, s.suffix, line) && t.last == time
      && (!SameDay(time, s.last, c.offset) ==> AtStart(t) && t.suffix == today)
  {
    if s.suffix == day {
      OneLineFile(line, c.room, c.qualified);
      assert OfDay(day, [Span(0, |line|)]) == [Piece(day, 0, |line|)];
    } else {
      assert s.acknowledged + [] == s.acknowledged;
    }
  }

  /** What is acknowledged when each of these days is active once. */
  function Visited(day: string, line: string, days: seq<string>): seq<Piece> {
    if days == [] then [] else OneLine(day, days[0], line) + Visited(day, line, days[1..])
  }

  lemma {:induction false} VisitDays(c: Config, s: State, day: string, line: string, days: seq<string>)
    returns (events: seq<Event>)
    requires c.enabled && c.room > 0 && '\n' !in line && c.qualified(line) && AtStart(s)
    ensures Rotations(c, s, events) == days && Growing(map[day := line + "\n"], events) && Growing(map[], events)
    ensures After(c, s, events).acknowledged == s.acknowledged + Visited(day, line, [s.suffix] + days)
    decreases |days|
  {
    if days == [] {
      var e := Work(Visit(day, line, s.last, ""));
      VisitStep(c, s, day, line, s.last, "");
      Cons(c, s, e, [], map[day := line + "\n"]);
      events := [e] + [];
      assert Visited(day, line, [s.suffix] + []) == OneLine(day, s.suffix, line);
    } else {
      var e := Work(Visit(day, line, s.last + 2 * DAY, days[0]));
      VisitStep(c, s, day, line, s.last + 2 * DAY, days[0]);
      var t := Step(c, s, e);
      var rest := VisitDays(c, t, day, line, days[1..]);
      Cons(c, s, e, rest, map[day := line + "\n"]);
      events := [e] + rest;
      VisitedCons(s.acknowledged, day, line, s.suffix, days);
    }
  }

  lemma VisitedCons(before: seq<Piece>, day: string, line: string, first: string, days: seq<string>)
    requires days != []
    ensures before + OneLine(day, first, line) + Visited(day, line, [days[0]] + days[1..])
         == before + Visited(day, line, [first] + days)
  {
    assert [days[0]] + days[1..] == days && ([first] + days)[1..] == days;
  }

  lemma Cons(c: Config, s: State, e: Event, rest: seq<Event>, disk: Disk)
    requires e.Work? && e.turn.disk == disk && Growing(disk, rest)
    ensures After(c, s, [e] + rest) == After(c, Step(c, s, e), rest)
    ensures Growing(disk, [e] + rest) && Growing(map[], [e] + rest)
    ensures Rotations(c, s, [e] + rest)
         == (if Rotates(c, s, e.turn) then [e.turn.today] else []) + Rotations(c, Step(c, s, e), rest)
  {
    assert ([e] + rest)[1..] == rest;
  }

  lemma {:induction false} VisitedHas(day: string, line: string, days: seq<string>, i: nat) returns (k: nat)
    requires i < |days| && days[i] == day
    ensures k < |Visited(day, line, days)| && Visited(day, line, days)[k] == Piece(day, 0, |line|)
    ensures days[0] == day && i > 0 ==> k > 0
    decreases i
  {
    if i == 0 {
      k := 0;
    } else {
      k := VisitedHas(day, line, days[1..], i - 1);
      k := |OneLine(day, days[0], line)| + k;
    }
  }

  lemma {:induction false} VisitedTwice(day: string, line: string, days: seq<string>, i: nat, j: nat)
    requires i < j < |days| && days[i] == days[j] == day
    ensures !NoneTwice(Visited(day, line, days))
    decreases i
  {
    if i == 0 {
      var k := VisitedHas(day, line, days, j);
      assert Visited(day, line, days)[0] == Visited(day, line, days)[k];
    } else {
      VisitedTwice(day, line, days[1..], i - 1, j - 1);
      var rest, n := Visited(day, line, days[1..]), |OneLine(day, days[0], line)|;
      var k, l :| 0 <= k < l < |rest| && rest[k] == rest[l];
      assert Visited(day, line, days)[n + k] == rest[k] && Visited(day, line, days)[n + l] == rest[l];
    }
  }

  /** Whenever a rotation returns to a day, some run acknowledges a line twice. */
  lemma ReturnRepeats(c: Config, suffix: string, last: int, days: seq<string>, i: nat, j: nat, line: string)
    returns (events: seq<Event>)
    requires c.enabled && c.room > 0 && '\n' !in line && c.qualified(line)
    requires i < j <= |days| && ([suffix] + days)[i] == days[j - 1]
    ensures Growing(map[], events) && Rotations(c, NewState(suffix, last), events) == days
    ensures !NoneTwice(After(c, NewState(suffix, last), events).acknowledged)
  {
    var s := NewState(suffix, last);
    events := VisitDays(c, s, days[j - 1], line, days);
    VisitedTwice(days[j - 1], line, [suffix] + days, i, j);
    assert s.acknowledged + Visited(days[j - 1], line, [suffix] + days) == Visited(days[j - 1], line, [suffix] + days);
  }

  /** No line is acknowledged twice in any run that rotates to these days, exactly when none of them was active
      before. */
  lemma OnceExactly(c: Config, suffix: string, last: int, days: seq<string>, line: string)
    requires c.enabled && c.room > 0 && !c.qualified("") && '\n' !in line && c.qualified(line)
    ensures AlwaysOnce(c, suffix, last, days) <==> NeverReturns([suffix] + days)
  {
    if NeverReturns([suffix] + days) {
      forall events | Growing(map[], events) && Rotations(c, NewState(suffix, last), events) == days
        ensures NoneTwice(After(c, NewState(suffix, last), events).acknowledged)
      {
        NewRunOnce(c, suffix, last, events);
      }
    } else {
      var ds := [suffix] + days;
      var i, j :| 0 <= i < j < |ds| && ds[i] == ds[j];
      var events := ReturnRepeats(c, suffix, last, days, i, j, line);
    }
  }

  // ----- days and the clock

  /** The clock does not go back, and the date at the end of each turn is that of the zone offset `c.offset`. */
  predicate FixedZone(c: Config, name: int -> string, now: int, events: seq<Event>)
    decreases |events|
  {
    events == [] ||
      (match events[0]
       case Work(t) =>
         && now <= t.start <= t.end && t.today == name(DayNumber(t.end, c.offset))
         && FixedZone(c, name, t.end, events[1..])
       case Restart => FixedZone(c, name, now, events[1..]))
  }

  ghost predicate DistinctNames(name: int -> string) {
    forall d, e :: name(d) == name(e) ==> d == e
  }

  /** The suffix is not that of a later day than that of `time`. */
  ghost predicate NotLater(c: Config, name: int -> string, suffix: string, time: int) {
    forall d :: DayNumber(time, c.offset) < d ==> name(d) != suffix
  }

  ghost predicate NoneLater(c: Config, name: int -> string, ps: seq<Piece>, time: int) {
    forall i :: 0 <= i < |ps| ==> NotLater(c, name, ps[i].day, time)
  }

  lemma LaterDay(time: int, later: int, offset: int)
    requires time <= later
    ensures DayNumber(time, offset) <= DayNumber(later, offset)
  {
  }

  /** Nothing the item knows of is of a later day than that of its times. */
  ghost predicate Timely(c: Config, name: int -> string, s: State, now: int) {
    && s.saved.lastPostTime <= now && s.last <= now
    && NotLater(c, name, s.suffix, s.last)
    && NotLater(c, name, s.saved.suffix, s.saved.lastPostTime)
    && NoneLater(c, name, Read(s), s.last)
    && NoneLater(c, name, s.acknowledged, s.saved.lastPostTime)
  }

  lemma NotLaterThen(c: Config, name: int -> string, suffix: string, time: int, later: int)
    requires NotLater(c, name, suffix, time) && time <= later
    ensures NotLater(c, name, suffix, later)
  {
    LaterDay(time, later, c.offset);
  }

  lemma NoneLaterThen(c: Config, name: int -> string, ps: seq<Piece>, time: int, later: int)
    requires NoneLater(c, name, ps, time) && time <= later
    ensures NoneLater(c, name, ps, later)
  {
    forall i | 0 <= i < |ps| ensures NotLater(c, name, ps[i].day, later) {
      NotLaterThen(c, name, ps[i].day, time, later);
    }
  }

  /** A turn up to its rotation. */
  lemma CollectedTimely(c: Config, name: int -> string, s: State, t: Turn)
    requires Timely(c, name, s, t.start)
    ensures NoneLater(c, name, Read(Collected(c, s, t)), s.last)
  {
    var r := Collected(c, s, t);
    forall i | 0 <= i < |Read(r)| ensures NotLater(c, name, Read(r)[i].day, s.last) {
      if i < |s.acknowledged| {
        assert Read(r)[i] == s.acknowledged[i] == Read(s)[i];
      } else if s.cached != [] {
        assert Read(r)[i] == Read(s)[i];
      } else {
        assert Read(r)[i].day == s.suffix;
      }
    }
  }

  /** A rotation goes to the day of the turn's end, of which nothing was read. */
  lemma TimelyRotation(c: Config, name: int -> string, s: State, t: Turn)
    requires Timely(c, name, s, t.start) && t.start <= t.end && t.today == name(DayNumber(t.end, c.offset))
    requires Rotates(c, s, t)
    ensures Fresh(c, s, Work(t))
  {
    CollectedTimely(c, name, s, t);
    LaterDay(s.last, t.start, c.offset);
    LaterDay(t.start, t.end, c.offset);
    assert DayNumber(s.last, c.offset) < DayNumber(t.end, c.offset);
  }

  lemma TurnTimely(c: Config, name: int -> string, s: State, t: Turn)
    requires Timely(c, name, s, t.start) && DistinctNames(name)
    requires t.start <= t.end && t.today == name(DayNumber(t.end, c.offset))
    ensures Timely(c, name, Step(c, s, Work(t)), t.end)
  {
    var r, s' := Collected(c, s, t), Step(c, s, Work(t));
    CollectedTimely(c, name, s, t);
    NoneLaterThen(c, name, Read(r), s.last, t.end);
    NotLaterThen(c, name, s.suffix, s.last, t.end);
    assert Read(s') == Read(r);
    if Posts(c, s, t) {
      assert Read(r) == r.acknowledged;
    }
  }

  lemma {:induction false} FixedZoneFresh(c: Config, name: int -> string, s: State, now: int, events: seq<Event>)
    requires Timely(c, name, s, now) && DistinctNames(name) && FixedZone(c, name, now, events)
    ensures FreshRun(c, s, events)
    decreases |events|
  {
    if events != [] {
      match events[0]
      case Work(t) =>
        if Rotates(c, s, t) { TimelyRotation(c, name, s, t); }
        TurnTimely(c, name, s, t);
        FixedZoneFresh(c, name, Step(c, s, events[0]), t.end, events[1..]);
      case Restart =>
        assert Read(Step(c, s, Restart)) == s.acknowledged;
        FixedZoneFresh(c, name, Step(c, s, Restart), now, events[1..]);
    }
  }

  /** While the zone stays the one the agent was loaded in, no line is acknowledged twice, restarts included. */
  lemma FixedZoneOnce(c: Config, name: int -> string, events: seq<Event>)
    requires !c.qualified("") && DistinctNames(name) && (forall d :: name(d) != "")
    requires Growing(map[], events) && FixedZone(c, name, 0, events)
    ensures NoneTwice(After(c, NewState("", 0), events).acknowledged)
  {
    FixedZoneFresh(c, name, NewState("", 0), 0, events);
    ReadOnce(c, NewState("", 0), map[], events);
  }

  /** A rotation at `time` to the file that is read already: the next turn reads it again. */
  lemma RotatesBack(c: Config, suffix: string, last: int, line: string, time: int) returns (events: seq<Event>)
    requires c.enabled && c.room > 0 && '\n' !in line && c.qualified(line) && !SameDay(time, last, c.offset)
    ensures events == [Work(Visit(suffix, line, time, suffix)), Work(Visit(suffix, line, time + 10, suffix))]
    ensures Growing(map[], events)
    ensures After(c, NewState(suffix, last), events).acknowledged
         == [Piece(suffix, 0, |line|), Piece(suffix, 0, |line|)]
  {
    var s, e, f := NewState(suffix, last), Visit(suffix, line, time, suffix), Visit(suffix, line, time + 10, suffix);
    var t := Step(c, s, Work(e));
    VisitStep(c, s, suffix, line, time, suffix);
    VisitStep(c, t, suffix, line, time + 10, suffix);
    Cons(c, t, Work(f), [], e.disk);
    Cons(c, s, Work(e), [Work(f)] + [], e.disk);
    events := [Work(e)] + ([Work(f)] + []);
    assert s.acknowledged + OneLine(suffix, suffix, line) == [Piece(suffix, 0, |line|)];
  }

  /** 23:00 of day `d` where the clock is now one hour ahead: midnight had it stayed two hours ahead. */
  lemma AtElevenPm(d: nat)
    ensures var last, time := d * DAY + 21 * 60 * 60, d * DAY + 22 * 60 * 60;
      && !SameDay(time, last, 2 * 60 * 60)
      && DayNumber(time, 60 * 60) == DayNumber(time + 10, 60 * 60) == d
  {
  }

  /** Daylight saving ended on day `d`: the agent's offset is still two hours, the zone's is one. At 23:00 the agent
      rotates to the file it has read, and reads it again. */
  lemma FallBack(c: Config, name: int -> string, d: nat, line: string) returns (t: Turn, u: Turn)
    requires c.enabled && c.room > 0 && '\n' !in line && c.qualified(line) && c.offset == 2 * 60 * 60
    ensures t.today == name(DayNumber(t.end, 60 * 60)) && u.today == name(DayNumber(u.end, 60 * 60))
    ensures var last := d * DAY + 21 * 60 * 60; last < t.start == t.end < u.start == u.end
    ensures Growing(map[], [Work(t), Work(u)])
    ensures !NoneTwice(After(c, NewState(name(d), d * DAY + 21 * 60 * 60), [Work(t), Work(u)]).acknowledged)
  {
    var last, time := d * DAY + 21 * 60 * 60, d * DAY + 22 * 60 * 60;
    AtElevenPm(d);
    t, u := Visit(name(d), line, time, name(d)), Visit(name(d), line, time + 10, name(d));
    var events := RotatesBack(c, name(d), last, line, time);
    var twice := After(c, NewState(name(d), last), events).acknowledged;
    assert twice[0] == twice[1];
  }

  /** The active file is that of the day of the last turn. */
  predicate UpToDate(c: Config, name: int -> string, s: State) {
    s.suffix == name(DayNumber(s.last, c.offset))
  }

  /** It is after a turn exactly when the turn rotated or did not end on another day than the turn before: a turn that
      runs over midnight keeps the old file, and the day that began will not be noticed. */
  lemma MidnightTurn(c: Config, name: int -> string, s: State, t: Turn)
    requires UpToDate(c, name, s) && DistinctNames(name) && t.today == name(DayNumber(t.end, c.offset))
    ensures UpToDate(c, name, Step(c, s, Work(t))) <==> Rotates(c, s, t) || SameDay(t.end, s.last, c.offset)
  {
    assert Step(c, s, Work(t)).last == t.end;
  }

  /** Every turn starts and ends on the day of `time`. */
  predicate SameDayRun(c: Config, time: int, events: seq<Event>)
    decreases |events|
  {
    events == [] ||
      (events[0].Work? && SameDay(events[0].turn.start, time, c.offset) && SameDay(events[0].turn.end, time, c.offset)
       && SameDayRun(c, time, events[1..]))
  }

  /** As long as that day lasts its file is not opened. */
  lemma {:induction false} DayIsSkipped(c: Config, s: State, events: seq<Event>)
    requires SameDayRun(c, s.last, events)
    ensures After(c, s, events).suffix == s.suffix
    decreases |events|
  {
    if events != [] {
      SameDayMoves(c, s.last, events[0].turn.end, events[1..]);
      DayIsSkipped(c, Step(c, s, events[0]), events[1..]);
    }
  }

  lemma {:induction false} SameDayMoves(c: Config, time: int, other: int, events: seq<Event>)
    requires SameDayRun(c, time, events) && SameDay(other, time, c.offset)
    ensures SameDayRun(c, other, events)
    decreases |events|
  {
    if events != [] {
      SameDayMoves(c, time, other, events[1..]);
    }
  }
}
