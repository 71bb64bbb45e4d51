/** `LogCollectItem` and the loop of `LogAgent::run`: log lines are read into a body of at most 512, posted, and
    acknowledged by saving how far the file was read. */
module LogShipping {

  import opened LogLines

  const MAX_POST := 512

  // ----- pieces of the daily files

  /** A line of the file of a day. */
  datatype Piece = Piece(day: string, from: nat, to: nat)

  function OfDay(day: string, lines: seq<Span>): (ps: seq<Piece>)
    ensures |ps| == |lines|
    ensures forall i :: 0 <= i < |ps| ==> ps[i] == Piece(day, lines[i].from, lines[i].to)
  {
    seq(|lines|, i requires 0 <= i < |lines| => Piece(day, lines[i].from, lines[i].to))
  }

  /** The files, by the suffix of their day. */
  type Disk = map<string, string>

  /** Files are only appended to. */
  ghost predicate Grows(disk: Disk, later: Disk) {
    forall day :: day in disk ==> day in later && disk[day] <= later[day]
  }

  /** A piece of its day's file that is qualified and not empty. */
  ghost predicate IsGenuine(disk: Disk, p: Piece, qualified: string -> bool) {
    && p.day in disk
    && p.from < p.to
    && IsQualified(disk[p.day], Span(p.from, p.to), qualified)
  }

  ghost predicate AllGenuine(disk: Disk, ps: seq<Piece>, qualified: string -> bool) {
    forall i :: 0 <= i < |ps| ==> IsGenuine(disk, ps[i], qualified)
  }

  /** Pieces of one day stand in the order of its file and do not overlap. */
  ghost predicate InFileOrder(ps: seq<Piece>) {
    forall i, j :: 0 <= i < j < |ps| && ps[i].day == ps[j].day ==> ps[i].to <= ps[j].from
  }

  /** The pieces of that day end before `n`. */
  ghost predicate Before(ps: seq<Piece>, day: string, n: nat) {
    forall i :: 0 <= i < |ps| && ps[i].day == day ==> ps[i].to <= n
  }

  ghost predicate NoneOf(ps: seq<Piece>, day: string) {
    forall i :: 0 <= i < |ps| ==> ps[i].day != day
  }

  /** No line is there twice. */
  ghost predicate NoneTwice(ps: seq<Piece>) {
    forall i, j :: 0 <= i < j < |ps| ==> ps[i] != ps[j]
  }

  lemma OrderedNoneTwice(disk: Disk, ps: seq<Piece>, qualified: string -> bool)
    requires InFileOrder(ps) && AllGenuine(disk, ps, qualified)
    ensures NoneTwice(ps)
  {
    forall i, j | 0 <= i < j < |ps| ensures ps[i] != ps[j] {
      assert IsGenuine(disk, ps[i], qualified);
    }
  }

  /** Lines read behind all pieces of their day keep the order. */
  lemma ReadingKeepsOrder(ps: seq<Piece>, day: string, lines: seq<Span>, lo: nat, hi: nat)
    requires InFileOrder(ps) && Before(ps, day, lo) && InOrder(lines, lo, hi)
    ensures InFileOrder(ps + OfDay(day, lines)) && Before(ps + OfDay(day, lines), day, hi)
  {
    var all, n := ps + OfDay(day, lines), |ps|;
    InOrderEnds(lines, lo, hi);
    forall i | n <= i < |all| ensures lo <= all[i].from <= all[i].to <= hi {
      InOrderBounds(lines, lo, hi, i - n);
    }
    forall i, j | 0 <= i < j < |all| && all[i].day == all[j].day ensures all[i].to <= all[j].from {
      if n <= i {
        InOrderMeans(lines, lo, hi, i - n, j - n);
      }
    }
  }

  lemma GenuineConcat(disk: Disk, xs: seq<Piece>, ys: seq<Piece>, qualified: string -> bool)
    requires AllGenuine(disk, xs, qualified) && AllGenuine(disk, ys, qualified)
    ensures AllGenuine(disk, xs + ys, qualified)
  {
  }

  lemma QualifiedAreGenuine(disk: Disk, day: string, lines: seq<Span>, qualified: string -> bool)
    requires day in disk && AllQualified(disk[day], lines, qualified) && !qualified("")
    ensures AllGenuine(disk, OfDay(day, lines), qualified)
  {
    forall i | 0 <= i < |lines| ensures IsGenuine(disk, OfDay(day, lines)[i], qualified) {
      QualifiedAt(disk[day], lines, i, qualified);
      NotEmpty(disk[day], lines[i], qualified);
      assert lines[i] == Span(lines[i].from, lines[i].to);
    }
  }

  lemma NotEmpty(file: string, s: Span, qualified: string -> bool)
    requires IsQualified(file, s, qualified) && !qualified("")
    ensures s.from < s.to
  {
    assert s.from == s.to ==> Text(file, s) == "";
  }

  lemma GenuineLater(disk: Disk, later: Disk, ps: seq<Piece>, qualified: string -> bool)
    requires AllGenuine(disk, ps, qualified) && Grows(disk, later)
    ensures AllGenuine(later, ps, qualified)
  {
    forall i | 0 <= i < |ps| ensures IsGenuine(later, ps[i], qualified) {
      assert IsGenuine(disk, ps[i], qualified);
      TextInLonger(disk[ps[i].day], later[ps[i].day], Span(ps[i].from, ps[i].to));
    }
  }

  // ----- the item as a value

  const DAY := 24 * 60 * 60

  /** C division rounds toward zero. */
  function DayNumber(time: int, offset: int): int {
    var t := time + offset;
    if t >= 0 then t / DAY else -(-t / DAY)
  }

  predicate SameDay(src: int, target: int, offset: int) {
    DayNumber(src, offset) == DayNumber(target, offset)
  }

  /** What the status file holds. */
  datatype Status = Status(suffix: string, fpos: nat, inode: int, lastPostTime: int)

  /** What does not change: `room` is `LogAgent::max_post_logs_account`, `qualified` the test on a line, and `offset`
      the zone offset taken when the agent was loaded. */
  datatype Config = Config(enabled: bool, room: nat, qualified: string -> bool, offset: int)

  /** The active file is that of the day `suffix`, and its next line will be read at `pos`. The unsent body holds the
      lines `cached` of the day `cachedDay`; `acknowledged` are the lines whose posts succeeded. */
  datatype State = State(
    suffix: string, pos: nat, inode: int, last: int,
    cachedDay: string, cached: seq<Span>, body: string, acknowledged: seq<Piece>, saved: Status)

  /** One turn as the environment sees it: the files, the inode of the active one, what the post returns, the times when
      the turn starts and ends, and the date at its end in the zone then in force. */
  datatype Turn = Turn(disk: Disk, inode: int, postOk: bool, start: int, end: int, today: string)

  /** A process is killed between two turns and another one starts from the status file. */
  datatype Event = Work(turn: Turn) | Restart

  function NewState(suffix: string, last: int): State {
    State(suffix, 0, 0, last, "", [], "", [], Status(suffix, 0, 0, last))
  }

  function Refreshed(c: Config, s: State, file: string, inode: int): State {
    var r := s.(inode := if inode != 0 then inode else s.inode);
    if s.cached != [] then r
    else
      var b := Gather(file, s.pos, c.room, c.qualified);
      r.(pos := b.pos, cachedDay := s.suffix, cached := b.lines, body := Body(file, b.lines))
  }

  function Posted(s: State, now: int): State {
    s.(last := now, cached := [], body := "", acknowledged := s.acknowledged + OfDay(s.cachedDay, s.cached),
       saved := Status(s.suffix, s.pos, s.inode, now))
  }

  predicate Posts(c: Config, s: State, t: Turn) {
    && c.enabled && s.suffix in t.disk && t.postOk
    && Refreshed(c, s, t.disk[s.suffix], t.inode).cached != []
  }

  function Collected(c: Config, s: State, t: Turn): State {
    if !c.enabled || s.suffix !in t.disk then s
    else if Posts(c, s, t) then Posted(Refreshed(c, s, t.disk[s.suffix], t.inode), t.end)
    else Refreshed(c, s, t.disk[s.suffix], t.inode)
  }

  predicate Rotates(c: Config, s: State, t: Turn) {
    !SameDay(t.start, s.last, c.offset)
  }

  function Handled(s: State, rotate: bool, now: int, today: string): State {
    if rotate then s.(last := now, suffix := today, pos := 0, inode := 0) else s.(last := now)
  }

  function Step(c: Config, s: State, e: Event): State {
    match e
    case Work(t) => Handled(Collected(c, s, t), Rotates(c, s, t), t.end, t.today)
    case Restart =>
      State(s.saved.suffix, s.saved.fpos, s.saved.inode, s.saved.lastPostTime, "", [], "", s.acknowledged, s.saved)
  }

  function After(c: Config, s: State, events: seq<Event>): State
    decreases |events|
  {
    if events == [] then s else After(c, Step(c, s, events[0]), events[1..])
  }

  lemma {:induction false} AfterSnoc(c: Config, s: State, events: seq<Event>, e: Event)
    ensures After(c, s, events + [e]) == Step(c, After(c, s, events), e)
    decreases |events|
  {
    if events == [] {
      assert (events + [e])[1..] == [];
    } else {
      assert (events + [e])[1..] == events[1..] + [e];
      AfterSnoc(c, Step(c, s, events[0]), events[1..], e);
    }
  }

  // ----- what every turn keeps

  /** The acknowledged lines and those in the body. */
  function Read(s: State): seq<Piece> {
    s.acknowledged + OfDay(s.cachedDay, s.cached)
  }

  /** Of every file the lines were read in order and once, the reading goes on behind them, and so it does from the
      status file behind the acknowledged ones. */
  ghost predicate Sound(s: State) {
    && InFileOrder(Read(s))
    && Before(Read(s), s.suffix, s.pos)
    && Before(s.acknowledged, s.saved.suffix, s.saved.fpos)
  }

  /** The lines are those of the files, and the body is made of them. */
  ghost predicate Genuine(c: Config, s: State, disk: Disk) {
    && AllGenuine(disk, s.acknowledged, c.qualified)
    && |s.cached| <= c.room
    && (s.cached == [] ==> s.body == "")
    && (s.cached != [] ==>
         && s.cachedDay in disk
         && AllQualified(disk[s.cachedDay], s.cached, c.qualified)
         && s.body == Body(disk[s.cachedDay], s.cached))
  }

  lemma RefreshedSound(c: Config, s: State, file: string, inode: int)
    requires Sound(s)
    ensures Sound(Refreshed(c, s, file, inode))
  {
    if s.cached == [] {
      var b := Gather(file, s.pos, c.room, c.qualified);
      GatherTakesInOrder(file, s.pos, c.room, c.qualified);
      assert Read(s) == s.acknowledged;
      ReadingKeepsOrder(s.acknowledged, s.suffix, b.lines, s.pos, b.pos);
    }
  }

  lemma PostedSound(s: State, now: int)
    requires Sound(s)
    ensures Sound(Posted(s, now)) && Read(Posted(s, now)) == Read(s)
  {
    assert Read(Posted(s, now)) == Read(s) == Posted(s, now).acknowledged;
  }

  lemma CollectedSound(c: Config, s: State, t: Turn)
    requires Sound(s)
    ensures Sound(Collected(c, s, t))
  {
    if c.enabled && s.suffix in t.disk {
      RefreshedSound(c, s, t.disk[s.suffix], t.inode);
      PostedSound(Refreshed(c, s, t.disk[s.suffix], t.inode), t.end);
    }
  }

  /** The rotation, if there is one, goes to a day of which nothing was read. */
  ghost predicate Fresh(c: Config, s: State, e: Event) {
    e.Work? && Rotates(c, s, e.turn) ==> NoneOf(Read(Collected(c, s, e.turn)), e.turn.today)
  }

  lemma AcknowledgedInOrder(s: State)
    requires Sound(s)
    ensures InFileOrder(s.acknowledged)
  {
    forall i, j | 0 <= i < j < |s.acknowledged| && s.acknowledged[i].day == s.acknowledged[j].day
      ensures s.acknowledged[i].to <= s.acknowledged[j].from
    {
      assert Read(s)[i] == s.acknowledged[i] && Read(s)[j] == s.acknowledged[j];
    }
  }

  lemma StepSound(c: Config, s: State, e: Event)
    requires Sound(s) && Fresh(c, s, e)
    ensures Sound(Step(c, s, e))
  {
    match e
    case Work(t) =>
      CollectedSound(c, s, t);
      assert Read(Step(c, s, e)) == Read(Collected(c, s, t));
    case Restart =>
      assert Read(Step(c, s, e)) == s.acknowledged;
      AcknowledgedInOrder(s);
  }

  lemma GenuineInLater(c: Config, s: State, disk: Disk, later: Disk)
    requires Genuine(c, s, disk) && Grows(disk, later)
    ensures Genuine(c, s, later)
  {
    GenuineLater(disk, later, s.acknowledged, c.qualified);
    if s.cached != [] {
      BodyOfLongerFile(disk[s.cachedDay], later[s.cachedDay], s.cached, c.qualified);
      QualifiedInLonger(disk[s.cachedDay], later[s.cachedDay], s.cached, c.qualified);
    }
  }

  lemma RefreshedGenuine(c: Config, s: State, disk: Disk, inode: int)
    requires Genuine(c, s, disk) && s.suffix in disk
    ensures Genuine(c, Refreshed(c, s, disk[s.suffix], inode), disk)
  {
    GatherTakesInOrder(disk[s.suffix], s.pos, c.room, c.qualified);
  }

  lemma PostedGenuine(c: Config, s: State, disk: Disk, now: int)
    requires Genuine(c, s, disk) && s.cached != [] && !c.qualified("")
    ensures Genuine(c, Posted(s, now), disk)
  {
    QualifiedAreGenuine(disk, s.cachedDay, s.cached, c.qualified);
    GenuineConcat(disk, s.acknowledged, OfDay(s.cachedDay, s.cached), c.qualified);
  }

  lemma StepGenuine(c: Config, s: State, t: Turn)
    requires Genuine(c, s, t.disk) && !c.qualified("")
    ensures Genuine(c, Step(c, s, Work(t)), t.disk)
  {
    if c.enabled && s.suffix in t.disk {
      RefreshedGenuine(c, s, t.disk, t.inode);
      if Posts(c, s, t) {
        PostedGenuine(c, Refreshed(c, s, t.disk[s.suffix], t.inode), t.disk, t.end);
      }
    }
  }

  // ----- whole runs

  /** Every rotation of the run goes to a day of which nothing was read by then. */
  ghost predicate FreshRun(c: Config, s: State, events: seq<Event>)
    decreases |events|
  {
    events == [] || (Fresh(c, s, events[0]) && FreshRun(c, Step(c, s, events[0]), events[1..]))
  }

  /** Along the run files are only appended to. */
  ghost predicate Growing(disk: Disk, events: seq<Event>)
    decreases |events|
  {
    events == [] || (Grows(disk, DiskAt(disk, events[0])) && Growing(DiskAt(disk, events[0]), events[1..]))
  }

  function DiskAt(disk: Disk, e: Event): Disk {
    if e.Work? then e.turn.disk else disk
  }

  function DiskAfter(disk: Disk, events: seq<Event>): Disk
    decreases |events|
  {
    if events == [] then disk else DiskAfter(DiskAt(disk, events[0]), events[1..])
  }

  lemma {:induction false} RunGenuine(c: Config, s: State, disk: Disk, events: seq<Event>)
    requires Genuine(c, s, disk) && Growing(disk, events) && !c.qualified("")
    ensures Genuine(c, After(c, s, events), DiskAfter(disk, events))
    decreases |events|
  {
    if events != [] {
      GenuineInLater(c, s, disk, DiskAt(disk, events[0]));
      if events[0].Work? {
        StepGenuine(c, s, events[0].turn);
      }
      RunGenuine(c, Step(c, s, events[0]), DiskAt(disk, events[0]), events[1..]);
    }
  }

  lemma {:induction false} RunSound(c: Config, s: State, events: seq<Event>)
    requires Sound(s) && FreshRun(c, s, events)
    ensures Sound(After(c, s, events))
    decreases |events|
  {
    if events != [] {
      StepSound(c, s, events[0]);
      RunSound(c, Step(c, s, events[0]), events[1..]);
    }
  }

  /** While no rotation goes to a day already read, the acknowledged lines are lines of the files, those of a day in the
      order of its file, none twice, and the saved offset is behind those of its day. */
  lemma ReadOnce(c: Config, s: State, disk: Disk, events: seq<Event>)
    requires Sound(s) && Genuine(c, s, disk) && !c.qualified("")
    requires Growing(disk, events) && FreshRun(c, s, events)
    ensures var t := After(c, s, events);
      && AllGenuine(DiskAfter(disk, events), t.acknowledged, c.qualified)
      && InFileOrder(t.acknowledged) && NoneTwice(t.acknowledged)
      && Before(t.acknowledged, t.saved.suffix, t.saved.fpos)
  {
    RunGenuine(c, s, disk, events);
    RunSound(c, s, events);
    var t := After(c, s, events);
    AcknowledgedInOrder(t);
    OrderedNoneTwice(DiskAfter(disk, events), t.acknowledged, c.qualified);
  }

  // ----- the item as an object

  /** `log_content_qualified`: not empty, and JSON with this application's and this agent's identifiers. */
  function Qualifies(matches: string -> bool): string -> bool {
    line => line != "" && matches(line)
  }

  class LogCollectItem {
    const collectEnable: bool
    const room: nat
    const qualified: string -> bool
    const offset: int
    var isOpen: bool
    var ifsPos: nat
    var fpos: nat
    var inode: int
    var lastPostTime: int
    var currSuffix: string
    var cachedBody: string
    var cachedCount: nat
    /** The content of the status file. */
    var saved: Status

    ghost var acknowledged: seq<Piece>
    ghost var cachedDay: string
    ghost var cached: seq<Span>

    ghost function Settings(): Config {
      Config(collectEnable, room, qualified, offset)
    }

    /** Where the next line of the active file will be read. */
    ghost function Position(): nat
      reads this
    {
      if isOpen then ifsPos else fpos
    }

    ghost function View(): State
      reads this
    {
      State(currSuffix, Position(), inode, lastPostTime, cachedDay, cached, cachedBody, acknowledged, saved)
    }

    ghost predicate Valid()
      reads this
    {
      cachedCount == |cached| && (cached == [] <==> cachedBody == "")
    }

    /** A first start: there is no status file. */
    constructor (collectEnable: bool, matches: string -> bool, offset: int)
      ensures Valid() && View() == NewState("", 0) && !isOpen
      ensures Settings() == Config(collectEnable, MAX_POST, Qualifies(matches), offset)
    {
      this.collectEnable, room, qualified, this.offset := collectEnable, MAX_POST, Qualifies(matches), offset;
      isOpen, ifsPos, fpos, inode, lastPostTime, currSuffix := false, 0, 0, 0, 0, "";
      cachedBody, cachedCount, saved := "", 0, Status("", 0, 0, 0);
      acknowledged, cachedDay, cached := [], "", [];
    }

    /** A start with a status file; `before` is what earlier processes had acknowledged. */
    constructor Resume(collectEnable: bool, matches: string -> bool, offset: int, status: Status,
                       ghost before: seq<Piece>)
      ensures Valid() && !isOpen
      ensures View() == State(status.suffix, status.fpos, status.inode, status.lastPostTime, "", [], "", before, status)
      ensures Settings() == Config(collectEnable, MAX_POST, Qualifies(matches), offset)
    {
      this.collectEnable, room, qualified, this.offset := collectEnable, MAX_POST, Qualifies(matches), offset;
      isOpen, ifsPos, fpos, inode, lastPostTime := false, 0, status.fpos, status.inode, status.lastPostTime;
      currSuffix := status.suffix;
      cachedBody, cachedCount, saved := "", 0, status;
      acknowledged, cachedDay, cached := before, "", [];
    }

    /** `update_fpos`: the first call opens the file where it was left; a new inode resets the offset kept in the
        object. */
    method UpdateFpos(currInode: int)
      modifies this`isOpen, this`ifsPos, this`fpos, this`inode
      ensures isOpen && Position() == old(Position())
      ensures inode == if currInode != 0 then currInode else old(inode)
      ensures fpos == if currInode != 0 && currInode != old(inode) then 0 else old(fpos)
    {
      if !isOpen {
        isOpen := true;
        ifsPos := fpos;
      }
      if currInode != 0 && inode != currInode {
        inode := currInode;
        fpos := 0;
      }
    }

    /** The read loop: qualified lines, each followed by a comma. */
    method ReadLines(file: string) returns (ghost lines: seq<Span>)
      requires cachedCount == 0
      modifies this`ifsPos, this`cachedBody, this`cachedCount
      ensures Batch(lines, ifsPos) == Gather(file, old(ifsPos), room, qualified)
      ensures cachedCount == |lines| && cachedBody == old(cachedBody) + Commas(file, lines)
    {
      ghost var start, body := ifsPos, cachedBody;
      lines := [];
      if ifsPos >= |file| {
        return;
      }
      while true
        invariant |lines| == cachedCount <= room && start <= ifsPos <= |file|
        invariant Filling(file, start, qualified, lines, ifsPos)
        invariant cachedBody == body + Commas(file, lines)
        decreases |file| - ifsPos
      {
        if ifsPos == |file| {
          FillingStops(file, start, qualified, lines, ifsPos, room);
          return;
        }
        ghost var at := ifsPos;
        var line := Line(file, ifsPos);
        ifsPos := AfterLine(file, ifsPos);
        if !(cachedCount < room) {
          FillingStops(file, start, qualified, lines, at, room);
          return;
        }
        var text := Text(file, line);
        if qualified(text) {
          TakesLine(body, file, start, qualified, lines, at, text);
          cachedBody := cachedBody + text + ",";
          cachedCount := cachedCount + 1;
          lines := lines + [line];
        } else {
          FillingStops(file, start, qualified, lines, at, room);
          return;
        }
      }
    }

    /** The empty body is filled: an opening bracket, the lines, and the last character made a closing bracket; a body
        without lines is dropped. */
    method ReadBody(file: string) returns (ghost lines: seq<Span>)
      requires cachedCount == 0 && cachedBody == ""
      modifies this`ifsPos, this`cachedBody, this`cachedCount
      ensures Batch(lines, ifsPos) == Gather(file, old(ifsPos), room, qualified)
      ensures cachedCount == |lines| && cachedBody == Body(file, lines)
    {
      cachedBody := cachedBody + "[";
      lines := ReadLines(file);
      ClosedBody(file, lines, cachedBody);
      cachedBody := cachedBody[..|cachedBody| - 1];
      cachedBody := cachedBody + "]";
      if cachedCount == 0 {
        cachedBody := "";
      }
    }

    method RefreshCacheBody(file: string)
      requires Valid() && isOpen
      modifies this`ifsPos, this`cachedBody, this`cachedCount, this`cached, this`cachedDay
      ensures Valid() && View() == Refreshed(Settings(), old(View()), file, 0)
    {
      if cachedCount == 0 {
        cached := ReadBody(file);
        cachedDay := currSuffix;
      }
    }

    /** What `update_collect_status` and `refresh_cache_body` make of the item; `file` is the active file. */
    method Refresh(file: string, currInode: int)
      requires Valid()
      modifies this`isOpen, this`ifsPos, this`fpos, this`inode, this`cachedBody, this`cachedCount,
        this`cached, this`cachedDay
      ensures Valid() && isOpen && View() == Refreshed(Settings(), old(View()), file, currInode)
    {
      UpdateFpos(currInode);
      RefreshCacheBody(file);
    }

    method ClearCacheBody()
      modifies this`cachedBody, this`cachedCount, this`acknowledged, this`cached
      ensures cachedBody == "" && cachedCount == 0 && cached == []
      ensures acknowledged == old(acknowledged + OfDay(cachedDay, cached))
    {
      cachedCount := 0;
      cachedBody := "";
      acknowledged, cached := acknowledged + OfDay(cachedDay, cached), [];
    }

    method UpdateStatusSnapshot(now: int)
      requires isOpen
      modifies this`fpos, this`lastPostTime, this`saved
      ensures fpos == ifsPos && lastPostTime == now && saved == Status(currSuffix, Position(), inode, now)
    {
      fpos := ifsPos;
      lastPostTime := now;
      saved := Status(currSuffix, fpos, inode, lastPostTime);
    }

    method NeedRotate(now: int) returns (b: bool)
      ensures b <==> !SameDay(now, lastPostTime, offset)
    {
      b := !SameDay(now, lastPostTime, offset);
    }

    method HandleRotate(needRotate: bool, now: int, today: string)
      requires Valid()
      modifies this`lastPostTime, this`isOpen, this`fpos, this`inode, this`currSuffix
      ensures Valid() && View() == Handled(old(View()), needRotate, now, today)
    {
      lastPostTime := now;
      if needRotate {
        Clear(today);
      }
    }

    method Clear(today: string)
      modifies this`isOpen, this`fpos, this`inode, this`currSuffix
      ensures !isOpen && fpos == 0 && inode == 0 && currSuffix == today
    {
      currSuffix := today;
      isOpen := false;
      fpos := 0;
      inode := 0;
    }

    /** One turn of the loop of `LogAgent::run` for this item. */
    method Round(t: Turn) returns (posted: bool)
      requires Valid()
      modifies this
      ensures Valid() && View() == Step(Settings(), old(View()), Work(t))
      ensures posted <==> Posts(Settings(), old(View()), t)
    {
      posted := false;
      var fileRotate := NeedRotate(t.start);
      if collectEnable && currSuffix in t.disk {
        posted := Collect(t.disk[currSuffix], t);
      }
      HandleRotate(fileRotate, t.end, t.today);
    }

    /** The part of a turn that reads and posts. */
    method Collect(file: string, t: Turn) returns (posted: bool)
      requires Valid() && collectEnable && currSuffix in t.disk && file == t.disk[currSuffix]
      modifies this`isOpen, this`ifsPos, this`fpos, this`inode, this`lastPostTime, this`cachedBody, this`cachedCount,
        this`saved, this`acknowledged, this`cached, this`cachedDay
      ensures Valid() && View() == Collected(Settings(), old(View()), t)
      ensures posted <==> Posts(Settings(), old(View()), t)
    {
      posted := false;
      Refresh(file, t.inode);
      if cachedBody != "" {
        if t.postOk {
          ClearCacheBody();
          UpdateStatusSnapshot(t.end);
          posted := true;
        }
      }
    }
  }

  /** The agent from `first` on, through any number of turns and restarts. */
  method Run(first: LogCollectItem, matches: string -> bool, events: seq<Event>) returns (item: LogCollectItem)
    requires first.Valid() && first.room == MAX_POST && first.qualified == Qualifies(matches)
    modifies first
    ensures item == first || fresh(item)
    ensures item.Valid() && item.Settings() == first.Settings()
    ensures item.View() == After(first.Settings(), old(first.View()), events)
  {
    item := first;
    for i := 0 to |events|
      invariant item == first || fresh(item)
      invariant item.Valid() && item.Settings() == first.Settings()
      invariant item.View() == After(first.Settings(), old(first.View()), events[..i])
    {
      AfterSnoc(first.Settings(), old(first.View()), events[..i], events[i]);
      assert events[..i + 1] == events[..i] + [events[i]];
      if events[i].Work? {
        var posted := item.Round(events[i].turn);
      } else {
        item := new LogCollectItem.Resume(item.collectEnable, matches, item.offset, item.saved, item.acknowledged);
      }
    }
    assert events[..|events|] == events;
  }
}
