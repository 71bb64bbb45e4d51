/** Reading lines of a log file and making one body of them. */
module LogLines {

  // ----- reading lines

  /** A piece of the file. */
  datatype Span = Span(from: nat, to: nat)

  /** Where the line that starts at `pos` ends. */
  function LineEnd(file: string, pos: nat): (e: nat)
    requires pos <= |file|
    ensures pos <= e <= |file|
    decreases |file| - pos
  {
    if pos == |file| || file[pos] == '\n' then pos else LineEnd(file, pos + 1)
  }

  /** A line ends before the first newline or at the end of the file. */
  lemma {:induction false} LineEndsFirst(file: string, pos: nat, k: nat)
    requires pos <= |file|
    ensures LineEnd(file, pos) < |file| ==> file[LineEnd(file, pos)] == '\n'
    ensures pos <= k < LineEnd(file, pos) ==> file[k] != '\n'
    decreases |file| - pos
  {
    if pos < |file| && file[pos] != '\n' {
      LineEndsFirst(file, pos + 1, k);
    }
  }

  /** `getline` at `pos < |file|`: the line, and where reading stands after it (past the newline, if there is one). */
  function Line(file: string, pos: nat): Span
    requires pos < |file|
  {
    Span(pos, LineEnd(file, pos))
  }

  function AfterLine(file: string, pos: nat): (next: nat)
    requires pos < |file|
    ensures pos < next <= |file|
  {
    if LineEnd(file, pos) < |file| then LineEnd(file, pos) + 1 else |file|
  }

  /** The line from `pos` on is what stands before the first newline, and reading goes on behind that newline; without
      one both go to the end. */
  lemma LineIs(file: string, pos: nat, end: nat)
    requires pos <= end <= |file| && pos < |file| && (end < |file| ==> file[end] == '\n')
    requires forall k :: pos <= k < end ==> file[k] != '\n'
    ensures Line(file, pos) == Span(pos, end) && AfterLine(file, pos) == if end < |file| then end + 1 else end
  {
    var e := LineEnd(file, pos);
    if e < end {
      LineEndsFirst(file, pos, e);
    } else if end < e {
      LineEndsFirst(file, pos, end);
    }
  }

  function Text(file: string, s: Span): string
    decreases s.to - s.from
  {
    if s.from < s.to <= |file| then [file[s.from]] + Text(file, Span(s.from + 1, s.to)) else ""
  }

  lemma {:induction false} TextIsSlice(file: string, s: Span)
    requires s.from <= s.to <= |file|
    ensures Text(file, s) == file[s.from..s.to]
    decreases s.to - s.from
  {
    if s.from < s.to {
      TextIsSlice(file, Span(s.from + 1, s.to));
    }
  }

  // ----- one filling of the body

  /** The lines taken from `pos` on, at most `room`, and where reading stands: the line that stops the loop, because it
      is not qualified or because the body is full, has been read and is dropped. */
  datatype Batch = Batch(lines: seq<Span>, pos: nat)

  function Gather(file: string, pos: nat, room: nat, qualified: string -> bool): Batch
    decreases |file| - pos
  {
    if pos >= |file| then Batch([], pos)
    else if room == 0 || !qualified(Text(file, Line(file, pos))) then Batch([], AfterLine(file, pos))
    else
      var rest := Gather(file, AfterLine(file, pos), room - 1, qualified);
      Batch([Line(file, pos)] + rest.lines, rest.pos)
  }

  /** Spans one after the other between two positions. */
  ghost predicate InOrder(lines: seq<Span>, lo: nat, hi: nat) {
    if lines == [] then lo <= hi
    else lo <= lines[0].from <= lines[0].to && InOrder(lines[1..], lines[0].to, hi)
  }

  ghost predicate IsQualified(file: string, s: Span, qualified: string -> bool) {
    s.from <= s.to <= |file| && qualified(Text(file, s))
  }

  ghost predicate AllQualified(file: string, lines: seq<Span>, qualified: string -> bool) {
    lines == [] || (IsQualified(file, lines[0], qualified) && AllQualified(file, lines[1..], qualified))
  }

  lemma {:induction false} QualifiedConcat(file: string, xs: seq<Span>, ys: seq<Span>, qualified: string -> bool)
    ensures AllQualified(file, xs + ys, qualified) <==>
            AllQualified(file, xs, qualified) && AllQualified(file, ys, qualified)
  {
    if xs == [] {
      assert xs + ys == ys;
    } else {
      assert (xs + ys)[1..] == xs[1..] + ys;
      QualifiedConcat(file, xs[1..], ys, qualified);
    }
  }

  lemma {:induction false} QualifiedAt(file: string, lines: seq<Span>, i: nat, qualified: string -> bool)
    requires AllQualified(file, lines, qualified) && i < |lines|
    ensures IsQualified(file, lines[i], qualified)
  {
    if i > 0 {
      QualifiedAt(file, lines[1..], i - 1, qualified);
    }
  }

  /** What a filling takes: qualified pieces of the unread file, in order, at most `room` of them. */
  lemma {:induction false} GatherTakesInOrder(file: string, pos: nat, room: nat, qualified: string -> bool)
    ensures var b := Gather(file, pos, room, qualified);
      && |b.lines| <= room
      && pos <= b.pos && (pos <= |file| ==> b.pos <= |file|)
      && (pos >= |file| ==> b == Batch([], pos))
      && InOrder(b.lines, pos, b.pos)
      && AllQualified(file, b.lines, qualified)
    decreases |file| - pos
  {
    if pos < |file| && room > 0 && qualified(Text(file, Line(file, pos))) {
      GatherTakesInOrder(file, AfterLine(file, pos), room - 1, qualified);
      var rest := Gather(file, AfterLine(file, pos), room - 1, qualified);
      InOrderFrom(rest.lines, LineEnd(file, pos), AfterLine(file, pos), rest.pos);
    }
  }

  lemma InOrderFrom(lines: seq<Span>, lo: nat, lo2: nat, hi: nat)
    requires lo <= lo2 && InOrder(lines, lo2, hi)
    ensures InOrder(lines, lo, hi)
  {
  }

  /** The next `n` lines. */
  function LinesFrom(file: string, pos: nat, n: nat): seq<Span>
    requires pos <= |file|
    decreases n
  {
    if n == 0 || pos == |file| then [] else [Line(file, pos)] + LinesFrom(file, AfterLine(file, pos), n - 1)
  }

  /** Where reading stands after `n` lines. */
  function AfterLines(file: string, pos: nat, n: nat): (next: nat)
    requires pos <= |file|
    ensures pos <= next <= |file|
    decreases n
  {
    if n == 0 || pos == |file| then pos else AfterLines(file, AfterLine(file, pos), n - 1)
  }

  /** Nothing is lost but one line: a filling takes the next lines without a gap, and either it has read the whole
      file, or it has also read the one line after them, which is then in no body. */
  lemma {:induction false} GatherDropsOneLine(file: string, pos: nat, room: nat, qualified: string -> bool)
    requires pos <= |file|
    ensures var b := Gather(file, pos, room, qualified);
      var next := AfterLines(file, pos, |b.lines|);
      && b.lines == LinesFrom(file, pos, |b.lines|)
      && (b.pos == next == |file| ||
           (next < |file| && b.pos == AfterLine(file, next)
            && (|b.lines| == room || !qualified(Text(file, Line(file, next))))))
    decreases |file| - pos
  {
    if pos < |file| && room > 0 && qualified(Text(file, Line(file, pos))) {
      GatherDropsOneLine(file, AfterLine(file, pos), room - 1, qualified);
    }
  }

  /** Reading from `start` took exactly `lines`, all qualified, and stands at `pos`. */
  ghost predicate Filling(file: string, start: nat, qualified: string -> bool, lines: seq<Span>, pos: nat)
    decreases |lines|
  {
    if lines == [] then start == pos <= |file|
    else
      && start < |file| && lines[0] == Line(file, start) && qualified(Text(file, lines[0]))
      && Filling(file, AfterLine(file, start), qualified, lines[1..], pos)
  }

  lemma {:induction false} FillingTakes(file: string, start: nat, qualified: string -> bool, lines: seq<Span>, pos: nat)
    requires Filling(file, start, qualified, lines, pos) && pos < |file| && qualified(Text(file, Line(file, pos)))
    ensures Filling(file, start, qualified, lines + [Line(file, pos)], AfterLine(file, pos))
    decreases |lines|
  {
    if lines != [] {
      assert (lines + [Line(file, pos)])[1..] == lines[1..] + [Line(file, pos)];
      FillingTakes(file, AfterLine(file, start), qualified, lines[1..], pos);
    }
  }

  lemma {:induction false} FillingStops(file: string, start: nat, qualified: string -> bool, lines: seq<Span>,
                                        pos: nat, room: nat)
    requires Filling(file, start, qualified, lines, pos) && |lines| <= room && start <= |file| && pos <= |file|
    requires pos == |file| || |lines| == room || !qualified(Text(file, Line(file, pos)))
    ensures Gather(file, start, room, qualified) == Batch(lines, if pos == |file| then pos else AfterLine(file, pos))
    decreases |lines|
  {
    if lines != [] {
      FillingStops(file, AfterLine(file, start), qualified, lines[1..], pos, room - 1);
    }
  }

  // ----- the body

  function Commas(file: string, lines: seq<Span>): string {
    if lines == [] then "" else Commas(file, lines[..|lines| - 1]) + Text(file, lines[|lines| - 1]) + ","
  }

  lemma CommasStep(prefix: string, file: string, lines: seq<Span>, line: Span)
    ensures prefix + Commas(file, lines + [line]) == prefix + Commas(file, lines) + Text(file, line) + ","
  {
    assert (lines + [line])[..|lines|] == lines;
  }

  /** The loop takes one more line. */
  lemma TakesLine(prefix: string, file: string, start: nat, qualified: string -> bool, lines: seq<Span>, pos: nat,
                  text: string)
    requires pos < |file| && text == Text(file, Line(file, pos)) && qualified(text)
    requires Filling(file, start, qualified, lines, pos)
    ensures Filling(file, start, qualified, lines + [Line(file, pos)], AfterLine(file, pos))
    ensures prefix + Commas(file, lines + [Line(file, pos)]) == prefix + Commas(file, lines) + text + ","
  {
    FillingTakes(file, start, qualified, lines, pos);
    CommasStep(prefix, file, lines, Line(file, pos));
  }

  function Joined(file: string, lines: seq<Span>): string {
    if lines == [] then ""
    else if |lines| == 1 then Text(file, lines[0])
    else Joined(file, lines[..|lines| - 1]) + "," + Text(file, lines[|lines| - 1])
  }

  lemma {:induction false} CommasJoined(file: string, lines: seq<Span>)
    requires lines != []
    ensures Commas(file, lines) == Joined(file, lines) + ","
  {
    if |lines| == 1 {
      assert Commas(file, lines[..0]) == "";
      assert Commas(file, lines) == "" + Text(file, lines[0]) + ",";
    } else {
      CommasJoined(file, lines[..|lines| - 1]);
    }
  }

  /** No lines, no body; otherwise the lines, comma-joined, in brackets. */
  function Body(file: string, lines: seq<Span>): string {
    if lines == [] then "" else "[" + Joined(file, lines) + "]"
  }

  lemma ClosedBody(file: string, lines: seq<Span>, body: string)
    requires body == ("" + "[") + Commas(file, lines)
    ensures body != "" && (if |lines| == 0 then "" else body[..|body| - 1] + "]") == Body(file, lines)
  {
    if lines != [] {
      CommasJoined(file, lines);
      CommaReplaced(Joined(file, lines), body);
    }
  }

  lemma CommaReplaced(j: string, body: string)
    requires body == ("" + "[") + (j + ",")
    ensures body != "" && body[..|body| - 1] + "]" == "[" + j + "]"
  {
    assert body == ("[" + j) + ",";
  }

  /** How far the first `n` lines reach in the body, a bracket or comma before each. */
  function Reach(lines: seq<Span>, n: nat, file: string): (r: nat)
    requires n <= |lines|
    ensures n > 0 ==> r > 0
  {
    if n == 0 then 0 else Reach(lines, n - 1, file) + 1 + |Text(file, lines[n - 1])|
  }

  /** The body is a bracket, the texts of the lines with a comma between them, and a bracket. */
  lemma {:induction false} BodyHolds(file: string, lines: seq<Span>, i: nat)
    requires i < |lines|
    ensures var b := Body(file, lines);
      && |b| == Reach(lines, |lines|, file) + 1
      && b[0] == '[' && b[|b| - 1] == ']'
      && Reach(lines, i + 1, file) < |b|
      && b[Reach(lines, i, file) + 1..Reach(lines, i + 1, file)] == Text(file, lines[i])
      && (i > 0 ==> b[Reach(lines, i, file)] == ',')
  {
    JoinedHolds(file, lines, i);
    JoinedReaches(file, lines);
    InBrackets(Joined(file, lines), Reach(lines, i, file), Reach(lines, i + 1, file), Text(file, lines[i]));
  }

  lemma InBrackets(j: string, from: nat, to: nat, text: string)
    requires Stands(j, from, to, text)
    ensures var b := "[" + j + "]";
      && |b| == |j| + 2 && b[0] == '[' && b[|b| - 1] == ']'
      && to < |b| && b[from + 1..to] == text && (0 < from ==> b[from] == ',')
  {
    var b := "[" + j + "]";
    assert b[1..|b| - 1] == j;
    assert b[from + 1..to] == j[from..to - 1];
  }

  lemma {:induction false} ReachPrefix(file: string, lines: seq<Span>, m: nat, n: nat)
    requires n <= m <= |lines|
    ensures Reach(lines[..m], n, file) == Reach(lines, n, file)
  {
    if n > 0 {
      ReachPrefix(file, lines, m, n - 1);
    }
  }

  lemma {:induction false} JoinedReaches(file: string, lines: seq<Span>)
    requires lines != []
    ensures |Joined(file, lines)| + 1 == Reach(lines, |lines|, file)
  {
    var n := |lines| - 1;
    ReachPrefix(file, lines, n, n);
    if n == 0 {
      assert Reach(lines, 0, file) == 0;
    } else {
      JoinedReaches(file, lines[..n]);
      LastPiece(Joined(file, lines[..n]), Text(file, lines[n]));
    }
  }

  /** The text stands in `j` from `from` up to the place before `to`, behind a comma unless it is the first. */
  ghost predicate Stands(j: string, from: nat, to: nat, text: string) {
    from < to <= |j| + 1 && j[from..to - 1] == text && (0 < from ==> j[from - 1] == ',')
  }

  lemma {:induction false} JoinedHolds(file: string, lines: seq<Span>, i: nat)
    requires i < |lines|
    ensures Stands(Joined(file, lines), Reach(lines, i, file), Reach(lines, i + 1, file), Text(file, lines[i]))
    decreases |lines|
  {
    var n := |lines| - 1;
    if n == 0 {
      LastStands(Text(file, lines[0]));
    } else if i == n {
      JoinedReaches(file, lines[..n]);
      ReachPrefix(file, lines, n, n);
      LastPiece(Joined(file, lines[..n]), Text(file, lines[n]));
    } else {
      JoinedHolds(file, lines[..n], i);
      ReachPrefix(file, lines, n, i);
      ReachPrefix(file, lines, n, i + 1);
      EarlierPiece(Joined(file, lines[..n]), Text(file, lines[n]), Reach(lines, i, file), Reach(lines, i + 1, file),
                   Text(file, lines[i]));
    }
  }

  lemma LastStands(text: string)
    ensures Stands(text, 0, |text| + 1, text)
  {
  }

  lemma LastPiece(front: string, last: string)
    ensures var j := front + "," + last;
      |j| == |front| + 1 + |last| && Stands(j, |front| + 1, |j| + 1, last)
  {
  }

  lemma EarlierPiece(front: string, last: string, from: nat, to: nat, text: string)
    requires Stands(front, from, to, text)
    ensures Stands(front + "," + last, from, to, text)
  {
  }

  // ----- the file grows

  lemma TextInLonger(file: string, longer: string, s: Span)
    requires file <= longer && s.from <= s.to <= |file|
    ensures Text(longer, s) == Text(file, s)
  {
    TextIsSlice(file, s);
    TextIsSlice(longer, s);
  }

  lemma {:induction false} BodyOfLongerFile(file: string, longer: string, lines: seq<Span>, qualified: string -> bool)
    requires file <= longer && AllQualified(file, lines, qualified)
    ensures Joined(longer, lines) == Joined(file, lines)
  {
    if lines != [] {
      var n := |lines| - 1;
      assert lines == lines[..n] + [lines[n]];
      QualifiedConcat(file, lines[..n], [lines[n]], qualified);
      QualifiedAt(file, lines, n, qualified);
      TextInLonger(file, longer, lines[n]);
      BodyOfLongerFile(file, longer, lines[..n], qualified);
    }
  }

  lemma {:induction false} QualifiedInLonger(file: string, longer: string, lines: seq<Span>, qualified: string -> bool)
    requires file <= longer && AllQualified(file, lines, qualified)
    ensures AllQualified(longer, lines, qualified)
  {
    if lines != [] {
      TextInLonger(file, longer, lines[0]);
      QualifiedInLonger(file, longer, lines[1..], qualified);
    }
  }

  /** Earlier spans end before later ones start: a subsequence of the file, in order, without repeats. */
  lemma {:induction false} InOrderMeans(lines: seq<Span>, lo: nat, hi: nat, i: nat, j: nat)
    requires InOrder(lines, lo, hi) && i < j < |lines|
    ensures lo <= lines[i].from <= lines[i].to <= lines[j].from <= lines[j].to <= hi
  {
    if i > 0 {
      InOrderMeans(lines[1..], lines[0].to, hi, i - 1, j - 1);
    } else {
      InOrderBounds(lines[1..], lines[0].to, hi, j - 1);
    }
  }

  lemma {:induction false} InOrderBounds(lines: seq<Span>, lo: nat, hi: nat, j: nat)
    requires InOrder(lines, lo, hi) && j < |lines|
    ensures lo <= lines[j].from <= lines[j].to <= hi
  {
    if j > 0 {
      InOrderBounds(lines[1..], lines[0].to, hi, j - 1);
    } else {
      InOrderEnds(lines[1..], lines[0].to, hi);
    }
  }

  lemma {:induction false} InOrderEnds(lines: seq<Span>, lo: nat, hi: nat)
    requires InOrder(lines, lo, hi)
    ensures lo <= hi
  {
    if lines != [] {
      InOrderEnds(lines[1..], lines[0].to, hi);
    }
  }
}
