/** Connection strings seen as they are written: every text is laid out in entries and a tail, and parsing gives the
    names and values of the entries. */
module PgLayout {

  import opened Options
  import opened PgConninfo

  /** One character of a value: as it is, or behind a backslash. */
  datatype Mark = Plain(c: char) | Escaped(c: char)

  /** A value: between quotes, or up to `end`, which is one white space or, at the end of the text, nothing or a lone
      backslash. */
  datatype Written = InQuotes(marks: seq<Mark>) | Bare(marks: seq<Mark>, end: string)

  /** White space, a name, white space, `=`, white space, a value. */
  datatype Entry = Entry(lead: string, name: string, mid: string, gap: string, value: Written)

  /** What is left: white space; a name without `=` behind it; or a quote that is not closed, which may end in a lone
      backslash. */
  datatype Tail =
    | Blank(lead: string)
    | NoEquals(lead: string, name: string, mid: string, rest: string)
    | OpenQuote(lead: string, name: string, mid: string, gap: string, marks: seq<Mark>, end: string)

  predicate Spaces(t: string) {
    forall i :: 0 <= i < |t| ==> Space(t[i])
  }

  predicate IsName(t: string) {
    forall i :: 0 <= i < |t| ==> t[i] != '=' && !Space(t[i])
  }

  function MarksText(ms: seq<Mark>): string {
    if ms == [] then "" else (if ms[0].Plain? then [ms[0].c] else ['\\', ms[0].c]) + MarksText(ms[1..])
  }

  /** What is meant. */
  function Chars(ms: seq<Mark>): string {
    if ms == [] then "" else [ms[0].c] + Chars(ms[1..])
  }

  predicate QuotedMarks(ms: seq<Mark>) {
    forall i :: 0 <= i < |ms| && ms[i].Plain? ==> ms[i].c != '\'' && ms[i].c != '\\'
  }

  predicate BareMarks(ms: seq<Mark>) {
    forall i :: 0 <= i < |ms| && ms[i].Plain? ==> ms[i].c != '\\' && !Space(ms[i].c)
  }

  predicate LastEnd(end: string) {
    end == "" || end == "\\"
  }

  predicate IsWritten(w: Written) {
    match w
    case InQuotes(ms) => QuotedMarks(ms)
    case Bare(ms, end) =>
      && BareMarks(ms) && (ms != [] ==> ms[0] != Plain('\''))
      && (LastEnd(end) || (ms != [] && |end| == 1 && Space(end[0])))
  }

  predicate AtEnd(w: Written) {
    w.Bare? && LastEnd(w.end)
  }

  function WrittenText(w: Written): string {
    match w
    case InQuotes(ms) => "'" + (MarksText(ms) + "'")
    case Bare(ms, end) => MarksText(ms) + end
  }

  /** White space around the name and the `=`. */
  predicate IsHead(lead: string, name: string, mid: string) {
    Spaces(lead) && IsName(name) && Spaces(mid) && (name == "" ==> mid == "")
  }

  predicate IsEntry(e: Entry) {
    IsHead(e.lead, e.name, e.mid) && Spaces(e.gap) && IsWritten(e.value)
  }

  function EntryText(e: Entry, rest: string): string {
    e.lead + (e.name + (e.mid + ("=" + (e.gap + (WrittenText(e.value) + rest)))))
  }

  predicate IsTail(t: Tail) {
    match t
    case Blank(lead) => Spaces(lead)
    case NoEquals(lead, name, mid, rest) =>
      && IsHead(lead, name, mid) && name != ""
      && (rest == "" || (mid != "" && rest[0] != '=' && !Space(rest[0])))
    case OpenQuote(lead, name, mid, gap, ms, end) =>
      IsHead(lead, name, mid) && Spaces(gap) && QuotedMarks(ms) && LastEnd(end)
  }

  function TailText(t: Tail): string {
    match t
    case Blank(lead) => lead
    case NoEquals(lead, name, mid, rest) => lead + (name + (mid + rest))
    case OpenQuote(lead, name, mid, gap, ms, end) =>
      lead + (name + (mid + ("=" + (gap + ("'" + (MarksText(ms) + end))))))
  }

  /** Only the last entry may end with the text. */
  predicate IsLayout(es: seq<Entry>, tail: Tail) {
    if es == [] then IsTail(tail)
    else IsEntry(es[0]) && IsLayout(es[1..], tail) && (AtEnd(es[0].value) ==> Text(es[1..], tail) == "")
  }

  function Text(es: seq<Entry>, tail: Tail): string {
    if es == [] then TailText(tail) else EntryText(es[0], Text(es[1..], tail))
  }

  function Pairs(es: seq<Entry>): seq<(string, string)> {
    if es == [] then [] else [(es[0].name, Chars(es[0].value.marks))] + Pairs(es[1..])
  }

  // ----- reading what is laid out

  /** From `i` on, the text is `t`. */
  ghost predicate Ahead(s: string, i: nat, t: string) {
    i <= |s| && s[i..] == t
  }

  lemma AheadBy(s: string, i: nat, x: string, y: string)
    requires Ahead(s, i, x + y)
    ensures i + |x| <= |s| && Ahead(s, i + |x|, y)
    ensures x != "" ==> i < |s| && s[i] == x[0]
  {
    assert s[i + |x|..] == s[i..][|x|..] == y;
    assert x != "" ==> s[i] == s[i..][0];
  }

  lemma AheadHead(s: string, i: nat, t: string)
    requires Ahead(s, i, t)
    ensures if t == "" then i == |s| else i < |s| && s[i] == t[0] && Ahead(s, i + 1, t[1..])
  {
    if t != "" {
      assert t == [t[0]] + t[1..];
      AheadBy(s, i, [t[0]], t[1..]);
    }
  }

  lemma {:induction false} SkipsSpaces(s: string, i: nat, ws: string, rest: string)
    requires Ahead(s, i, ws + rest) && Spaces(ws) && (rest != "" ==> !Space(rest[0]))
    ensures i + |ws| <= |s| && Ahead(s, i + |ws|, rest) && SkipSpaces(s, i) == i + |ws|
    decreases |ws|
  {
    AheadBy(s, i, ws, rest);
    if ws == "" {
      AheadHead(s, i, rest);
    } else {
      assert (ws + rest)[1..] == ws[1..] + rest;
      AheadHead(s, i, ws + rest);
      SkipsSpaces(s, i + 1, ws[1..], rest);
    }
  }

  lemma {:induction false} EndsName(s: string, i: nat, name: string, rest: string)
    requires Ahead(s, i, name + rest) && IsName(name) && (rest != "" ==> rest[0] == '=' || Space(rest[0]))
    ensures i + |name| <= |s| && Ahead(s, i + |name|, rest) && KeyEnd(s, i) == i + |name|
    ensures s[i..i + |name|] == name
    decreases |name|
  {
    AheadBy(s, i, name, rest);
    if name == "" {
      AheadHead(s, i, rest);
    } else {
      assert (name + rest)[1..] == name[1..] + rest;
      AheadHead(s, i, name + rest);
      EndsName(s, i + 1, name[1..], rest);
    }
    assert s[i..i + |name|] == s[i..][..|name|] == name;
  }

  lemma FirstMark(ms: seq<Mark>, rest: string)
    requires ms != []
    ensures MarksText(ms) + rest
         == (if ms[0].Plain? then [ms[0].c] else ['\\', ms[0].c]) + (MarksText(ms[1..]) + rest)
  {
  }

  /** The mark `m` stands at `i`. */
  ghost predicate MarkRead(s: string, i: nat, m: Mark, next: nat) {
    if m.Plain? then i < |s| && next == i + 1 && s[i] == m.c
    else i + 1 < |s| && next == i + 2 && s[i] == '\\' && s[i + 1] == m.c
  }

  lemma MarkAhead(s: string, i: nat, ms: seq<Mark>, rest: string) returns (next: nat)
    requires Ahead(s, i, MarksText(ms) + rest) && ms != []
    ensures MarkRead(s, i, ms[0], next) && Ahead(s, next, MarksText(ms[1..]) + rest)
    ensures next + |MarksText(ms[1..])| == i + |MarksText(ms)|
  {
    FirstMark(ms, rest);
    var x := if ms[0].Plain? then [ms[0].c] else ['\\', ms[0].c];
    next := i + |x|;
    AheadBy(s, i, x, MarksText(ms[1..]) + rest);
    if ms[0].Escaped? { assert s[i + 1] == s[i..][1]; }
  }

  lemma {:induction false} ReadsQuoted(s: string, i: nat, ms: seq<Mark>, rest: string)
    requires Ahead(s, i, MarksText(ms) + ("'" + rest)) && QuotedMarks(ms)
    ensures var next := i + |MarksText(ms)| + 1;
      Quoted(s, i) == Some(Taken(Chars(ms), next)) && Ahead(s, next, rest)
    decreases |ms|
  {
    if ms == [] {
      assert MarksText(ms) + ("'" + rest) == "'" + rest;
      AheadBy(s, i, "'", rest);
    } else {
      var next := MarkAhead(s, i, ms, "'" + rest);
      ReadsQuoted(s, next, ms[1..], rest);
      QuotedMark(s, i, ms[0], next);
      FirstMark(ms, "");
    }
  }

  lemma QuotedMark(s: string, i: nat, m: Mark, next: nat)
    requires MarkRead(s, i, m, next) && (m.Plain? ==> m.c != '\\' && m.c != '\'')
    ensures Quoted(s, i) == PrependAll([m.c], Quoted(s, next))
  {
  }

  lemma {:induction false} NotClosed(s: string, i: nat, ms: seq<Mark>, end: string)
    requires Ahead(s, i, MarksText(ms) + end) && QuotedMarks(ms) && LastEnd(end)
    ensures Quoted(s, i) == None
    decreases |ms|
  {
    if ms == [] {
      assert MarksText(ms) + end == end;
      AheadHead(s, i, end);
    } else {
      var next := MarkAhead(s, i, ms, end);
      NotClosed(s, next, ms[1..], end);
      QuotedMark(s, i, ms[0], next);
    }
  }

  lemma {:induction false} ReadsBare(s: string, i: nat, ms: seq<Mark>, end: string, rest: string)
    requires Ahead(s, i, MarksText(ms) + (end + rest)) && BareMarks(ms)
    requires (LastEnd(end) && rest == "") || (|end| == 1 && Space(end[0]))
    ensures var next := i + |MarksText(ms)| + |end|;
      Unquoted(s, i) == Taken(Chars(ms), next) && Ahead(s, next, rest)
    decreases |ms|
  {
    if ms == [] {
      assert MarksText(ms) + (end + rest) == end + rest;
      BareEnds(s, i, end, rest);
    } else {
      var next := MarkAhead(s, i, ms, end + rest);
      ReadsBare(s, next, ms[1..], end, rest);
      BareMark(s, i, ms[0], next);
      FirstMark(ms, "");
    }
  }

  lemma BareEnds(s: string, i: nat, end: string, rest: string)
    requires Ahead(s, i, end + rest)
    requires (LastEnd(end) && rest == "") || (|end| == 1 && Space(end[0]))
    ensures Unquoted(s, i) == Taken("", i + |end|) && Ahead(s, i + |end|, rest)
  {
    AheadBy(s, i, end, rest);
    if end == "" {
      AheadHead(s, i, end + rest);
    } else if end == "\\" {
      AheadHead(s, i + 1, rest);
    }
  }

  lemma BareMark(s: string, i: nat, m: Mark, next: nat)
    requires MarkRead(s, i, m, next) && (m.Plain? ==> m.c != '\\' && !Space(m.c))
    ensures Unquoted(s, i) == Prepend([m.c], Unquoted(s, next))
  {
  }

  /** From `i` on come white space, a name from `start` to `end`, and white space up to `eq`. */
  ghost predicate HeadRead(s: string, i: nat, start: nat, end: nat, eq: nat) {
    i <= start < |s| && SkipSpaces(s, i) == start && KeyEnd(s, start) == end && SkipSpaces(s, end) == eq
  }

  lemma ReadsHead(s: string, i: nat, lead: string, name: string, mid: string, rest: string)
    returns (start: nat, end: nat, eq: nat)
    requires Ahead(s, i, lead + (name + (mid + rest))) && IsHead(lead, name, mid)
    requires if rest == "" then name != "" else rest[0] == '=' || (name != "" && mid != "" && !Space(rest[0]))
    ensures HeadRead(s, i, start, end, eq) && s[start..end] == name && Ahead(s, eq, rest)
  {
    start := i + |lead|;
    end := start + |name|;
    eq := end + |mid|;
    FirstOfHead(name, mid, rest);
    SkipsSpaces(s, i, lead, name + (mid + rest));
    AheadHead(s, start, name + (mid + rest));
    EndsName(s, start, name, mid + rest);
    SkipsSpaces(s, end, mid, rest);
  }

  lemma FirstOfHead(name: string, mid: string, rest: string)
    requires IsName(name) && Spaces(mid) && (name == "" ==> mid == "")
    requires if rest == "" then name != "" else rest[0] == '=' || (name != "" && mid != "" && !Space(rest[0]))
    ensures var t := name + (mid + rest); t != "" && !Space(t[0])
    ensures var t := mid + rest; t != "" ==> t[0] == '=' || Space(t[0])
    ensures rest != "" ==> !Space(rest[0])
  {
  }

  /** A value does not start with white space, so the gap before it ends where it starts. */
  lemma ValueAfterGap(w: Written, rest: string)
    requires IsWritten(w) && (AtEnd(w) ==> rest == "")
    ensures var t := WrittenText(w) + rest; t != "" ==> !Space(t[0])
    ensures var t := WrittenText(w) + rest; t != "" && t[0] == '\'' <==> w.InQuotes?
  {
    if w.Bare? && w.marks != [] {
      FirstMark(w.marks, w.end);
      assert w.marks[0].Plain? ==> w.marks[0].c != '\'' by {
        assert w.marks[0].Plain? ==> w.marks[0] == Plain(w.marks[0].c);
      }
    }
  }

  lemma ReadsValue(s: string, i: nat, w: Written, rest: string) returns (next: nat)
    requires Ahead(s, i, WrittenText(w) + rest) && IsWritten(w) && (AtEnd(w) ==> rest == "")
    ensures Value(s, i) == Some(Taken(Chars(w.marks), next)) && i <= next <= |s| && Ahead(s, next, rest)
  {
    next := i + |WrittenText(w)|;
    ValueAfterGap(w, rest);
    AheadHead(s, i, WrittenText(w) + rest);
    match w
    case InQuotes(ms) =>
      assert (WrittenText(w) + rest)[1..] == MarksText(ms) + ("'" + rest);
      ReadsQuoted(s, i + 1, ms, rest);
    case Bare(ms, end) =>
      assert WrittenText(w) + rest == MarksText(ms) + (end + rest);
      ReadsBare(s, i, ms, end, rest);
  }

  /** `=`, white space, and what follows. */
  lemma ReadsGap(s: string, eq: nat, gap: string, rest: string) returns (v: nat)
    requires Ahead(s, eq, "=" + (gap + rest)) && Spaces(gap) && (rest != "" ==> !Space(rest[0]))
    ensures eq < |s| && s[eq] == '=' && SkipSpaces(s, eq + 1) == v > eq && Ahead(s, v, rest)
  {
    v := eq + 1 + |gap|;
    AheadBy(s, eq, "=", gap + rest);
    SkipsSpaces(s, eq + 1, gap, rest);
  }

  lemma ItemRead(s: string, i: nat, start: nat, end: nat, eq: nat, v: nat)
    requires HeadRead(s, i, start, end, eq) && eq < |s| && s[eq] == '=' && SkipSpaces(s, eq + 1) == v
    ensures match Value(s, v)
      case None => ParseFrom(s, i) == Parsed([], false)
      case Some(t) =>
        ParseFrom(s, i)
          == Parsed([(s[start..end], t.text)] + ParseFrom(s, t.next).pairs, ParseFrom(s, t.next).complete)
  {
    ItemIs(s, start, end, eq, v);
    FromItem(s, i, start);
  }

  lemma ItemIs(s: string, start: nat, end: nat, eq: nat, v: nat)
    requires start <= |s| && KeyEnd(s, start) == end && SkipSpaces(s, end) == eq
    requires eq < |s| && s[eq] == '=' && SkipSpaces(s, eq + 1) == v
    ensures ParseItem(s, start) == ItemWith(s[start..end], Value(s, v))
  {
  }

  lemma FromItem(s: string, i: nat, start: nat)
    requires i <= start < |s| && SkipSpaces(s, i) == start
    ensures match ParseItem(s, start)
      case Malformed => ParseFrom(s, i) == Parsed([], false)
      case Item(name, value, next) =>
        ParseFrom(s, i) == Parsed([(name, value)] + ParseFrom(s, next).pairs, ParseFrom(s, next).complete)
  {
  }

  lemma NoItemRead(s: string, i: nat, start: nat, end: nat, eq: nat)
    requires HeadRead(s, i, start, end, eq) && (eq < |s| ==> s[eq] != '=')
    ensures ParseFrom(s, i) == Parsed([], false)
  {
  }

  lemma ReadsEntry(s: string, i: nat, e: Entry, rest: string) returns (next: nat)
    requires Ahead(s, i, EntryText(e, rest)) && IsEntry(e) && (AtEnd(e.value) ==> rest == "")
    ensures i < next <= |s| && Ahead(s, next, rest)
    ensures ParseFrom(s, i)
         == Parsed([(e.name, Chars(e.value.marks))] + ParseFrom(s, next).pairs, ParseFrom(s, next).complete)
  {
    var t := WrittenText(e.value) + rest;
    var start, end, eq := ReadsHead(s, i, e.lead, e.name, e.mid, "=" + (e.gap + t));
    ValueAfterGap(e.value, rest);
    var v := ReadsGap(s, eq, e.gap, t);
    next := ReadsValue(s, v, e.value, rest);
    ItemRead(s, i, start, end, eq, v);
  }

  lemma ReadsTail(s: string, i: nat, tail: Tail)
    requires Ahead(s, i, TailText(tail)) && IsTail(tail)
    ensures ParseFrom(s, i) == Parsed([], tail.Blank?)
  {
    match tail
    case Blank(lead) =>
      ReadsBlank(s, i, lead);
    case NoEquals(lead, name, mid, rest) =>
      ReadsNoEquals(s, i, lead, name, mid, rest);
    case OpenQuote(lead, name, mid, gap, ms, end) =>
      var t := "'" + (MarksText(ms) + end);
      var start, stop, eq := ReadsHead(s, i, lead, name, mid, "=" + (gap + t));
      var v := ReadsGap(s, eq, gap, t);
      ReadsOpenQuote(s, v, ms, end);
      ItemRead(s, i, start, stop, eq, v);
  }

  lemma ReadsBlank(s: string, i: nat, lead: string)
    requires Ahead(s, i, lead) && Spaces(lead)
    ensures ParseFrom(s, i) == Parsed([], true)
  {
    assert lead + "" == lead;
    SkipsSpaces(s, i, lead, "");
    AheadHead(s, i + |lead|, "");
  }

  lemma ReadsNoEquals(s: string, i: nat, lead: string, name: string, mid: string, rest: string)
    requires Ahead(s, i, lead + (name + (mid + rest))) && IsHead(lead, name, mid) && name != ""
    requires rest == "" || (mid != "" && rest[0] != '=' && !Space(rest[0]))
    ensures ParseFrom(s, i) == Parsed([], false)
  {
    var start, end, eq := ReadsHead(s, i, lead, name, mid, rest);
    AheadHead(s, eq, rest);
    NoItemRead(s, i, start, end, eq);
  }

  lemma ReadsOpenQuote(s: string, v: nat, ms: seq<Mark>, end: string)
    requires Ahead(s, v, "'" + (MarksText(ms) + end)) && QuotedMarks(ms) && LastEnd(end)
    ensures Value(s, v) == None
  {
    AheadBy(s, v, "'", MarksText(ms) + end);
    NotClosed(s, v + 1, ms, end);
  }

  lemma {:induction false} ReadsLayout(s: string, i: nat, es: seq<Entry>, tail: Tail)
    requires IsLayout(es, tail) && Ahead(s, i, Text(es, tail))
    ensures ParseFrom(s, i) == Parsed(Pairs(es), tail.Blank?)
    decreases |es|
  {
    if es == [] {
      ReadsTail(s, i, tail);
    } else {
      var next := ReadsEntry(s, i, es[0], Text(es[1..], tail));
      ReadsLayout(s, next, es[1..], tail);
    }
  }

  // ----- every text is laid out

  lemma {:induction false} SpacesSkipped(s: string, i: nat)
    requires i <= |s|
    ensures Spaces(s[i..SkipSpaces(s, i)])
    decreases |s| - i
  {
    if i < |s| && Space(s[i]) {
      SpacesSkipped(s, i + 1);
      assert s[i..SkipSpaces(s, i)] == [s[i]] + s[i + 1..SkipSpaces(s, i)];
    }
  }

  lemma {:induction false} NameRead(s: string, i: nat)
    requires i <= |s|
    ensures IsName(s[i..KeyEnd(s, i)])
    ensures var end := KeyEnd(s, i); end < |s| ==> s[end] == '=' || Space(s[end])
    decreases |s| - i
  {
    if i < |s| && s[i] != '=' && !Space(s[i]) {
      NameRead(s, i + 1);
      assert s[i..KeyEnd(s, i)] == [s[i]] + s[i + 1..KeyEnd(s, i)];
    }
  }

  lemma AheadCut(s: string, i: nat, j: nat, t: string)
    requires i <= j && Ahead(s, j, t)
    ensures Ahead(s, i, s[i..j] + t)
  {
    assert s[i..] == s[i..j] + s[j..];
  }

  lemma MarkInFront(s: string, i: nat, m: Mark, ms: seq<Mark>, rest: string)
    requires i < |s|
    requires if m.Plain? then s[i] == m.c && Ahead(s, i + 1, MarksText(ms) + rest)
             else i + 1 < |s| && s[i] == '\\' && s[i + 1] == m.c && Ahead(s, i + 2, MarksText(ms) + rest)
    ensures Ahead(s, i, MarksText([m] + ms) + rest) && Chars([m] + ms) == [m.c] + Chars(ms)
  {
    assert ([m] + ms)[1..] == ms;
    FirstMark([m] + ms, rest);
    var n := if m.Plain? then 1 else 2;
    AheadCut(s, i, i + n, MarksText(ms) + rest);
    assert s[i..i + n] == if m.Plain? then [m.c] else ['\\', m.c];
  }

  /** The marks of a quoted value, and what follows them: the closing quote, or the end of the text. */
  lemma {:induction false} QuotedLaid(s: string, i: nat) returns (ms: seq<Mark>, end: string)
    requires i <= |s|
    ensures QuotedMarks(ms)
    ensures match Quoted(s, i)
      case Some(t) => Ahead(s, i, MarksText(ms) + ("'" + s[t.next..]))
      case None => LastEnd(end) && Ahead(s, i, MarksText(ms) + end)
    decreases |s| - i
  {
    ms, end := [], "";
    if i == |s| || s[i] == '\'' || (s[i] == '\\' && i + 1 == |s|) {
      end := s[i..];
      assert i < |s| ==> s[i..] == [s[i]] + s[i + 1..];
    } else {
      var m := if s[i] == '\\' then Escaped(s[i + 1]) else Plain(s[i]);
      var n := if m.Plain? then 1 else 2;
      ms, end := QuotedLaid(s, i + n);
      MarkInFront(s, i, m, ms, match Quoted(s, i + n) case Some(t) => "'" + s[t.next..] case None => end);
      ms := [m] + ms;
    }
  }

  lemma {:induction false} BareLaid(s: string, i: nat) returns (ms: seq<Mark>, end: string)
    requires i <= |s|
    ensures BareMarks(ms) && Ahead(s, i, MarksText(ms) + (end + s[Unquoted(s, i).next..]))
    ensures ms != [] && ms[0].Plain? ==> i < |s| && s[i] == ms[0].c
    ensures ms == [] ==> i == |s| || Space(s[i]) || s[i] == '\\'
    ensures if Unquoted(s, i).next == |s| && LastEnd(end) then true else |end| == 1 && Space(end[0])
    decreases |s| - i
  {
    ms, end := [], "";
    if i == |s| || Space(s[i]) || (s[i] == '\\' && i + 1 == |s|) {
      end := if i < |s| then [s[i]] else "";
      assert s[i..] == end + s[Unquoted(s, i).next..];
    } else {
      var m := if s[i] == '\\' then Escaped(s[i + 1]) else Plain(s[i]);
      var n := if m.Plain? then 1 else 2;
      ms, end := BareLaid(s, i + n);
      MarkInFront(s, i, m, ms, end + s[Unquoted(s, i + n).next..]);
      ms := [m] + ms;
    }
  }

  /** What stands in front of a value, or in front of where `=` is missing. */
  lemma HeadLaid(s: string, i: nat, start: nat, end: nat, eq: nat, rest: string)
    requires HeadRead(s, i, start, end, eq) && Ahead(s, eq, rest)
    ensures i <= start <= end <= eq <= |s|
    ensures IsHead(s[i..start], s[start..end], s[end..eq])
    ensures Ahead(s, i, s[i..start] + (s[start..end] + (s[end..eq] + rest)))
  {
    SpacesSkipped(s, i);
    NameRead(s, start);
    SpacesSkipped(s, end);
    AheadCut(s, end, eq, rest);
    AheadCut(s, start, end, s[end..eq] + rest);
    AheadCut(s, i, start, s[start..end] + (s[end..eq] + rest));
  }

  lemma GapLaid(s: string, eq: nat, v: nat, rest: string)
    requires eq < v <= |s| && s[eq] == '=' && Ahead(s, v, rest)
    ensures Ahead(s, eq, "=" + (s[eq + 1..v] + rest))
  {
    AheadCut(s, eq + 1, v, rest);
    AheadCut(s, eq, eq + 1, s[eq + 1..v] + rest);
    assert s[eq..eq + 1] == "=";
  }

  lemma ValueLaid(s: string, v: nat, next: nat) returns (w: Written)
    requires v <= |s| && (v < |s| ==> !Space(s[v])) && Value(s, v).Some? && Value(s, v).value.next == next
    ensures IsWritten(w) && next <= |s| && Ahead(s, v, WrittenText(w) + s[next..]) && (AtEnd(w) ==> s[next..] == "")
  {
    if v < |s| && s[v] == '\'' {
      var ms, end := QuotedLaid(s, v + 1);
      w := InQuotes(ms);
      AheadCut(s, v, v + 1, MarksText(ms) + ("'" + s[next..]));
      assert WrittenText(w) + s[next..] == s[v..v + 1] + (MarksText(ms) + ("'" + s[next..]));
    } else {
      var ms, end := BareLaid(s, v);
      w := Bare(ms, end);
      assert WrittenText(w) + s[next..] == MarksText(ms) + (end + s[next..]);
    }
  }

  lemma NotClosedLaid(s: string, v: nat) returns (ms: seq<Mark>, end: string)
    requires v <= |s| && Value(s, v) == None
    ensures QuotedMarks(ms) && LastEnd(end) && Ahead(s, v, "'" + (MarksText(ms) + end))
  {
    ms, end := QuotedLaid(s, v + 1);
    AheadCut(s, v, v + 1, MarksText(ms) + end);
  }

  /** An entry stands ahead, or what is left. */
  lemma FirstLaid(s: string, i: nat) returns (e: Option<Entry>, next: nat, tail: Tail)
    requires i <= |s|
    ensures match e
      case None => IsTail(tail) && Ahead(s, i, TailText(tail))
      case Some(e) =>
        i < next <= |s| && IsEntry(e) && (AtEnd(e.value) ==> s[next..] == "") && Ahead(s, i, EntryText(e, s[next..]))
  {
    e, next, tail := None, i, Blank(s[i..]);
    var start := SkipSpaces(s, i);
    if start == |s| {
      SpacesSkipped(s, i);
      assert s[i..start] == s[i..];
    } else {
      var end := KeyEnd(s, start);
      var eq := SkipSpaces(s, end);
      NameRead(s, start);
      if eq == |s| || s[eq] != '=' {
        HeadLaid(s, i, start, end, eq, s[eq..]);
        tail := NoEquals(s[i..start], s[start..end], s[end..eq], s[eq..]);
      } else {
        e, next, tail := WithValueLaid(s, i, start, end, eq);
      }
    }
  }

  lemma WithValueLaid(s: string, i: nat, start: nat, end: nat, eq: nat)
    returns (e: Option<Entry>, next: nat, tail: Tail)
    requires HeadRead(s, i, start, end, eq) && eq < |s| && s[eq] == '='
    ensures match e
      case None => IsTail(tail) && Ahead(s, i, TailText(tail))
      case Some(e) =>
        i < next <= |s| && IsEntry(e) && (AtEnd(e.value) ==> s[next..] == "") && Ahead(s, i, EntryText(e, s[next..]))
  {
    e, next, tail := None, i, Blank("");
    var v := SkipSpaces(s, eq + 1);
    SpacesSkipped(s, eq + 1);
    match Value(s, v)
    case None =>
      var ms, last := NotClosedLaid(s, v);
      var t := "'" + (MarksText(ms) + last);
      GapLaid(s, eq, v, t);
      HeadLaid(s, i, start, end, eq, "=" + (s[eq + 1..v] + t));
      tail := OpenQuote(s[i..start], s[start..end], s[end..eq], s[eq + 1..v], ms, last);
    case Some(taken) =>
      next := taken.next;
      var w := ValueLaid(s, v, next);
      GapLaid(s, eq, v, WrittenText(w) + s[next..]);
      HeadLaid(s, i, start, end, eq, "=" + (s[eq + 1..v] + (WrittenText(w) + s[next..])));
      e := Some(Entry(s[i..start], s[start..end], s[end..eq], s[eq + 1..v], w));
  }

  lemma {:induction false} Laid(s: string, i: nat) returns (es: seq<Entry>, tail: Tail)
    requires i <= |s|
    ensures IsLayout(es, tail) && Text(es, tail) == s[i..]
    decreases |s| - i
  {
    var e, next;
    es := [];
    e, next, tail := FirstLaid(s, i);
    if e.Some? {
      var rest;
      rest, tail := Laid(s, next);
      es := [e.value] + rest;
      assert es[1..] == rest;
    }
  }

  // ----- what the parser delivers

  /** Whichever way a text is laid out, the pairs are those of the entries, and the reading is complete when nothing but
      white space is left. */
  lemma ParsesLayout(es: seq<Entry>, tail: Tail)
    requires IsLayout(es, tail)
    ensures Parse(Text(es, tail)) == Parsed(Pairs(es), tail.Blank?)
  {
    var s := Text(es, tail);
    assert s[0..] == s;
    ReadsLayout(s, 0, es, tail);
  }

  /** Every text is laid out. */
  lemma EveryTextIsLaid(s: string) returns (es: seq<Entry>, tail: Tail)
    ensures IsLayout(es, tail) && Text(es, tail) == s && Parse(s) == Parsed(Pairs(es), tail.Blank?)
  {
    es, tail := Laid(s, 0);
    assert s[0..] == s;
    ParsesLayout(es, tail);
  }

  lemma {:induction false} LayoutNames(es: seq<Entry>, tail: Tail, k: nat)
    requires IsLayout(es, tail) && k < |Pairs(es)|
    ensures IsName(Pairs(es)[k].0)
  {
    if k > 0 {
      LayoutNames(es[1..], tail, k - 1);
    }
  }

  /** The in-place parser delivers the pairs of the entries, and no name contains white space or `=`. */
  method DeliversEntries(connstring: CString) returns (stored: seq<(string, string)>)
    ensures forall k :: 0 <= k < |stored| ==> IsName(stored[k].0)
    ensures exists es, tail :: IsLayout(es, tail) && Text(es, tail) == connstring && stored == Pairs(es)
  {
    stored := PgConninfoParse(Some(connstring), true);
    ghost var es, tail := EveryTextIsLaid(connstring);
    forall k | 0 <= k < |stored| ensures IsName(stored[k].0) {
      LayoutNames(es, tail, k);
    }
  }
}
