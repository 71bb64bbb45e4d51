/** The installer's edit of php.ini: any old OPENRASP block is stripped line by line and a fresh one is appended; the
    uninstaller only strips. */
module IniBlock {

  // ----- text as `file` yields it: lines that keep their newline

  predicate IsLine(l: string) {
    l != "" && forall i :: 0 <= i < |l| - 1 ==> l[i] != '\n'
  }

  predicate Ended(text: string) {
    text != "" && text[|text| - 1] == '\n'
  }

  /** A list of lines of which only the last may lack its newline. */
  predicate IsSplit(lines: seq<string>) {
    forall i :: 0 <= i < |lines| ==> IsLine(lines[i]) && (i < |lines| - 1 ==> Ended(lines[i]))
  }

  function LineLength(text: string): (n: nat)
    requires text != ""
    ensures 1 <= n <= |text|
    ensures forall i :: 0 <= i < n - 1 ==> text[i] != '\n'
    ensures n == |text| || text[n - 1] == '\n'
  {
    if text[0] == '\n' || |text| == 1 then 1 else 1 + LineLength(text[1..])
  }

  function Lines(text: string): (lines: seq<string>)
    decreases |text|
  {
    if text == "" then []
    else
      var n := LineLength(text);
      [text[..n]] + Lines(text[n..])
  }

  lemma SplitCons(l: string, lines: seq<string>)
    requires IsLine(l) && (lines != [] ==> Ended(l)) && IsSplit(lines)
    ensures IsSplit([l] + lines)
  {
    assert forall i :: 0 < i < |[l] + lines| ==> ([l] + lines)[i] == lines[i - 1];
  }

  lemma CutLine(text: string) returns (line: string, rest: string)
    requires text != ""
    ensures text == line + rest && |rest| < |text| && Lines(text) == [line] + Lines(rest)
    ensures IsLine(line) && (rest != "" ==> Ended(line))
  {
    var n := LineLength(text);
    line, rest := text[..n], text[n..];
  }

  lemma {:induction false} LinesSplit(text: string)
    ensures IsSplit(Lines(text)) && Concat(Lines(text)) == text
    decreases |text|
  {
    if text != "" {
      var line, rest := CutLine(text);
      LinesSplit(rest);
      SplitCons(line, Lines(rest));
      ConcatCons(line, Lines(rest));
    }
  }

  lemma ConcatCons(l: string, lines: seq<string>)
    ensures Concat([l] + lines) == l + Concat(lines)
  {
    assert ([l] + lines)[1..] == lines;
  }

  function Concat(lines: seq<string>): string {
    if lines == [] then "" else lines[0] + Concat(lines[1..])
  }

  lemma {:induction false} ConcatAppends(a: seq<string>, b: seq<string>)
    ensures Concat(a + b) == Concat(a) + Concat(b)
  {
    if a == [] {
      assert a + b == b;
    } else {
      assert (a + b)[1..] == a[1..] + b;
      ConcatAppends(a[1..], b);
    }
  }

  /** A text splits into lines in one way. */
  lemma {:induction false} SplitsOneWay(lines: seq<string>)
    requires IsSplit(lines)
    ensures Lines(Concat(lines)) == lines
  {
    if lines != [] {
      var rest := Concat(lines[1..]);
      SplitsOneWay(lines[1..]);
      FirstLine(lines[0], rest);
      assert lines == [lines[0]] + lines[1..];
    }
  }

  lemma FirstLine(l: string, rest: string)
    requires IsLine(l) && (rest != "" ==> Ended(l))
    ensures Lines(l + rest) == [l] + Lines(rest)
  {
    var text := l + rest;
    var n := LineLength(text);
    assert forall i :: 0 <= i < |l| ==> text[i] == l[i];
    assert n == |l|;
    assert text[..n] == l && text[n..] == rest;
  }

  // ----- markers

  /** What PHP's `trim` removes. */
  predicate IsBlank(c: char) {
    c == ' ' || c == '\t' || c == '\n' || c == '\r' || c == '\0' || c == '\U{B}'
  }

  function TrimLeft(s: string): string {
    if s != "" && IsBlank(s[0]) then TrimLeft(s[1..]) else s
  }

  function TrimRight(s: string): string {
    if s != "" && IsBlank(s[|s| - 1]) then TrimRight(s[..|s| - 1]) else s
  }

  function Trim(s: string): string {
    TrimRight(TrimLeft(s))
  }

  const BEGIN := ";OPENRASP BEGIN"
  const END := ";OPENRASP END"

  predicate IsBegin(l: string) {
    Trim(l) == BEGIN
  }

  predicate IsEnd(l: string) {
    Trim(l) == END
  }

  predicate AllBlank(s: string) {
    forall i :: 0 <= i < |s| ==> IsBlank(s[i])
  }

  lemma {:induction false} TrimLeftMeans(s: string) returns (before: string)
    ensures s == before + TrimLeft(s) && AllBlank(before)
    ensures TrimLeft(s) != "" ==> !IsBlank(TrimLeft(s)[0])
  {
    before := "";
    if s != "" && IsBlank(s[0]) {
      before := TrimLeftMeans(s[1..]);
      before := [s[0]] + before;
    }
  }

  lemma {:induction false} TrimRightMeans(s: string) returns (after: string)
    ensures s == TrimRight(s) + after && AllBlank(after)
    ensures var r := TrimRight(s); r != "" ==> !IsBlank(r[|r| - 1])
    ensures var r := TrimRight(s); r != "" ==> r[0] == s[0]
  {
    after := "";
    if s != "" && IsBlank(s[|s| - 1]) {
      after := TrimRightMeans(s[..|s| - 1]);
      after := after + [s[|s| - 1]];
    }
  }

  /** Trimming takes what is blank at both ends, and no more. */
  lemma TrimMeans(s: string) returns (before: string, after: string)
    ensures s == before + Trim(s) + after && AllBlank(before) && AllBlank(after)
    ensures var r := Trim(s); r != "" ==> !IsBlank(r[0]) && !IsBlank(r[|r| - 1])
  {
    before := TrimLeftMeans(s);
    after := TrimRightMeans(TrimLeft(s));
    assert before + (Trim(s) + after) == before + Trim(s) + after;
  }

  /** A line is in a block when it opens one or the line before is in one that it does not close. */
  predicate InBlock(lines: seq<string>, i: nat)
    requires i < |lines|
  {
    IsBegin(lines[i]) || (i > 0 && !IsEnd(lines[i]) && InBlock(lines, i - 1))
  }

  /** The lines `b` to `i` start with a BEGIN marker and have no END marker. */
  ghost predicate OpenFrom(lines: seq<string>, b: nat, i: nat)
    requires i < |lines|
  {
    b <= i && IsBegin(lines[b]) && forall e :: b < e <= i ==> !IsEnd(lines[e])
  }

  lemma OpenFromNext(lines: seq<string>, b: nat, i: nat)
    requires 0 < i < |lines| && !IsBegin(lines[i])
    ensures OpenFrom(lines, b, i) <==> OpenFrom(lines, b, i - 1) && !IsEnd(lines[i])
  {
  }

  lemma {:induction false} InBlockMeans(lines: seq<string>, i: nat)
    requires i < |lines|
    ensures InBlock(lines, i) <==> exists b: nat :: OpenFrom(lines, b, i)
  {
    if IsBegin(lines[i]) {
      assert OpenFrom(lines, i, i);
    } else if i > 0 {
      InBlockMeans(lines, i - 1);
      forall b: nat ensures OpenFrom(lines, b, i) <==> OpenFrom(lines, b, i - 1) && !IsEnd(lines[i]) {
        OpenFromNext(lines, b, i);
      }
      if InBlock(lines, i) {
        var b: nat :| OpenFrom(lines, b, i - 1);
        assert OpenFrom(lines, b, i);
      }
    }
  }

  predicate Unmarked(lines: seq<string>, n: nat)
    requires n <= |lines|
  {
    n == 0 || (!IsBegin(lines[n - 1]) && !IsEnd(lines[n - 1]) && Unmarked(lines, n - 1))
  }

  /** The last BEGIN marker has no END marker after it. */
  predicate Unclosed(lines: seq<string>) {
    lines != [] && InBlock(lines, |lines| - 1)
  }

  /** The lines among the first `n` outside every block, without stray END markers, in order. */
  function Survivors(lines: seq<string>, n: nat): seq<string>
    requires n <= |lines|
  {
    if n == 0 then []
    else Survivors(lines, n - 1) + if InBlock(lines, n - 1) || IsEnd(lines[n - 1]) then [] else [lines[n - 1]]
  }

  /** A line that no BEGIN marker before it leaves open, and no END marker. */
  ghost predicate Outside(lines: seq<string>, i: nat)
    requires i < |lines|
  {
    !IsEnd(lines[i]) && !exists b: nat :: OpenFrom(lines, b, i)
  }

  /** What survives: the lines outside every block, wherever they stand, each once and in order. */
  lemma {:induction false} SurvivorsAre(lines: seq<string>, n: nat) returns (at: seq<nat>)
    requires n <= |lines|
    ensures forall k, l :: 0 <= k < l < |at| ==> at[k] < at[l]
    ensures forall i: nat :: i in at <==> i < n && Outside(lines, i)
    ensures |Survivors(lines, n)| == |at|
    ensures forall k :: 0 <= k < |at| ==> at[k] < n && Survivors(lines, n)[k] == lines[at[k]]
  {
    at := [];
    if n > 0 {
      at := SurvivorsAre(lines, n - 1);
      InBlockMeans(lines, n - 1);
      if Outside(lines, n - 1) {
        at := at + [n - 1];
      }
    }
  }

  lemma MarkersDiffer(l: string)
    ensures !(IsBegin(l) && IsEnd(l))
  {
    assert |BEGIN| != |END|;
  }

  datatype State = UNFOUND | FOUND | FINSH

  /** The loop both scripts have. */
  method StripLoop(lines: seq<string>) returns (kept: seq<string>, found: State)
    ensures kept == Survivors(lines, |lines|)
    ensures found == FOUND <==> Unclosed(lines)
    ensures found == UNFOUND <==> Unmarked(lines, |lines|)
  {
    kept, found := [], UNFOUND;
    for i := 0 to |lines|
      invariant kept == Survivors(lines, i)
      invariant found == FOUND <==> i > 0 && InBlock(lines, i - 1)
      invariant found == UNFOUND <==> Unmarked(lines, i)
    {
      MarkersDiffer(lines[i]);
      var line := lines[i];
      if Trim(line) == BEGIN {
        found := FOUND;
      }
      if Trim(line) == END {
        found := FINSH;
      }
      if found != FOUND && Trim(line) != END {
        kept := kept + [line];
      }
    }
  }

  method WriteLines(lines: seq<string>) returns (text: string)
    ensures text == Concat(lines)
  {
    text := "";
    for i := 0 to |lines|
      invariant text == Concat(lines[..i])
    {
      assert lines[..i + 1] == lines[..i] + [lines[i]];
      ConcatAppends(lines[..i], [lines[i]]);
      text := text + lines[i];
    }
    assert lines[..|lines|] == lines;
  }

  // ----- the two scripts

  /** `Rejected`: the script stops with an error and leaves the file as it is. */
  datatype Outcome = Rejected | Written(text: string)

  function Stripped(text: string): Outcome {
    var lines := Lines(text);
    if Unclosed(lines) then Rejected else Written(Concat(Survivors(lines, |lines|)))
  }

  method Uninstall(text: string) returns (r: Outcome)
    ensures r == Stripped(text)
  {
    var kept, found := StripLoop(Lines(text));
    if found == FOUND {
      return Rejected;
    }
    var written := WriteLines(kept);
    r := Written(written);
  }

  datatype Settings = Settings(
    extension: string, rootDir: string, backendUrl: string, appId: string, appSecret: string, raspId: string,
    remoteManagementEnable: string, heartbeatInterval: string, iastEnable: string)

  /** The part of a line the script spells out, and the setting behind it. */
  type Entry = (string, string)

  /** A blank line, a comment line and a line with a setting. */
  function Section(blank: string, comment: string, key: string, value: string): seq<Entry> {
    [(blank, ""), (comment, ""), (key, value)]
  }

  /** The lines between the markers, two groups of them. */
  function HeadEntries(s: Settings): seq<Entry> {
    [("\t", ""), ("extension=", s.extension), ("openrasp.root_dir=", s.rootDir)]
    + Section("\t", ";国际化配置", ";openrasp.locale=", "")
    + Section("", ";云端地址", "openrasp.backend_url=", s.backendUrl)
    + Section("", ";agent app_id", "openrasp.app_id=", s.appId)
    + Section("", ";agent secret", "openrasp.app_secret=", s.appSecret)
    + Section("", ";agent rasp_id", "openrasp.rasp_id=", s.raspId)
  }

  function TailEntries(s: Settings): seq<Entry> {
    Section("", ";远程管理开关", "openrasp.remote_management_enable=", s.remoteManagementEnable)
    + Section("", ";心跳时间间隔", "openrasp.heartbeat_interval=", s.heartbeatInterval)
    + Section("", ";SSL证书验证开关", "openrasp.ssl_verifypeer=0", "")
    + Section("", ";IAST开关", "openrasp.iast_enable=", s.iastEnable)
    + [("\t", "")]
  }

  function Body(entries: seq<Entry>): string {
    if entries == [] then "" else entries[0].0 + entries[0].1 + "\n" + Body(entries[1..])
  }

  function Block(body: string): string {
    (BEGIN + "\n") + body + (END + "\n")
  }

  function IniContent(s: Settings): string {
    Block(Body(HeadEntries(s) + TailEntries(s)))
  }

  /** Every entry is a line of the block. */
  lemma {:induction false} EntryWritten(entries: seq<Entry>, e: Entry) returns (before: string, after: string)
    requires e in entries
    ensures Body(entries) == before + (e.0 + e.1 + "\n") + after
  {
    if entries[0] == e {
      before, after := "", Body(entries[1..]);
      assert Body(entries) == "" + (e.0 + e.1 + "\n") + after;
    } else {
      before, after := EntryWritten(entries[1..], e);
      var first := entries[0].0 + entries[0].1 + "\n";
      assert first + (before + (e.0 + e.1 + "\n") + after) == (first + before) + (e.0 + e.1 + "\n") + after;
      before := first + before;
    }
  }

  /** Which setting stands behind which key. */
  lemma SettingBehindKey(s: Settings)
    ensures var es := HeadEntries(s) + TailEntries(s);
      && ("extension=", s.extension) in es
      && ("openrasp.root_dir=", s.rootDir) in es
      && ("openrasp.backend_url=", s.backendUrl) in es
      && ("openrasp.app_id=", s.appId) in es
      && ("openrasp.app_secret=", s.appSecret) in es
      && ("openrasp.rasp_id=", s.raspId) in es
      && ("openrasp.remote_management_enable=", s.remoteManagementEnable) in es
      && ("openrasp.heartbeat_interval=", s.heartbeatInterval) in es
      && ("openrasp.iast_enable=", s.iastEnable) in es
      && ("openrasp.ssl_verifypeer=0", "") in es
  {
    var es, n := HeadEntries(s) + TailEntries(s), |HeadEntries(s)|;
    assert es[1] == ("extension=", s.extension) && es[2] == ("openrasp.root_dir=", s.rootDir);
    assert es[8] == ("openrasp.backend_url=", s.backendUrl) && es[11] == ("openrasp.app_id=", s.appId);
    assert es[14] == ("openrasp.app_secret=", s.appSecret) && es[17] == ("openrasp.rasp_id=", s.raspId);
    assert es[20] == ("openrasp.remote_management_enable=", s.remoteManagementEnable);
    assert es[23] == ("openrasp.heartbeat_interval=", s.heartbeatInterval);
    assert es[26] == ("openrasp.ssl_verifypeer=0", "") && es[29] == ("openrasp.iast_enable=", s.iastEnable);
  }

  function Installed(text: string, s: Settings): Outcome {
    var stripped := Stripped(text);
    if stripped == Rejected then Rejected else Written(stripped.text + IniContent(s))
  }

  method Install(text: string, s: Settings) returns (r: Outcome)
    ensures r == Installed(text, s)
  {
    var kept, found := StripLoop(Lines(text));
    if found == FOUND {
      return Rejected;
    }
    var written := WriteLines(kept + [IniContent(s)]);
    ConcatAppends(kept, [IniContent(s)]);
    r := Written(written);
  }

  // ----- trimming

  lemma {:induction false} TrimLeftKeeps(s: string, k: nat)
    requires k < |s| && !IsBlank(s[k])
    ensures var r := TrimLeft(s); |s| - k <= |r| <= |s| && r == s[|s| - |r|..]
  {
    if IsBlank(s[0]) {
      TrimLeftKeeps(s[1..], k - 1);
    }
  }

  lemma {:induction false} TrimRightKeeps(s: string)
    ensures TrimRight(s) <= s
  {
    if s != "" && IsBlank(s[|s| - 1]) {
      TrimRightKeeps(s[..|s| - 1]);
    }
  }

  /** A line that ends in a visible character and a newline loses the newline at its end. */
  lemma TrimVisible(l: string)
    requires l != "" && !IsBlank(l[|l| - 1])
    ensures var r := Trim(l + "\n"); r != "" && r[|r| - 1] == l[|l| - 1]
    ensures !IsBlank(l[0]) ==> Trim(l + "\n") == l
  {
    var t := l + "\n";
    TrimLeftKeeps(t, |l| - 1);
    var r := TrimLeft(t);
    assert r[|r| - 1] == '\n' && r[|r| - 2] == l[|l| - 1];
    var m := r[..|r| - 1];
    assert TrimRight(m) == m;
    assert !IsBlank(l[0]) ==> m == l;
  }

  lemma MarkerLines()
    ensures IsBegin(BEGIN + "\n") && IsEnd(END + "\n")
    ensures IsLine(END + "\n") && Ended(END + "\n") && IsLine(BEGIN + "\n") && Ended(BEGIN + "\n")
  {
    TrimVisible(BEGIN);
    TrimVisible(END);
  }

  /** Text before BEGIN on its line may hide the marker; it never makes it an END marker. */
  lemma NoEndInFront(l: string)
    ensures !IsEnd(l + BEGIN + "\n")
  {
    TrimVisible(l + BEGIN);
    assert (l + BEGIN)[|l + BEGIN| - 1] == 'N';
  }

  // ----- what survives

  lemma {:induction false} PrefixInBlock(a: seq<string>, b: seq<string>, i: nat)
    requires i < |a|
    ensures InBlock(a + b, i) == InBlock(a, i)
  {
    if i > 0 {
      PrefixInBlock(a, b, i - 1);
    }
  }

  lemma {:induction false} PrefixSurvivors(a: seq<string>, b: seq<string>, n: nat)
    requires n <= |a|
    ensures Survivors(a + b, n) == Survivors(a, n)
  {
    if n > 0 {
      PrefixInBlock(a, b, n - 1);
      PrefixSurvivors(a, b, n - 1);
    }
  }

  lemma {:induction false} PrefixUnmarked(a: seq<string>, b: seq<string>, n: nat)
    requires n <= |a|
    ensures Unmarked(a + b, n) == Unmarked(a, n)
  {
    if n > 0 {
      PrefixUnmarked(a, b, n - 1);
    }
  }

  lemma {:induction false} AppendUnmarked(a: seq<string>, b: seq<string>, n: nat)
    requires n <= |b| && Unmarked(a, |a|)
    ensures Unmarked(a + b, |a| + n) == Unmarked(b, n)
  {
    if n == 0 {
      PrefixUnmarked(a, b, |a|);
    } else {
      AppendUnmarked(a, b, n - 1);
    }
  }

  lemma {:induction false} UnmarkedSurvive(lines: seq<string>, n: nat)
    requires n <= |lines| && Unmarked(lines, n)
    ensures Survivors(lines, n) == lines[..n]
    ensures n > 0 ==> !InBlock(lines, n - 1)
  {
    if n > 0 {
      UnmarkedSurvive(lines, n - 1);
      assert lines[..n] == lines[..n - 1] + [lines[n - 1]];
    }
  }

  lemma {:induction false} SurvivorsUnmarked(lines: seq<string>, n: nat)
    requires n <= |lines|
    ensures var s := Survivors(lines, n); Unmarked(s, |s|)
  {
    if n > 0 {
      var before, l := Survivors(lines, n - 1), lines[n - 1];
      SurvivorsUnmarked(lines, n - 1);
      if !InBlock(lines, n - 1) && !IsEnd(l) {
        assert Survivors(lines, n) == before + [l];
        AppendUnmarked(before, [l], 1);
        assert Unmarked([l], 0) && Unmarked([l], 1);
        assert Unmarked(before + [l], |before| + 1);
      } else {
        assert Survivors(lines, n) == before;
      }
    }
  }

  /** The survivors are lines as they stand; only a last line lacks its newline. */
  lemma {:induction false} SurvivorsSplit(lines: seq<string>, n: nat)
    requires n <= |lines| && IsSplit(lines)
    ensures IsSplit(Survivors(lines, n)) && (n < |lines| ==> AllEnded(Survivors(lines, n)))
  {
    if n > 0 {
      SurvivorsSplit(lines, n - 1);
    }
  }

  predicate AllEnded(lines: seq<string>) {
    forall i :: 0 <= i < |lines| ==> Ended(lines[i])
  }

  /** A block after unmarked lines disappears, and nothing else does. */
  lemma {:induction false} InsideBlock(kept: seq<string>, begin: string, body: seq<string>, n: nat)
    requires n <= |body| && Unmarked(kept, |kept|) && IsBegin(begin) && Unmarked(body, n)
    ensures var lines := kept + [begin] + body;
            InBlock(lines, |kept| + n) && Survivors(lines, |kept| + 1 + n) == kept
  {
    var lines := kept + [begin] + body;
    if n == 0 {
      assert lines == kept + ([begin] + body);
      PrefixSurvivors(kept, [begin] + body, |kept|);
      UnmarkedSurvive(kept, |kept|);
      assert kept[..|kept|] == kept;
    } else {
      InsideBlock(kept, begin, body, n - 1);
      assert lines[|kept| + n] == body[n - 1];
    }
  }

  lemma BlockVanishes(kept: seq<string>, begin: string, body: seq<string>, end: string)
    requires Unmarked(kept, |kept|) && IsBegin(begin) && Unmarked(body, |body|) && IsEnd(end)
    ensures var lines := kept + [begin] + body + [end]; !Unclosed(lines) && Survivors(lines, |lines|) == kept
  {
    var open := kept + [begin] + body;
    InsideBlock(kept, begin, body, |body|);
    PrefixSurvivors(open, [end], |open|);
    MarkersDiffer(end);
  }

  lemma StrayEndVanishes(kept: seq<string>, end: string)
    requires Unmarked(kept, |kept|) && IsEnd(end)
    ensures var lines := kept + [end]; !Unclosed(lines) && Survivors(lines, |lines|) == kept
  {
    PrefixSurvivors(kept, [end], |kept|);
    UnmarkedSurvive(kept, |kept|);
    assert kept[..|kept|] == kept;
    MarkersDiffer(end);
  }

  // ----- stripping after an installation

  lemma {:induction false} EndedConcat(lines: seq<string>)
    requires IsSplit(lines)
    ensures AllEnded(lines) <==> Concat(lines) == "" || Ended(Concat(lines))
    ensures Concat(lines) == "" <==> lines == []
  {
    if lines != [] {
      EndedConcat(lines[1..]);
      assert lines == [lines[0]] + lines[1..];
      assert |lines| > 1 ==> Ended(lines[0]);
    }
  }

  /** A text that can stand between the markers: whole lines, none of them a marker. */
  predicate IsBody(body: string) {
    (body == "" || Ended(body)) && Unmarked(Lines(body), |Lines(body)|)
  }

  /** The lines of a text with a block appended; `first` is the line the BEGIN marker gets on. */
  lemma LinesWithBlock(kept: seq<string>, first: string, body: string, end: string)
    requires AllEnded(kept) && IsSplit(kept) && IsBody(body)
    requires IsLine(first) && Ended(first) && IsLine(end) && Ended(end)
    ensures Lines(Concat(kept) + first + body + end) == kept + [first] + Lines(body) + [end]
  {
    LinesSplit(body);
    EndedConcat(Lines(body));
    AllSplit(kept, [first]);
    AllSplit(kept + [first], Lines(body));
    AllSplit(kept + [first] + Lines(body), [end]);
    SplitsOneWay(kept + [first] + Lines(body) + [end]);
    ConcatFour(kept, first, Lines(body), end);
  }

  lemma AllSplit(a: seq<string>, b: seq<string>)
    requires AllEnded(a) && IsSplit(a) && IsSplit(b) && AllEnded(b)
    ensures AllEnded(a + b) && IsSplit(a + b)
  {
  }

  lemma ConcatFour(a: seq<string>, b: string, c: seq<string>, d: string)
    ensures Concat(a + [b] + c + [d]) == Concat(a) + b + Concat(c) + d
  {
    ConcatAppends(a + [b] + c, [d]);
    ConcatAppends(a + [b], c);
    ConcatAppends(a, [b]);
    assert Concat([b]) == b && Concat([d]) == d;
  }

  lemma StripBlock(kept: seq<string>, first: string, body: string, end: string)
    requires AllEnded(kept) && IsSplit(kept) && Unmarked(kept, |kept|) && IsBody(body)
    requires IsLine(first) && Ended(first) && IsBegin(first) && IsLine(end) && Ended(end) && IsEnd(end)
    ensures Stripped(Concat(kept) + first + body + end) == Written(Concat(kept))
  {
    LinesWithBlock(kept, first, body, end);
    BlockVanishes(kept, first, Lines(body), end);
  }

  /** With the BEGIN marker on a line of its own, the block goes and the text before it stays. */
  lemma StripAfterNewline(k: string, body: string)
    requires Unmarked(Lines(k), |Lines(k)|) && IsBody(body) && (k == "" || Ended(k))
    ensures Stripped(k + Block(body)) == Written(k)
  {
    LinesSplit(k);
    EndedConcat(Lines(k));
    MarkerLines();
    StripBlock(Lines(k), BEGIN + "\n", body, END + "\n");
    Regroup(k, BEGIN + "\n", body, END + "\n");
  }

  lemma Regroup(a: string, b: string, c: string, d: string)
    ensures a + (b + c + d) == a + b + c + d
  {
  }

  lemma AllButLastEnded(kept: seq<string>, last: string)
    requires IsSplit(kept + [last])
    ensures IsSplit(kept) && AllEnded(kept) && IsLine(last)
    ensures Ended(last) ==> AllEnded(kept + [last])
  {
    assert forall i :: 0 <= i < |kept| ==> kept[i] == (kept + [last])[i];
    assert last == (kept + [last])[|kept|];
  }

  /** With the BEGIN marker hidden only the END marker goes. */
  lemma HiddenMarker(kept: seq<string>, first: string, body: seq<string>, end: string)
    requires Unmarked(kept, |kept|) && !IsBegin(first) && !IsEnd(first) && Unmarked(body, |body|) && IsEnd(end)
    ensures var lines := kept + [first] + body + [end];
            !Unclosed(lines) && |Concat(Survivors(lines, |lines|))| >= |Concat(kept)| + |first|
  {
    assert Unmarked([first], 0) && Unmarked([first], 1);
    AppendUnmarked(kept, [first], 1);
    AppendUnmarked(kept + [first], body, |body|);
    StrayEndVanishes(kept + [first] + body, end);
    ConcatAppends(kept + [first], body);
    ConcatAppends(kept, [first]);
    assert Concat([first]) == first;
  }

  lemma StripHidden(kept: seq<string>, first: string, body: string, end: string)
    requires AllEnded(kept) && IsSplit(kept) && Unmarked(kept, |kept|) && IsBody(body)
    requires IsLine(first) && Ended(first) && !IsBegin(first) && !IsEnd(first)
    requires IsLine(end) && Ended(end) && IsEnd(end)
    ensures var r := Stripped(Concat(kept) + first + body + end);
            r != Rejected && |r.text| >= |Concat(kept)| + |first|
  {
    LinesWithBlock(kept, first, body, end);
    HiddenMarker(kept, first, Lines(body), end);
  }

  lemma UnfinishedGoesOrStays(kept: seq<string>, last: string, begin: string, body: string, end: string)
    requires AllEnded(kept) && IsSplit(kept) && Unmarked(kept, |kept|) && IsBody(body)
    requires IsLine(last) && !Ended(last) && IsLine(begin) && Ended(begin) && !IsEnd(last + begin)
    requires IsLine(end) && Ended(end) && IsEnd(end)
    ensures Stripped(Concat(kept) + (last + begin) + body + end) != Written(Concat(kept) + last)
  {
    Joined(last, begin);
    assert |Concat(kept) + last| == |Concat(kept)| + |last| && |last| > 0;
    if IsBegin(last + begin) {
      StripBlock(kept, last + begin, body, end);
    } else {
      StripHidden(kept, last + begin, body, end);
    }
  }

  lemma StripAfterLine(kept: seq<string>, last: string, body: string)
    requires IsSplit(kept + [last]) && Unmarked(kept + [last], |kept| + 1) && !Ended(last) && IsBody(body)
    ensures Stripped(Concat(kept + [last]) + Block(body)) != Written(Concat(kept + [last]))
  {
    AllButLastEnded(kept, last);
    PrefixUnmarked(kept, [last], |kept|);
    MarkerLines();
    NoEndInFront(last);
    Associate(last, BEGIN, "\n");
    UnfinishedGoesOrStays(kept, last, BEGIN + "\n", body, END + "\n");
    Regroup(Concat(kept) + last, BEGIN + "\n", body, END + "\n");
    Associate(Concat(kept), last, BEGIN + "\n");
    ConcatOne(kept, last);
  }

  lemma StripAfterLines(lines: seq<string>, body: string)
    requires IsSplit(lines) && Unmarked(lines, |lines|) && !AllEnded(lines) && IsBody(body)
    ensures Stripped(Concat(lines) + Block(body)) != Written(Concat(lines))
  {
    var kept, last := SplitLast(lines);
    StripAfterLine(kept, last, body);
  }

  lemma SplitLast(lines: seq<string>) returns (kept: seq<string>, last: string)
    requires IsSplit(lines) && !AllEnded(lines)
    ensures lines == kept + [last] && |kept| + 1 == |lines| && !Ended(last)
  {
    kept, last := lines[..|lines| - 1], lines[|lines| - 1];
    AllButLastEnded(kept, last);
  }

  /** With the BEGIN marker behind an unfinished line, either that line goes too or the block stays. */
  lemma StripAfterUnfinished(k: string, body: string)
    requires Unmarked(Lines(k), |Lines(k)|) && IsBody(body) && k != "" && !Ended(k)
    ensures Stripped(k + Block(body)) != Written(k)
  {
    LinesSplit(k);
    EndedConcat(Lines(k));
    StripAfterLines(Lines(k), body);
  }

  lemma ConcatOne(kept: seq<string>, last: string)
    ensures Concat(kept + [last]) == Concat(kept) + last
  {
    ConcatAppends(kept, [last]);
    assert Concat([last]) == last;
  }

  lemma Associate(a: string, b: string, c: string)
    ensures a + (b + c) == a + b + c
  {
  }

  lemma Joined(a: string, b: string)
    requires IsLine(a) && !Ended(a) && IsLine(b) && Ended(b)
    ensures IsLine(a + b) && Ended(a + b) && |a + b| > |a|
  {
  }

  /** What the settings put between the markers holds no marker line. */
  predicate Harmless(s: Settings) {
    IsBody(Body(HeadEntries(s) + TailEntries(s)))
  }

  predicate NoNewline(text: string) {
    forall i :: 0 <= i < |text| ==> text[i] != '\n'
  }

  /** Text that starts a line visibly and unlike the markers. */
  predicate IsPlainText(text: string) {
    text != "" && NoNewline(text) && !IsBlank(text[0]) && (text[0] == ';' ==> |text| > 1 && text[1] != 'O')
  }

  /** An entry that makes one line, and not a marker. */
  predicate IsPlain(e: Entry) {
    NoNewline(e.1) && (IsPlainText(e.0) || ((e.0 == "" || e.0 == "\t") && e.1 == ""))
  }

  lemma PlainLine(e: Entry)
    requires IsPlain(e)
    ensures var l := e.0 + e.1 + "\n"; IsLine(l) && Ended(l) && !IsBegin(l) && !IsEnd(l)
  {
    var l := e.0 + e.1 + "\n";
    TrimRightKeeps(TrimLeft(l));
    if e.0 == "" {
      assert l == "\n" && l[1..] == "" && TrimLeft(l) == TrimLeft(l[1..]) == "";
    } else if e.0 == "\t" {
      assert l == "\t\n" && l[1..] == "\n";
      assert TrimLeft(l) == TrimLeft("\n") == "";
    } else {
      assert l[0] == e.0[0] && (|e.0| > 1 ==> l[1] == e.0[1]);
      assert BEGIN[1] == 'O' && END[1] == 'O';
    }
  }

  lemma LineInFront(l: string, body: string)
    requires IsLine(l) && Ended(l) && !IsBegin(l) && !IsEnd(l) && IsBody(body)
    ensures IsBody(l + body)
  {
    FirstLine(l, body);
    assert Unmarked([l], 0) && Unmarked([l], 1);
    AppendUnmarked([l], Lines(body), |Lines(body)|);
    assert (l + body)[|l + body| - 1] == if body == "" then l[|l| - 1] else body[|body| - 1];
  }

  predicate AllPlain(entries: seq<Entry>) {
    forall i :: 0 <= i < |entries| ==> IsPlain(entries[i])
  }

  lemma {:induction false} PlainBody(entries: seq<Entry>)
    requires AllPlain(entries)
    ensures IsBody(Body(entries))
  {
    if entries != [] {
      PlainBody(entries[1..]);
      PlainLine(entries[0]);
      LineInFront(entries[0].0 + entries[0].1 + "\n", Body(entries[1..]));
    }
  }

  lemma PlainSection(blank: string, comment: string, key: string, value: string)
    requires (blank == "" || blank == "\t") && IsPlainText(comment) && IsPlainText(key) && NoNewline(value)
    ensures AllPlain(Section(blank, comment, key, value))
  {
  }

  lemma PlainBoth(a: seq<Entry>, b: seq<Entry>)
    requires AllPlain(a) && AllPlain(b)
    ensures AllPlain(a + b)
  {
  }

  /** Settings without newlines are harmless. */
  lemma NewlineFreeSettings(s: Settings)
    requires NoNewline(s.extension) && NoNewline(s.rootDir) && NoNewline(s.backendUrl) && NoNewline(s.appId)
    requires NoNewline(s.appSecret) && NoNewline(s.raspId) && NoNewline(s.remoteManagementEnable)
    requires NoNewline(s.heartbeatInterval) && NoNewline(s.iastEnable)
    ensures Harmless(s)
  {
    PlainHead(s);
    PlainTail(s);
    PlainBoth(HeadEntries(s), TailEntries(s));
    PlainBody(HeadEntries(s) + TailEntries(s));
  }

  lemma HeadTexts()
    ensures IsPlainText("extension=") && IsPlainText("openrasp.root_dir=")
    ensures IsPlainText(";国际化配置") && IsPlainText(";openrasp.locale=")
    ensures IsPlainText(";云端地址") && IsPlainText("openrasp.backend_url=")
    ensures IsPlainText(";agent app_id") && IsPlainText("openrasp.app_id=")
  {
  }

  lemma PlainHead(s: Settings)
    requires NoNewline(s.extension) && NoNewline(s.rootDir) && NoNewline(s.backendUrl) && NoNewline(s.appId)
    requires NoNewline(s.appSecret) && NoNewline(s.raspId)
    ensures AllPlain(HeadEntries(s))
  {
    HeadTexts();
    PlainSection("\t", ";国际化配置", ";openrasp.locale=", "");
    PlainSection("", ";云端地址", "openrasp.backend_url=", s.backendUrl);
    PlainSection("", ";agent app_id", "openrasp.app_id=", s.appId);
    PlainSection("", ";agent secret", "openrasp.app_secret=", s.appSecret);
    PlainSection("", ";agent rasp_id", "openrasp.rasp_id=", s.raspId);
  }

  lemma PlainTail(s: Settings)
    requires NoNewline(s.remoteManagementEnable) && NoNewline(s.heartbeatInterval) && NoNewline(s.iastEnable)
    ensures AllPlain(TailEntries(s))
  {
    PlainSection("", ";远程管理开关", "openrasp.remote_management_enable=", s.remoteManagementEnable);
    PlainSection("", ";心跳时间间隔", "openrasp.heartbeat_interval=", s.heartbeatInterval);
    PlainSection("", ";SSL证书验证开关", "openrasp.ssl_verifypeer=0", "");
    PlainSection("", ";IAST开关", "openrasp.iast_enable=", s.iastEnable);
  }

  /** Uninstalling right after installing restores a file without marker lines exactly when the file is empty or ends
      in a newline. */
  lemma RoundTrip(c: string, s: Settings)
    requires Unmarked(Lines(c), |Lines(c)|) && Harmless(s)
    ensures Installed(c, s) == Written(c + IniContent(s))
    ensures Stripped(Installed(c, s).text) == Written(c) <==> c == "" || Ended(c)
  {
    var lines := Lines(c);
    LinesSplit(c);
    UnmarkedSurvive(lines, |lines|);
    assert lines[..|lines|] == lines;
    if c == "" || Ended(c) {
      StripAfterNewline(c, Body(HeadEntries(s) + TailEntries(s)));
    } else {
      StripAfterUnfinished(c, Body(HeadEntries(s) + TailEntries(s)));
    }
  }

  /** The file is empty, ends in a newline, or ends in an END marker that does not survive. */
  predicate Appendable(c: string) {
    c == "" || Ended(c) || IsEnd(Lines(c)[|Lines(c)| - 1])
  }

  /** What is left of a file can be read back, and ends in a newline exactly when the file is appendable. */
  lemma Remains(c: string)
    requires Stripped(c) != Rejected
    ensures var k := Stripped(c).text;
            && Unmarked(Lines(k), |Lines(k)|)
            && (k == "" || Ended(k) <==> Appendable(c))
  {
    var lines := Lines(c);
    var n := |lines|;
    var kept := Survivors(lines, n);
    LinesSplit(c);
    SurvivorsSplit(lines, n);
    SurvivorsUnmarked(lines, n);
    SplitsOneWay(kept);
    EndedConcat(kept);
    EndedConcat(lines);
    if n > 0 {
      SurvivorsSplit(lines, n - 1);
      var before := Survivors(lines, n - 1);
      assert !IsEnd(lines[n - 1]) ==> kept == before + [lines[n - 1]] && kept[|kept| - 1] == lines[n - 1];
      assert IsEnd(lines[n - 1]) ==> kept == before;
      assert AllEnded(lines) <==> Ended(lines[n - 1]);
    }
  }

  /** Installing over an installation leaves what installing once with the second settings leaves, exactly when the
      first file was appendable. */
  lemma Reinstall(c: string, s: Settings, t: Settings)
    requires Stripped(c) != Rejected && Harmless(s)
    ensures Installed(Installed(c, s).text, t) == Installed(c, t) <==> Appendable(c)
  {
    var k := Stripped(c).text;
    Remains(c);
    if k == "" || Ended(k) {
      StripAfterNewline(k, Body(HeadEntries(s) + TailEntries(s)));
    } else {
      StripAfterUnfinished(k, Body(HeadEntries(s) + TailEntries(s)));
      var again := Stripped(k + IniContent(s));
      if again != Rejected {
        SameEnd(again.text, k, IniContent(t));
      }
    }
  }

  lemma SameEnd(a: string, b: string, end: string)
    requires a != b
    ensures a + end != b + end
  {
    assert a == (a + end)[..|a|] && b == (b + end)[..|b|];
    assert a + end == b + end ==> |a| == |b|;
  }
}
