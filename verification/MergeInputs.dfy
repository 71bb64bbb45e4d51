/** What the merge adds, said of the request alone. */
module MergeInputs {

  import opened Options
  import opened ParameterMerge

  // ----- names

  function Lower(name: string): (r: string)
    ensures |r| == |name|
  {
    seq(|name|, i requires 0 <= i < |name| => LowerChar(name[i]))
  }

  lemma {:induction false} LowerIsMeans(name: string, word: string)
    ensures LowerIs(name, word) <==> Lower(name) == word
  {
    if |name| == |word| && name != "" {
      LowerIsMeans(name[1..], word[1..]);
      assert Lower(name) == [LowerChar(name[0])] + Lower(name[1..]);
      assert word == [word[0]] + word[1..];
    }
  }

  function NumberOf(s: string): nat {
    if s == "" then 0 else NumberOf(s[..|s| - 1]) * 10 + DigitOf(s[|s| - 1])
  }

  function DigitOf(c: char): nat {
    if '0' <= c <= '9' then c as int - '0' as int else 0
  }

  lemma DigitReads(d: nat)
    requires d < 10
    ensures DigitOf(Digit(d)) == d && '0' <= Digit(d) <= '9'
  {
  }

  predicate AllDigits(s: string) {
    s == "" || ('0' <= s[|s| - 1] <= '9' && AllDigits(s[..|s| - 1]))
  }

  lemma DecimalLast(n: nat)
    ensures var s := Decimal(n);
      && s[|s| - 1] == Digit(n % 10) && s[..|s| - 1] == (if n < 10 then "" else Decimal(n / 10))
      && s[0] == if n < 10 then Digit(n % 10) else Decimal(n / 10)[0]
  {
  }

  /** A number in a name is written in decimal digits without leading zeros. */
  lemma {:induction false} DecimalReads(n: nat)
    ensures NumberOf(Decimal(n)) == n && AllDigits(Decimal(n)) && (Decimal(n)[0] == '0' <==> n == 0)
  {
    DecimalLast(n);
    DigitReads(n % 10);
    if n >= 10 {
      DecimalReads(n / 10);
    }
  }

  // ----- cookies and headers

  /** Where the header object has a header named cookie. */
  function CookieHeaders(header: seq<(string, string)>): set<nat> {
    set i: nat | 0 <= i < |header| && NamesCookie(header[i])
  }

  lemma {:induction false} CookiesCounted(cookies: seq<(string, string)>, input: Input)
    ensures CookieInputs(cookies)[input]
         == if input.kind == Cookie then multiset(cookies)[(input.path, input.value)] else 0
  {
    if cookies != [] {
      var n := |cookies| - 1;
      CookiesCounted(cookies[..n], input);
      assert cookies == cookies[..n] + [cookies[n]];
      assert multiset(cookies) == multiset(cookies[..n]) + multiset{cookies[n]};
      assert cookies[n] == (cookies[n].0, cookies[n].1);
    }
  }

  lemma ListedIsNoCookie(name: string)
    ensures !(LowerIs(name, "cookie") && ListedHeader(name))
  {
    assert |"cookie"| != |"user-agent"| && |"cookie"| != |"referer"| && |"cookie"| != |"x-forwarded-for"|;
  }

  lemma OneHeaderCounted(h: (string, string), cookies: seq<(string, string)>, input: Input)
    ensures HeaderInput(h, cookies)[input] ==
      match input.kind
      case Cookie => if NamesCookie(h) then multiset(cookies)[(input.path, input.value)] else 0
      case Header => if h == (input.path, input.value) && ListedHeader(input.path) then 1 else 0
      case JsonLeaf => 0
  {
    CookiesCounted(cookies, input);
    ListedIsNoCookie(h.0);
  }

  lemma CookieHeadersNext(header: seq<(string, string)>)
    requires header != []
    ensures var n := |header| - 1;
      |CookieHeaders(header)| == |CookieHeaders(header[..n])| + if NamesCookie(header[n]) then 1 else 0
  {
    var n := |header| - 1;
    if NamesCookie(header[n]) {
      assert CookieHeaders(header) == CookieHeaders(header[..n]) + {n};
    } else {
      assert CookieHeaders(header) == CookieHeaders(header[..n]);
    }
  }

  /** A cookie counts once for each header named cookie, a header as often as it stands under a listed name. */
  lemma {:induction false} HeadersCounted(header: seq<(string, string)>, cookies: seq<(string, string)>, input: Input)
    ensures HeaderInputs(header, cookies)[input] ==
      match input.kind
      case Cookie => |CookieHeaders(header)| * multiset(cookies)[(input.path, input.value)]
      case Header => if ListedHeader(input.path) then multiset(header)[(input.path, input.value)] else 0
      case JsonLeaf => 0
  {
    if header != [] {
      var n := |header| - 1;
      HeadersCounted(header[..n], cookies, input);
      OneHeaderCounted(header[n], cookies, input);
      CookieHeadersNext(header);
      assert header == header[..n] + [header[n]];
      OneMore(|CookieHeaders(header[..n])|, if NamesCookie(header[n]) then 1 else 0,
              multiset(cookies)[(input.path, input.value)]);
    } else {
      assert CookieHeaders(header) == {};
    }
  }

  lemma OneMore(a: nat, b: nat, c: nat)
    ensures (a + b) * c == a * c + b * c
  {
  }

  // ----- the leaves of the JSON tree

  /** A position in the tree: which member to take at each depth. A string stands there. */
  predicate IsLeafAt(ms: seq<(string, Json)>, pos: seq<nat>)
    decreases ms
  {
    pos != [] && pos[0] < |ms| && IsLeafIn(ms[pos[0]], pos[1..])
  }

  predicate IsLeafIn(m: (string, Json), pos: seq<nat>)
    decreases m
  {
    match m.1
    case Text(s) => pos == []
    case Node(members) => IsLeafAt(members, pos)
    case Other => false
  }

  /** The string at a position, with the names on the way to it. */
  function InputAt(ms: seq<(string, Json)>, pos: seq<nat>, path: string): Input
    requires IsLeafAt(ms, pos)
    decreases ms
  {
    InputIn(ms[pos[0]], pos[1..], path)
  }

  function InputIn(m: (string, Json), pos: seq<nat>, path: string): Input
    requires IsLeafIn(m, pos)
    decreases m
  {
    match m.1
    case Text(s) => Input(JsonLeaf, path + "->" + m.0, s)
    case Node(members) => InputAt(members, pos, path + "->" + m.0)
  }

  /** The positions of the leaves below the members from `k` on. */
  function Positions(ms: seq<(string, Json)>, k: nat): (ps: seq<seq<nat>>)
    requires k <= |ms|
    decreases ms, |ms| - k
  {
    if k == |ms| then [] else Behind(k, PositionsIn(ms[k])) + Positions(ms, k + 1)
  }

  function PositionsIn(m: (string, Json)): (ps: seq<seq<nat>>)
    decreases m, 0
  {
    match m.1
    case Text(s) => [[]]
    case Node(members) => Positions(members, 0)
    case Other => []
  }

  function Behind(k: nat, ps: seq<seq<nat>>): (r: seq<seq<nat>>)
    ensures |r| == |ps| && forall i :: 0 <= i < |r| ==> r[i] == [k] + ps[i]
  {
    seq(|ps|, i requires 0 <= i < |ps| => [k] + ps[i])
  }

  ghost predicate Distinct(ps: seq<seq<nat>>) {
    forall i, j :: 0 <= i < j < |ps| ==> ps[i] != ps[j]
  }

  /** All positions below the members from `k` on are listed, each once. */
  lemma {:induction false} PositionsAreAll(ms: seq<(string, Json)>, k: nat)
    requires k <= |ms|
    ensures Distinct(Positions(ms, k))
    ensures forall pos :: pos in Positions(ms, k) <==> IsLeafAt(ms, pos) && pos[0] >= k
    decreases ms, |ms| - k
  {
    if k < |ms| {
      var here, rest := PositionsIn(ms[k]), Positions(ms, k + 1);
      PositionsInAreAll(ms[k]);
      PositionsAreAll(ms, k + 1);
      BehindAll(k, here);
      forall pos ensures pos in Positions(ms, k) <==> IsLeafAt(ms, pos) && pos[0] >= k {
        if pos != [] && pos[0] == k {
          assert pos == [k] + pos[1..];
        }
      }
      forall i | 0 <= i < |rest| ensures rest[i] != [] && rest[i][0] > k {
        assert rest[i] in rest;
      }
      BehindApart(k, here, rest);
    }
  }

  lemma {:induction false} PositionsInAreAll(m: (string, Json))
    ensures Distinct(PositionsIn(m))
    ensures forall pos :: pos in PositionsIn(m) <==> IsLeafIn(m, pos)
    decreases m, 0
  {
    if m.1.Node? {
      PositionsAreAll(m.1.members, 0);
    }
  }

  lemma BehindAll(k: nat, ps: seq<seq<nat>>)
    ensures forall pos :: pos in Behind(k, ps) <==> pos != [] && pos[0] == k && pos[1..] in ps
  {
    forall pos ensures pos in Behind(k, ps) <==> pos != [] && pos[0] == k && pos[1..] in ps {
      if pos in Behind(k, ps) {
        var i :| 0 <= i < |ps| && Behind(k, ps)[i] == pos;
        assert pos[1..] == ps[i];
      }
      if pos != [] && pos[0] == k && pos[1..] in ps {
        var i :| 0 <= i < |ps| && ps[i] == pos[1..];
        assert Behind(k, ps)[i] == [k] + pos[1..] == pos;
      }
    }
  }

  lemma BehindApart(k: nat, here: seq<seq<nat>>, rest: seq<seq<nat>>)
    requires Distinct(here) && Distinct(rest) && forall i :: 0 <= i < |rest| ==> rest[i] != [] && rest[i][0] > k
    ensures Distinct(Behind(k, here) + rest)
  {
    var all, n := Behind(k, here) + rest, |here|;
    forall i, j | 0 <= i < j < |all| ensures all[i] != all[j] {
      if j < n {
        assert all[i][1..] == here[i] && all[j][1..] == here[j];
      } else if i < n {
        assert all[i][0] == k && all[j] == rest[j - n];
      } else {
        assert all[i] == rest[i - n] && all[j] == rest[j - n];
      }
    }
  }

  ghost predicate AreLeaves(ms: seq<(string, Json)>, ps: seq<seq<nat>>) {
    forall i :: 0 <= i < |ps| ==> IsLeafAt(ms, ps[i])
  }

  ghost function InputsAt(ms: seq<(string, Json)>, ps: seq<seq<nat>>, path: string): (r: seq<Input>)
    requires AreLeaves(ms, ps)
    ensures |r| == |ps| && forall i :: 0 <= i < |r| ==> r[i] == InputAt(ms, ps[i], path)
  {
    seq(|ps|, i requires 0 <= i < |ps| => InputAt(ms, ps[i], path))
  }

  lemma {:induction false} LeavesCounted(ms: seq<(string, Json)>, k: nat, path: string)
    requires k <= |ms|
    ensures AreLeaves(ms, Positions(ms, k))
    ensures Leaves(ms[k..], path) == multiset(InputsAt(ms, Positions(ms, k), path))
    decreases ms, |ms| - k
  {
    if k < |ms| {
      var here, rest := PositionsIn(ms[k]), Positions(ms, k + 1);
      LeavesCounted(ms, k + 1, path);
      var ins := LeafCounted(ms, k, path);
      InputsConcat(ms, Behind(k, here), rest, path);
      MembersStep(ms, k, path);
    }
  }

  lemma InputsConcat(ms: seq<(string, Json)>, xs: seq<seq<nat>>, ys: seq<seq<nat>>, path: string)
    requires AreLeaves(ms, xs) && AreLeaves(ms, ys)
    ensures AreLeaves(ms, xs + ys)
    ensures multiset(InputsAt(ms, xs + ys, path)) == multiset(InputsAt(ms, xs, path)) + multiset(InputsAt(ms, ys, path))
  {
    assert InputsAt(ms, xs + ys, path) == InputsAt(ms, xs, path) + InputsAt(ms, ys, path);
  }

  lemma {:induction false} LeafCounted(ms: seq<(string, Json)>, k: nat, path: string) returns (ins: seq<Input>)
    requires k < |ms|
    ensures var ps := Behind(k, PositionsIn(ms[k]));
      AreLeaves(ms, ps) && ins == InputsAt(ms, ps, path) && Leaf(ms[k], path) == multiset(ins)
    decreases ms[k], 0
  {
    var m, here := ms[k], PositionsIn(ms[k]);
    PositionsInAreAll(m);
    var ps := Behind(k, here);
    forall i | 0 <= i < |ps| ensures IsLeafAt(ms, ps[i]) && InputAt(ms, ps[i], path) == InputIn(m, here[i], path) {
      assert ps[i] == [k] + here[i] && ps[i][1..] == here[i];
      assert here[i] in here;
    }
    ins := InputsAt(ms, ps, path);
    match m.1
    case Text(s) =>
      assert ins == [Input(JsonLeaf, path + "->" + m.0, s)];
    case Node(members) =>
      LeavesCounted(members, 0, path + "->" + m.0);
      assert members[0..] == members;
      assert ins == InputsAt(members, here, path + "->" + m.0);
    case Other =>
      assert ins == [];
  }

  // ----- the whole

  /** Every string of the JSON tree, at any depth, is one input. */
  lemma EveryLeafOnce(j: Json) returns (ps: seq<seq<nat>>)
    ensures var ms := Members(j);
      && Distinct(ps) && (forall pos :: pos in ps <==> IsLeafAt(ms, pos))
      && AreLeaves(ms, ps) && Leaves(ms, "input_json") == multiset(InputsAt(ms, ps, "input_json"))
  {
    var ms := Members(j);
    ps := Positions(ms, 0);
    PositionsAreAll(ms, 0);
    LeavesCounted(ms, 0, "input_json");
    assert ms[0..] == ms;
  }

  /** How often an input counts: a cookie once for each header named cookie, a header as often as it stands under a
      listed name, and a string of the JSON tree once for each place where it stands. */
  lemma InputsCounted(c: Context, input: Input) returns (ps: seq<seq<nat>>)
    ensures var ms := Members(if c.json.Some? then c.json.value else Node([]));
      var header := if c.header.Some? then c.header.value else [];
      && Distinct(ps) && (forall pos :: pos in ps <==> IsLeafAt(ms, pos)) && AreLeaves(ms, ps)
      && c.Inputs()[input] == match input.kind
         case Cookie => |CookieHeaders(header)| * multiset(c.CookiePairs())[(input.path, input.value)]
         case Header => if ListedHeader(input.path) then multiset(header)[(input.path, input.value)] else 0
         case JsonLeaf => multiset(InputsAt(ms, ps, "input_json"))[input]
  {
    var json := if c.json.Some? then c.json.value else Node([]);
    ps := EveryLeafOnce(json);
    var header := if c.header.Some? then c.header.value else [];
    HeadersCounted(header, c.CookiePairs(), input);
    LeavesAreJson(Members(json), "input_json", input);
  }

  lemma {:induction false} LeavesAreJson(ms: seq<(string, Json)>, path: string, input: Input)
    ensures input in Leaves(ms, path) ==> input.kind == JsonLeaf
    decreases ms
  {
    if ms != [] {
      LeafIsJson(ms[0], path, input);
      LeavesAreJson(ms[1..], path, input);
    }
  }

  lemma {:induction false} LeafIsJson(m: (string, Json), path: string, input: Input)
    ensures input in Leaf(m, path) ==> input.kind == JsonLeaf
    decreases m
  {
    if m.1.Node? {
      LeavesAreJson(m.1.members, path + "->" + m.0, input);
    }
  }
}
