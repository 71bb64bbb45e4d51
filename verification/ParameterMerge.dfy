/** `get_all_parameter`: header, cookie and JSON inputs poured into the parameter object under fresh names. */
module ParameterMerge {

  import opened Options

  type Params = map<string, seq<string>>

  /** A JSON value as the loop sees it: text, something to walk into (objects and arrays, and `null`, which has
      nothing inside), or anything else. Members are listed in enumeration order. */
  datatype Json = Text(s: string) | Node(members: seq<(string, Json)>) | Other

  datatype Kind = Cookie | Header | JsonLeaf

  /** One thing to add: where it comes from, what it is called there, and its value. */
  datatype Input = Input(kind: Kind, path: string, value: string)

  // ----- names

  function Digit(d: nat): char
    requires d < 10
  {
    "0123456789"[d]
  }

  function Decimal(n: nat): (r: string)
    ensures r != ""
  {
    (if n < 10 then "" else Decimal(n / 10)) + [Digit(n % 10)]
  }

  lemma {:induction false} DecimalInjective(m: nat, n: nat)
    requires Decimal(m) == Decimal(n)
    ensures m == n
  {
    var s := Decimal(m);
    assert s[|s| - 1] == Digit(m % 10) == Digit(n % 10);
    assert m % 10 == n % 10;
    assert s[..|s| - 1] == (if m < 10 then "" else Decimal(m / 10)) == (if n < 10 then "" else Decimal(n / 10));
    if m >= 10 && n >= 10 {
      DecimalInjective(m / 10, n / 10);
    }
  }

  function Prefix(k: Kind): string {
    match k
    case Cookie => "cookie"
    case Header => "header"
    case JsonLeaf => "json"
  }

  /** `cookie0_sid`, `header3_referer`, `json7_input_json->a->b`. */
  function NameOf(k: Kind, path: string, n: nat): string {
    Prefix(k) + Decimal(n) + "_" + path
  }

  /** Different numbers give different names. */
  lemma NamesDiffer(k: Kind, path: string, m: nat, n: nat)
    requires NameOf(k, path, m) == NameOf(k, path, n)
    ensures m == n
  {
    var a, b, p, tail := Decimal(m), Decimal(n), Prefix(k), "_" + path;
    assert NameOf(k, path, m) == p + (a + tail) && NameOf(k, path, n) == p + (b + tail);
    assert a + tail == b + tail by {
      assert (p + (a + tail))[|p|..] == a + tail && (p + (b + tail))[|p|..] == b + tail;
    }
    assert |a| == |b|;
    assert a == (a + tail)[..|a|] == (b + tail)[..|a|] == b;
    DecimalInjective(m, n);
  }

  /** Finitely many names in use, so numbers counted up from `lo` cannot all be taken. */
  lemma {:induction false} TakenNumbersFit(k: Kind, path: string, lo: nat, hi: nat, used: set<string>)
    requires lo <= hi && forall n :: lo <= n < hi ==> NameOf(k, path, n) in used
    ensures hi - lo <= |used|
    decreases hi - lo
  {
    if lo < hi {
      var last := NameOf(k, path, hi - 1);
      forall n | lo <= n < hi - 1 ensures NameOf(k, path, n) in used - {last} {
        if NameOf(k, path, n) == last { NamesDiffer(k, path, n, hi - 1); }
      }
      TakenNumbersFit(k, path, lo, hi - 1, used - {last});
    }
  }

  /** `while (name + key_num + ... in parameter) key_num++` */
  method FreshNumber(k: Kind, path: string, keyNum: nat, parameter: Params) returns (n: nat)
    ensures keyNum <= n && NameOf(k, path, n) !in parameter
    ensures forall m :: keyNum <= m < n ==> NameOf(k, path, m) in parameter
  {
    n := keyNum;
    while NameOf(k, path, n) in parameter
      invariant keyNum <= n
      invariant forall m :: keyNum <= m < n ==> NameOf(k, path, m) in parameter
      decreases |parameter.Keys| - (n - keyNum)
    {
      TakenNumbersFit(k, path, keyNum, n + 1, parameter.Keys);
      n := n + 1;
    }
  }

  // ----- what is added

  /** An added entry: the input and the number in its name. */
  datatype Added = Added(input: Input, number: nat) {
    function Name(): string {
      NameOf(input.kind, input.path, number)
    }
  }

  /** `after` is `before` with one new entry for each element of `added`, all under different names. */
  ghost predicate Extends(before: Params, after: Params, added: seq<Added>)
    decreases |added|
  {
    if added == [] then after == before
    else
      var a, rest := added[|added| - 1], added[..|added| - 1];
      exists mid: Params :: Extends(before, mid, rest) && a.Name() !in mid && after == mid[a.Name() := [a.input.value]]
  }

  function InputsOf(added: seq<Added>): multiset<Input> {
    if added == [] then multiset{} else InputsOf(added[..|added| - 1]) + multiset{added[|added| - 1].input}
  }

  /** `after` keeps every entry of `before` and has exactly one fresh entry per input. */
  ghost predicate Gains(before: Params, after: Params, inputs: multiset<Input>) {
    exists added: seq<Added> :: Extends(before, after, added) && InputsOf(added) == inputs
  }

  lemma GainsNothing(before: Params)
    ensures Gains(before, before, multiset{})
  {
    var added: seq<Added> := [];
    assert Extends(before, before, added) && InputsOf(added) == multiset{};
  }

  lemma ExtendsOne(before: Params, mid: Params, added: seq<Added>, a: Added)
    requires Extends(before, mid, added) && a.Name() !in mid
    ensures Extends(before, mid[a.Name() := [a.input.value]], added + [a])
  {
    var longer := added + [a];
    assert longer[..|longer| - 1] == added && longer[|longer| - 1] == a;
  }

  lemma GainsOne(before: Params, mid: Params, inputs: multiset<Input>, input: Input, n: nat)
    requires Gains(before, mid, inputs) && NameOf(input.kind, input.path, n) !in mid
    ensures Gains(before, mid[NameOf(input.kind, input.path, n) := [input.value]], inputs + multiset{input})
  {
    var added: seq<Added> :| Extends(before, mid, added) && InputsOf(added) == inputs;
    var a := Added(input, n);
    ExtendsOne(before, mid, added, a);
    assert InputsOf(added + [a]) == inputs + multiset{input} by {
      assert (added + [a])[..|added|] == added;
    }
  }

  /** The two objects side by side: the old entries are unchanged, and the new ones have the given names, all
      different, and values. */
  ghost predicate OneEntryEach(before: Params, after: Params, names: seq<string>, values: seq<string>) {
    && |names| == |values|
    && (forall k :: k in before ==> k in after && after[k] == before[k])
    && (forall i, j :: 0 <= i < j < |names| ==> names[i] != names[j])
    && (forall i :: 0 <= i < |names| ==> names[i] !in before && names[i] in after && after[names[i]] == [values[i]])
    && (forall k :: k in after && k !in before ==> k in names)
  }

  function NamesOf(added: seq<Added>): seq<string> {
    if added == [] then [] else NamesOf(added[..|added| - 1]) + [added[|added| - 1].Name()]
  }

  function ValuesOf(added: seq<Added>): seq<string> {
    if added == [] then [] else ValuesOf(added[..|added| - 1]) + [added[|added| - 1].input.value]
  }

  lemma OneMoreEntry(before: Params, mid: Params, names: seq<string>, values: seq<string>, name: string, value: string)
    requires OneEntryEach(before, mid, names, values) && name !in mid
    ensures OneEntryEach(before, mid[name := [value]], names + [name], values + [value])
  {
  }

  lemma {:induction false} ExtendsEach(before: Params, after: Params, added: seq<Added>)
    requires Extends(before, after, added)
    ensures OneEntryEach(before, after, NamesOf(added), ValuesOf(added))
    decreases |added|
  {
    if added != [] {
      var a, rest := added[|added| - 1], added[..|added| - 1];
      var mid: Params :| Extends(before, mid, rest) && a.Name() !in mid && after == mid[a.Name() := [a.input.value]];
      ExtendsEach(before, mid, rest);
      OneMoreEntry(before, mid, NamesOf(rest), ValuesOf(rest), a.Name(), a.input.value);
    }
  }

  /** One entry per input, none lost to another. */
  lemma {:induction false} ExtendsCount(before: Params, after: Params, added: seq<Added>)
    requires Extends(before, after, added)
    ensures |after| == |before| + |InputsOf(added)|
    decreases |added|
  {
    if added != [] {
      var a, rest := added[|added| - 1], added[..|added| - 1];
      var mid: Params :| Extends(before, mid, rest) && a.Name() !in mid && after == mid[a.Name() := [a.input.value]];
      ExtendsCount(before, mid, rest);
      assert after.Keys == mid.Keys + {a.Name()};
    }
  }

  /** Gaining, seen from the two objects alone: the new entries stand one to one for the inputs. */
  lemma GainsMeans(before: Params, after: Params, inputs: multiset<Input>)
    requires Gains(before, after, inputs)
    ensures |after| == |before| + |inputs|
    ensures exists added: seq<Added> ::
      OneEntryEach(before, after, NamesOf(added), ValuesOf(added)) && InputsOf(added) == inputs
  {
    var added: seq<Added> :| Extends(before, after, added) && InputsOf(added) == inputs;
    ExtendsCount(before, after, added);
    ExtendsEach(before, after, added);
  }

  // ----- the inputs

  function LowerChar(c: char): char {
    if 'A' <= c <= 'Z' then (c as int + 32) as char else c
  }

  /** `name.toLowerCase() == word`, for ASCII names. */
  predicate LowerIs(name: string, word: string) {
    |name| == |word| && (name == "" || (LowerChar(name[0]) == word[0] && LowerIs(name[1..], word[1..])))
  }

  predicate ListedHeader(name: string) {
    LowerIs(name, "user-agent") || LowerIs(name, "referer") || LowerIs(name, "x-forwarded-for")
  }

  function CookieInputs(cookies: seq<(string, string)>): multiset<Input> {
    if cookies == [] then
      multiset{}
    else
      var (name, value) := cookies[|cookies| - 1];
      CookieInputs(cookies[..|cookies| - 1]) + multiset{Input(Cookie, name, value)}
  }

  function HeaderInputs(header: seq<(string, string)>, cookies: seq<(string, string)>): multiset<Input> {
    if header == [] then multiset{}
    else HeaderInputs(header[..|header| - 1], cookies) + HeaderInput(header[|header| - 1], cookies)
  }

  lemma CookieInputsStep(cookies: seq<(string, string)>, i: nat)
    requires i < |cookies|
    ensures CookieInputs(cookies[..i + 1]) ==
            CookieInputs(cookies[..i]) + multiset{Input(Cookie, cookies[i].0, cookies[i].1)}
  {
    assert cookies[..i + 1][..i] == cookies[..i];
  }

  predicate NamesCookie(h: (string, string)) {
    LowerIs(h.0, "cookie")
  }

  predicate AnyCookie(header: seq<(string, string)>) {
    header != [] && (NamesCookie(header[|header| - 1]) || AnyCookie(header[..|header| - 1]))
  }

  lemma AnyCookieStep(header: seq<(string, string)>, i: nat)
    requires i < |header|
    ensures AnyCookie(header[..i + 1]) <==> AnyCookie(header[..i]) || NamesCookie(header[i])
  {
    assert header[..i + 1][..i] == header[..i];
  }

  lemma {:induction false} CookieIsAny(header: seq<(string, string)>, i: nat)
    requires i <= |header| && AnyCookie(header[..i])
    ensures AnyCookie(header)
    decreases |header| - i
  {
    if i == |header| {
      assert header[..i] == header;
    } else {
      AnyCookieStep(header, i);
      CookieIsAny(header, i + 1);
    }
  }

  /** What one header adds. */
  function HeaderInput(h: (string, string), cookies: seq<(string, string)>): multiset<Input> {
    if NamesCookie(h) then CookieInputs(cookies)
    else if ListedHeader(h.0) then multiset{Input(Header, h.0, h.1)}
    else multiset{}
  }

  lemma HeaderInputsStep(header: seq<(string, string)>, i: nat, cookies: seq<(string, string)>)
    requires i < |header|
    ensures HeaderInputs(header[..i + 1], cookies) ==
            HeaderInputs(header[..i], cookies) + HeaderInput(header[i], cookies)
  {
    assert header[..i + 1][..i] == header[..i];
  }

  /** What `for (item in json)` walks over; on a text it walks over the characters. */
  function Members(j: Json): seq<(string, Json)> {
    match j
    case Node(members) => members
    case Text(s) => seq(|s|, i requires 0 <= i < |s| => (Decimal(i), Text([s[i]])))
    case Other => []
  }

  /** The string leaves below these members, each with its path. */
  function Leaves(ms: seq<(string, Json)>, path: string): multiset<Input>
    decreases ms
  {
    if ms == [] then multiset{} else Leaf(ms[0], path) + Leaves(ms[1..], path)
  }

  function Leaf(m: (string, Json), path: string): multiset<Input>
    decreases m
  {
    match m.1
    case Text(s) => multiset{Input(JsonLeaf, path + "->" + m.0, s)}
    case Node(members) => Leaves(members, path + "->" + m.0)
    case Other => multiset{}
  }

  /** Objects and arrays below these members. */
  function Nodes(ms: seq<(string, Json)>): nat
    decreases ms
  {
    if ms == [] then 0 else NodesIn(ms[0]) + Nodes(ms[1..])
  }

  function NodesIn(m: (string, Json)): nat
    decreases m
  {
    match m.1
    case Node(members) => 1 + Nodes(members)
    case _ => 0
  }

  type Worklist = seq<(Json, string)>

  function PendingLeaves(w: Worklist): multiset<Input> {
    if w == [] then multiset{}
    else PendingLeaves(w[..|w| - 1]) + Leaves(Members(w[|w| - 1].0), w[|w| - 1].1)
  }

  function PendingNodes(w: Worklist): nat {
    if w == [] then 0 else PendingNodes(w[..|w| - 1]) + 1 + Nodes(Members(w[|w| - 1].0))
  }

  lemma MembersStep(ms: seq<(string, Json)>, i: nat, path: string)
    requires i < |ms|
    ensures Leaves(ms[i..], path) == Leaf(ms[i], path) + Leaves(ms[i + 1..], path)
    ensures Nodes(ms[i..]) == NodesIn(ms[i]) + Nodes(ms[i + 1..])
  {
    assert ms[i..][1..] == ms[i + 1..];
  }

  lemma PendingPush(w: Worklist, m: (string, Json), path: string)
    requires m.1.Node?
    ensures var longer := w + [(m.1, path + "->" + m.0)];
      && PendingLeaves(longer) == PendingLeaves(w) + Leaf(m, path)
      && PendingNodes(longer) == PendingNodes(w) + NodesIn(m)
  {
    var longer := w + [(m.1, path + "->" + m.0)];
    assert longer[..|w|] == w;
  }

  // ----- the merge

  class ParameterObject {
    var entries: Params

    constructor (entries: Params)
      ensures this.entries == entries
    {
      this.entries := entries;
    }

    method AddFresh(k: Kind, path: string, value: string, keyNum: nat, ghost before: Params,
                    ghost gained: multiset<Input>)
      returns (n: nat)
      requires Gains(before, entries, gained)
      modifies this
      ensures keyNum <= n
      ensures Gains(before, entries, gained + multiset{Input(k, path, value)})
    {
      n := FreshNumber(k, path, keyNum, entries);
      GainsOne(before, entries, gained, Input(k, path, value), n);
      entries := entries[NameOf(k, path, n) := [value]];
    }

    method AddCookies(cookies: seq<(string, string)>, keyNum0: nat, ghost before: Params, ghost gained: multiset<Input>)
      returns (keyNum: nat)
      requires Gains(before, entries, gained)
      modifies this
      ensures Gains(before, entries, gained + CookieInputs(cookies))
    {
      keyNum := keyNum0;
      ghost var sum := gained;
      for i := 0 to |cookies|
        invariant Gains(before, entries, sum) && sum == gained + CookieInputs(cookies[..i])
      {
        CookieInputsStep(cookies, i);
        var (name, value) := cookies[i];
        keyNum := AddFresh(Cookie, name, value, keyNum, before, sum);
        sum := sum + multiset{Input(Cookie, name, value)};
      }
      assert cookies[..|cookies|] == cookies;
    }

    /** One member: a leaf is added, an object or array goes on the worklist. */
    method AddMember(m: (string, Json), path: string, w0: Worklist, keyNum0: nat, ghost before: Params,
                     ghost gained0: multiset<Input>)
      returns (w: Worklist, keyNum: nat, ghost gained: multiset<Input>)
      requires Gains(before, entries, gained0)
      modifies this
      ensures Gains(before, entries, gained)
      ensures gained + PendingLeaves(w) == gained0 + PendingLeaves(w0) + Leaf(m, path)
      ensures PendingNodes(w) == PendingNodes(w0) + NodesIn(m)
    {
      w, keyNum, gained := w0, keyNum0, gained0;
      match m.1 {
        case Text(s) =>
          keyNum := AddFresh(JsonLeaf, path + "->" + m.0, s, keyNum, before, gained);
          gained := gained + multiset{Input(JsonLeaf, path + "->" + m.0, s)};
        case Node(members) =>
          PendingPush(w, m, path);
          w := w + [(m.1, path + "->" + m.0)];
        case Other =>
      }
    }

    method AddMembers(ms: seq<(string, Json)>, path: string, w0: Worklist, keyNum0: nat,
                      ghost before: Params, ghost gained0: multiset<Input>)
      returns (w: Worklist, keyNum: nat, ghost gained: multiset<Input>)
      requires Gains(before, entries, gained0)
      modifies this
      ensures Gains(before, entries, gained)
      ensures gained + PendingLeaves(w) == gained0 + PendingLeaves(w0) + Leaves(ms, path)
      ensures PendingNodes(w) == PendingNodes(w0) + Nodes(ms)
    {
      w, keyNum, gained := w0, keyNum0, gained0;
      assert ms[0..] == ms;
      for i := 0 to |ms|
        invariant Gains(before, entries, gained)
        invariant gained + PendingLeaves(w) + Leaves(ms[i..], path) == gained0 + PendingLeaves(w0) + Leaves(ms, path)
        invariant PendingNodes(w) + Nodes(ms[i..]) == PendingNodes(w0) + Nodes(ms)
      {
        MembersStep(ms, i, path);
        w, keyNum, gained := AddMember(ms[i], path, w, keyNum, before, gained);
      }
    }

    /** `while (jsons.length > 0) { ... jsons.pop() ... }` */
    method AddJson(json: Json, keyNum0: nat, ghost before: Params, ghost gained0: multiset<Input>)
      requires Gains(before, entries, gained0)
      modifies this
      ensures Gains(before, entries, gained0 + Leaves(Members(json), "input_json"))
    {
      var jsons: Worklist := [(json, "input_json")];
      var keyNum := keyNum0;
      ghost var gained := gained0;
      assert jsons[..0] == [];
      while |jsons| > 0
        invariant Gains(before, entries, gained)
        invariant gained + PendingLeaves(jsons) == gained0 + Leaves(Members(json), "input_json")
        decreases PendingNodes(jsons)
      {
        var (obj, key) := jsons[|jsons| - 1];
        jsons := jsons[..|jsons| - 1];
        jsons, keyNum, gained := AddMembers(Members(obj), key, jsons, keyNum, before, gained);
      }
    }
  }

  class Context {
    const header: Option<seq<(string, string)>>
    /** The pairs parsed from the property `cookie` of the header object; `None` when it has no such property. */
    const cookies: Option<seq<(string, string)>>
    const json: Option<Json>
    var parameter: ParameterObject?
    var merged: bool

    constructor (header: Option<seq<(string, string)>>, cookies: Option<seq<(string, string)>>, json: Option<Json>,
                 parameter: ParameterObject?)
      ensures this.header == header && this.cookies == cookies && this.json == json
      ensures this.parameter == parameter && !merged
    {
      this.header, this.cookies, this.json, this.parameter, merged := header, cookies, json, parameter, false;
    }

    /** Parsing the cookies of a header object without the property `cookie` fails. */
    predicate Throws() {
      header.Some? && cookies.None? && AnyCookie(header.value)
    }

    /** Every cookie, listed header and JSON string leaf. */
    ghost function Inputs(): multiset<Input> {
      (if header.None? then multiset{}
       else HeaderInputs(header.value, CookiePairs()))
      + Leaves(Members(if json.Some? then json.value else Node([])), "input_json")
    }

    ghost function CookiePairs(): seq<(string, string)> {
      if cookies.Some? then cookies.value else []
    }

    method AddHeader(h: (string, string), parameter: ParameterObject, keyNum0: nat, ghost before: Params,
                     ghost sum: multiset<Input>)
      returns (threw: bool, keyNum: nat)
      requires Gains(before, parameter.entries, sum)
      modifies parameter
      ensures threw <==> cookies.None? && NamesCookie(h)
      ensures !threw ==> Gains(before, parameter.entries, sum + HeaderInput(h, CookiePairs()))
    {
      threw, keyNum := false, keyNum0;
      if NamesCookie(h) {
        if cookies.None? {
          return true, keyNum;
        }
        keyNum := parameter.AddCookies(cookies.value, keyNum, before, sum);
      } else if ListedHeader(h.0) {
        keyNum := parameter.AddFresh(Header, h.0, h.1, keyNum, before, sum);
      } else {
        assert sum + multiset{} == sum;
      }
    }

    method AddHeaders(parameter: ParameterObject, ghost before: Params) returns (threw: bool, keyNum: nat)
      requires header.Some? && Gains(before, parameter.entries, multiset{})
      modifies parameter
      ensures threw <==> Throws()
      ensures !threw ==> Gains(before, parameter.entries, HeaderInputs(header.value, CookiePairs()))
    {
      var h := header.value;
      ghost var sum: multiset<Input> := multiset{};
      threw, keyNum := false, 0;
      for i := 0 to |h|
        invariant Gains(before, parameter.entries, sum) && sum == HeaderInputs(h[..i], CookiePairs())
        invariant !threw && (cookies.None? ==> !AnyCookie(h[..i]))
      {
        HeaderInputsStep(h, i, CookiePairs());
        AnyCookieStep(h, i);
        threw, keyNum := AddHeader(h[i], parameter, keyNum, before, sum);
        if threw {
          CookieIsAny(h, i + 1);
          return;
        }
        sum := sum + HeaderInput(h[i], CookiePairs());
      }
      assert h[..|h|] == h;
    }

    method GetAllParameter() returns (threw: bool, r: ParameterObject)
      modifies this`merged, parameter
      ensures merged
      ensures old(merged) ==> !threw && (parameter != null ==> r == parameter && r.entries == old(r.entries))
      ensures old(merged) && parameter == null ==> fresh(r) && r.entries == map[]
      ensures !old(merged) ==> threw == Throws() && (if parameter != null then r == parameter else fresh(r))
      ensures !old(merged) && !threw ==>
        Gains(if parameter != null then old(parameter.entries) else map[], r.entries, Inputs())
    {
      threw := false;
      if parameter != null {
        r := parameter;
      } else {
        r := new ParameterObject(map[]);
      }
      if merged {
        return;
      }
      merged := true;
      var keyNum := 0;
      ghost var before := r.entries;
      GainsNothing(before);
      if header.Some? {
        threw, keyNum := AddHeaders(r, before);
        if threw {
          return;
        }
      }
      r.AddJson(if json.Some? then json.value else Node([]), keyNum, before,
                if header.None? then multiset{} else HeaderInputs(header.value, CookiePairs()));
    }
  }

  /** A second call gives an equal answer exactly when the context has a parameter object, which the inputs are merged
      into, or when there is no input; otherwise the merged object was never attached, and the second answer is
      empty. */
  method MergeTwice(c: Context) returns (first: ParameterObject, second: ParameterObject)
    requires !c.merged && !c.Throws()
    modifies c, c.parameter
    ensures c.parameter == old(c.parameter)
    ensures c.parameter != null ==> second == first && Gains(old(c.parameter.entries), second.entries, c.Inputs())
    ensures c.parameter == null ==> Gains(map[], first.entries, c.Inputs()) && second.entries == map[]
    ensures second.entries == first.entries <==> c.parameter != null || c.Inputs() == multiset{}
  {
    var threw;
    threw, first := c.GetAllParameter();
    threw, second := c.GetAllParameter();
    if c.parameter == null {
      GainsMeans(map[], first.entries, c.Inputs());
    }
  }

  /** A request with the JSON body `{"a": "b"}` and no parameter object: the first answer has an entry, the second has
      none. */
  method AnswersDiffer() returns (first: ParameterObject, second: ParameterObject)
    ensures |first.entries| == 1 && |second.entries| == 0
  {
    var body := Node([("a", Text("b"))]);
    var c := new Context(None, None, Some(body), null);
    first, second := MergeTwice(c);
    OneLeaf("a", "b", "input_json");
    GainsMeans(map[], first.entries, c.Inputs());
  }

  lemma OneLeaf(name: string, text: string, path: string)
    ensures Leaves([(name, Text(text))], path) == multiset{Input(JsonLeaf, path + "->" + name, text)}
  {
    var ms := [(name, Text(text))];
    assert ms[1..] == [];
  }
}
