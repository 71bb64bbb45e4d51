/** The hook whitelist: configured names become bit masks per URL prefix, are combined over the prefixes of a request's
    URL, and are tested by one shift. */
module Whitelist {

  // ----- check types

  datatype CheckType =
    | INVALID_TYPE | CALLABLE | COMMAND | DIRECTORY | READ_FILE | WRITE_FILE | DELETE_FILE | COPY | RENAME
    | FILE_UPLOAD | INCLUDE | EVAL | DB_CONNECTION | SQL | SQL_PREPARED | SQL_ERROR | SSRF | WEBSHELL_EVAL
    | WEBSHELL_COMMAND | WEBSHELL_FILE_PUT_CONTENTS | WEBSHELL_ENV | XSS_ECHO | XSS_USER_INPUT | REQUEST
    | REQUEST_END | MONGO | SSRF_REDIRECT | RESPONSE

  /** The value of an enumerator; `ALL_TYPE` comes after the last. */
  function Code(t: CheckType): nat {
    match t
    case INVALID_TYPE => 0 case CALLABLE => 1 case COMMAND => 2 case DIRECTORY => 3 case READ_FILE => 4
    case WRITE_FILE => 5 case DELETE_FILE => 6 case COPY => 7 case RENAME => 8 case FILE_UPLOAD => 9
    case INCLUDE => 10 case EVAL => 11 case DB_CONNECTION => 12 case SQL => 13 case SQL_PREPARED => 14
    case SQL_ERROR => 15 case SSRF => 16 case WEBSHELL_EVAL => 17 case WEBSHELL_COMMAND => 18
    case WEBSHELL_FILE_PUT_CONTENTS => 19 case WEBSHELL_ENV => 20 case XSS_ECHO => 21 case XSS_USER_INPUT => 22
    case REQUEST => 23 case REQUEST_END => 24 case MONGO => 25 case SSRF_REDIRECT => 26 case RESPONSE => 27
  }

  lemma CodesDiffer(t: CheckType, u: CheckType)
    ensures Code(t) < ALL_TYPE
    ensures Code(t) == Code(u) ==> t == u
  {
  }

  const ALL_TYPE := 28

  type Mask = bv32

  /** `1 << c`, shifted one place at a time. */
  function Bit(c: nat): Mask {
    if c == 0 then 1 else Bit(c - 1) << 1
  }

  /** `x & m`, as a truth value. */
  predicate Meets(x: Mask, m: Mask) {
    x & m != 0
  }

  /** `(1 << t) & m`: the check type's bit is set. */
  predicate Has(m: Mask, t: CheckType) {
    Meets(Bit(Code(t)), m)
  }

  // ----- the masks are sets of check types

  lemma Powers()
    ensures Bit(0) == 0x1 && Bit(1) == 0x2 && Bit(2) == 0x4 && Bit(3) == 0x8 && Bit(4) == 0x10
    ensures Bit(5) == 0x20 && Bit(6) == 0x40 && Bit(7) == 0x80 && Bit(8) == 0x100 && Bit(9) == 0x200
    ensures Bit(10) == 0x400 && Bit(11) == 0x800 && Bit(12) == 0x1000 && Bit(13) == 0x2000 && Bit(14) == 0x4000
    ensures Bit(15) == 0x8000 && Bit(16) == 0x10000 && Bit(17) == 0x20000 && Bit(18) == 0x40000 && Bit(19) == 0x80000
    ensures Bit(20) == 0x100000 && Bit(21) == 0x200000 && Bit(22) == 0x400000 && Bit(23) == 0x800000
    ensures Bit(24) == 0x1000000 && Bit(25) == 0x2000000 && Bit(26) == 0x4000000 && Bit(27) == 0x8000000
    ensures Bit(28) == 0x10000000
  {
  }

  lemma ShiftedDisjoint(x: Mask, y: Mask)
    requires x & y == 0
    ensures (x << 1) & (y << 1) == 0
  {
  }

  lemma OneAndShifted(y: Mask)
    ensures 1 & (y << 1) == 0
  {
  }

  lemma {:induction false} BitsDisjoint(c: nat, d: nat)
    requires c < d
    ensures Bit(c) & Bit(d) == 0
  {
    if c == 0 {
      OneAndShifted(Bit(d - 1));
    } else {
      BitsDisjoint(c - 1, d - 1);
      ShiftedDisjoint(Bit(c - 1), Bit(d - 1));
    }
  }

  lemma AllBits(c: nat)
    requires c < ALL_TYPE
    ensures Meets(Bit(c), Bit(c)) && Meets(Bit(c), Bit(ALL_TYPE) - 1)
  {
    Powers();
  }

  lemma AndCommutes(x: Mask, y: Mask)
    ensures x & y == y & x
  {
  }

  lemma OneBit(c: nat, d: nat)
    requires c < ALL_TYPE && d < ALL_TYPE
    ensures Meets(Bit(d), Bit(c)) <==> c == d
  {
    if c < d {
      BitsDisjoint(c, d);
      AndCommutes(Bit(c), Bit(d));
    } else if d < c {
      BitsDisjoint(d, c);
    } else {
      AllBits(c);
    }
  }

  lemma UnionMeets(m: Mask, n: Mask, x: Mask)
    ensures Meets(x, m | n) <==> Meets(x, m) || Meets(x, n)
  {
    assert x & (m | n) == (x & m) | (x & n);
    OrZero(x & m, x & n);
  }

  lemma OrZero(x: Mask, y: Mask)
    ensures x | y == 0 <==> x == 0 && y == 0
  {
  }

  /** The check types whose bits are set. */
  ghost function Types(m: Mask): set<CheckType> {
    set t: CheckType | Has(m, t)
  }

  lemma OneType(t: CheckType)
    ensures Types(Bit(Code(t))) == {t}
  {
    forall u ensures Has(Bit(Code(t)), u) <==> u == t {
      OneBit(Code(t), Code(u));
      CodesDiffer(t, u);
    }
  }

  lemma UnionTypes(m: Mask, n: Mask)
    ensures Types(m | n) == Types(m) + Types(n)
  {
    forall t ensures Has(m | n, t) <==> Has(m, t) || Has(n, t) {
      UnionMeets(m, n, Bit(Code(t)));
    }
  }

  /** `m |= n` */
  method Join(m: Mask, n: Mask) returns (r: Mask)
    ensures Types(r) == Types(m) + Types(n)
  {
    UnionTypes(m, n);
    r := m | n;
  }

  lemma NoTypes()
    ensures Types(0) == {}
  {
    forall t ensures !Has(0, t) { NoneMeets(Bit(Code(t))); }
  }

  lemma NoneMeets(x: Mask)
    ensures !Meets(x, 0)
  {
  }

  /** `(1 << ALL_TYPE) - 1` */
  method AllMask() returns (m: Mask)
    ensures forall t :: t in Types(m)
  {
    m := Bit(ALL_TYPE) - 1;
    forall t ensures t in Types(m) {
      CodesDiffer(t, t);
      AllBits(Code(t));
    }
  }

  // ----- names, as `CheckTypeTransfer` registers them

  function TypeToName(t: CheckType): string {
    match t
    case CALLABLE => "webshell_callable" case COMMAND => "command" case DIRECTORY => "directory"
    case READ_FILE => "readFile" case WRITE_FILE => "writeFile" case COPY => "copy" case RENAME => "rename"
    case FILE_UPLOAD => "fileUpload" case INCLUDE => "include" case DB_CONNECTION => "dbConnection"
    case SQL => "sql" case SQL_PREPARED => "sqlPrepared" case SSRF => "ssrf" case WEBSHELL_EVAL => "webshell_eval"
    case WEBSHELL_COMMAND => "webshell_command" case WEBSHELL_FILE_PUT_CONTENTS => "webshell_file_put_contents"
    case XSS_ECHO => "xss_echo" case XSS_USER_INPUT => "xss_userinput" case SQL_ERROR => "sql_exception"
    case WEBSHELL_ENV => "webshell_ld_preload" case REQUEST => "request" case REQUEST_END => "requestEnd"
    case EVAL => "eval" case DELETE_FILE => "deleteFile" case MONGO => "mongodb"
    case SSRF_REDIRECT => "ssrfRedirect" case RESPONSE => "response" case INVALID_TYPE => "unknown"
  }

  /** The registered types, in the order of registration. */
  const REGISTERED: seq<CheckType> :=
    [CALLABLE, COMMAND, DIRECTORY, READ_FILE, WRITE_FILE, COPY, RENAME, FILE_UPLOAD, INCLUDE, DB_CONNECTION, SQL,
     SQL_PREPARED, SSRF, WEBSHELL_EVAL, WEBSHELL_COMMAND, WEBSHELL_FILE_PUT_CONTENTS, XSS_ECHO, XSS_USER_INPUT,
     SQL_ERROR, WEBSHELL_ENV, REQUEST, REQUEST_END, EVAL, DELETE_FILE, MONGO, SSRF_REDIRECT, RESPONSE]

  const BUILDIN: seq<CheckType> :=
    [CALLABLE, WEBSHELL_EVAL, WEBSHELL_COMMAND, WEBSHELL_FILE_PUT_CONTENTS, XSS_ECHO, XSS_USER_INPUT, WEBSHELL_ENV]

  function Search(types: seq<CheckType>, name: string): CheckType {
    if types == [] then INVALID_TYPE
    else if TypeToName(types[0]) == name then types[0]
    else Search(types[1..], name)
  }

  function NameToType(name: string): CheckType {
    Search(REGISTERED, name)
  }

  /** Length, first and third character of a name tell its type. */
  function TypeByLetters(n: nat, a: char, c: char): CheckType {
    match n
    case 3 => SQL
    case 4 => if a == 'c' then COPY else if a == 's' then SSRF else EVAL
    case 6 => RENAME
    case 7 =>
      if a == 'c' then COMMAND else if a == 'i' then INCLUDE else if a == 'r' then REQUEST
      else if a == 'm' then MONGO else INVALID_TYPE
    case 8 => if a == 'x' then XSS_ECHO else if c == 'a' then READ_FILE else RESPONSE
    case 9 => if a == 'd' then DIRECTORY else WRITE_FILE
    case 10 => if a == 'f' then FILE_UPLOAD else if a == 'r' then REQUEST_END else DELETE_FILE
    case 11 => SQL_PREPARED
    case 12 => if a == 'd' then DB_CONNECTION else SSRF_REDIRECT
    case 13 => if a == 'w' then WEBSHELL_EVAL else if a == 'x' then XSS_USER_INPUT else SQL_ERROR
    case 16 => WEBSHELL_COMMAND
    case 17 => CALLABLE
    case 19 => WEBSHELL_ENV
    case _ => WEBSHELL_FILE_PUT_CONTENTS
  }

  lemma LettersTellType(t: CheckType)
    ensures var name := TypeToName(t); |name| >= 3 && TypeByLetters(|name|, name[0], name[2]) == t
  {
  }

  lemma {:induction false} SearchFinds(types: seq<CheckType>, name: string)
    ensures var t := Search(types, name); t != INVALID_TYPE ==> t in types && TypeToName(t) == name
    ensures forall t :: t in types && TypeToName(t) == name ==> Search(types, name) == t
  {
    if types != [] {
      SearchFinds(types[1..], name);
      forall t | t in types && TypeToName(t) == name ensures Search(types, name) == t {
        if TypeToName(types[0]) == name {
          LettersTellType(t);
          LettersTellType(types[0]);
        }
      }
    }
  }

  /** The two lookups are inverse on the registered names; any other name gives `INVALID_TYPE`. */
  lemma NamesAndTypes(t: CheckType, name: string)
    requires t != INVALID_TYPE
    ensures NameToType(name) == t <==> name == TypeToName(t)
  {
    SearchFinds(REGISTERED, name);
    assert t in REGISTERED by { Registered(t); }
  }

  lemma Registered(t: CheckType)
    requires t != INVALID_TYPE
    ensures t in REGISTERED
  {
    var i := match t
      case CALLABLE => 0 case COMMAND => 1 case DIRECTORY => 2 case READ_FILE => 3 case WRITE_FILE => 4 case COPY => 5
      case RENAME => 6 case FILE_UPLOAD => 7 case INCLUDE => 8 case DB_CONNECTION => 9 case SQL => 10
      case SQL_PREPARED => 11 case SSRF => 12 case WEBSHELL_EVAL => 13 case WEBSHELL_COMMAND => 14
      case WEBSHELL_FILE_PUT_CONTENTS => 15 case XSS_ECHO => 16 case XSS_USER_INPUT => 17 case SQL_ERROR => 18
      case WEBSHELL_ENV => 19 case REQUEST => 20 case REQUEST_END => 21 case EVAL => 22 case DELETE_FILE => 23
      case MONGO => 24 case SSRF_REDIRECT => 25 case RESPONSE => 26;
    assert REGISTERED[i] == t;
  }

  // ----- from configured names to masks

  /** A list of names covers a check type. */
  predicate Lists(names: seq<string>, t: CheckType) {
    "all" in names || TypeToName(t) in names
  }

  function NamedTypes(names: seq<string>): (types: seq<CheckType>)
    ensures |types| == |names| && forall i :: 0 <= i < |names| ==> types[i] == NameToType(names[i])
  {
    seq(|names|, i requires 0 <= i < |names| => NameToType(names[i]))
  }

  /** The first `n` types of a list. */
  ghost function FirstTypes(types: seq<CheckType>, n: nat): set<CheckType>
    requires n <= |types|
  {
    set i | 0 <= i < n :: types[i]
  }

  /** A name that is not registered sets bit 0 and no other. */
  method BuildMask(names: seq<string>) returns (m: Mask)
    ensures forall t :: t != INVALID_TYPE ==> (t in Types(m) <==> Lists(names, t))
    ensures INVALID_TYPE in Types(m) <==>
            "all" in names || exists j :: 0 <= j < |names| && NameToType(names[j]) == INVALID_TYPE
  {
    m := 0;
    if "all" in names {
      m := AllMask();
    } else {
      ghost var types := NamedTypes(names);
      NoTypes();
      for i := 0 to |names|
        invariant Types(m) == FirstTypes(types, i)
      {
        var t := NameToType(names[i]);
        assert FirstTypes(types, i + 1) == FirstTypes(types, i) + {types[i]};
        OneType(t);
        m := Join(m, Bit(Code(t)));
      }
      forall t | t != INVALID_TYPE ensures t in Types(m) <==> Lists(names, t) {
        forall j | 0 <= j < |names| ensures NameToType(names[j]) == t <==> names[j] == TypeToName(t) {
          NamesAndTypes(t, names[j]);
        }
      }
    }
  }

  // ----- from the configuration to the table

  /** The order of `std::map` keys. */
  predicate Less(a: string, b: string) {
    b != "" && (a == "" || a[0] < b[0] || (a[0] == b[0] && Less(a[1..], b[1..])))
  }

  lemma {:induction false} LessIrreflexive(a: string)
    ensures !Less(a, a)
  {
    if a != "" { LessIrreflexive(a[1..]); }
  }

  type Config = seq<(string, seq<string>)>

  /** A map from URL prefixes to type names, as it is walked: keys ascending. */
  ghost predicate Ascending(config: Config) {
    forall i, j :: 0 <= i < j < |config| ==> Less(config[i].0, config[j].0)
  }

  /** `*` stands for the empty prefix. */
  function Key(k: string): string {
    if k == "*" then "" else k
  }

  /** The entry counts: `*` is ignored when the empty prefix is configured too. */
  ghost predicate Effective(config: Config, i: nat)
    requires i < |config|
  {
    config[i].0 == "*" ==> forall j :: 0 <= j < |config| ==> config[j].0 != ""
  }

  type Table = map<string, Mask>

  /** The first entry with a key; `insert` keeps an entry that is there. */
  function Owner(config: Config, k: string): (p: nat)
    ensures p <= |config| && (p < |config| ==> Key(config[p].0) == k)
    ensures forall j :: 0 <= j < p ==> Key(config[j].0) != k
  {
    if config == [] || Key(config[0].0) == k then 0 else 1 + Owner(config[1..], k)
  }

  /** The table has the keys of the first `n` entries, and says of each what its first entry lists. */
  ghost predicate Tabulates(table: Table, config: Config, n: nat) {
    && n <= |config|
    && (forall k :: k in table <==> Owner(config, k) < n)
    && (forall k, t :: k in table && t != INVALID_TYPE ==>
         (t in Types(table[k]) <==> Lists(config[Owner(config, k)].1, t)))
  }

  method BuildTable(config: Config) returns (table: Table)
    ensures Tabulates(table, config, |config|)
  {
    table := map[];
    for i := 0 to |config|
      invariant Tabulates(table, config, i)
    {
      var mask := BuildMask(config[i].1);
      var key := Key(config[i].0);
      forall k ensures Owner(config, k) == i <==> k == key && key !in table {
        assert key !in table ==> Owner(config, key) >= i;
      }
      if key !in table {
        table := table[key := mask];
      }
    }
  }

  /** Two entries with one key are the empty prefix and `*`, in this order. */
  lemma KeysClash(config: Config, i: nat, j: nat)
    requires Ascending(config) && i < j < |config|
    ensures Key(config[i].0) == Key(config[j].0) <==> config[i].0 == "" && config[j].0 == "*"
    ensures config[j].0 != ""
  {
    LessIrreflexive(config[i].0);
    assert Less(config[i].0, config[j].0);
  }

  /** In an ascending configuration the first entries with their keys are the effective ones. */
  lemma EffectiveOwns(config: Config, i: nat)
    requires Ascending(config) && i < |config|
    ensures Effective(config, i) <==> Owner(config, Key(config[i].0)) == i
  {
    var p := Owner(config, Key(config[i].0));
    if p < i {
      KeysClash(config, p, i);
    }
    if j: nat :| j < |config| && config[i].0 == "*" && config[j].0 == "" {
      if i < j {
        KeysClash(config, i, j);
      }
    }
  }

  // ----- from the table to the request

  /** `k` starts `url`. */
  predicate Starts(k: string, url: string) {
    k <= url
  }

  /** What the keys of fewer than `n` characters that start the URL list together. */
  ghost function Gathered(table: Table, url: string, n: nat): set<CheckType>
    requires n <= |url| + 1
  {
    if n == 0 then {}
    else Gathered(table, url, n - 1) + if url[..n - 1] in table then Types(table[url[..n - 1]]) else {}
  }

  lemma {:induction false} GatheredMeans(table: Table, url: string, n: nat, t: CheckType)
    requires n <= |url| + 1
    ensures t in Gathered(table, url, n) <==>
            exists k :: k in table && Starts(k, url) && |k| < n && t in Types(table[k])
  {
    if n > 0 {
      GatheredMeans(table, url, n - 1, t);
      var last := url[..n - 1];
      assert forall k :: Starts(k, url) && |k| == n - 1 <==> k == last;
    }
  }

  /** `prefix_search`: every key that is a prefix of the URL, shortest first; the masks are combined. */
  method CombineMasks(table: Table, url: string) returns (m: Mask)
    ensures forall t :: t in Types(m) <==> exists k :: k in table && Starts(k, url) && t in Types(table[k])
  {
    m := 0;
    NoTypes();
    for n := 0 to |url| + 1
      invariant Types(m) == Gathered(table, url, n)
    {
      var key := url[..n];
      if key in table {
        m := Join(m, table[key]);
      }
    }
    forall t ensures t in Types(m) <==> exists k :: k in table && Starts(k, url) && t in Types(table[k]) {
      GatheredMeans(table, url, |url| + 1, t);
    }
  }

  /** What stands behind the first `://`. */
  function Remainder(url: string): (r: seq<string>)
    ensures |r| <= 1
  {
    if |url| < 3 then []
    else if url[..3] == "://" then [url[3..]]
    else Remainder(url[1..])
  }

  /** `://` stands at `i`. */
  predicate ColonAt(url: string, i: nat) {
    i + 3 <= |url| && url[i] == ':' && url[i + 1] == '/' && url[i + 2] == '/'
  }

  lemma ColonIsSlice(url: string)
    ensures ColonAt(url, 0) <==> |url| >= 3 && url[..3] == "://"
  {
  }

  lemma {:induction false} RemainderBehind(url: string, i: nat)
    requires ColonAt(url, i) && forall j :: 0 <= j < i ==> !ColonAt(url, j)
    ensures Remainder(url) == [url[i + 3..]]
  {
    ColonIsSlice(url);
    if i > 0 {
      assert !ColonAt(url, 0);
      forall j | 0 <= j < i - 1 ensures !ColonAt(url[1..], j) {
        assert !ColonAt(url, j + 1);
      }
      RemainderBehind(url[1..], i - 1);
      assert url[1..][i + 2..] == url[i + 3..];
    }
  }

  lemma {:induction false} RemainderMissing(url: string)
    requires forall j: nat :: !ColonAt(url, j)
    ensures Remainder(url) == []
  {
    ColonIsSlice(url);
    if |url| >= 3 {
      forall j: nat ensures !ColonAt(url[1..], j) {
        assert !ColonAt(url, j + 1);
      }
      RemainderMissing(url[1..]);
    }
  }

  /** Some configured prefix of the remainder lists the check type. */
  ghost predicate Listed(config: Config, rest: string, t: CheckType) {
    exists i :: 0 <= i < |config| && Effective(config, i) && Starts(Key(config[i].0), rest) && Lists(config[i].1, t)
  }

  lemma CombinedMeans(table: Table, config: Config, rest: string, t: CheckType)
    requires Ascending(config) && Tabulates(table, config, |config|) && t != INVALID_TYPE
    ensures (exists k :: k in table && Starts(k, rest) && t in Types(table[k])) <==> Listed(config, rest, t)
  {
    if k :| k in table && Starts(k, rest) && t in Types(table[k]) {
      EffectiveOwns(config, Owner(config, k));
      assert Listed(config, rest, t);
    }
    if i :| 0 <= i < |config| && Effective(config, i) && Starts(Key(config[i].0), rest) && Lists(config[i].1, t) {
      EffectiveOwns(config, i);
      assert Key(config[i].0) in table;
    }
  }

  class SharedConfigManager {
    var table: Table
    ghost var config: Config

    ghost predicate Valid()
      reads this
    {
      Ascending(config) && Tabulates(table, config, |config|)
    }

    constructor ()
      ensures Valid() && config == []
    {
      table, config := map[], [];
    }

    /** `fits`: the trie could be built and is not too large; otherwise the old table stays. */
    method BuildCheckTypeWhiteArray(urlTypes: Config, fits: bool) returns (built: bool)
      requires Valid() && Ascending(urlTypes)
      modifies this
      ensures Valid() && built == fits && config == if fits then urlTypes else old(config)
    {
      var masks := BuildTable(urlTypes);
      if fits {
        table, config := masks, urlTypes;
      }
      built := fits;
    }

    method GetCheckTypeWhiteBitMask(url: string) returns (m: Mask)
      requires Valid()
      ensures forall t :: t != INVALID_TYPE ==> (t in Types(m) <==> Listed(config, url, t))
    {
      m := CombineMasks(table, url);
      forall t | t != INVALID_TYPE ensures t in Types(m) <==> Listed(config, url, t) {
        CombinedMeans(table, config, url, t);
      }
    }
  }

  predicate IsBuiltIn(t: CheckType) {
    || t.CALLABLE? || t.WEBSHELL_EVAL? || t.WEBSHELL_COMMAND? || t.WEBSHELL_FILE_PUT_CONTENTS?
    || t.XSS_ECHO? || t.XSS_USER_INPUT? || t.WEBSHELL_ENV?
  }

  lemma BuiltInListed(t: CheckType)
    ensures t in BUILDIN <==> IsBuiltIn(t)
  {
    assert t in BUILDIN <==> t == BUILDIN[0] || t == BUILDIN[1] || t == BUILDIN[2] || t == BUILDIN[3]
                             || t == BUILDIN[4] || t == BUILDIN[5] || t == BUILDIN[6];
  }

  lemma BuiltInLetters(t: CheckType)
    ensures var name := TypeToName(t);
      |name| > 2 && (IsBuiltIn(t) <==> name[0] == 'x' || (name[0] == 'w' && name[1] == 'e'))
  {
  }

  /** The built-in checks are those named `xss_...` and `webshell_...`; the first letters tell them from all others. */
  lemma BuiltIn(t: CheckType)
    ensures var name := TypeToName(t);
      |name| > 2 && (t in BUILDIN <==> name[0] == 'x' || (name[0] == 'w' && name[1] == 'e'))
  {
    BuiltInListed(t);
    BuiltInLetters(t);
  }

  ghost function Chosen(types: seq<CheckType>, ignores: CheckType -> bool): set<CheckType> {
    set t | t in types && ignores(t)
  }

  lemma ChosenNext(types: seq<CheckType>, t: CheckType, ignores: CheckType -> bool)
    ensures Chosen(types + [t], ignores) == Chosen(types, ignores) + if ignores(t) then {t} else {}
  {
  }

  class HookGlobals {
    var checkTypeWhiteBitMask: Mask
    var inRequestProcess: bool

    constructor ()
      ensures checkTypeWhiteBitMask == 0 && !inRequestProcess
    {
      checkTypeWhiteBitMask, inRequestProcess := 0, false;
    }

    /** Mask set-up at request start. `ignores` says which built-in checks have the action `ignore`. A URL without
        `://` leaves the mask of the request before. */
    method RequestStart(scm: SharedConfigManager, url: string, ignores: CheckType -> bool)
      requires scm.Valid()
      modifies this`checkTypeWhiteBitMask
      ensures forall t :: t != INVALID_TYPE ==>
        (t in Types(checkTypeWhiteBitMask) <==>
          || (if Remainder(url) != [] then Listed(scm.config, Remainder(url)[0], t)
              else t in Types(old(checkTypeWhiteBitMask)))
          || (t in BUILDIN && ignores(t)))
    {
      if url != "" {
        var found := Remainder(url);
        if found != [] {
          checkTypeWhiteBitMask := scm.GetCheckTypeWhiteBitMask(found[0]);
        }
      }
      ghost var start := checkTypeWhiteBitMask;
      for i := 0 to |BUILDIN|
        invariant Types(checkTypeWhiteBitMask) == Types(start) + Chosen(BUILDIN[..i], ignores)
      {
        var checkType := BUILDIN[i];
        assert BUILDIN[..i + 1] == BUILDIN[..i] + [checkType];
        ChosenNext(BUILDIN[..i], checkType, ignores);
        if ignores(checkType) {
          OneType(checkType);
          checkTypeWhiteBitMask := Join(checkTypeWhiteBitMask, Bit(Code(checkType)));
        }
      }
      assert BUILDIN[..|BUILDIN|] == BUILDIN;
    }

    /** `openrasp_check_type_ignored`: outside a request everything is, inside the bit decides. */
    predicate CheckTypeIgnored(t: CheckType)
      reads this
    {
      !inRequestProcess || Has(checkTypeWhiteBitMask, t)
    }
  }

  /** Outside a request every check type is ignored; inside one whose URL has `://`, exactly when some effective
      configured prefix of the rest of the URL lists its name or `all`, or it is built in with the action `ignore`. A
      URL without `://` leaves what the request before had. */
  method IgnoredInRequest(hooks: HookGlobals, scm: SharedConfigManager, url: string, ignores: CheckType -> bool,
                          t: CheckType)
    returns (ignored: bool)
    requires scm.Valid() && t != INVALID_TYPE
    modifies hooks
    ensures ignored <==>
      || !hooks.inRequestProcess
      || (if Remainder(url) != [] then Listed(scm.config, Remainder(url)[0], t)
          else t in Types(old(hooks.checkTypeWhiteBitMask)))
      || (t in BUILDIN && ignores(t))
  {
    hooks.RequestStart(scm, url, ignores);
    ignored := hooks.CheckTypeIgnored(t);
  }

  /** With both `*` and the empty prefix configured, what `*` lists is lost: the condition on the keys is needed. */
  lemma StarIsShadowed(names: seq<string>, t: CheckType)
    requires t != INVALID_TYPE && Lists(names, t)
    ensures Ascending([("", []), ("*", names)]) && !Listed([("", []), ("*", names)], "", t)
    ensures Ascending([("*", names)]) && Listed([("*", names)], "", t)
  {
    var alone: Config := [("*", names)];
    assert Effective(alone, 0) && Starts(Key(alone[0].0), "");
    var both: Config := [("", []), ("*", names)];
    assert both[0].0 == "";
    assert !Effective(both, 1);
    assert Less("", "*");
  }
}
