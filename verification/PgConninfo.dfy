/** `pg_conninfo_parse`: PostgreSQL connection strings, unescaped in place in one NUL-terminated buffer. */
module PgConninfo {

  import opened Options

  /** A C string: the bytes before the terminator. */
  type CString = s: string | '\0' !in s

  /** `isspace` in the C locale: blank, and tab to carriage return. */
  predicate Space(c: char) {
    c == ' ' || '\t' <= c <= '\r'
  }

  // ----- the grammar: what stands at position `i` of `s`, and where it ends

  datatype Taken = Taken(text: string, next: nat)

  datatype Item = Item(name: string, value: string, next: nat) | Malformed

  /** The pairs before the first malformed item, and whether the whole text was read. */
  datatype Parsed = Parsed(pairs: seq<(string, string)>, complete: bool)

  function SkipSpaces(s: string, i: nat): (r: nat)
    requires i <= |s|
    ensures i <= r <= |s| && (r < |s| ==> !Space(s[r]))
    decreases |s| - i
  {
    if i == |s| || !Space(s[i]) then i else SkipSpaces(s, i + 1)
  }

  /** A keyword ends before the first `=` or white space. */
  function KeyEnd(s: string, i: nat): (r: nat)
    requires i <= |s|
    ensures i <= r <= |s|
    decreases |s| - i
  {
    if i == |s| || s[i] == '=' || Space(s[i]) then i else KeyEnd(s, i + 1)
  }

  function Prepend(out: string, t: Taken): Taken {
    Taken(out + t.text, t.next)
  }

  /** A value without quotes ends after the first white space; a backslash keeps the next character. */
  function Unquoted(s: string, i: nat): (t: Taken)
    requires i <= |s|
    ensures i + |t.text| <= t.next <= |s|
    decreases |s| - i
  {
    if i == |s| then Taken("", i)
    else if Space(s[i]) then Taken("", i + 1)
    else if s[i] != '\\' then Prepend([s[i]], Unquoted(s, i + 1))
    else if i + 1 == |s| then Taken("", i + 1)
    else Prepend([s[i + 1]], Unquoted(s, i + 2))
  }

  /** A quoted value, after its opening quote; `None` when the closing quote is missing. */
  function Quoted(s: string, i: nat): (t: Option<Taken>)
    requires i <= |s|
    ensures t.Some? ==> i + |t.value.text| < t.value.next <= |s|
    decreases |s| - i
  {
    if i == |s| then None
    else if s[i] == '\'' then Some(Taken("", i + 1))
    else if s[i] != '\\' then PrependAll([s[i]], Quoted(s, i + 1))
    else if i + 1 == |s| then None
    else PrependAll([s[i + 1]], Quoted(s, i + 2))
  }

  function PrependAll(out: string, t: Option<Taken>): Option<Taken> {
    match t
    case None => None
    case Some(u) => Some(Prepend(out, u))
  }

  function Value(s: string, i: nat): (t: Option<Taken>)
    requires i <= |s|
    ensures t.Some? ==> i <= t.value.next <= |s|
  {
    if i < |s| && s[i] == '\'' then Quoted(s, i + 1) else Some(Unquoted(s, i))
  }

  /** keyword, optional white space, `=`, optional white space, value. */
  function ParseItem(s: string, i: nat): (r: Item)
    requires i <= |s|
    ensures r.Item? ==> i < r.next <= |s|
  {
    var end := KeyEnd(s, i);
    var eq := SkipSpaces(s, end);
    if eq == |s| || s[eq] != '=' then Malformed
    else
      match Value(s, SkipSpaces(s, eq + 1))
      case None => Malformed
      case Some(v) => Item(s[i..end], v.text, v.next)
  }

  function ParseFrom(s: string, i: nat): Parsed
    requires i <= |s|
    decreases |s| - i
  {
    var start := SkipSpaces(s, i);
    if start == |s| then Parsed([], true)
    else
      match ParseItem(s, start)
      case Malformed => Parsed([], false)
      case Item(name, value, next) =>
        var tail := ParseFrom(s, next);
        Parsed([(name, value)] + tail.pairs, tail.complete)
  }

  function Parse(s: string): Parsed {
    ParseFrom(s, 0)
  }

  // ----- the buffer

  /** The C string that starts at `i`. */
  function CStr(b: seq<char>, i: nat): string
    requires i <= |b|
    decreases |b| - i
  {
    if i == |b| || b[i] == '\0' then "" else [b[i]] + CStr(b, i + 1)
  }

  /** From `cp` on, the buffer still holds the original text and its terminator. */
  ghost predicate Unread(b: array<char>, s: CString, cp: nat)
    reads b
  {
    && b.Length == |s| + 1
    && cp <= |s|
    && b[|s|] == '\0'
    && forall k :: cp <= k < |s| ==> b[k] == s[k]
  }

  /** The characters of `t` are stored from `i` on. */
  ghost predicate Holds(b: array<char>, i: nat, t: string)
    reads b
  {
    i + |t| <= b.Length && forall k :: i <= k < i + |t| ==> b[k] == t[k - i]
  }

  /** `t` is stored at `i` as a C string. */
  ghost predicate Stored(b: array<char>, i: nat, t: string)
    reads b
  {
    Holds(b, i, t) && i + |t| < b.Length && b[i + |t|] == '\0'
  }

  lemma {:induction false} StoredIsCStr(b: array<char>, i: nat, t: CString)
    requires Stored(b, i, t)
    ensures CStr(b[..], i) == t
    decreases |t|
  {
    if t != "" {
      assert b[i] == t[0] && t[0] in t;
      StoredIsCStr(b, i + 1, t[1..]);
      assert t == [t[0]] + t[1..];
    }
  }

  /** At an unread position the buffer shows the next character of the text, and NUL exactly at its end. */
  lemma Peek(b: array<char>, s: CString, cp: nat)
    requires Unread(b, s, cp)
    ensures b[cp] == '\0' <==> cp == |s|
    ensures cp < |s| ==> b[cp] == s[cp]
  {
    assert cp < |s| ==> s[cp] in s;
  }

  /** `while (*cp) { if (!isspace(*cp)) break; cp++; }` */
  method SkipSpacesInPlace(buf: array<char>, ghost s: CString, start: nat) returns (cp: nat)
    requires Unread(buf, s, start)
    ensures cp == SkipSpaces(s, start)
  {
    cp := start;
    Peek(buf, s, cp);
    while buf[cp] != '\0'
      invariant start <= cp <= |s|
      invariant SkipSpaces(s, start) == SkipSpaces(s, cp)
      invariant buf[cp] == '\0' <==> cp == |s|
      decreases |s| - cp
    {
      Peek(buf, s, cp);
      if !Space(buf[cp]) { break; }
      cp := cp + 1;
      Peek(buf, s, cp);
    }
  }

  /** Reads a keyword; white space after it is skipped, its first character becoming the terminator. */
  method ReadKeyword(buf: array<char>, ghost s: CString, pname: nat) returns (cp: nat)
    requires Unread(buf, s, pname)
    modifies buf
    ensures Unread(buf, s, cp)
    ensures var end := KeyEnd(s, pname);
      && cp == SkipSpaces(s, end)
      && Holds(buf, pname, s[pname..end])
      && (end < cp ==> buf[end] == '\0')
  {
    cp := pname;
    Peek(buf, s, cp);
    while buf[cp] != '\0'
      invariant pname <= cp <= |s|
      invariant forall k :: 0 <= k < buf.Length ==> buf[k] == old(buf[k])
      invariant KeyEnd(s, pname) == KeyEnd(s, cp)
      invariant buf[cp] == '\0' <==> cp == |s|
      decreases |s| - cp
    {
      Peek(buf, s, cp);
      if buf[cp] == '=' { break; }
      if Space(buf[cp]) {
        buf[cp] := '\0';
        cp := cp + 1;
        cp := SkipSpacesInPlace(buf, s, cp);
        break;
      }
      cp := cp + 1;
      Peek(buf, s, cp);
    }
  }

  /** `*cp2++ = *cp++`: the write cursor never passes the read cursor, so only read bytes are overwritten. */
  method CopyDown(buf: array<char>, ghost s: CString, cp: nat, cp2: nat, ghost pval: nat, ghost out: string)
    requires Unread(buf, s, cp) && cp < |s|
    requires pval + |out| == cp2 <= cp && Holds(buf, pval, out)
    modifies buf
    ensures Unread(buf, s, cp + 1) && Holds(buf, pval, out + [s[cp]])
    ensures forall k :: 0 <= k < pval ==> buf[k] == old(buf[k])
  {
    buf[cp2] := buf[cp];
  }

  /** Reading a value from `i` has copied out `out` and stands at `cp`, before any character that ends the value. */
  ghost predicate Copied(s: string, i: nat, cp: nat, out: string, quoted: bool)
    decreases |s| - i
  {
    if i >= cp || cp > |s| then i == cp && out == ""
    else if s[i] == '\\' then
      if i + 1 == |s| then cp == i + 1 && out == ""
      else out != "" && out[0] == s[i + 1] && Copied(s, i + 2, cp, out[1..], quoted)
    else
      !Stops(s[i], quoted) && out != "" && out[0] == s[i] && Copied(s, i + 1, cp, out[1..], quoted)
  }

  predicate Stops(c: char, quoted: bool) {
    if quoted then c == '\'' else Space(c)
  }

  lemma {:induction false} CopiedPlain(s: string, i: nat, cp: nat, out: string, quoted: bool)
    requires Copied(s, i, cp, out, quoted) && cp < |s| && s[cp] != '\\' && !Stops(s[cp], quoted)
    ensures Copied(s, i, cp + 1, out + [s[cp]], quoted)
    decreases |s| - i
  {
    if i < cp {
      assert (out + [s[cp]])[1..] == out[1..] + [s[cp]];
      CopiedPlain(s, if s[i] == '\\' then i + 2 else i + 1, cp, out[1..], quoted);
    }
  }

  lemma {:induction false} CopiedEscape(s: string, i: nat, cp: nat, out: string, quoted: bool)
    requires Copied(s, i, cp, out, quoted) && cp < |s| && s[cp] == '\\'
    ensures if cp + 1 < |s| then Copied(s, i, cp + 2, out + [s[cp + 1]], quoted) else Copied(s, i, cp + 1, out, quoted)
    decreases |s| - i
  {
    if i < cp {
      if cp + 1 < |s| {
        assert (out + [s[cp + 1]])[1..] == out[1..] + [s[cp + 1]];
      }
      CopiedEscape(s, if s[i] == '\\' then i + 2 else i + 1, cp, out[1..], quoted);
    }
  }

  lemma {:induction false} UnquotedIsCopied(s: string, i: nat, cp: nat, out: string)
    requires Copied(s, i, cp, out, false) && cp <= |s| && (cp == |s| || Space(s[cp]))
    ensures Unquoted(s, i) == Taken(out, if cp == |s| then cp else cp + 1)
    decreases |s| - i
  {
    if i < cp && !(s[i] == '\\' && i + 1 == |s|) {
      UnquotedIsCopied(s, if s[i] == '\\' then i + 2 else i + 1, cp, out[1..]);
    }
  }

  lemma {:induction false} QuotedIsCopied(s: string, i: nat, cp: nat, out: string)
    requires Copied(s, i, cp, out, true) && cp <= |s| && (cp == |s| || s[cp] == '\'')
    ensures Quoted(s, i) == if cp == |s| then None else Some(Taken(out, cp + 1))
    decreases |s| - i
  {
    if i < cp && !(s[i] == '\\' && i + 1 == |s|) {
      QuotedIsCopied(s, if s[i] == '\\' then i + 2 else i + 1, cp, out[1..]);
      assert out == [out[0]] + out[1..];
    }
  }

  /** The loops of a value: reading from `start` has put `out` at `pval`, up to the write cursor, which has not passed
      the read cursor, and the rest of the text is unread. */
  ghost predicate Copying(buf: array<char>, s: CString, start: nat, cp: nat, cp2: nat, pval: nat, out: string,
                          quoted: bool)
    reads buf
  {
    pval + |out| == cp2 <= cp && Unread(buf, s, cp) && Holds(buf, pval, out) && Copied(s, start, cp, out, quoted)
  }

  /** A character that neither ends the value nor is a backslash. */
  method CopyPlain(buf: array<char>, ghost s: CString, ghost start: nat, cp0: nat, cp20: nat, ghost pval: nat,
                   ghost out0: string, ghost quoted: bool)
    returns (cp: nat, cp2: nat, ghost out: string)
    requires Copying(buf, s, start, cp0, cp20, pval, out0, quoted)
    requires cp0 < |s| && s[cp0] != '\\' && !Stops(s[cp0], quoted)
    modifies buf
    ensures Copying(buf, s, start, cp, cp2, pval, out, quoted) && cp == cp0 + 1 && cp2 == cp20 + 1
    ensures forall k :: 0 <= k < pval ==> buf[k] == old(buf[k])
  {
    CopiedPlain(s, start, cp0, out0, quoted);
    CopyDown(buf, s, cp0, cp20, pval, out0);
    cp2, cp, out := cp20 + 1, cp0 + 1, out0 + [s[cp0]];
  }

  /** A backslash: the character after it is copied, unless the text ends there. */
  method CopyEscaped(buf: array<char>, ghost s: CString, ghost start: nat, cp0: nat, cp20: nat, ghost pval: nat,
                     ghost out0: string, ghost quoted: bool)
    returns (cp: nat, cp2: nat, ghost out: string)
    requires Copying(buf, s, start, cp0, cp20, pval, out0, quoted) && cp0 < |s| && s[cp0] == '\\'
    modifies buf
    ensures Copying(buf, s, start, cp, cp2, pval, out, quoted)
    ensures if cp0 + 1 < |s| then cp == cp0 + 2 && cp2 == cp20 + 1 else cp == cp0 + 1 && cp2 == cp20
    ensures forall k :: 0 <= k < pval ==> buf[k] == old(buf[k])
  {
    CopiedEscape(s, start, cp0, out0, quoted);
    cp, cp2, out := cp0 + 1, cp20, out0;
    Peek(buf, s, cp);
    if buf[cp] != '\0' {
      CopyDown(buf, s, cp, cp2, pval, out);
      out := out + [s[cp]];
      cp2, cp := cp2 + 1, cp + 1;
    }
  }

  /** Unescapes a value without quotes from `pval` on. */
  method ReadUnquoted(buf: array<char>, ghost s: CString, pval: nat) returns (cp: nat)
    requires Unread(buf, s, pval)
    modifies buf
    ensures Unread(buf, s, cp)
    ensures forall k :: 0 <= k < pval ==> buf[k] == old(buf[k])
    ensures var v := Unquoted(s, pval); Stored(buf, pval, v.text) && v.next == cp
  {
    cp := pval;
    var cp2: nat := pval;
    ghost var out := "";
    while buf[cp] != '\0'
      invariant Copying(buf, s, pval, cp, cp2, pval, out, false)
      invariant forall k :: 0 <= k < pval ==> buf[k] == old(buf[k])
      decreases |s| - cp
    {
      Peek(buf, s, cp);
      if Space(buf[cp]) {
        UnquotedIsCopied(s, pval, cp, out);
        buf[cp] := '\0';
        cp := cp + 1;
        buf[cp2] := '\0';
        return;
      }
      if buf[cp] == '\\' {
        cp, cp2, out := CopyEscaped(buf, s, pval, cp, cp2, pval, out, false);
      } else {
        cp, cp2, out := CopyPlain(buf, s, pval, cp, cp2, pval, out, false);
      }
    }
    Peek(buf, s, cp);
    UnquotedIsCopied(s, pval, cp, out);
    buf[cp2] := '\0';
  }

  /** Unescapes a quoted value whose opening quote is at `pval`, down to that quote's own place. */
  method ReadQuoted(buf: array<char>, ghost s: CString, pval: nat) returns (closed: bool, cp: nat)
    requires Unread(buf, s, pval) && pval < |s| && s[pval] == '\''
    modifies buf
    ensures forall k :: 0 <= k < pval ==> buf[k] == old(buf[k])
    ensures var v := Quoted(s, pval + 1);
      if closed
      then v.Some? && Unread(buf, s, cp) && Stored(buf, pval, v.value.text) && v.value.next == cp
      else v == None
  {
    var cp2: nat := pval;
    cp := pval + 1;
    ghost var out := "";
    while true
      invariant Copying(buf, s, pval + 1, cp, cp2, pval, out, true) && cp2 < cp
      invariant forall k :: 0 <= k < pval ==> buf[k] == old(buf[k])
      decreases |s| - cp
    {
      Peek(buf, s, cp);
      if buf[cp] == '\0' {
        QuotedIsCopied(s, pval + 1, cp, out);
        return false, cp;
      }
      if buf[cp] == '\\' {
        cp, cp2, out := CopyEscaped(buf, s, pval + 1, cp, cp2, pval, out, true);
        continue;
      }
      if buf[cp] == '\'' {
        QuotedIsCopied(s, pval + 1, cp, out);
        buf[cp2] := '\0';
        cp := cp + 1;
        return true, cp;
      }
      cp, cp2, out := CopyPlain(buf, s, pval + 1, cp, cp2, pval, out, true);
    }
  }

  // ----- the parser

  lemma ValuesAreCStrings(s: CString, i: nat)
    requires i <= |s|
    ensures '\0' !in Unquoted(s, i).text
    ensures Quoted(s, i).Some? ==> '\0' !in Quoted(s, i).value.text
    decreases |s| - i
  {
    if i + 1 < |s| { ValuesAreCStrings(s, i + 2); }
    if i < |s| { ValuesAreCStrings(s, i + 1); }
  }

  /** Reads the value at `pval`; on success it is left there as a C string. */
  method ReadValue(buf: array<char>, ghost s: CString, pval: nat) returns (ok: bool, cp: nat)
    requires Unread(buf, s, pval)
    modifies buf
    ensures forall k :: 0 <= k < pval ==> buf[k] == old(buf[k])
    ensures var v := Value(s, pval);
      if ok
      then v.Some? && v.value.next == cp && Unread(buf, s, cp) && Stored(buf, pval, v.value.text)
      else v == None
  {
    Peek(buf, s, pval);
    if buf[pval] != '\'' {
      cp := ReadUnquoted(buf, s, pval);
      ok := true;
    } else {
      ok, cp := ReadQuoted(buf, s, pval);
    }
  }

  /** Reads the item that starts at `pname`. */
  method ReadItem(buf: array<char>, ghost s: CString, pname: nat) returns (ok: bool, cp: nat, pval: nat)
    requires Unread(buf, s, pname)
    modifies buf
    ensures var item := ParseItem(s, pname);
      if ok
      then item.Item? && item.next == cp && Unread(buf, s, cp)
           && Stored(buf, pname, item.name) && Stored(buf, pval, item.value)
      else item == Malformed
  {
    cp := ReadKeyword(buf, s, pname);
    Peek(buf, s, cp);
    if buf[cp] != '=' {
      return false, cp, 0;
    }
    buf[cp] := '\0';
    cp := cp + 1;
    cp := SkipSpacesInPlace(buf, s, cp);
    pval := cp;
    ok, cp := ReadValue(buf, s, pval);
  }

  /** The two C strings the callback sees are the item's name and value. */
  lemma PairIsDelivered(buf: array<char>, s: CString, pname: nat, pval: nat)
    requires pname <= |s| && ParseItem(s, pname).Item?
    requires Stored(buf, pname, ParseItem(s, pname).name) && Stored(buf, pval, ParseItem(s, pname).value)
    ensures CStr(buf[..], pname) == ParseItem(s, pname).name
    ensures CStr(buf[..], pval) == ParseItem(s, pname).value
  {
    var v := SkipSpaces(s, SkipSpaces(s, KeyEnd(s, pname)) + 1);
    ValuesAreCStrings(s, v);
    if v < |s| {
      ValuesAreCStrings(s, v + 1);
    }
    StoredIsCStr(buf, pname, ParseItem(s, pname).name);
    StoredIsCStr(buf, pval, ParseItem(s, pname).value);
  }

  lemma ParseItemStep(s: string, i: nat, done: seq<(string, string)>)
    requires i < |s| && !Space(s[i]) && Parse(s).pairs == done + ParseFrom(s, i).pairs
    ensures var item := ParseItem(s, i);
      Parse(s).pairs ==
          if item.Malformed? then done else done + [(item.name, item.value)] + ParseFrom(s, item.next).pairs
  {
  }

  /** The pairs handed to `info_store_func` (when there is one), in order. */
  method PgConninfoParse(connstring: Option<CString>, hasSink: bool) returns (stored: seq<(string, string)>)
    ensures stored == if connstring.Some? && hasSink then Parse(connstring.value).pairs else []
  {
    stored := [];
    if connstring.None? {
      return;
    }
    var s := connstring.value;
    var buf := new char[|s| + 1](i => if 0 <= i < |s| then s[i] else '\0');
    var cp := 0;
    ghost var done: seq<(string, string)> := [];
    Peek(buf, s, cp);
    while buf[cp] != '\0'
      invariant Unread(buf, s, cp)
      invariant buf[cp] == '\0' <==> cp == |s|
      invariant Parse(s).pairs == done + ParseFrom(s, cp).pairs
      invariant stored == if hasSink then done else []
      decreases |s| - cp
    {
      Peek(buf, s, cp);
      if Space(buf[cp]) {
        cp := cp + 1;
        Peek(buf, s, cp);
        continue;
      }
      var pname := cp;
      var ok, pval;
      ok, cp, pval := ReadItem(buf, s, pname);
      if !ok {
        ParseItemStep(s, pname, done);
        return;
      }
      ghost var item := ParseItem(s, pname);
      PairIsDelivered(buf, s, pname, pval);
      ParseItemStep(s, pname, done);
      if hasSink {
        stored := stored + [(CStr(buf[..], pname), CStr(buf[..], pval))];
      }
      done := done + [(item.name, item.value)];
      Peek(buf, s, cp);
    }
  }

  // ----- printing and parsing again

  /** A keyword the grammar can read back. */
  predicate Keyword(name: string) {
    name == "" || (name[0] != '=' && !Space(name[0]) && name[0] != '\0' && Keyword(name[1..]))
  }

  /** Keywords, and values that are C strings. */
  predicate Printable(pairs: seq<(string, string)>) {
    pairs == [] || (Keyword(pairs[0].0) && '\0' !in pairs[0].1 && Printable(pairs[1..]))
  }

  /** A backslash goes before every quote and backslash, and before white space when `spaces` is set. */
  function Escape(v: string, spaces: bool): string {
    if v == "" then
      ""
    else
      var escape := if v[0] == '\'' || v[0] == '\\' || (spaces && Space(v[0])) then "\\" else "";
      escape + [v[0]] + Escape(v[1..], spaces)
  }

  /** `name='value' ` or `name=value `. */
  function ItemText(name: string, v: string, quoted: bool): string {
    name + "=" + (if quoted then "'" + Escape(v, false) + "'" else Escape(v, true)) + " "
  }

  function Print(pairs: seq<(string, string)>, quoted: bool): string {
    if pairs == [] then "" else ItemText(pairs[0].0, pairs[0].1, quoted) + Print(pairs[1..], quoted)
  }

  // What stands where in a text, one character at a time.

  ghost predicate At(s: string, i: nat, t: string)
    decreases |t|
  {
    t == "" || (i < |s| && s[i] == t[0] && At(s, i + 1, t[1..]))
  }

  lemma {:induction false} SuffixIsAt(s: string, i: nat, x: string, y: string)
    requires i <= |s| && s[i..] == x + y
    ensures At(s, i, x) && i + |x| <= |s| && s[i + |x|..] == y
    decreases |x|
  {
    if x != "" {
      assert s[i] == s[i..][0] && s[i + 1..] == s[i..][1..] == x[1..] + y;
      SuffixIsAt(s, i + 1, x[1..], y);
    }
  }

  lemma {:induction false} AtAppend(s: string, i: nat, x: string, y: string)
    requires At(s, i, x + y)
    ensures At(s, i, x) && At(s, i + |x|, y)
    decreases |x|
  {
    if x == "" {
      assert x + y == y;
    } else {
      assert (x + y)[1..] == x[1..] + y;
      AtAppend(s, i + 1, x[1..], y);
    }
  }

  lemma {:induction false} AtIsSlice(s: string, i: nat, t: string)
    requires At(s, i, t) && i <= |s|
    ensures i + |t| <= |s| && s[i..i + |t|] == t
    decreases |t|
  {
    if t != "" {
      AtIsSlice(s, i + 1, t[1..]);
      assert s[i..i + |t|] == [s[i]] + s[i + 1..i + |t|];
    }
  }

  /** The printed pairs stand at `i`, up to the end of the text. */
  ghost predicate PrintedAt(s: string, i: nat, pairs: seq<(string, string)>, quoted: bool)
    decreases |pairs|
  {
    if pairs == [] then i == |s|
    else
      var item := ItemText(pairs[0].0, pairs[0].1, quoted);
      At(s, i, item) && PrintedAt(s, i + |item|, pairs[1..], quoted)
  }

  lemma {:induction false} PrintIsPrintedAt(s: string, i: nat, pairs: seq<(string, string)>, quoted: bool)
    requires i <= |s| && s[i..] == Print(pairs, quoted)
    ensures PrintedAt(s, i, pairs, quoted)
    decreases |pairs|
  {
    if pairs != [] {
      var item := ItemText(pairs[0].0, pairs[0].1, quoted);
      SuffixIsAt(s, i, item, Print(pairs[1..], quoted));
      PrintIsPrintedAt(s, i + |item|, pairs[1..], quoted);
    }
  }

  // Reading back one item.

  lemma {:induction false} KeyEndAt(s: string, i: nat, name: string)
    requires Keyword(name) && At(s, i, name + "=")
    ensures i + |name| < |s| && s[i + |name|] == '=' && KeyEnd(s, i) == i + |name| && !Space(s[i])
    decreases |name|
  {
    if name != "" {
      assert (name + "=")[1..] == name[1..] + "=";
      KeyEndAt(s, i + 1, name[1..]);
    }
  }

  /** What an item is, once the value after `name=` is known. */
  function ItemWith(name: string, v: Option<Taken>): Item {
    match v
    case None => Malformed
    case Some(t) => Item(name, t.text, t.next)
  }

  /** The keyword `name` is read at `i`, and `=` stands at `end`. */
  ghost predicate KeywordRead(s: string, i: nat, name: string, end: nat) {
    i <= end < |s| && !Space(s[i]) && KeyEnd(s, i) == end && s[end] == '=' && s[i..end] == name
  }

  lemma KeywordAt(s: string, i: nat, name: string)
    requires Keyword(name) && At(s, i, name + "=")
    ensures KeywordRead(s, i, name, i + |name|)
  {
    KeyEndAt(s, i, name);
    AtAppend(s, i, name, "=");
    AtIsSlice(s, i, name);
  }

  lemma ItemFromKeyword(s: string, i: nat, name: string, end: nat)
    requires KeywordRead(s, i, name, end)
    ensures ParseItem(s, i) == ItemWith(name, Value(s, SkipSpaces(s, end + 1)))
  {
  }

  lemma {:induction false} QuotedReadsEscape(s: string, i: nat, v: string)
    requires At(s, i, Escape(v, false) + "'")
    ensures i + |Escape(v, false)| < |s| && Quoted(s, i) == Some(Taken(v, i + |Escape(v, false)| + 1))
    decreases |v|
  {
    if v != "" {
      var t, u := Escape(v, false) + "'", Escape(v[1..], false) + "'";
      if v[0] == '\'' || v[0] == '\\' {
        assert t[1..] == [v[0]] + u && t[1..][1..] == u;
        QuotedReadsEscape(s, i + 2, v[1..]);
      } else {
        assert t[1..] == u;
        QuotedReadsEscape(s, i + 1, v[1..]);
      }
      assert v == [v[0]] + v[1..];
    }
  }

  lemma {:induction false} UnquotedReadsEscape(s: string, i: nat, v: string)
    requires At(s, i, Escape(v, true) + " ")
    ensures i + |Escape(v, true)| < |s| && Unquoted(s, i) == Taken(v, i + |Escape(v, true)| + 1)
    ensures if v == "" then s[i] == ' ' else s[i] != '\'' && !Space(s[i])
    decreases |v|
  {
    if v != "" {
      var t, u := Escape(v, true) + " ", Escape(v[1..], true) + " ";
      if v[0] == '\'' || v[0] == '\\' || Space(v[0]) {
        assert t[1..] == [v[0]] + u && t[1..][1..] == u;
        UnquotedReadsEscape(s, i + 2, v[1..]);
      } else {
        assert t[1..] == u;
        UnquotedReadsEscape(s, i + 1, v[1..]);
      }
      assert v == [v[0]] + v[1..];
    }
  }

  /** A quoted item is read back; the blank after it is left. */
  lemma QuotedItemParses(s: string, i: nat, name: string, v: string, blank: nat)
    requires Keyword(name) && At(s, i, ItemText(name, v, true)) && blank + 1 == i + |ItemText(name, v, true)|
    ensures i < blank < |s| && !Space(s[i]) && s[blank] == ' ' && ParseItem(s, i) == Item(name, v, blank)
  {
    QuotedItemPieces(s, i, name, v);
    QuotedText(name, v);
    QuotedReadsEscape(s, i + |name| + 2, v);
    QuotedItemFromParts(s, i, name, i + |name|, v, blank);
  }

  lemma QuotedItemPieces(s: string, i: nat, name: string, v: string)
    requires Keyword(name) && At(s, i, ItemText(name, v, true))
    ensures KeywordRead(s, i, name, i + |name|)
    ensures At(s, i + |name| + 1, "'") && At(s, i + |name| + 2, Escape(v, false) + "'")
    ensures At(s, i + |name| + |Escape(v, false)| + 3, " ")
  {
    QuotedText(name, v);
    AtFour(s, i, name + "=", "'", Escape(v, false) + "'", " ");
    KeywordAt(s, i, name);
  }

  lemma QuotedText(name: string, v: string)
    ensures ItemText(name, v, true) == (name + "=") + ("'" + ((Escape(v, false) + "'") + " "))
    ensures |ItemText(name, v, true)| == |name| + |Escape(v, false)| + 4
  {
  }

  lemma AtFour(s: string, i: nat, a: string, b: string, c: string, d: string)
    requires At(s, i, a + (b + (c + d)))
    ensures At(s, i, a) && At(s, i + |a|, b) && At(s, i + |a| + |b|, c) && At(s, i + |a| + |b| + |c|, d)
  {
    AtAppend(s, i, a, b + (c + d));
    AtAppend(s, i + |a|, b, c + d);
    AtAppend(s, i + |a| + |b|, c, d);
  }

  lemma QuotedItemFromParts(s: string, i: nat, name: string, end: nat, v: string, next: nat)
    requires KeywordRead(s, i, name, end)
    requires end + 1 < |s| && s[end + 1] == '\'' && Quoted(s, end + 2) == Some(Taken(v, next))
    ensures ParseItem(s, i) == Item(name, v, next)
  {
    ItemFromKeyword(s, i, name, end);
  }

  /** So is an unquoted one when its value is not empty; its blank is taken. */
  lemma UnquotedItemParses(s: string, i: nat, name: string, v: string)
    requires Keyword(name) && At(s, i, ItemText(name, v, false))
    ensures var next := i + |ItemText(name, v, false)|;
      i < next <= |s| && !Space(s[i]) &&
      if v != "" then ParseItem(s, i) == Item(name, v, next)
      else s[next - 1] == ' ' && ParseItem(s, i) == ItemWith(name, Value(s, SkipSpaces(s, next)))
  {
    UnquotedItemPieces(s, i, name, v);
    UnquotedItemFromParts(s, i, name, i + |name|, v, i + |ItemText(name, v, false)|);
  }

  lemma UnquotedItemPieces(s: string, i: nat, name: string, v: string)
    requires Keyword(name) && At(s, i, ItemText(name, v, false))
    ensures KeywordRead(s, i, name, i + |name|)
    ensures UnquotedRead(s, i + |name| + 1, v, i + |ItemText(name, v, false)|)
  {
    var e := Escape(v, true);
    assert ItemText(name, v, false) == (name + "=") + (e + " ");
    AtAppend(s, i, name + "=", e + " ");
    KeywordAt(s, i, name);
    UnquotedReadsEscape(s, i + |name| + 1, v);
  }

  /** The escaped value `v` is read at `q`. */
  ghost predicate UnquotedRead(s: string, q: nat, v: string, next: nat) {
    && q < next <= |s|
    && Unquoted(s, q) == Taken(v, next)
    && (if v == "" then s[q] == ' ' && next == q + 1 else s[q] != '\'' && !Space(s[q]))
  }

  lemma UnquotedItemFromParts(s: string, i: nat, name: string, end: nat, v: string, next: nat)
    requires KeywordRead(s, i, name, end) && UnquotedRead(s, end + 1, v, next)
    ensures
      if v != "" then ParseItem(s, i) == Item(name, v, next)
      else s[next - 1] == ' ' && ParseItem(s, i) == ItemWith(name, Value(s, SkipSpaces(s, next)))
  {
    ItemFromKeyword(s, i, name, end);
  }

  // Reading back the list.

  lemma ParseFromItem(s: string, from: nat, i: nat, name: string, v: string, next: nat)
    requires i < next <= |s| && (from == i || (from + 1 == i && s[from] == ' '))
    requires !Space(s[i]) && ParseItem(s, i) == Item(name, v, next)
    ensures ParseFrom(s, from) == Parsed([(name, v)] + ParseFrom(s, next).pairs, ParseFrom(s, next).complete)
  {
    assert SkipSpaces(s, i) == i && SkipSpaces(s, from) == i;
  }

  /** Parsing from a printed item, or from the blank before it, yields its pair and goes on at its blank. */
  lemma QuotedStep(s: string, i: nat, from: nat, name: string, v: string, blank: nat)
    requires Keyword(name) && At(s, i, ItemText(name, v, true)) && blank + 1 == i + |ItemText(name, v, true)|
    requires from == i || (from + 1 == i && i <= |s| && s[from] == ' ')
    ensures i <= blank < |s| && s[blank] == ' '
    ensures ParseFrom(s, from) == Parsed([(name, v)] + ParseFrom(s, blank).pairs, ParseFrom(s, blank).complete)
  {
    QuotedItemParses(s, i, name, v, blank);
    ParseFromItem(s, from, i, name, v, blank);
  }

  lemma {:induction false} QuotedRoundTrip(s: string, i: nat, from: nat, pairs: seq<(string, string)>)
    requires Printable(pairs) && PrintedAt(s, i, pairs, true)
    requires from == i || (from + 1 == i && i <= |s| && s[from] == ' ')
    ensures i <= |s| && ParseFrom(s, from) == Parsed(pairs, true)
    decreases |pairs|
  {
    if pairs == [] {
      EndOfText(s, from);
    } else {
      var name, v, blank, rest := FirstPrinted(s, i, pairs);
      QuotedStep(s, i, from, name, v, blank);
      QuotedRoundTrip(s, blank + 1, blank, rest);
    }
  }

  lemma FirstPrinted(s: string, i: nat, pairs: seq<(string, string)>)
    returns (name: string, v: string, blank: nat, rest: seq<(string, string)>)
    requires Printable(pairs) && PrintedAt(s, i, pairs, true) && pairs != []
    ensures pairs == [(name, v)] + rest && |rest| < |pairs|
    ensures Keyword(name) && At(s, i, ItemText(name, v, true)) && blank + 1 == i + |ItemText(name, v, true)|
    ensures Printable(rest) && PrintedAt(s, blank + 1, rest, true)
  {
    name, v, rest := pairs[0].0, pairs[0].1, pairs[1..];
    blank := i + |ItemText(name, v, true)| - 1;
  }

  lemma EndOfText(s: string, from: nat)
    requires from == |s| || (from + 1 == |s| && s[from] == ' ')
    ensures ParseFrom(s, from) == Parsed([], true)
  {
  }

  /** Printing in quotes and parsing gives back every list of pairs, in order. */
  lemma PrintedQuotedParsesBack(pairs: seq<(string, string)>)
    requires Printable(pairs)
    ensures Parse(Print(pairs, true)) == Parsed(pairs, true)
  {
    var s := Print(pairs, true);
    assert s[0..] == s;
    PrintIsPrintedAt(s, 0, pairs, true);
    QuotedRoundTrip(s, 0, 0, pairs);
  }

  /** Only the last value may be empty. */
  ghost predicate InnerValuesNonEmpty(pairs: seq<(string, string)>)
    decreases |pairs|
  {
    |pairs| <= 1 || (pairs[0].1 != "" && InnerValuesNonEmpty(pairs[1..]))
  }

  /** Reading a value where an item stands gives an empty one only when two quotes stand there. */
  lemma EmptyValueNeedsQuotes(s: string, i: nat)
    requires i + 1 < |s| && !Space(s[i])
    ensures var v := Value(s, i); v.Some? && v.value.text == "" ==> s[i] == s[i + 1] == '\'' && v.value.next == i + 2
  {
  }

  /** The keyword of a text cut after `n` characters. */
  lemma {:induction false} KeyEndTail(s: string, i: nat, name: string, n: nat)
    requires Keyword(name) && At(s, i, name + "=") && n <= |name|
    ensures i + |name| < |s| && KeyEnd(s, i + n) == i + |name| && !Space(s[i + n])
    decreases n
  {
    KeyEndAt(s, i, name);
    if n > 0 {
      assert (name + "=")[1..] == name[1..] + "=";
      KeyEndTail(s, i + 1, name[1..], n - 1);
    }
  }

  /** A value read where another item stands swallows at least the start of that item. */
  lemma NextItemSwallowed(s: string, i: nat, next: string, w: string)
    requires Keyword(next) && At(s, i, ItemText(next, w, false))
    ensures i < |s| && !Space(s[i])
    ensures var v := Value(s, i);
      v.Some? && v.value.text == "" ==>
        ParseFrom(s, v.value.next).pairs == [] || ParseFrom(s, v.value.next).pairs[0].0 != next
  {
    assert ItemText(next, w, false) == (next + "=") + (Escape(w, true) + " ");
    UnquotedItemPieces(s, i, next, w);
    EmptyValueNeedsQuotes(s, i);
    if s[i] == s[i + 1] == '\'' {
      AtAppend(s, i, next + "=", Escape(w, true) + " ");
      KeyEndTail(s, i, next, 1);
      KeyEndTail(s, i, next, 2);
      assert ParseItem(s, i + 2).Item? ==> |ParseItem(s, i + 2).name| == |next| - 2;
    }
  }

  /** An empty value before another item: the two pairs are not read back, whatever follows. */
  lemma EmptyValueSwallows(s: string, i: nat, name: string, next: string, w: string)
    requires Keyword(name) && At(s, i, ItemText(name, "", false))
    requires Keyword(next) && At(s, i + |ItemText(name, "", false)|, ItemText(next, w, false))
    ensures i <= |s|
    ensures var ps := ParseFrom(s, i).pairs;
      ps == [] || (ps[0].0 == name && !(ps[0].1 == "" && |ps| > 1 && ps[1].0 == next))
  {
    var q := i + |ItemText(name, "", false)|;
    UnquotedItemParses(s, i, name, "");
    NextItemSwallowed(s, q, next, w);
    assert SkipSpaces(s, q) == q && SkipSpaces(s, i) == i;
    assert ParseItem(s, i) == ItemWith(name, Value(s, q));
  }

  /** An empty value at the end is read back. */
  lemma EmptyLastValue(s: string, i: nat, name: string)
    requires Keyword(name) && At(s, i, ItemText(name, "", false)) && i + |ItemText(name, "", false)| == |s|
    ensures ParseFrom(s, i) == Parsed([(name, "")], true)
  {
    UnquotedItemParses(s, i, name, "");
    ParseFromItem(s, i, i, name, "", |s|);
  }

  /** A value that is not empty is read back, and parsing goes on behind it. */
  lemma FilledValue(s: string, i: nat, name: string, v: string, next: nat)
    requires Keyword(name) && v != "" && At(s, i, ItemText(name, v, false)) && next == i + |ItemText(name, v, false)|
    ensures i < next <= |s|
    ensures ParseFrom(s, i) == Parsed([(name, v)] + ParseFrom(s, next).pairs, ParseFrom(s, next).complete)
  {
    UnquotedItemParses(s, i, name, v);
    ParseFromItem(s, i, i, name, v, next);
  }

  lemma SameTail<T>(x: T, a: seq<T>, b: seq<T>)
    ensures [x] + a == [x] + b <==> a == b
  {
    assert ([x] + a)[1..] == a && ([x] + b)[1..] == b;
  }

  lemma {:induction false} UnquotedRoundTrip(s: string, i: nat, pairs: seq<(string, string)>)
    requires Printable(pairs) && PrintedAt(s, i, pairs, false)
    ensures i <= |s|
    ensures ParseFrom(s, i).pairs == pairs <==> InnerValuesNonEmpty(pairs)
    ensures InnerValuesNonEmpty(pairs) ==> ParseFrom(s, i).complete
    decreases |pairs|
  {
    if pairs != [] {
      var (name, v) := pairs[0];
      var rest := pairs[1..];
      assert pairs == [(name, v)] + rest;
      if v != "" {
        var next := i + |ItemText(name, v, false)|;
        FilledValue(s, i, name, v, next);
        UnquotedRoundTrip(s, next, rest);
        SameTail((name, v), ParseFrom(s, next).pairs, rest);
      } else if rest == [] {
        EmptyLastValue(s, i, name);
      } else {
        EmptyValueSwallows(s, i, name, rest[0].0, rest[0].1);
      }
    }
  }

  /** Printing without quotes and parsing gives the pairs back exactly when no value but the last is empty. */
  lemma PrintedUnquotedParsesBack(pairs: seq<(string, string)>)
    requires Printable(pairs)
    ensures Parse(Print(pairs, false)).pairs == pairs <==> InnerValuesNonEmpty(pairs)
    ensures InnerValuesNonEmpty(pairs) ==> Parse(Print(pairs, false)).complete
  {
    var s := Print(pairs, false);
    assert s[0..] == s;
    PrintIsPrintedAt(s, 0, pairs, false);
    UnquotedRoundTrip(s, 0, pairs);
  }

  // Through the buffer.

  lemma {:induction false} KeywordIsCString(name: string)
    requires Keyword(name)
    ensures '\0' !in name
  {
    if name != "" {
      KeywordIsCString(name[1..]);
    }
  }

  lemma {:induction false} EscapeIsCString(v: string, spaces: bool)
    requires '\0' !in v
    ensures '\0' !in Escape(v, spaces)
  {
    if v != "" {
      EscapeIsCString(v[1..], spaces);
    }
  }

  lemma {:induction false} PrintIsCString(pairs: seq<(string, string)>, quoted: bool)
    requires Printable(pairs)
    ensures '\0' !in Print(pairs, quoted)
  {
    if pairs != [] {
      KeywordIsCString(pairs[0].0);
      EscapeIsCString(pairs[0].1, !quoted);
      PrintIsCString(pairs[1..], quoted);
    }
  }

  /** The in-place parser hands the printed pairs back: always when they are quoted, otherwise exactly when no value but
      the last is empty. */
  method PrintAndParse(pairs: seq<(string, string)>, quoted: bool) returns (stored: seq<(string, string)>)
    requires Printable(pairs)
    ensures stored == pairs <==> quoted || InnerValuesNonEmpty(pairs)
  {
    PrintIsCString(pairs, quoted);
    stored := PgConninfoParse(Some(Print(pairs, quoted)), true);
    if quoted {
      PrintedQuotedParsesBack(pairs);
    } else {
      PrintedUnquotedParsesBack(pairs);
    }
  }
}
