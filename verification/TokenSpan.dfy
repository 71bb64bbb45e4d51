/** `is_token_changed`: does a piece of user input cross several tokens of a statement? */
module TokenSpan {

  /** A token covers the characters from `start` up to, not including, `stop`. */
  datatype Token = Token(start: int, stop: int, text: string)

  /** What the call yields: a verdict, or the `TypeError` of reading `.text` of a token that does not exist. */
  datatype Outcome = Verdict(changed: bool) | ReadsMissingToken

  /** The call's settings: the SQL mode, its filter switch and its keyword pattern (left uninterpreted). */
  datatype Mode = Mode(isSql: bool, antiDetect: bool, keyword: string -> bool)

  // ----- the input of a tokenizer

  /** Tokens stand in order and do not overlap. */
  ghost predicate Ordered(tokens: seq<Token>) {
    && (forall i :: 0 <= i < |tokens| ==> tokens[i].start <= tokens[i].stop)
    && (forall i, j :: 0 <= i < j < |tokens| ==> tokens[i].stop <= tokens[j].start)
  }

  predicate Overlaps(t: Token, idx: int, length: int) {
    t.stop > idx && t.start < idx + length
  }

  /** How many tokens share a character with the input. */
  function Overlapping(tokens: seq<Token>, idx: int, length: int): nat {
    if tokens == [] then 0
    else (if Overlaps(tokens[0], idx, length) then 1 else 0) + Overlapping(tokens[1..], idx, length)
  }

  /** ... and how many of those are no keywords. */
  function NonKeywords(tokens: seq<Token>, idx: int, length: int, keyword: string -> bool): nat {
    if tokens == [] then 0
    else
      var here := if Overlaps(tokens[0], idx, length) && !keyword(tokens[0].text) then 1 else 0;
      here + NonKeywords(tokens[1..], idx, length, keyword)
  }

  /** Some token stops at or after the end of the input. */
  ghost predicate Covered(tokens: seq<Token>, idx: int, length: int) {
    exists i :: 0 <= i < |tokens| && tokens[i].stop >= idx + length
  }

  // ----- the two searches

  /** The first token that stops after the input starts, or -1. */
  method FindStart(tokens: seq<Token>, idx: int) returns (start: int)
    ensures -1 <= start < |tokens|
    ensures start == -1 ==> forall i :: 0 <= i < |tokens| ==> tokens[i].stop <= idx
    ensures start >= 0 ==> tokens[start].stop > idx && forall i :: 0 <= i < start ==> tokens[i].stop <= idx
  {
    start := -1;
    for i := 0 to |tokens|
      invariant start == -1 && forall j :: 0 <= j < i ==> tokens[j].stop <= idx
    {
      if tokens[i].stop > idx {
        start := i;
        return;
      }
    }
  }

  ghost predicate EndFound(tokens: seq<Token>, start: nat, stopAt: int, end: int)
    requires start < |tokens|
  {
    if tokens[start].stop >= stopAt then end == start
    else if forall i :: start < i < |tokens| ==> tokens[i].stop < stopAt then end == |tokens|
    else exists i :: start < i < |tokens| && tokens[i].stop >= stopAt
           && (forall j :: start < j < i ==> tokens[j].stop < stopAt)
           && end == if tokens[i].start >= stopAt then i - 1 else i
  }

  /** The last token the input reaches; it keeps the value `|tokens|` when no token stops at or after the end. */
  method FindEnd(tokens: seq<Token>, start: nat, stopAt: int) returns (end: int)
    requires start < |tokens|
    ensures start <= end <= |tokens| && EndFound(tokens, start, stopAt, end)
  {
    end := |tokens|;
    if tokens[start].stop >= stopAt {
      end := start;
    } else {
      for i := start + 1 to |tokens|
        invariant end == |tokens|
        invariant forall j :: start < j < i ==> tokens[j].stop < stopAt
      {
        if tokens[i].stop >= stopAt {
          if tokens[i].start >= stopAt {
            end := i - 1;
            return;
          } else {
            end := i;
            return;
          }
        }
      }
    }
  }

  // ----- counting the tokens the input overlaps

  /** Exactly the tokens from `start` to `end` overlap the input. */
  ghost predicate Span(tokens: seq<Token>, idx: int, length: int, start: int, end: int) {
    && 0 <= start && start <= end + 1 && end < |tokens|
    && forall i :: 0 <= i < |tokens| ==> (Overlaps(tokens[i], idx, length) <==> start <= i <= end)
  }

  lemma {:induction false} SpanCounts(tokens: seq<Token>, idx: int, length: int, start: int, end: int,
                                      keyword: string -> bool)
    requires Span(tokens, idx, length, start, end)
    ensures Overlapping(tokens, idx, length) == end - start + 1
    ensures NonKeywords(tokens, idx, length, keyword) == NonKeywordsIn(tokens, start, end + 1, keyword)
  {
    if tokens != [] {
      var rest := tokens[1..];
      assert forall i :: 0 <= i < |rest| ==> rest[i] == tokens[i + 1];
      if start == 0 && end >= 0 {
        SpanCounts(rest, idx, length, 0, end - 1, keyword);
        NonKeywordsShift(tokens, 1, end + 1, keyword);
      } else if start == 0 {
        SpanCounts(rest, idx, length, 0, end, keyword);
      } else {
        SpanCounts(rest, idx, length, start - 1, end - 1, keyword);
        NonKeywordsShift(tokens, start, end + 1, keyword);
      }
    }
  }

  /** The tokens from `lo` up to, not including, `hi` that are no keywords. */
  function NonKeywordsIn(tokens: seq<Token>, lo: int, hi: int, keyword: string -> bool): nat
    requires 0 <= lo && hi <= |tokens|
    decreases hi - lo
  {
    if lo >= hi then 0 else (if keyword(tokens[lo].text) then 0 else 1) + NonKeywordsIn(tokens, lo + 1, hi, keyword)
  }

  lemma {:induction false} NonKeywordsShift(tokens: seq<Token>, lo: int, hi: int, keyword: string -> bool)
    requires tokens != [] && 1 <= lo && hi <= |tokens|
    ensures NonKeywordsIn(tokens[1..], lo - 1, hi - 1, keyword) == NonKeywordsIn(tokens, lo, hi, keyword)
    decreases hi - lo
  {
    if lo < hi {
      NonKeywordsShift(tokens, lo + 1, hi, keyword);
    }
  }

  lemma {:induction false} NonKeywordsSnoc(tokens: seq<Token>, lo: int, hi: int, keyword: string -> bool)
    requires 0 <= lo <= hi < |tokens|
    ensures NonKeywordsIn(tokens, lo, hi + 1, keyword)
         == NonKeywordsIn(tokens, lo, hi, keyword) + (if keyword(tokens[hi].text) then 0 else 1)
    decreases hi - lo
  {
    if lo < hi {
      NonKeywordsSnoc(tokens, lo + 1, hi, keyword);
    }
  }

  /** The tokens from the first search on are the ones the input reaches. */
  lemma SearchedSpan(tokens: seq<Token>, idx: int, length: nat, start: int, end: int)
    requires Ordered(tokens) && 0 <= start < |tokens|
    requires tokens[start].stop > idx && forall i :: 0 <= i < start ==> tokens[i].stop <= idx
    requires start <= end + 1 <= |tokens|
    requires forall i :: start <= i < end ==> tokens[i].stop < idx + length
    requires start <= end ==> tokens[end].start < idx + length
    requires
      || end + 1 == |tokens|
      || tokens[end + 1].start >= idx + length
      || (start <= end && tokens[end].stop >= idx + length)
    ensures Span(tokens, idx, length, start, end)
  {
    forall i | 0 <= i < |tokens| ensures Overlaps(tokens[i], idx, length) <==> start <= i <= end {
      if i > start { assert tokens[start].stop <= tokens[i].start; }
      if i > end >= start { assert tokens[end].stop <= tokens[i].start; }
      if i > end + 1 { assert tokens[end + 1].stop <= tokens[i].start; }
    }
  }

  // ----- the verdict

  /** The number of tokens the code believes the input reaches: one too many when no token stops at or after the
      end of the input. */
  ghost function Reached(tokens: seq<Token>, idx: int, length: nat): nat {
    var n := Overlapping(tokens, idx, length);
    if n == 0 || Covered(tokens, idx, length) then n else n + 1
  }

  /** Some token stops after the input starts. */
  ghost predicate Entered(tokens: seq<Token>, idx: int) {
    exists i :: 0 <= i < |tokens| && tokens[i].stop > idx
  }

  /** A distance below 2 asks no more than that. */
  ghost function Expected(tokens: seq<Token>, idx: int, length: nat, distance: int, mode: Mode): Outcome {
    var n := Reached(tokens, idx, length);
    if !Entered(tokens, idx) || (distance >= 2 && n < distance) then Verdict(false)
    else if !mode.isSql || !mode.antiDetect || n >= 10 then Verdict(true)
    else if NonKeywords(tokens, idx, length, mode.keyword) >= 2 then Verdict(true)
    else if Covered(tokens, idx, length) then Verdict(false)
    else ReadsMissingToken
  }

  /** What the two searches find, in terms of the tokens the input overlaps. */
  lemma SearchesFindSpan(tokens: seq<Token>, idx: int, length: nat, start: nat, end: int) returns (last: int)
    requires Ordered(tokens) && start < |tokens|
    requires tokens[start].stop > idx && forall i :: 0 <= i < start ==> tokens[i].stop <= idx
    requires EndFound(tokens, start, idx + length, end)
    ensures Span(tokens, idx, length, start, last)
    ensures Covered(tokens, idx, length) <==> end < |tokens|
    ensures if end < |tokens| then last == end || (end == start && last == start - 1) else last == |tokens| - 1 >= start
  {
    if tokens[start].stop >= idx + length {
      last := if tokens[start].start >= idx + length then start - 1 else start;
    } else if forall i :: start < i < |tokens| ==> tokens[i].stop < idx + length {
      last := |tokens| - 1;
      forall i | 0 <= i < |tokens| ensures tokens[i].stop < idx + length {
        if i < start { assert tokens[i].stop <= tokens[start].start; }
      }
    } else {
      last := end;
    }
    SearchedSpan(tokens, idx, length, start, last);
  }

  /** The span as the code counts it, against the tokens that overlap the input. */
  lemma DiffIsReached(tokens: seq<Token>, idx: int, length: nat, start: nat, end: int, keyword: string -> bool)
    requires Ordered(tokens) && start < |tokens| && start <= end <= |tokens|
    requires tokens[start].stop > idx && forall i :: 0 <= i < start ==> tokens[i].stop <= idx
    requires EndFound(tokens, start, idx + length, end)
    ensures Covered(tokens, idx, length) <==> end < |tokens|
    ensures var n, diff := Reached(tokens, idx, length), end - start + 1;
      n == diff || (n == 0 && diff == 1)
    ensures NonKeywords(tokens, idx, length, keyword) <= Overlapping(tokens, idx, length)
    ensures end > start || end == |tokens| ==>
      NonKeywords(tokens, idx, length, keyword)
        == NonKeywordsIn(tokens, start, if end < |tokens| then end + 1 else end, keyword)
  {
    var last := SearchesFindSpan(tokens, idx, length, start, end);
    SpanCounts(tokens, idx, length, start, last, keyword);
    NonKeywordsOverlap(tokens, idx, length, keyword);
  }

  lemma {:induction false} NonKeywordsOverlap(tokens: seq<Token>, idx: int, length: int, keyword: string -> bool)
    ensures NonKeywords(tokens, idx, length, keyword) <= Overlapping(tokens, idx, length)
  {
    if tokens != [] {
      NonKeywordsOverlap(tokens[1..], idx, length, keyword);
    }
  }

  /** One token is at most one that is no keyword. */
  lemma FewNonKeywords(tokens: seq<Token>, start: nat, keyword: string -> bool)
    requires start < |tokens|
    ensures NonKeywordsIn(tokens, start, start + 1, keyword) <= 1
  {
    NonKeywordsSnoc(tokens, start, start, keyword);
  }

  /** The scan for two tokens that are no keywords; it reads one token too many when `end` is `|tokens|`. */
  method TwoNonKeywords(tokens: seq<Token>, start: nat, end: nat, keyword: string -> bool) returns (r: Outcome)
    requires start <= end <= |tokens|
    ensures var n := NonKeywordsIn(tokens, start, if end < |tokens| then end + 1 else end, keyword);
      r == if n >= 2 then Verdict(true) else if end < |tokens| then Verdict(false) else ReadsMissingToken
  {
    var nonKw := 0;
    for i := start to end + 1
      invariant i <= |tokens| && nonKw == NonKeywordsIn(tokens, start, i, keyword) < 2
    {
      if i == |tokens| {
        return ReadsMissingToken;
      }
      NonKeywordsSnoc(tokens, start, i, keyword);
      if !keyword(tokens[i].text) {
        nonKw := nonKw + 1;
      }
      if nonKw >= 2 {
        NonKeywordsGrow(tokens, start, i + 1, if end < |tokens| then end + 1 else end, keyword);
        return Verdict(true);
      }
    }
    return Verdict(false);
  }

  /** `distance` 0 stands for a distance that was not given. */
  method IsTokenChanged(tokens: seq<Token>, idx: int, length: nat, distance: int, mode: Mode) returns (r: Outcome)
    ensures Ordered(tokens) ==> r == Expected(tokens, idx, length, if distance == 0 then 2 else distance, mode)
    ensures !Entered(tokens, idx) ==> r == Verdict(false)
  {
    var d := if distance == 0 then 2 else distance;
    var start := FindStart(tokens, idx);
    if start == -1 {
      NoOverlap(tokens, idx, length);
      return Verdict(false);
    }
    var end := FindEnd(tokens, start, idx + length);
    if Ordered(tokens) {
      DiffIsReached(tokens, idx, length, start, end, mode.keyword);
      FewNonKeywords(tokens, start, mode.keyword);
    }
    var diff := end - start + 1;
    if diff >= d {
      if mode.isSql && mode.antiDetect && diff < 10 {
        r := TwoNonKeywords(tokens, start, end, mode.keyword);
        return;
      }
      return Verdict(true);
    }
    return Verdict(false);
  }

  lemma {:induction false} NoOverlap(tokens: seq<Token>, idx: int, length: int)
    requires forall i :: 0 <= i < |tokens| ==> tokens[i].stop <= idx
    ensures Overlapping(tokens, idx, length) == 0
  {
    if tokens != [] {
      assert forall i :: 0 <= i < |tokens[1..]| ==> tokens[1..][i] == tokens[i + 1];
      NoOverlap(tokens[1..], idx, length);
    }
  }

  lemma {:induction false} NonKeywordsGrow(tokens: seq<Token>, lo: int, mid: int, hi: int, keyword: string -> bool)
    requires 0 <= lo <= mid <= |tokens| && hi <= |tokens|
    ensures mid <= hi ==> NonKeywordsIn(tokens, lo, mid, keyword) <= NonKeywordsIn(tokens, lo, hi, keyword)
    decreases hi - mid
  {
    if mid < hi {
      NonKeywordsSnoc(tokens, lo, mid, keyword);
      NonKeywordsGrow(tokens, lo, mid + 1, hi, keyword);
    }
  }

  lemma OverlapEnters(tokens: seq<Token>, idx: int, length: nat)
    ensures Overlapping(tokens, idx, length) > 0 ==> Entered(tokens, idx)
  {
    if !Entered(tokens, idx) {
      NoOverlap(tokens, idx, length);
    }
  }

  /** Outside SQL mode a call keeps the promise, that at least `distance` tokens overlap the input, unless no token
      stops at or after the end of the input and exactly one overlapping token is missing. */
  lemma PromiseKept(tokens: seq<Token>, idx: int, length: nat, distance: int, mode: Mode)
    requires Ordered(tokens) && distance >= 2 && !(mode.isSql && mode.antiDetect)
    ensures var n := Overlapping(tokens, idx, length);
      Expected(tokens, idx, length, distance, mode) == Verdict(n >= distance) <==>
        Covered(tokens, idx, length) || n == 0 || n != distance - 1
  {
    OverlapEnters(tokens, idx, length);
  }

  /** In SQL mode with the filter on the promise is that at least `distance` tokens overlap the input and, when fewer
      than ten do, two of them are no keywords. Without a token that stops at or after the end of the input, a call
      that is at most one overlapping token short keeps it only when the answer is to be true. */
  lemma SqlPromiseKept(tokens: seq<Token>, idx: int, length: nat, distance: int, mode: Mode)
    requires Ordered(tokens) && distance >= 2 && mode.isSql && mode.antiDetect
    ensures var n, m := Overlapping(tokens, idx, length), NonKeywords(tokens, idx, length, mode.keyword);
      Expected(tokens, idx, length, distance, mode) == Verdict(n >= distance && (n >= 10 || m >= 2)) <==>
        Covered(tokens, idx, length) || n == 0 || n < distance - 1 || (n >= distance && (n >= 10 || m >= 2))
  {
    OverlapEnters(tokens, idx, length);
  }

  /** When the scan reads past the last token. */
  lemma MissingTokenRead(tokens: seq<Token>, idx: int, length: nat, distance: int, mode: Mode)
    requires Ordered(tokens) && distance >= 2
    ensures Expected(tokens, idx, length, distance, mode) == ReadsMissingToken
        <==> mode.isSql && mode.antiDetect && !Covered(tokens, idx, length)
             && distance - 1 <= Overlapping(tokens, idx, length) <= 8
             && NonKeywords(tokens, idx, length, mode.keyword) < 2
  {
    OverlapEnters(tokens, idx, length);
  }

  /** An input that runs from the last token into a trailing comment, which the tokenizer removed: one token overlaps
      it, the verdict outside SQL mode is wrong, and in SQL mode a token that does not exist is read. */
  lemma TrailingComment(keyword: string -> bool)
    ensures var tokens, idx, length := [Token(0, 6, "select"), Token(7, 9, "id")], 7, 8;
      && Ordered(tokens) && Overlapping(tokens, idx, length) == 1
      && Expected(tokens, idx, length, 2, Mode(false, true, keyword)) == Verdict(true)
      && Expected(tokens, idx, length, 2, Mode(true, true, keyword)) == ReadsMissingToken
  {
    var tokens, idx, length := [Token(0, 6, "select"), Token(7, 9, "id")], 7, 8;
    assert tokens[1..] == [tokens[1]] && [tokens[1]][1..] == [];
    assert Overlapping(tokens, idx, length) == 1;
    NonKeywordsOverlap(tokens, idx, length, keyword);
    assert tokens[1].stop > idx;
  }
}
