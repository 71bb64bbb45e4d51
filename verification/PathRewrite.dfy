/** `String.prototype.replaceAll` of the official plugin, and the path simplification and the traversal tests built on
    it. */
module PathRewrite {

  import opened Options

  // ----- searching and replacing once, as JavaScript does for string patterns

  predicate MatchAt(s: string, t: string, i: int) {
    0 <= i && i + |t| <= |s| && s[i..i + |t|] == t
  }

  function IndexOf(s: string, t: string, from: nat): (r: int)
    ensures r == -1 || (from <= r && MatchAt(s, t, r))
    ensures forall i :: from <= i && (r == -1 || i < r) ==> !MatchAt(s, t, i)
    decreases |s| - from
  {
    if from + |t| > |s| then -1 else if MatchAt(s, t, from) then from else IndexOf(s, t, from + 1)
  }

  function LastIndexOf(s: string, t: string, upTo: int): (r: int)
    requires upTo >= -1
    ensures r == -1 || (r <= upTo && MatchAt(s, t, r))
    ensures forall i :: r < i <= upTo ==> !MatchAt(s, t, i)
  {
    if upTo == -1 || MatchAt(s, t, upTo) then upTo else LastIndexOf(s, t, upTo - 1)
  }

  /** `s.replace(t, v)` for a string `t`: the first match only (`v` holds no `$`). */
  function ReplaceFirst(s: string, t: string, v: string): string {
    var p := IndexOf(s, t, 0);
    if p == -1 then s else s[..p] + v + s[p + |t|..]
  }

  // ----- replacing until nothing matches

  function Count(s: string, c: char): nat {
    if s == "" then 0 else (if s[0] == c then 1 else 0) + Count(s[1..], c)
  }

  /** Each replacement makes progress. */
  predicate Shrinks(t: string, v: string) {
    if |t| == 1 then t[0] !in v else |v| < |t|
  }

  function Measure(s: string, t: string): nat
    requires t != ""
  {
    if |t| == 1 then Count(s, t[0]) else |s|
  }

  lemma {:induction false} CountAppend(x: string, y: string, c: char)
    ensures Count(x + y, c) == Count(x, c) + Count(y, c)
  {
    if x == "" {
      assert x + y == y;
    } else {
      assert (x + y)[1..] == x[1..] + y;
      CountAppend(x[1..], y, c);
    }
  }

  lemma {:induction false} CountAbsent(x: string, c: char)
    requires c !in x
    ensures Count(x, c) == 0
  {
    if x != "" { CountAbsent(x[1..], c); }
  }

  lemma ReplacingShrinks(s: string, t: string, v: string)
    requires t != "" && Shrinks(t, v) && IndexOf(s, t, 0) != -1
    ensures Measure(ReplaceFirst(s, t, v), t) < Measure(s, t)
  {
    var p := IndexOf(s, t, 0);
    var pre, post := s[..p], s[p + |t|..];
    assert s == pre + t + post;
    if |t| == 1 {
      CountAppend(pre + t, post, t[0]);
      CountAppend(pre, t, t[0]);
      CountAppend(pre + v, post, t[0]);
      CountAppend(pre, v, t[0]);
      CountAbsent(v, t[0]);
      assert Count(t, t[0]) == 1 by { assert t[1..] == ""; }
    }
  }

  /** Leftmost replacement until no match is left. */
  function Rewrite(s: string, t: string, v: string): (r: string)
    requires t != "" && Shrinks(t, v)
    ensures IndexOf(r, t, 0) == -1
    decreases Measure(s, t)
  {
    if IndexOf(s, t, 0) == -1 then s
    else
      ReplacingShrinks(s, t, v);
      Rewrite(ReplaceFirst(s, t, v), t, v)
  }

  lemma MatchAtSingle(s: string, c: char, i: int)
    ensures MatchAt(s, [c], i) <==> 0 <= i < |s| && s[i] == c
  {
    if 0 <= i < |s| {
      assert s[i..i + 1] == [s[i]];
    }
  }

  lemma MatchAtDouble(s: string, c: char, i: int)
    ensures MatchAt(s, [c, c], i) <==> 0 <= i && i + 2 <= |s| && s[i] == c && s[i + 1] == c
  {
    if 0 <= i && i + 2 <= |s| {
      assert s[i..i + 2] == [s[i], s[i + 1]];
    }
  }

  lemma MatchAtDot(s: string, c: char, i: int)
    ensures MatchAt(s, [c, '.', c], i) <==> 0 <= i && i + 3 <= |s| && s[i] == c && s[i + 1] == '.' && s[i + 2] == c
  {
    if 0 <= i && i + 3 <= |s| {
      assert s[i..i + 3] == [s[i], s[i + 1], s[i + 2]];
    }
  }

  /** The rounds of `replaceAll`: replace the first match, then search again only from where the last search ended.
      They come to an end within `n`. */
  predicate Stops(s: string, t: string, v: string, index: nat, n: nat)
    decreases n
  {
    n > 0 &&
      var r := ReplaceFirst(s, t, v);
      var next := IndexOf(r, t, index);
      next == -1 || Stops(r, t, v, next, n - 1)
  }

  /** What is left then. */
  function Stopped(s: string, t: string, v: string, index: nat, n: nat): string
    requires Stops(s, t, v, index, n)
    decreases n
  {
    var r := ReplaceFirst(s, t, v);
    var next := IndexOf(r, t, index);
    if next == -1 then r else Stopped(r, t, v, next, n - 1)
  }

  /** The longest text `replaceAll` works on when it is not told. */
  function DefaultLimit(s: string): nat {
    if |s| * 2 < 4096 then 4096 else |s| * 2
  }

  /** Its own default never keeps it from working. */
  lemma DefaultFits(s: string)
    ensures |s| <= DefaultLimit(s) && 4096 <= DefaultLimit(s)
  {
  }

  method ReplaceAll(s: string, t: string, v: string, maxLength: Option<nat>, ghost rounds: nat) returns (r: string)
    requires t == "" || |s| > maxLength.GetOr(DefaultLimit(s)) || Stops(s, t, v, 0, rounds)
    ensures r == if t == "" || |s| > maxLength.GetOr(DefaultLimit(s)) then s else Stopped(s, t, v, 0, rounds)
  {
    var limit := match maxLength case None => DefaultLimit(s) case Some(n) => n;
    if t == "" || |s| > limit {
      return s;
    }
    var index := 0;
    ghost var left := rounds;
    r := s;
    while true
      invariant 0 <= index && Stops(r, t, v, index, left)
      invariant Stopped(r, t, v, index, left) == Stopped(s, t, v, 0, rounds)
      decreases left
    {
      r := ReplaceFirst(r, t, v);
      index := IndexOf(r, t, index);
      left := left - 1;
      if index == -1 { break; }
    }
  }

  /** A replacement that starts with the pattern is found again at the same place, for ever. */
  lemma {:induction false} NeverStops(s: string, t: string, v: string, index: nat, n: nat)
    requires t <= v && index <= IndexOf(s, t, 0)
    ensures !Stops(s, t, v, index, n)
    decreases n
  {
    if n > 0 {
      var r := ReplaceFirst(s, t, v);
      FoundAgain(s, t, v);
      FoundFrom(r, t, index);
      NeverStops(r, t, v, IndexOf(s, t, 0), n - 1);
    }
  }

  lemma FoundFrom(s: string, t: string, from: nat)
    requires from <= IndexOf(s, t, 0)
    ensures IndexOf(s, t, from) == IndexOf(s, t, 0)
  {
    assert MatchAt(s, t, IndexOf(s, t, 0));
    assert IndexOf(s, t, from) != -1 ==> MatchAt(s, t, IndexOf(s, t, from));
  }

  lemma FoundAgain(s: string, t: string, v: string)
    requires t <= v && IndexOf(s, t, 0) != -1
    ensures IndexOf(ReplaceFirst(s, t, v), t, 0) == IndexOf(s, t, 0)
  {
    var p := IndexOf(s, t, 0);
    var pre, post, w := s[..p + |t|], s[p + |t|..], v[|t|..];
    assert s == pre + post;
    assert ReplaceFirst(s, t, v) == pre + (w + post);
    forall i | 0 <= i <= p ensures MatchAt(pre + (w + post), t, i) <==> MatchAt(s, t, i) {
      MatchKeeps(pre, w + post, t, i);
      MatchKeeps(pre, post, t, i);
    }
    FirstMatch(pre + (w + post), t, p);
  }

  /** A replacement that makes progress comes to an end. */
  lemma {:induction false} ShrinkingStops(s: string, t: string, v: string, index: nat) returns (n: nat)
    requires t != "" && Shrinks(t, v)
    ensures Stops(s, t, v, index, n)
    decreases Measure(s, t)
  {
    var r := ReplaceFirst(s, t, v);
    var next := IndexOf(r, t, index);
    n := 0;
    if next != -1 {
      if IndexOf(s, t, 0) != -1 { ReplacingShrinks(s, t, v); }
      n := ShrinkingStops(r, t, v, next);
    }
    n := n + 1;
  }

  /** If no match is left, the rounds were leftmost replacement until nothing matches. */
  lemma {:induction false} StoppedIsRewrite(s: string, t: string, v: string, index: nat, n: nat)
    requires t != "" && Shrinks(t, v) && Stops(s, t, v, index, n)
    requires IndexOf(Stopped(s, t, v, index, n), t, 0) == -1
    ensures Stopped(s, t, v, index, n) == Rewrite(s, t, v)
    decreases n
  {
    var r := ReplaceFirst(s, t, v);
    var next := IndexOf(r, t, index);
    if next != -1 {
      StoppedIsRewrite(r, t, v, next, n - 1);
    }
  }

  // ----- when the moving index misses a match

  /** No replacement of the first match makes a match that starts before it. */
  ghost predicate MakesNoneBefore(t: string, v: string) {
    forall s: string, i: int :: 0 <= i < IndexOf(s, t, 0) ==> !MatchAt(ReplaceFirst(s, t, v), t, i)
  }

  /** The shortest text in which a match follows the first `k` characters of `t` and its replacement might complete
      them to a match. */
  function Tail(t: string, v: string, k: nat): string
    requires k < |t|
  {
    if k + |v| < |t| then t[k + |v|..] else ""
  }

  function Overlap(t: string, v: string, k: nat): string
    requires k < |t|
  {
    t[..k] + t + Tail(t, v, k)
  }

  function Overlapped(t: string, v: string, k: nat): string
    requires k < |t|
  {
    t[..k] + v + Tail(t, v, k)
  }

  /** That happens at the overlap of `k` characters. */
  predicate Clashes(t: string, v: string, k: nat)
    requires k < |t|
  {
    IndexOf(Overlap(t, v, k), t, 0) == k && MatchAt(Overlapped(t, v, k), t, 0)
  }

  /** It happens at none of the finitely many overlaps. */
  predicate NoClash(t: string, v: string) {
    forall k :: 1 <= k < |t| ==> !Clashes(t, v, k)
  }

  lemma MatchMoves(x: string, s: string, t: string, i: int)
    requires 0 <= i
    ensures MatchAt(x + s, t, |x| + i) <==> MatchAt(s, t, i)
  {
    if i + |t| <= |s| {
      assert (x + s)[|x| + i..|x| + i + |t|] == s[i..i + |t|];
    }
  }

  lemma MatchKeeps(s: string, y: string, t: string, i: int)
    requires i + |t| <= |s|
    ensures MatchAt(s + y, t, i) <==> MatchAt(s, t, i)
  {
    if 0 <= i {
      assert (s + y)[i..i + |t|] == s[i..i + |t|];
    }
  }

  /** The first match of a text is the first position where it matches. */
  lemma FirstMatch(s: string, t: string, p: nat)
    requires MatchAt(s, t, p) && forall i :: 0 <= i < p ==> !MatchAt(s, t, i)
    ensures IndexOf(s, t, 0) == p
  {
    assert IndexOf(s, t, 0) == -1 ==> !MatchAt(s, t, p);
  }

  lemma ReplaceAt(x: string, t: string, y: string, v: string)
    requires IndexOf(x + t + y, t, 0) == |x|
    ensures ReplaceFirst(x + t + y, t, v) == x + v + y
  {
    var s := x + t + y;
    assert s[..|x|] == x && s[|x| + |t|..] == y;
  }

  /** No match starts before position `n`. */
  ghost predicate NoneBefore(s: string, t: string, n: int) {
    forall i :: 0 <= i < n ==> !MatchAt(s, t, i)
  }

  lemma NoneBeforeDrop(x: string, s: string, t: string, n: nat)
    requires NoneBefore(x + s, t, |x| + n)
    ensures NoneBefore(s, t, n)
  {
    forall i | 0 <= i < n ensures !MatchAt(s, t, i) {
      MatchMoves(x, s, t, i);
    }
  }

  lemma NoneBeforeTake(s: string, y: string, t: string, n: nat)
    requires NoneBefore(s + y, t, n)
    ensures NoneBefore(s, t, n)
  {
    forall i | 0 <= i < n ensures !MatchAt(s, t, i) {
      MatchExtends(s, y, t, i);
    }
  }

  lemma MatchExtends(s: string, y: string, t: string, i: int)
    ensures MatchAt(s, t, i) ==> MatchAt(s + y, t, i)
  {
    if MatchAt(s, t, i) {
      MatchKeeps(s, y, t, i);
    }
  }

  /** A match that a replacement makes before its own place is a clash. */
  lemma MatchBeforeClashes(s: string, t: string, v: string, i: nat, k: nat)
    requires k > 0 && IndexOf(s, t, 0) == i + k && MatchAt(ReplaceFirst(s, t, v), t, i)
    ensures k < |t| && Clashes(t, v, k)
  {
    var u, post := FromMatch(s, t, v, i, k);
    ClashFrom(u, t, post, v);
  }

  /** Cut at the match that was made. */
  lemma FromMatch(s: string, t: string, v: string, i: nat, k: nat) returns (u: string, post: string)
    requires IndexOf(s, t, 0) == i + k && MatchAt(ReplaceFirst(s, t, v), t, i)
    ensures |u| == k && NoneBefore(u + t + post, t, k) && MatchAt(u + v + post, t, 0)
  {
    var p := IndexOf(s, t, 0);
    var pre := s[..i];
    u, post := s[i..p], s[p + |t|..];
    assert NoneBefore(s, t, |pre| + |u|);
    Parts(s, i, p, t);
    NoneBeforeDrop(pre, u + t + post, t, |u|);
    Parts2(s, i, p, |t|, v);
    MatchMoves(pre, u + v + post, t, 0);
  }

  lemma Parts(s: string, i: nat, p: nat, t: string)
    requires i <= p && MatchAt(s, t, p)
    ensures s == s[..i] + (s[i..p] + t + s[p + |t|..])
  {
  }

  lemma Parts2(s: string, i: nat, p: nat, n: nat, v: string)
    requires i <= p && p + n <= |s|
    ensures s[..p] + v + s[p + n..] == s[..i] + (s[i..p] + v + s[p + n..])
  {
  }

  lemma ClashFrom(u: string, t: string, post: string, v: string)
    requires u != "" && NoneBefore(u + t + post, t, |u|) && MatchAt(u + v + post, t, 0)
    ensures |u| < |t| && Clashes(t, v, |u|)
  {
    ReachesReplaced(u, t, post, v);
    var rest := OverlapInside(t, v, u, post);
    NoneBeforeTake(Overlap(t, v, |u|), rest, t, |u|);
    OverlapMatches(t, v, |u|);
  }

  /** A new match in front reaches into the replaced part. */
  lemma ReachesReplaced(u: string, t: string, post: string, v: string)
    requires !MatchAt(u + t + post, t, 0) && MatchAt(u + v + post, t, 0)
    ensures |u| < |t|
  {
    MatchInFront(u, t, post, t);
    MatchInFront(u, v, post, t);
  }

  lemma MatchInFront(u: string, x: string, y: string, t: string)
    ensures |t| <= |u| ==> (MatchAt(u + x + y, t, 0) <==> MatchAt(u, t, 0))
  {
    if |t| <= |u| {
      assert u + x + y == u + (x + y);
      MatchKeeps(u, x + y, t, 0);
    }
  }

  lemma OverlapMatches(t: string, v: string, k: nat)
    requires k < |t| && NoneBefore(Overlap(t, v, k), t, k)
    ensures IndexOf(Overlap(t, v, k), t, 0) == k
  {
    MatchBehind(t[..k], t, Tail(t, v, k));
    FirstMatch(Overlap(t, v, k), t, k);
  }

  lemma MatchBehind(x: string, t: string, y: string)
    ensures MatchAt(x + t + y, t, |x|)
  {
  }

  /** A text that the replacement completes to a match starts with an overlap. */
  lemma OverlapInside(t: string, v: string, u: string, post: string) returns (rest: string)
    requires |u| < |t| && MatchAt(u + v + post, t, 0)
    ensures t[..|u|] == u && u + t + post == Overlap(t, v, |u|) + rest
    ensures MatchAt(Overlapped(t, v, |u|), t, 0)
  {
    var k := |u|;
    var w := u + v + post;
    assert w[..k] == u && w[..|t|] == t;
    assert t[..k] == w[..k];
    if k + |v| < |t| {
      var n := |t| - k - |v|;
      assert t[k + |v|..] == w[k + |v|..|t|] == post[..n];
      assert u + v + post[..n] == w[..|t|];
      rest := post[n..];
      assert post == post[..n] + rest;
    } else {
      assert (u + v)[..|t|] == w[..|t|];
      rest := post;
      assert u + v + "" == u + v && u + t + "" == u + t;
    }
  }

  /** Whether some replacement makes a match before its own place is decided by the overlaps alone. */
  lemma NoClashMeans(t: string, v: string)
    requires t != ""
    ensures NoClash(t, v) <==> MakesNoneBefore(t, v)
  {
    if NoClash(t, v) {
      forall s: string, i: int | 0 <= i < IndexOf(s, t, 0) ensures !MatchAt(ReplaceFirst(s, t, v), t, i) {
        if MatchAt(ReplaceFirst(s, t, v), t, i) {
          MatchBeforeClashes(s, t, v, i, IndexOf(s, t, 0) - i);
        }
      }
    }
    if k: nat :| 1 <= k < |t| && Clashes(t, v, k) {
      OverlapReplaced(t, v, k);
    }
  }

  lemma OverlapReplaced(t: string, v: string, k: nat)
    requires k < |t| && IndexOf(Overlap(t, v, k), t, 0) == k
    ensures ReplaceFirst(Overlap(t, v, k), t, v) == Overlapped(t, v, k)
  {
    var o := Overlap(t, v, k);
    assert o[..k] == t[..k] && o[k + |t|..] == Tail(t, v, k);
  }

  lemma NoMatch(s: string, t: string, i: int)
    requires IndexOf(s, t, 0) == -1
    ensures !MatchAt(s, t, i)
  {
  }

  lemma NoneFrom(s: string, t: string, from: nat)
    requires forall i :: from <= i ==> !MatchAt(s, t, i)
    ensures IndexOf(s, t, from) == -1
  {
  }

  lemma NoneAnywhere(s: string, t: string, from: nat)
    requires NoneBefore(s, t, from) && IndexOf(s, t, from) == -1
    ensures IndexOf(s, t, 0) == -1
  {
    NoneFrom(s, t, 0);
  }

  /** Without a clash the index misses nothing: whenever the rounds end, no match is left. */
  lemma {:induction false} RoundsMissNone(s: string, t: string, v: string, index: nat, n: nat)
    requires t != "" && MakesNoneBefore(t, v) && Stops(s, t, v, index, n) && NoneBefore(s, t, index)
    ensures IndexOf(Stopped(s, t, v, index, n), t, 0) == -1
    decreases n
  {
    var r := ReplaceFirst(s, t, v);
    var next := IndexOf(r, t, index);
    if next != -1 {
      RoundsMissNone(r, t, v, next, n - 1);
    } else {
      NoneAnywhere(r, t, index);
    }
  }

  /** A character neither first nor last in `t`, as often as `t` is long: no match touches it. */
  function Gap(t: string): string
    requires t != ""
  {
    var c := if 'a' != t[0] && 'a' != t[|t| - 1] then 'a' else if 'b' != t[0] && 'b' != t[|t| - 1] then 'b' else 'c';
    seq(|t|, _ => c)
  }

  lemma GapKeepsApart(x: string, s: string, t: string, i: nat)
    requires t != "" && IndexOf(x, t, 0) == -1 && MatchAt(x + Gap(t) + s, t, i)
    ensures i >= |x| + |t| && MatchAt(s, t, i - |x| - |t|)
  {
    if i + |t| <= |x| {
      NoneInFront(x, Gap(t), s, t, i);
    } else if i < |x| + |t| {
      GapUntouched(x, s, t, i);
    } else {
      MatchMoves(x + Gap(t), s, t, i - |x| - |t|);
    }
  }

  lemma NoneInFront(x: string, y: string, s: string, t: string, i: nat)
    requires IndexOf(x, t, 0) == -1 && i + |t| <= |x|
    ensures !MatchAt(x + y + s, t, i)
  {
    assert x + y + s == x + (y + s);
    MatchKeeps(x, y + s, t, i);
    NoMatch(x, t, i);
  }

  lemma GapUntouched(x: string, s: string, t: string, i: nat)
    requires t != "" && i + |t| > |x| && i < |x| + |t|
    ensures !MatchAt(x + Gap(t) + s, t, i)
  {
    var w := x + Gap(t) + s;
    if MatchAt(w, t, i) {
      MatchEnds(w, t, i);
    }
  }

  lemma MatchEnds(w: string, t: string, i: nat)
    requires t != "" && MatchAt(w, t, i)
    ensures w[i] == t[0] && w[i + |t| - 1] == t[|t| - 1]
  {
    assert w[i..i + |t|][0] == w[i] && w[i..i + |t|][|t| - 1] == w[i + |t| - 1];
  }

  /** With a clash there is an input that keeps a match: the first round moves the index behind the place where the
      second one makes it. */
  lemma ClashLeavesMatch(t: string, v: string, k: nat)
    requires IndexOf(v, t, 0) == -1 && 1 <= k < |t| && Clashes(t, v, k)
    ensures var s := t + Gap(t) + Overlap(t, v, k);
      Stops(s, t, v, 0, 2) && IndexOf(Stopped(s, t, v, 0, 2), t, 0) != -1
  {
    var o, r := Overlap(t, v, k), Overlapped(t, v, k);
    var s, s1, s2, n := t + Gap(t) + o, v + Gap(t) + o, v + Gap(t) + r, |v| + |t|;
    FirstRound(t, v, o);
    FirstAfterGap(t, v, o, k);
    SecondRound(t, v, k);
    StillMatches(v + Gap(t), r, t);
    TwoRounds(s, s1, s2, t, v, n + k);
  }

  lemma TwoRounds(s: string, s1: string, s2: string, t: string, v: string, n: nat)
    requires ReplaceFirst(s, t, v) == s1 && IndexOf(s1, t, 0) == n
    requires ReplaceFirst(s1, t, v) == s2 && IndexOf(s2, t, n) == -1
    ensures Stops(s, t, v, 0, 2) && Stopped(s, t, v, 0, 2) == s2
  {
    assert Stops(s1, t, v, n, 1) && Stopped(s1, t, v, n, 1) == s2;
  }

  lemma StillMatches(x: string, r: string, t: string)
    requires MatchAt(r, t, 0)
    ensures IndexOf(x + r, t, 0) != -1
  {
    MatchMoves(x, r, t, 0);
  }

  lemma FirstRound(t: string, v: string, o: string)
    requires t != ""
    ensures ReplaceFirst(t + Gap(t) + o, t, v) == v + Gap(t) + o
  {
    assert t + Gap(t) + o == "" + t + (Gap(t) + o) && v + Gap(t) + o == "" + v + (Gap(t) + o);
    MatchKeeps(t, Gap(t) + o, t, 0);
    FirstMatch("" + t + (Gap(t) + o), t, 0);
    ReplaceAt("", t, Gap(t) + o, v);
  }

  lemma FirstAfterGap(t: string, v: string, o: string, k: nat)
    requires t != "" && IndexOf(v, t, 0) == -1 && IndexOf(o, t, 0) == k
    ensures IndexOf(v + Gap(t) + o, t, 0) == |v| + |t| + k
  {
    var s, n := v + Gap(t) + o, |v| + |t|;
    assert |v + Gap(t)| == n;
    MatchMoves(v + Gap(t), o, t, k);
    forall i | 0 <= i < n + k ensures !MatchAt(s, t, i) {
      if MatchAt(s, t, i) {
        GapKeepsApart(v, o, t, i);
      }
    }
    FirstMatch(s, t, n + k);
  }

  /** The second round ends the search: behind its place it leaves the replacement, or too little for a match. */
  lemma SecondRound(t: string, v: string, k: nat)
    requires IndexOf(v, t, 0) == -1 && 1 <= k < |t| && IndexOf(Overlap(t, v, k), t, 0) == k
    ensures ReplaceFirst(v + Gap(t) + Overlap(t, v, k), t, v) == v + Gap(t) + Overlapped(t, v, k)
    ensures IndexOf(v + Gap(t) + Overlapped(t, v, k), t, |v| + |t| + k) == -1
  {
    var x, y, z := v + Gap(t), t[..k], Tail(t, v, k);
    FirstAfterGap(t, v, Overlap(t, v, k), k);
    Regroup(x, y, t, z);
    Regroup(x, y, v, z);
    ReplaceIn(x + Overlap(t, v, k), x + y, t, z, v, x + Overlapped(t, v, k));
    NoneInTail(t, v, k);
    RegroupEnd(x, y, v, z);
    NoneBehindIn(x + Overlapped(t, v, k), x + y, v + z, t);
  }

  lemma ReplaceIn(w: string, x: string, t: string, z: string, v: string, r: string)
    requires w == x + t + z && r == x + v + z && IndexOf(w, t, 0) == |x|
    ensures ReplaceFirst(w, t, v) == r
  {
    ReplaceAt(x, t, z, v);
  }

  lemma NoneBehindIn(r: string, x: string, s: string, t: string)
    requires r == x + s && IndexOf(s, t, 0) == -1
    ensures IndexOf(r, t, |x|) == -1
  {
    NoneBehind(x, s, t);
  }

  lemma RegroupEnd(x: string, y: string, v: string, z: string)
    ensures x + (y + v + z) == (x + y) + (v + z)
  {
  }

  lemma NoneInTail(t: string, v: string, k: nat)
    requires IndexOf(v, t, 0) == -1 && 1 <= k < |t|
    ensures IndexOf(v + Tail(t, v, k), t, 0) == -1
  {
    if k + |v| >= |t| {
      assert v + "" == v;
    }
  }

  lemma NoneBehind(x: string, s: string, t: string)
    requires IndexOf(s, t, 0) == -1
    ensures IndexOf(x + s, t, |x|) == -1
  {
    forall i | |x| <= i ensures !MatchAt(x + s, t, i) {
      MatchMoves(x, s, t, i - |x|);
      NoMatch(s, t, i - |x|);
    }
    NoneFrom(x + s, t, |x|);
  }

  lemma Regroup(x: string, y: string, t: string, z: string)
    ensures x + (y + t + z) == (x + y) + t + z
  {
  }

  /** Whenever `replaceAll` comes to an end, it leaves no match. */
  ghost predicate LeavesNone(t: string, v: string) {
    forall s, n :: Stops(s, t, v, 0, n) ==> IndexOf(Stopped(s, t, v, 0, n), t, 0) == -1
  }

  lemma AnyClash(t: string, v: string) returns (k: nat)
    requires !NoClash(t, v)
    ensures 1 <= k < |t| && Clashes(t, v, k)
  {
    k :| 1 <= k < |t| && Clashes(t, v, k);
  }

  lemma NoClashLeavesNone(t: string, v: string)
    requires t != "" && NoClash(t, v)
    ensures LeavesNone(t, v)
  {
    NoClashMeans(t, v);
    forall s, n | Stops(s, t, v, 0, n) ensures IndexOf(Stopped(s, t, v, 0, n), t, 0) == -1 {
      RoundsMissNone(s, t, v, 0, n);
    }
  }

  lemma ClashedText(t: string, v: string) returns (s: string)
    requires t != "" && IndexOf(v, t, 0) == -1 && !NoClash(t, v)
    ensures Stops(s, t, v, 0, 2) && IndexOf(Stopped(s, t, v, 0, 2), t, 0) != -1
  {
    var k := AnyClash(t, v);
    ClashLeavesMatch(t, v, k);
    s := t + Gap(t) + Overlap(t, v, k);
  }

  /** Without a clash no match is left, and with one some text keeps a match, if the replacement has none itself. */
  lemma ReplaceAllLeavesNone(t: string, v: string)
    requires t != ""
    ensures NoClash(t, v) ==> LeavesNone(t, v)
    ensures IndexOf(v, t, 0) == -1 ==> (LeavesNone(t, v) <==> NoClash(t, v))
  {
    if NoClash(t, v) {
      NoClashLeavesNone(t, v);
    } else if IndexOf(v, t, 0) == -1 {
      var s := ClashedText(t, v);
    }
  }

  /** The replacements the plugin makes: one character by a text without it, a doubled separator by one, and
      separator, dot, separator by one separator. */
  predicate Steady(t: string, v: string) {
    || (|t| == 1 && t[0] !in v)
    || (|v| == 1 && t == [v[0], v[0]])
    || (|v| == 1 && t == [v[0], '.', v[0]] && v[0] != '.')
  }

  /** None of them clashes. */
  lemma SteadyNoClash(t: string, v: string)
    requires Steady(t, v)
    ensures NoClash(t, v)
  {
    forall k | 1 <= k < |t| ensures !Clashes(t, v, k) {
      var o, r := Overlap(t, v, k), Overlapped(t, v, k);
      if |t| == 2 {
        assert o[0..2] == t;
      } else if k == 1 {
        assert r[0..3][1] == v[0];
      } else {
        assert o[0..3] == t;
      }
    }
  }

  /** So they are leftmost replacement until nothing matches. */
  lemma SteadyRounds(s: string, t: string, v: string, n: nat)
    requires t != "" && Shrinks(t, v) && Steady(t, v) && Stops(s, t, v, 0, n)
    ensures Stopped(s, t, v, 0, n) == Rewrite(s, t, v)
  {
    SteadyNoClash(t, v);
    NoClashMeans(t, v);
    RoundsMissNone(s, t, v, 0, n);
    StoppedIsRewrite(s, t, v, 0, n);
  }

  lemma SteadyStops(s: string, t: string, v: string) returns (n: nat)
    requires t != "" && Shrinks(t, v) && Steady(t, v)
    ensures Stops(s, t, v, 0, n) && Stopped(s, t, v, 0, n) == Rewrite(s, t, v)
  {
    n := ShrinkingStops(s, t, v, 0);
    SteadyRounds(s, t, v, n);
  }

  /** A replacement that clashes leaves a match: here the second one makes a match before its own place. */
  lemma UnsteadyRoundsMayLeaveAMatch()
    ensures Stops("aabaaabb", "aab", "a", 0, 2) && Stopped("aabaaabb", "aab", "a", 0, 2) == "aaab"
    ensures MatchAt("aaab", "aab", 1)
  {
    var s, t := "aabaaabb", "aab";
    assert MatchAt(s, t, 0) && ReplaceFirst(s, t, "a") == "aaaabb";
    var s1 := "aaaabb";
    assert s1[0..3][2] == 'a' && s1[1..4][2] == 'a' && t[2] == 'b' && s1[2..5] == t;
    assert IndexOf(s1, t, 0) == 2 && ReplaceFirst(s1, t, "a") == "aaab";
    var s2 := "aaab";
    assert s2[1..4] == t && IndexOf(s2, t, 2) == -1;
    TwoRounds(s, s1, s2, t, "a", 2);
  }

  // ----- segments

  /** The pieces between separators; always at least one. */
  function Split(s: string, seps: set<char>): (r: seq<string>)
    ensures r != []
  {
    if s == "" then [""]
    else
      var rest := Split(s[1..], seps);
      if s[0] in seps then [""] + rest else [[s[0]] + rest[0]] + rest[1..]
  }

  lemma {:induction false} SplitAtSeparator(x: string, c: char, y: string, seps: set<char>)
    requires c in seps
    ensures Split(x + [c] + y, seps) == Split(x, seps) + Split(y, seps)
  {
    if x == "" {
      assert x + [c] + y == [c] + y && ([c] + y)[1..] == y;
    } else {
      assert (x + [c] + y)[1..] == x[1..] + [c] + y;
      SplitAtSeparator(x[1..], c, y, seps);
    }
  }

  /** The segments that name something: not empty and not `.`. */
  function Naming(segments: seq<string>): seq<string> {
    if segments == [] then []
    else (if segments[0] == "" || segments[0] == "." then [] else [segments[0]]) + Naming(segments[1..])
  }

  lemma {:induction false} NamingAppend(x: seq<string>, y: seq<string>)
    ensures Naming(x + y) == Naming(x) + Naming(y)
  {
    if x == [] {
      assert x + y == y;
    } else {
      assert (x + y)[1..] == x[1..] + y;
      NamingAppend(x[1..], y);
    }
  }

  /** Empty segments and `.` are dropped wherever they stand, and every other segment stays at its place. */
  lemma NamingKeeps(x: seq<string>, segment: string, y: seq<string>)
    ensures Naming(x + [segment] + y)
         == if segment in {"", "."} then Naming(x + y) else Naming(x) + [segment] + Naming(y)
  {
    NamingAppend(x + [segment], y);
    NamingAppend(x, [segment]);
    NamingAppend(x, y);
    assert [segment][1..] == [];
  }

  function Names(s: string, c: char): seq<string> {
    Naming(Split(s, {c}))
  }

  lemma NamesAtSeparator(x: string, c: char, y: string)
    ensures Names(x + [c] + y, c) == Names(x, c) + Names(y, c)
  {
    SplitAtSeparator(x, c, y, {c});
    NamingAppend(Split(x, {c}), Split(y, {c}));
  }

  /** Same names, and a separator at the front or at the back exactly when there was one. */
  ghost predicate SamePath(s: string, r: string, c: char) {
    && Names(r, c) == Names(s, c)
    && (r == "" <==> s == "")
    && (s != "" ==> (r[0] == c <==> s[0] == c) && (r[|r| - 1] == c <==> s[|s| - 1] == c))
  }

  /** `cc` and `c.c`, the two things simplification removes. */
  predicate Redundant(t: string, c: char) {
    c != '.' && (t == [c, c] || t == [c, '.', c])
  }

  lemma DotNamesNothing(mid: string, c: char)
    requires c != '.' && (mid == "" || mid == ".")
    ensures Names(mid, c) == []
  {
    assert Split("", {c}) == [""] && [""][1..] == [];
    if mid == "." {
      assert mid[0] == '.' && mid[1..] == "" && ['.'] + "" == ".";
      assert Split(mid, {c}) == ["."] && ["."][1..] == [];
    }
  }

  lemma NamesWithoutMid(pre: string, mid: string, c: char, post: string)
    requires c != '.' && (mid == "" || mid == ".")
    ensures Names(pre + [c] + (mid + [c] + post), c) == Names(pre + [c] + post, c)
  {
    NamesAtSeparator(pre, c, mid + [c] + post);
    NamesAtSeparator(mid, c, post);
    NamesAtSeparator(pre, c, post);
    DotNamesNothing(mid, c);
    assert [] + Names(post, c) == Names(post, c);
  }

  /** Around the first match of a redundant text. */
  lemma Decompose(s: string, t: string, c: char) returns (pre: string, mid: string, post: string)
    requires Redundant(t, c) && IndexOf(s, t, 0) != -1
    ensures mid == "" || mid == "."
    ensures s == pre + [c] + (mid + [c] + post)
    ensures ReplaceFirst(s, t, [c]) == pre + [c] + post
  {
    var p := IndexOf(s, t, 0);
    pre, post := s[..p], s[p + |t|..];
    mid := if |t| == 2 then "" else ".";
    assert s == pre + t + post;
    assert t == [c] + mid + [c];
  }

  lemma ReplacingKeepsPath(s: string, t: string, c: char)
    requires Redundant(t, c) && IndexOf(s, t, 0) != -1
    ensures SamePath(s, ReplaceFirst(s, t, [c]), c)
  {
    var pre, mid, post := Decompose(s, t, c);
    NamesWithoutMid(pre, mid, c, post);
    EndsWithoutMid(pre, mid, c, post);
  }

  lemma EndsWithoutMid(pre: string, mid: string, c: char, post: string)
    ensures var s, r := pre + [c] + (mid + [c] + post), pre + [c] + post;
      s[0] == r[0] && s[|s| - 1] == r[|r| - 1]
  {
    var s, r := pre + [c] + (mid + [c] + post), pre + [c] + post;
    if post == "" {
      assert s[|s| - 1] == c && r[|r| - 1] == c;
    } else {
      assert s[|s| - 1] == post[|post| - 1] && r[|r| - 1] == post[|post| - 1];
    }
  }

  lemma SamePathTransitive(s: string, r: string, q: string, c: char)
    requires SamePath(s, r, c) && SamePath(r, q, c)
    ensures SamePath(s, q, c)
  {
  }

  lemma {:induction false} RewriteKeepsPath(s: string, t: string, c: char)
    requires Redundant(t, c)
    ensures SamePath(s, Rewrite(s, t, [c]), c)
    decreases Measure(s, t)
  {
    if IndexOf(s, t, 0) != -1 {
      ReplacingShrinks(s, t, [c]);
      var first := ReplaceFirst(s, t, [c]);
      ReplacingKeepsPath(s, t, c);
      RewriteKeepsPath(first, t, c);
      SamePathTransitive(s, first, Rewrite(first, t, [c]), c);
    }
  }

  /** Removing `c.c` from a text without `cc` makes no `cc`. */
  lemma ReplacingDotMakesNoDouble(s: string, c: char)
    requires c != '.' && IndexOf(s, [c, c], 0) == -1 && IndexOf(s, [c, '.', c], 0) != -1
    ensures IndexOf(ReplaceFirst(s, [c, '.', c], [c]), [c, c], 0) == -1
  {
    var t := [c, '.', c];
    var p := IndexOf(s, t, 0);
    var r := ReplaceFirst(s, t, [c]);
    MatchAtDot(s, c, p);
    assert forall k :: 0 <= k < |r| ==> r[k] == if k <= p then s[k] else s[k + 2];
    forall i ensures !MatchAt(r, [c, c], i) {
      var j := if i < p then i else i + 2;
      assert !MatchAt(s, [c, c], j);
      MatchAtDouble(s, c, j);
      MatchAtDouble(r, c, i);
    }
  }

  lemma {:induction false} RewriteDotMakesNoDouble(s: string, c: char)
    requires c != '.' && IndexOf(s, [c, c], 0) == -1
    ensures IndexOf(Rewrite(s, [c, '.', c], [c]), [c, c], 0) == -1
    decreases |s|
  {
    var t := [c, '.', c];
    if IndexOf(s, t, 0) != -1 {
      ReplacingShrinks(s, t, [c]);
      ReplacingDotMakesNoDouble(s, c);
      RewriteDotMakesNoDouble(ReplaceFirst(s, t, [c]), c);
    }
  }

  /** `s` with every `a` made `b`. */
  function MapChar(s: string, a: char, b: char): (r: string)
    ensures |r| == |s|
  {
    if s == "" then "" else [if s[0] == a then b else s[0]] + MapChar(s[1..], a, b)
  }

  lemma {:induction false} MapCharAppend(x: string, y: string, a: char, b: char)
    ensures MapChar(x + y, a, b) == MapChar(x, a, b) + MapChar(y, a, b)
  {
    if x == "" {
      assert x + y == y;
    } else {
      assert (x + y)[1..] == x[1..] + y;
      MapCharAppend(x[1..], y, a, b);
    }
  }

  lemma {:induction false} MapCharAbsent(s: string, a: char, b: char)
    requires forall i :: 0 <= i ==> !MatchAt(s, [a], i)
    ensures MapChar(s, a, b) == s
  {
    if s != "" {
      assert !MatchAt(s, [a], 0) && s[0..1] == [s[0]];
      forall i | 0 <= i ensures !MatchAt(s[1..], [a], i) {
        assert !MatchAt(s, [a], i + 1);
        MatchAtSingle(s, a, i + 1);
        MatchAtSingle(s[1..], a, i);
      }
      MapCharAbsent(s[1..], a, b);
    }
  }

  /** Replacing one character by another everywhere is the character-wise map. */
  lemma {:induction false} RewriteIsMapChar(s: string, a: char, b: char)
    requires a != b
    ensures Rewrite(s, [a], [b]) == MapChar(s, a, b)
    decreases Measure(s, [a])
  {
    var p := IndexOf(s, [a], 0);
    if p == -1 {
      MapCharAbsent(s, a, b);
    } else {
      ReplacingShrinks(s, [a], [b]);
      RewriteIsMapChar(ReplaceFirst(s, [a], [b]), a, b);
      var pre, post := s[..p], s[p + 1..];
      assert s == pre + ([a] + post) && ReplaceFirst(s, [a], [b]) == pre + ([b] + post);
      MapCharAppend(pre, [a] + post, a, b);
      MapCharAppend(pre, [b] + post, a, b);
      assert ([a] + post)[1..] == post && ([b] + post)[1..] == post;
    }
  }

  // ----- simplification, as in `is_path_endswith_userinput`

  function Simplified(s: string, c: char): string
    requires c != '.'
  {
    Rewrite(Rewrite(s, [c, c], [c]), [c, '.', c], [c])
  }

  /** Neither redundancy is left, and the path is the same. */
  ghost predicate SimplestForm(s: string, r: string, c: char) {
    && (forall i :: !MatchAt(r, [c, c], i))
    && (forall i :: !MatchAt(r, [c, '.', c], i))
    && SamePath(s, r, c)
  }

  lemma SimplifiedIsSimplest(s: string, c: char)
    requires c != '.'
    ensures SimplestForm(s, Simplified(s, c), c)
  {
    var u := Rewrite(s, [c, c], [c]);
    RewriteKeepsPath(s, [c, c], c);
    RewriteKeepsPath(u, [c, '.', c], c);
    RewriteDotMakesNoDouble(u, c);
  }

  /** Simplifying again changes nothing. */
  lemma SimplifiedTwice(s: string, c: char)
    requires c != '.'
    ensures Simplified(Simplified(s, c), c) == Simplified(s, c)
  {
    SimplifiedIsSimplest(s, c);
  }

  method SimplifyPath(path: string, isWindows: bool) returns (r: string)
    ensures var c := if isWindows then '\\' else '/';
      var input := if isWindows then MapChar(path, '/', c) else path;
      SimplestForm(input, r, c)
  {
    var c := if isWindows then '\\' else '/';
    var input := path;
    if isWindows {
      ghost var n := SteadyStops(path, "/", "\\");
      input := ReplaceAll(path, "/", "\\", None, n);
      RewriteIsMapChar(path, '/', c);
    }
    SimplifiedIsSimplest(input, c);
    ghost var n := SteadyStops(input, [c, c], [c]);
    r := ReplaceAll(input, [c, c], [c], None, n);
    n := SteadyStops(r, [c, '.', c], [c]);
    r := ReplaceAll(r, [c, '.', c], [c], None, n);
  }

  // ----- traversal tests

  /** How many segments are `..`. */
  function DotDots(segments: seq<string>): nat {
    if segments == [] then 0 else (if segments[0] == ".." then 1 else 0) + DotDots(segments[1..])
  }

  lemma {:induction false} DotDotsAppend(x: seq<string>, y: seq<string>)
    ensures DotDots(x + y) == DotDots(x) + DotDots(y)
  {
    if x == [] {
      assert x + y == y;
    } else {
      assert (x + y)[1..] == x[1..] + y;
      DotDotsAppend(x[1..], y);
    }
  }

  const UP := "/../"

  /** How many matches of `/../` start at `from` or later; matches may overlap. */
  function Ups(s: string, from: nat): nat
    decreases |s| - from
  {
    if from + 4 > |s| then 0 else (if MatchAt(s, UP, from) then 1 else 0) + Ups(s, from + 1)
  }

  lemma UpAt(s: string, i: int)
    ensures MatchAt(s, UP, i) <==>
      0 <= i && i + 4 <= |s| && s[i] == '/' && s[i + 1] == '.' && s[i + 2] == '.' && s[i + 3] == '/'
  {
    if 0 <= i && i + 4 <= |s| {
      assert s[i..i + 4] == [s[i], s[i + 1], s[i + 2], s[i + 3]];
    }
  }

  /** Matches counted in a suffix. */
  lemma {:induction false} UpsShift(x: string, y: string, from: nat)
    ensures Ups(x + y, |x| + from) == Ups(y, from)
    decreases |y| - from
  {
    if from + 4 <= |y| {
      assert (x + y)[|x| + from..|x| + from + 4] == y[from..from + 4];
      UpsShift(x, y, from + 1);
    }
  }

  /** No match starts where no slash is. */
  lemma {:induction false} UpsSkip(s: string, from: nat, to: nat)
    requires from <= to <= |s| && forall i :: from <= i < to ==> s[i] != '/'
    ensures Ups(s, from) == Ups(s, to)
    decreases |s| - from
  {
    if from < to {
      UpAt(s, from);
      UpsSkip(s, from + 1, to);
    }
  }

  lemma {:induction false} SplitWithout(s: string, seps: set<char>)
    requires forall i :: 0 <= i < |s| ==> s[i] !in seps
    ensures Split(s, seps) == [s]
  {
    if s != "" {
      SplitWithout(s[1..], seps);
      assert [s[0]] + s[1..] == s;
    }
  }

  /** A match over the first segment of a padded path says that segment is `..`. */
  lemma FirstSegmentUp(a: string, tail: string)
    requires forall i :: 0 <= i < |a| ==> a[i] != '/'
    requires tail != "" && tail[0] == '/'
    ensures Ups("/" + a + tail, 0) == (if a == ".." then 1 else 0) + Ups(tail, 0)
  {
    var s := "/" + a + tail;
    UpAt(s, 0);
    assert forall i :: 0 <= i < |a| ==> s[i + 1] == a[i];
    assert s[|a| + 1] == '/';
    if a == ".." {
      assert s[1] == a[0] && s[2] == a[1];
    }
    if MatchAt(s, UP, 0) {
      assert |a| >= 1 && |a| >= 2 && |a| <= 2;
      assert a == [a[0], a[1]];
    }
    UpsSkip(s, 1, |a| + 1);
    assert s == ("/" + a) + tail;
    UpsShift("/" + a, tail, 0);
    if |s| < 4 {
      assert |tail| < 4;
    }
  }

  /** The first segment of a path, and what follows its slash. */
  lemma FirstSegment(q: string) returns (a: string, more: bool, b: string)
    ensures forall i :: 0 <= i < |a| ==> a[i] != '/'
    ensures if more then q == a + "/" + b && Split(q, {'/'}) == [a] + Split(b, {'/'})
            else q == a && Split(q, {'/'}) == [a]
  {
    var n := IndexOf(q, "/", 0);
    forall i | 0 <= i < |q| && (n == -1 || i < n) ensures q[i] != '/' {
      assert !MatchAt(q, "/", i);
      MatchAtSingle(q, '/', i);
    }
    if n == -1 {
      a, more, b := q, false, "";
    } else {
      a, more, b := q[..n], true, q[n + 1..];
      MatchAtSingle(q, '/', n);
      assert q == a + "/" + b;
      SplitAtSeparator(a, '/', b, {'/'});
    }
    SplitWithout(a, {'/'});
  }

  /** Overlapping matches of `/../` in the padded path correspond one to one to the `..` segments. */
  lemma {:induction false} UpsAreDotDots(q: string)
    ensures Ups("/" + q + "/", 0) == DotDots(Split(q, {'/'}))
    decreases |q|
  {
    var a, more, b := FirstSegment(q);
    assert DotDots([a]) == (if a == ".." then 1 else 0) by { assert [a][1..] == []; }
    if more {
      var tail := "/" + b + "/";
      assert "/" + q + "/" == "/" + a + tail;
      FirstSegmentUp(a, tail);
      UpsAreDotDots(b);
      DotDotsAppend([a], Split(b, {'/'}));
    } else {
      FirstSegmentUp(a, "/");
    }
  }

  /** First and last match against the number of matches. */
  lemma {:induction false} UpsCounted(s: string, from: nat)
    ensures var first := IndexOf(s, UP, from);
      && (Ups(s, from) == 0 <==> first == -1)
      && (first != -1 ==> Ups(s, from) == 1 + Ups(s, first + 1))
    decreases |s| - from
  {
    if from + 4 <= |s| && !MatchAt(s, UP, from) {
      UpsCounted(s, from + 1);
    }
  }

  /** Making backslashes slashes and splitting at slashes is splitting at both. */
  lemma {:induction false} SplitBothSlashes(s: string)
    ensures Split(MapChar(s, '\\', '/'), {'/'}) == Split(s, {'/', '\\'})
  {
    if s != "" {
      var m := MapChar(s, '\\', '/');
      assert m[1..] == MapChar(s[1..], '\\', '/');
      SplitBothSlashes(s[1..]);
    }
  }

  /** The path with all slashes made `/`, between two slashes. */
  method Padded(path: string) returns (r: string)
    ensures Ups(r, 0) == DotDots(Split(path, {'/', '\\'}))
  {
    ghost var n := SteadyStops(path, "\\", "/");
    var slashed := ReplaceAll(path, "\\", "/", None, n);
    RewriteIsMapChar(path, '\\', '/');
    SplitBothSlashes(path);
    UpsAreDotDots(slashed);
    r := "/" + slashed + "/";
  }

  /** At least two `..` segments, wherever they stand. */
  method HasTraversal(path: string) returns (r: bool)
    ensures r <==> DotDots(Split(path, {'/', '\\'})) >= 2
  {
    var path2 := Padded(path);
    var left := IndexOf(path2, UP, 0);
    var right := LastIndexOf(path2, UP, |path2|);
    UpsCounted(path2, 0);
    if left != -1 {
      UpsCounted(path2, left + 1);
    }
    if left != -1 && right != -1 && left != right {
      assert IndexOf(path2, UP, left + 1) != -1;
      return true;
    }
    return false;
  }

  method ParamHasTraversal(param: string) returns (r: bool)
    ensures r <==> DotDots(Split(param, {'/', '\\'})) >= 1
  {
    var path := Padded(param);
    UpsCounted(path, 0);
    if IndexOf(path, UP, 0) != -1 {
      return true;
    }
    return false;
  }
}
