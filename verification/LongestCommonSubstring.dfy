/** `lcs_search` of the official plugin: the longest common substrings of two strings,
    found with two rolling rows of the classical table. */
module LongestCommonSubstring {

  /** `t` is the piece of `s` that starts at `p`. */
  predicate OccursAt(s: string, p: int, t: string) {
    0 <= p && p + |t| <= |s| && s[p..p + |t|] == t
  }

  ghost predicate Occurs(s: string, t: string) {
    exists p :: OccursAt(s, p, t)
  }

  ghost predicate Common(t: string, a: string, b: string) {
    Occurs(a, t) && Occurs(b, t)
  }

  /** What the search promises: a common substring that is not empty and that no common substring exceeds. */
  ghost predicate LongestCommon(t: string, a: string, b: string) {
    && t != ""
    && Common(t, a, b)
    && forall u: string :: Common(u, a, b) ==> |u| <= |t|
  }

  /** A piece of `s` equal to `t` starts at `p`, and none starts before `p`. */
  ghost predicate FirstAt(s: string, p: int, t: string) {
    OccursAt(s, p, t) && forall q :: q < p ==> !OccursAt(s, q, t)
  }

  /** Listed without repetition, by the place where each one first occurs in `a`. */
  ghost predicate OrderedByFirstOccurrence(a: string, r: seq<string>) {
    forall i, j, p, q :: 0 <= i < j < |r| && FirstAt(a, p, r[i]) && FirstAt(a, q, r[j]) ==> p < q
  }

  ghost predicate Distinct<T>(s: seq<T>) {
    forall i, j :: 0 <= i < j < |s| ==> s[i] != s[j]
  }

  // ----- the full table

  /** One cell of the full table: how far `a[..i]` and `b[..j]` agree when read backwards. */
  function Cell(a: string, b: string, i: nat, j: nat): nat
    requires i <= |a| && j <= |b|
  {
    if i == 0 || j == 0 || a[i - 1] != b[j - 1] then 0 else Cell(a, b, i - 1, j - 1) + 1
  }

  /** A cell is the length of the longest common suffix of the two prefixes. */
  lemma {:induction false} CellIsLongestCommonSuffix(a: string, b: string, i: nat, j: nat, n: nat)
    requires i <= |a| && j <= |b| && n <= i && n <= j
    ensures Cell(a, b, i, j) <= i && Cell(a, b, i, j) <= j
    ensures n <= Cell(a, b, i, j) <==> a[i - n..i] == b[j - n..j]
  {
    if i == 0 || j == 0 {
    } else if n == 0 {
      CellIsLongestCommonSuffix(a, b, i - 1, j - 1, 0);
    } else {
      CellIsLongestCommonSuffix(a, b, i - 1, j - 1, n - 1);
      var x, y := a[i - n..i], b[j - n..j];
      assert x[..n - 1] == a[i - n..i - 1] && y[..n - 1] == b[j - n..j - 1];
      assert x[n - 1] == a[i - 1] && y[n - 1] == b[j - 1];
      assert x == x[..n - 1] + [x[n - 1]] && y == y[..n - 1] + [y[n - 1]];
    }
  }

  // ----- what the scan knows after part of the table

  /** Cell (i', j') is one the scan has filled when it stands at (i, j). */
  predicate Seen(a: string, b: string, i': int, j': int, i: int, j: int) {
    1 <= i' <= |a| && 1 <= j' <= |b| && (i' < i || (i' == i && j' < j))
  }

  /** Some cell seen so far in row `e` holds `n`. */
  ghost predicate RowHolds(a: string, b: string, e: int, n: nat, i: int, j: int) {
    exists j' :: Seen(a, b, e, j', i, j) && Cell(a, b, e, j') == n
  }

  /** `best` is the largest cell seen, and `starts` says, in order, where the pieces of `a` of that
      length begin. */
  ghost predicate Scanned(a: string, b: string, i: int, j: int, best: nat, starts: seq<int>) {
    && (forall i', j' :: Seen(a, b, i', j', i, j) ==> Cell(a, b, i', j') <= best)
    && (forall p :: p in starts <==> IsStart(a, b, p, best, i, j))
    && Ascending(starts)
  }

  ghost predicate IsStart(a: string, b: string, p: int, best: nat, i: int, j: int) {
    0 < best && 0 <= p && RowHolds(a, b, p + best, best, i, j)
  }

  ghost predicate Ascending(s: seq<int>) {
    forall k, l :: 0 <= k < l < |s| ==> s[k] <= s[l]
  }

  /** Filling cell (i, j) adds that cell and no other. */
  lemma RowHoldsAfterCell(a: string, b: string, e: int, n: nat, i: int, j: int)
    requires 1 <= i <= |a| && 1 <= j <= |b|
    ensures RowHolds(a, b, e, n, i, j + 1) <==> RowHolds(a, b, e, n, i, j) || (e == i && Cell(a, b, i, j) == n)
  {
    if RowHolds(a, b, e, n, i, j) {
      var j' :| Seen(a, b, e, j', i, j) && Cell(a, b, e, j') == n;
      assert Seen(a, b, e, j', i, j + 1);
    }
    if e == i && Cell(a, b, i, j) == n {
      assert Seen(a, b, e, j, i, j + 1);
    }
    if RowHolds(a, b, e, n, i, j + 1) {
      var j' :| Seen(a, b, e, j', i, j + 1) && Cell(a, b, e, j') == n;
      assert Seen(a, b, e, j', i, j) || (e == i && j' == j);
    }
  }

  /** Positions where nothing is filled: the border, and the step to the next row. */
  lemma ScanSkip(a: string, b: string, i: int, j: int, i2: int, j2: int, best: nat, starts: seq<int>)
    requires Scanned(a, b, i, j, best, starts)
    requires (i2 == i && j2 == j + 1 && (i == 0 || j == 0)) || (i2 == i + 1 && j == |b| + 1 && j2 == 0)
    ensures Scanned(a, b, i2, j2, best, starts)
  {
    assert forall i', j' :: Seen(a, b, i', j', i2, j2) == Seen(a, b, i', j', i, j);
    assert forall e {:trigger RowHolds(a, b, e, best, i2, j2)} ::
      RowHolds(a, b, e, best, i2, j2) == RowHolds(a, b, e, best, i, j);
  }

  /** The list of starts after cell (i, j). */
  function NextStarts(i: int, c: nat, best: nat, starts: seq<int>): seq<int> {
    if c > best then [i - c] else if 0 < c == best then starts + [i - c] else starts
  }

  lemma ScanCell(a: string, b: string, i: int, j: int, best: nat, starts: seq<int>)
    requires 1 <= i <= |a| && 1 <= j <= |b|
    requires Scanned(a, b, i, j, best, starts)
    ensures var c := Cell(a, b, i, j);
      Scanned(a, b, i, j + 1, if c > best then c else best, NextStarts(i, c, best, starts))
  {
    var c := Cell(a, b, i, j);
    var best', starts' := if c > best then c else best, NextStarts(i, c, best, starts);
    CellIsLongestCommonSuffix(a, b, i, j, 0);
    forall i', j' | Seen(a, b, i', j', i, j + 1) ensures Cell(a, b, i', j') <= best' {
      assert Seen(a, b, i', j', i, j) || (i' == i && j' == j);
    }
    forall p ensures p in starts' <==> IsStart(a, b, p, best', i, j + 1) {
      NoLargerCell(a, b, p + c, c, i, j, best);
      StartAfterCell(a, b, i, j, c, best, best', starts, p);
    }
    if c == best {
      forall k | 0 <= k < |starts| ensures starts[k] <= i - c {
        assert starts[k] in starts;
        assert IsStart(a, b, starts[k], best, i, j);
      }
    }
  }

  lemma StartAfterCell(a: string, b: string, i: int, j: int, c: nat, best: nat, best': nat, starts: seq<int>, p: int)
    requires 1 <= i <= |a| && 1 <= j <= |b|
    requires c == Cell(a, b, i, j) && c <= i && best' == if c > best then c else best
    requires c > best ==> !RowHolds(a, b, p + c, c, i, j)
    requires p in starts <==> IsStart(a, b, p, best, i, j)
    ensures p in NextStarts(i, c, best, starts) <==> IsStart(a, b, p, best', i, j + 1)
  {
    RowHoldsAfterCell(a, b, p + best', best', i, j);
    var holds, holds' := RowHolds(a, b, p + best', best', i, j), RowHolds(a, b, p + best', best', i, j + 1);
    NextStartsHas(i, c, best, starts, p, holds);
    assert IsStart(a, b, p, best', i, j + 1) <==> 0 < best' && 0 <= p && holds';
  }

  lemma NextStartsHas(i: int, c: nat, best: nat, starts: seq<int>, p: int, holds: bool)
    requires c <= i && (c > best ==> !holds)
    requires c <= best ==> (p in starts <==> 0 < best && 0 <= p && holds)
    ensures var best' := if c > best then c else best;
      p in NextStarts(i, c, best, starts) <==> 0 < best' && 0 <= p && (holds || (p + best' == i && c == best'))
  {
  }

  lemma NoLargerCell(a: string, b: string, e: int, c: nat, i: int, j: int, best: nat)
    requires forall i', j' :: Seen(a, b, i', j', i, j) ==> Cell(a, b, i', j') <= best
    ensures c > best ==> !RowHolds(a, b, e, c, i, j)
  {
  }

  // ----- from the finished scan to the promise

  /** After the whole table, `p` is a start exactly when the piece of `a` at `p` of the best length is common. */
  lemma StartsAreCommonPieces(a: string, b: string, best: nat, starts: seq<int>, p: nat)
    requires Scanned(a, b, |a| + 1, 0, best, starts)
    requires 0 < best && p + best <= |a|
    ensures p in starts <==> Occurs(b, a[p..p + best])
  {
    var t := a[p..p + best];
    if p in starts {
      var j' :| Seen(a, b, p + best, j', |a| + 1, 0) && Cell(a, b, p + best, j') == best;
      CellIsLongestCommonSuffix(a, b, p + best, j', 0);
      CellIsLongestCommonSuffix(a, b, p + best, j', best);
      assert OccursAt(b, j' - best, t);
    }
    if q :| OccursAt(b, q, t) {
      CellIsLongestCommonSuffix(a, b, p + best, q + best, best);
      assert Seen(a, b, p + best, q + best, |a| + 1, 0);
    }
  }

  /** No common substring is longer than the best cell. */
  lemma NothingLonger(a: string, b: string, best: nat, starts: seq<int>, u: string)
    requires Scanned(a, b, |a| + 1, 0, best, starts)
    requires Common(u, a, b)
    ensures |u| <= best
  {
    var p :| OccursAt(a, p, u);
    var q :| OccursAt(b, q, u);
    if u != "" {
      CellIsLongestCommonSuffix(a, b, p + |u|, q + |u|, |u|);
      assert Seen(a, b, p + |u|, q + |u|, |a| + 1, 0);
    }
  }

  lemma BestIsReached(a: string, b: string, best: nat, starts: seq<int>)
    requires Scanned(a, b, |a| + 1, 0, best, starts)
    ensures starts != [] ==> 0 < best && forall p :: p in starts ==> 0 <= p && p + best <= |a|
  {
    forall p | p in starts ensures p + best <= |a| {
      var j' :| Seen(a, b, p + best, j', |a| + 1, 0) && Cell(a, b, p + best, j') == best;
    }
    if starts != [] { assert starts[0] in starts; }
  }

  /** The pieces found are exactly the longest common substrings. */
  lemma PiecesAreLongestCommon(a: string, b: string, best: nat, starts: seq<int>, t: string)
    requires Scanned(a, b, |a| + 1, 0, best, starts)
    requires best == 0 || starts != []
    ensures LongestCommon(t, a, b) <==>
      0 < best == |t| && exists p :: p in starts && OccursAt(a, p, t)
  {
    BestIsReached(a, b, best, starts);
    if best > 0 {
      var w := starts[0];
      assert w in starts;
      var u := a[w..w + best];
      StartsAreCommonPieces(a, b, best, starts, w);
      assert OccursAt(a, w, u) && Common(u, a, b);
    }
    if LongestCommon(t, a, b) {
      NothingLonger(a, b, best, starts, t);
      var p :| OccursAt(a, p, t);
      StartsAreCommonPieces(a, b, best, starts, p);
      assert p in starts && OccursAt(a, p, t);
    }
    if 0 < best == |t| {
      if p :| p in starts && OccursAt(a, p, t) {
        StartsAreCommonPieces(a, b, best, starts, p);
        forall v | Common(v, a, b) ensures |v| <= |t| { NothingLonger(a, b, best, starts, v); }
      }
    }
  }

  // ----- the table

  /** A cell that is not on the border. */
  method FillCell(a: string, b: string, i: nat, j: nat, above: array<int>, row: array<int>, best0: nat,
                  starts0: seq<int>)
    returns (best: nat, starts: seq<int>)
    requires 1 <= i <= |a| && 1 <= j <= |b| && above != row && above.Length == row.Length == |b| + 2
    requires above[j - 1] == Cell(a, b, i - 1, j - 1)
    requires Scanned(a, b, i, j, best0, starts0) && (best0 > 0 ==> starts0 != [])
    modifies row
    ensures row[j] == Cell(a, b, i, j) && forall k :: 0 <= k < row.Length && k != j ==> row[k] == old(row[k])
    ensures Scanned(a, b, i, j + 1, best, starts) && (best > 0 ==> starts != [])
  {
    ghost var c := Cell(a, b, i, j);
    best, starts := best0, starts0;
    if a[i - 1] == b[j - 1] {
      row[j] := above[j - 1] + 1;
      if row[j] > best {
        best := row[j];
        starts := [i - best];
      } else if row[j] == best {
        starts := starts + [i - best];
      }
    } else {
      row[j] := 0;
    }
    assert best == (if c > best0 then c else best0) && starts == NextStarts(i, c, best0, starts0);
    ScanCell(a, b, i, j, best0, starts0);
  }

  /** One row: `row` gets the cells of row `i`, `above` holds those of row `i - 1`. */
  method FillRow(a: string, b: string, i: nat, above: array<int>, row: array<int>, best0: nat, starts0: seq<int>)
    returns (best: nat, starts: seq<int>)
    requires i <= |a| && above != row && above.Length == row.Length == |b| + 2
    requires i > 0 ==> forall j :: 0 <= j <= |b| ==> above[j] == Cell(a, b, i - 1, j)
    requires Scanned(a, b, i, 0, best0, starts0) && (best0 > 0 ==> starts0 != [])
    modifies row
    ensures forall j :: 0 <= j <= |b| ==> row[j] == Cell(a, b, i, j)
    ensures Scanned(a, b, i + 1, 0, best, starts) && (best > 0 ==> starts != [])
  {
    best, starts := best0, starts0;
    for j := 0 to |b| + 1
      invariant forall j' :: 0 <= j' < j ==> row[j'] == Cell(a, b, i, j')
      invariant Scanned(a, b, i, j, best, starts) && (best > 0 ==> starts != [])
    {
      if i == 0 || j == 0 {
        row[j] := 0;
        ScanSkip(a, b, i, j, i, j + 1, best, starts);
      } else {
        best, starts := FillCell(a, b, i, j, above, row, best, starts);
      }
    }
    ScanSkip(a, b, i, |b| + 1, i + 1, 0, best, starts);
  }

  /** All rows, with the two row buffers changing places after each one. */
  method FillTable(a: string, b: string) returns (best: nat, starts: seq<int>)
    ensures Scanned(a, b, |a| + 1, 0, best, starts) && (best > 0 ==> starts != [])
  {
    var row0, row1 := new int[|b| + 2], new int[|b| + 2];
    for j := 0 to |b| + 2 {
      row0[j], row1[j] := 0, 0;
    }
    var dp := [row0, row1];
    var pre, now := 1, 0;
    best, starts := 0, [];
    for i := 0 to |a| + 1
      invariant (pre == 1 && now == 0) || (pre == 0 && now == 1)
      invariant i > 0 ==> forall j :: 0 <= j <= |b| ==> dp[pre][j] == Cell(a, b, i - 1, j)
      invariant Scanned(a, b, i, 0, best, starts) && (best > 0 ==> starts != [])
    {
      best, starts := FillRow(a, b, i, dp[pre], dp[now], best, starts);
      if now == 0 {
        now, pre := 1, 0;
      } else {
        now, pre := 0, 1;
      }
    }
  }

  // ----- the two sets built at the end

  /** A sorted list put in a `Set`: insertion order, so strictly increasing. */
  method SetOfStarts(starts: seq<int>) returns (r: seq<int>)
    requires Ascending(starts)
    ensures forall k, l :: 0 <= k < l < |r| ==> r[k] < r[l]
    ensures forall p :: p in r <==> p in starts
  {
    r := [];
    for n := 0 to |starts|
      invariant forall k, l :: 0 <= k < l < |r| ==> r[k] < r[l]
      invariant forall p :: p in r <==> p in starts[..n]
      invariant r != [] ==> n > 0 && r[|r| - 1] <= starts[n - 1]
    {
      assert starts[..n + 1] == starts[..n] + [starts[n]];
      if starts[n] !in r {
        assert r != [] ==> r[|r| - 1] in r;
        r := r + [starts[n]];
      }
    }
    assert starts[..|starts|] == starts;
  }

  /** The piece of length `n` at `p`. */
  function Piece(a: string, p: int, n: nat): string
    requires 0 <= p && p + n <= |a|
  {
    a[p..p + n]
  }

  ghost predicate InRange(a: string, n: nat, at: seq<int>) {
    forall k :: 0 <= k < |at| ==> 0 <= at[k] && at[k] + n <= |a|
  }

  /** `at` lists, from left to right, places of `a`, and with a place every other place with the same piece. */
  ghost predicate ClosedPlaces(a: string, n: nat, at: seq<int>) {
    && InRange(a, n, at)
    && (forall k, l :: 0 <= k < l < |at| ==> at[k] < at[l])
    && (forall k, q :: 0 <= k < |at| && OccursAt(a, q, Piece(a, at[k], n)) ==> q in at)
  }

  /** `r` holds the pieces of length `n` at `firsts`, which are among the places `at`. */
  ghost predicate Placed(a: string, n: nat, at: seq<int>, r: seq<string>, firsts: seq<int>) {
    && |firsts| == |r|
    && forall i :: 0 <= i < |r| ==> firsts[i] in at && OccursAt(a, firsts[i], r[i]) && |r[i]| == n
  }

  /** ... and no place listed earlier has the same piece. */
  ghost predicate FirstPieces(a: string, n: nat, at: seq<int>, r: seq<string>, firsts: seq<int>) {
    && InRange(a, n, at)
    && Placed(a, n, at, r, firsts)
    && (forall i, j :: 0 <= i < j < |r| ==> firsts[i] < firsts[j])
    && (forall i, k :: 0 <= i < |r| && 0 <= k < |at| && at[k] < firsts[i] ==> Piece(a, at[k], n) != r[i])
  }

  lemma FirstPiecesAreFirst(a: string, n: nat, at: seq<int>, r: seq<string>, firsts: seq<int>, i: nat)
    requires ClosedPlaces(a, n, at) && FirstPieces(a, n, at, r, firsts) && i < |r|
    ensures FirstAt(a, firsts[i], r[i])
  {
    assert firsts[i] in at;
    var k :| 0 <= k < |at| && at[k] == firsts[i];
    assert Piece(a, at[k], n) == r[i];
    forall q | q < firsts[i] ensures !OccursAt(a, q, r[i]) {
      if q in at {
        var l :| 0 <= l < |at| && at[l] == q;
        assert Piece(a, at[l], n) != r[i];
      }
    }
  }

  lemma PiecesInOrder(a: string, n: nat, at: seq<int>, r: seq<string>, firsts: seq<int>)
    requires ClosedPlaces(a, n, at) && FirstPieces(a, n, at, r, firsts)
    ensures OrderedByFirstOccurrence(a, r)
  {
    forall i, j, p, q | 0 <= i < j < |r| && FirstAt(a, p, r[i]) && FirstAt(a, q, r[j]) ensures p < q {
      FirstPiecesAreFirst(a, n, at, r, firsts, i);
      FirstPiecesAreFirst(a, n, at, r, firsts, j);
      assert p == firsts[i] && q == firsts[j];
    }
  }

  lemma PiecesAreThosePlaced(a: string, n: nat, at: seq<int>, r: seq<string>, firsts: seq<int>, t: string)
    requires InRange(a, n, at) && Placed(a, n, at, r, firsts)
    requires forall k :: 0 <= k < |at| ==> Piece(a, at[k], n) in r
    ensures t in r <==> |t| == n && exists p :: p in at && OccursAt(a, p, t)
  {
    if t in r {
      var i :| 0 <= i < |r| && r[i] == t;
      assert firsts[i] in at && OccursAt(a, firsts[i], t);
    }
    if p :| |t| == n && p in at && OccursAt(a, p, t) {
      var k :| 0 <= k < |at| && at[k] == p;
      assert Piece(a, at[k], n) == t;
    }
  }

  /** The pieces at the first `k` places, each once, and the places they were first met at. */
  ghost function Collected(a: string, n: nat, at: seq<int>, k: nat): (seq<string>, seq<int>)
    requires InRange(a, n, at) && k <= |at|
  {
    if k == 0 then ([], [])
    else
      var (r, firsts) := Collected(a, n, at, k - 1);
      var t := Piece(a, at[k - 1], n);
      if t in r then (r, firsts) else (r + [t], firsts + [at[k - 1]])
  }

  lemma {:induction false} CollectedIsPlaced(a: string, n: nat, at: seq<int>, k: nat)
    requires InRange(a, n, at) && k <= |at|
    ensures Placed(a, n, at, Collected(a, n, at, k).0, Collected(a, n, at, k).1)
  {
    if k > 0 {
      CollectedIsPlaced(a, n, at, k - 1);
      assert at[k - 1] in at;
    }
  }

  lemma {:induction false} CollectedHasAll(a: string, n: nat, at: seq<int>, k: nat, i: nat)
    requires InRange(a, n, at) && i < k <= |at|
    ensures Piece(a, at[i], n) in Collected(a, n, at, k).0
  {
    if i < k - 1 {
      CollectedHasAll(a, n, at, k - 1, i);
    }
  }

  lemma {:induction false} CollectedAscends(a: string, n: nat, at: seq<int>, k: nat)
    requires ClosedPlaces(a, n, at) && k <= |at|
    ensures var (r, firsts) := Collected(a, n, at, k);
      && |r| == |firsts|
      && (forall i, j :: 0 <= i < j < |firsts| ==> firsts[i] < firsts[j])
      && (forall i :: 0 <= i < |firsts| && k < |at| ==> firsts[i] < at[k])
  {
    if k > 0 {
      CollectedAscends(a, n, at, k - 1);
    }
  }

  /** No place listed before the one where a piece was first met has the same piece. */
  lemma {:induction false} CollectedIsFirst(a: string, n: nat, at: seq<int>, k: nat, i: nat, l: nat)
    requires ClosedPlaces(a, n, at) && k <= |at| && l < |at|
    requires var (r, firsts) := Collected(a, n, at, k); i < |r| == |firsts| && at[l] < firsts[i]
    ensures Piece(a, at[l], n) != Collected(a, n, at, k).0[i]
  {
    if k > 0 {
      var (r, firsts) := Collected(a, n, at, k - 1);
      CollectedAscends(a, n, at, k - 1);
      if i < |r| {
        CollectedIsFirst(a, n, at, k - 1, i, l);
      } else {
        assert l < k - 1;
        CollectedHasAll(a, n, at, k - 1, l);
      }
    }
  }

  lemma CollectedAreFirst(a: string, n: nat, at: seq<int>, k: nat)
    requires ClosedPlaces(a, n, at) && k <= |at|
    ensures FirstPieces(a, n, at, Collected(a, n, at, k).0, Collected(a, n, at, k).1)
  {
    var (r, firsts) := Collected(a, n, at, k);
    CollectedIsPlaced(a, n, at, k);
    CollectedAscends(a, n, at, k);
    forall i, l | 0 <= i < |r| && 0 <= l < |at| && at[l] < firsts[i] ensures Piece(a, at[l], n) != r[i] {
      CollectedIsFirst(a, n, at, k, i, l);
    }
  }

  lemma {:induction false} CollectedIsDistinct(a: string, n: nat, at: seq<int>, k: nat)
    requires InRange(a, n, at) && k <= |at|
    ensures Distinct(Collected(a, n, at, k).0)
  {
    if k > 0 {
      CollectedIsDistinct(a, n, at, k - 1);
    }
  }

  /** The pieces of `a` of length `n` at the given places, each once, in the order first met. */
  method SetOfPieces(a: string, n: nat, at: seq<int>) returns (r: seq<string>)
    requires ClosedPlaces(a, n, at)
    ensures Distinct(r) && OrderedByFirstOccurrence(a, r)
    ensures forall t :: t in r <==> |t| == n && exists p :: p in at && OccursAt(a, p, t)
  {
    r := [];
    for k := 0 to |at|
      invariant r == Collected(a, n, at, k).0
    {
      var t := Piece(a, at[k], n);
      if t !in r {
        r := r + [t];
      }
    }
    CollectedIsDistinct(a, n, at, |at|);
    CollectedAreFirst(a, n, at, |at|);
    forall i | 0 <= i < |at| ensures Piece(a, at[i], n) in r {
      CollectedHasAll(a, n, at, |at|, i);
    }
    AllPiecesPlaced(a, n, at, r, Collected(a, n, at, |at|).1);
  }

  lemma AllPiecesPlaced(a: string, n: nat, at: seq<int>, r: seq<string>, firsts: seq<int>)
    requires ClosedPlaces(a, n, at) && FirstPieces(a, n, at, r, firsts)
    requires forall k :: 0 <= k < |at| ==> Piece(a, at[k], n) in r
    ensures OrderedByFirstOccurrence(a, r)
    ensures forall t :: t in r <==> |t| == n && exists p :: p in at && OccursAt(a, p, t)
  {
    PiecesInOrder(a, n, at, r, firsts);
    forall t ensures t in r <==> |t| == n && exists p :: p in at && OccursAt(a, p, t) {
      PiecesAreThosePlaced(a, n, at, r, firsts, t);
    }
  }

  // ----- the search

  method LcsSearch(a: string, b: string) returns (r: seq<string>)
    ensures forall t :: t in r <==> LongestCommon(t, a, b)
    ensures Distinct(r)
    ensures OrderedByFirstOccurrence(a, r)
  {
    var best, starts := FillTable(a, b);
    BestIsReached(a, b, best, starts);
    var distinctStarts := SetOfStarts(starts);
    forall k | 0 <= k < |distinctStarts| ensures 0 <= distinctStarts[k] && distinctStarts[k] + best <= |a| {
      assert distinctStarts[k] in distinctStarts;
    }
    forall k, q | 0 <= k < |distinctStarts| && OccursAt(a, q, Piece(a, distinctStarts[k], best))
      ensures q in distinctStarts
    {
      assert distinctStarts[k] in distinctStarts;
      StartsAreCommonPieces(a, b, best, starts, distinctStarts[k]);
      StartsAreCommonPieces(a, b, best, starts, q);
    }
    r := SetOfPieces(a, best, distinctStarts);
    forall t ensures t in r <==> LongestCommon(t, a, b) {
      PiecesAreLongestCommon(a, b, best, starts, t);
    }
  }

  /** The answer is empty exactly when the two strings share no character. */
  lemma NothingCommon(a: string, b: string)
    ensures (forall t: string :: !LongestCommon(t, a, b)) <==>
            forall i, j :: 0 <= i < |a| && 0 <= j < |b| ==> a[i] != b[j]
  {
    if t: string :| LongestCommon(t, a, b) {
      var p :| OccursAt(a, p, t);
      var q :| OccursAt(b, q, t);
      assert a[p] == t[0] == b[q];
    }
    if i, j :| 0 <= i < |a| && 0 <= j < |b| && a[i] == b[j] {
      var u := [a[i]];
      assert OccursAt(a, i, u) && OccursAt(b, j, u);
      LongestExists(a, b, u);
    }
  }

  lemma LongestExists(a: string, b: string, u: string)
    requires u != "" && Common(u, a, b)
    ensures exists t: string :: LongestCommon(t, a, b)
    decreases |a| - |u|
  {
    if v: string :| Common(v, a, b) && |v| > |u| {
      var p :| OccursAt(a, p, v);
      LongestExists(a, b, v);
    } else {
      assert LongestCommon(u, a, b);
    }
  }
}
