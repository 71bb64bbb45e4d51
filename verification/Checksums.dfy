/** The check digits of bank cards (Luhn) and identity cards (MOD 11-2). */
module Checksums {

  type Digit = d: int | 0 <= d <= 9

  predicate IsDigit(c: char) {
    '0' <= c <= '9'
  }

  function Value(c: char): Digit
    requires IsDigit(c)
  {
    c as int - '0' as int
  }

  // ----- bank cards

  /** A digit's share: a doubled one counts with the sum of the digits of its double. */
  function Share(v: Digit, doubled: bool): (s: nat)
    ensures s <= 9
  {
    if !doubled then v else if v < 5 then 2 * v else 2 * v - 9
  }

  /** The Luhn sum of Annex B of ISO/IEC 7812-1, from the right, every other digit doubled. */
  function Luhn(card: seq<Digit>, doubled: bool): nat {
    if card == [] then 0
    else Share(card[|card| - 1], doubled) + Luhn(card[..|card| - 1], !doubled)
  }

  /** The check digit at the right end is not doubled. */
  predicate IsLuhn(card: seq<Digit>) {
    Luhn(card, false) % 10 == 0
  }

  /** Two digits at the right end: the last counts as it is, the other with the digits of its double. */
  lemma LuhnByPairs(card: seq<Digit>, v: Digit, d: Digit)
    ensures Luhn([], false) == 0 && Luhn([v], false) == v
    ensures Luhn(card + [v, d], false) == Luhn(card, false) + (2 * v) / 10 + (2 * v) % 10 + d
  {
    var both := card + [v, d];
    assert both[..|card| + 1][..|card|] == card && both[..|card| + 1][|card|] == v;
  }

  /** A matched card number: digits, and blanks and hyphens between groups. */
  predicate IsCardText(text: string) {
    forall i :: 0 <= i < |text| ==> IsDigit(text[i]) || IsSeparator(text[i])
  }

  predicate IsSeparator(c: char) {
    c == ' ' || c == '-'
  }

  /** The number without its separators. */
  function Joined(text: string): string {
    if text == "" then "" else (if IsSeparator(text[0]) then "" else [text[0]]) + Joined(text[1..])
  }

  /** What is joined: the characters that are no separators, each once and in order. */
  lemma JoinedKeeps(text: string) returns (at: seq<nat>)
    ensures forall k, l :: 0 <= k < l < |at| ==> at[k] < at[l]
    ensures forall i: nat :: i in at <==> i < |text| && !IsSeparator(text[i])
    ensures |Joined(text)| == |at| && forall k :: 0 <= k < |at| ==> at[k] < |text| && Joined(text)[k] == text[at[k]]
  {
    at := JoinedKeepsFrom(text, 0);
    assert text[0..] == text;
  }

  lemma {:induction false} JoinedKeepsFrom(text: string, from: nat) returns (at: seq<nat>)
    requires from <= |text|
    ensures forall k, l :: 0 <= k < l < |at| ==> at[k] < at[l]
    ensures forall i: nat :: i in at <==> from <= i < |text| && !IsSeparator(text[i])
    ensures var r := Joined(text[from..]);
      |r| == |at| && forall k :: 0 <= k < |at| ==> from <= at[k] < |text| && r[k] == text[at[k]]
    decreases |text| - from
  {
    at := [];
    if from < |text| {
      at := JoinedKeepsFrom(text, from + 1);
      assert text[from..][1..] == text[from + 1..];
      if !IsSeparator(text[from]) {
        at := [from] + at;
      }
    }
  }

  predicate AllDigits(card: string) {
    forall i :: 0 <= i < |card| ==> IsDigit(card[i])
  }

  function Digits(card: string): (ds: seq<Digit>)
    requires AllDigits(card)
    ensures |ds| == |card| && forall i :: 0 <= i < |ds| ==> ds[i] == Value(card[i])
  {
    seq(|card|, i requires 0 <= i < |card| => Value(card[i]))
  }

  lemma {:induction false} JoinedDigits(text: string)
    requires IsCardText(text)
    ensures AllDigits(Joined(text))
  {
    if text != "" {
      JoinedDigits(text[1..]);
    }
  }

  lemma LuhnStep(card: seq<Digit>, k: nat, doubled: bool, t: nat)
    requires k < |card| && (t as int == if doubled then 2 * (card[k] as int) else card[k] as int)
    ensures Luhn(card[..k + 1], doubled) == Luhn(card[..k], !doubled) + t / 10 + t % 10
  {
    assert card[..k + 1][..k] == card[..k];
  }

  /** The loop over a matched card number. */
  method BankCardCheck(text: string) returns (found: bool)
    requires IsCardText(text)
    ensures AllDigits(Joined(text)) && (found <==> IsLuhn(Digits(Joined(text))))
  {
    JoinedDigits(text);
    found := LuhnLoop(Joined(text));
  }

  method LuhnLoop(card: string) returns (found: bool)
    requires AllDigits(card)
    ensures found <==> IsLuhn(Digits(card))
  {
    ghost var digits := Digits(card);
    var len := |card|;
    var sum: nat := 0;
    var i := len;
    ghost var odd := len % 2 == 1;
    while i >= 1
      invariant 0 <= i <= len && odd == (i % 2 == 1)
      invariant sum == Luhn(digits[..len - i], odd)
    {
      var t: nat := Value(card[len - i]);
      if i % 2 == 0 {
        t := t * 2;
      }
      LuhnStep(digits, len - i, !odd, t);
      sum := sum + t / 10 + t % 10;
      i := i - 1;
      odd := !odd;
    }
    assert digits[..len] == digits;
    found := sum % 10 == 0;
  }

  /** Whether the digit `j` counts doubled. */
  predicate IsDoubled(n: nat, doubled: bool, j: nat)
    requires j < n
  {
    if (n - 1 - j) % 2 == 0 then doubled else !doubled
  }

  lemma {:induction false} LuhnChange(card: seq<Digit>, doubled: bool, j: nat, d: Digit)
    requires j < |card|
    ensures var b := IsDoubled(|card|, doubled, j);
            Luhn(card[j := d], doubled) == Luhn(card, doubled) - Share(card[j], b) + Share(d, b)
    decreases |card|
  {
    var n := |card| - 1;
    if j == n {
      assert card[j := d][..n] == card[..n];
    } else {
      assert card[j := d][..n] == card[..n][j := d];
      LuhnChange(card[..n], !doubled, j, d);
    }
  }

  /** Every change of one digit is found. */
  lemma LuhnFindsChange(card: seq<Digit>, j: nat, d: Digit)
    requires IsLuhn(card) && j < |card| && d != card[j]
    ensures !IsLuhn(card[j := d])
  {
    LuhnChange(card, false, j, d);
    ShareDiffers(Luhn(card, false), card[j], d, IsDoubled(|card|, false, j));
  }

  lemma ShareDiffers(s: int, v: Digit, d: Digit, b: bool)
    requires s % 10 == 0 && v != d
    ensures (s - Share(v, b) + Share(d, b)) % 10 != 0
  {
    assert Share(v, b) != Share(d, b);
  }

  lemma SharesSwapped(s: int, v: Digit, w: Digit, b: bool)
    requires s % 10 == 0
    ensures (s - Share(v, b) + Share(w, b) - Share(w, !b) + Share(v, !b)) % 10 == 0
       <==> v == w || (v == 0 && w == 9) || (v == 9 && w == 0)
  {
    var gain := Share(w, b) - Share(w, !b);
    var loss := Share(v, b) - Share(v, !b);
    assert gain == loss <==> v == w || (v == 0 && w == 9) || (v == 9 && w == 0);
    SmallChange(s, gain - loss);
  }

  lemma SmallChange(s: int, d: int)
    requires s % 10 == 0 && -10 < d < 10
    ensures (s + d) % 10 == 0 <==> d == 0
  {
  }

  lemma LuhnSwap(card: seq<Digit>, j: nat)
    requires j + 1 < |card|
    ensures var v, w, b := card[j], card[j + 1], IsDoubled(|card|, false, j);
            Luhn(card[j := w][j + 1 := v], false) ==
            Luhn(card, false) - Share(v, b) + Share(w, b) - Share(w, !b) + Share(v, !b)
  {
    LuhnChange(card, false, j, card[j + 1]);
    var once := card[j := card[j + 1]];
    assert once[j + 1] == card[j + 1];
    LuhnChange(once, false, j + 1, card[j]);
    assert IsDoubled(|card|, false, j + 1) == !IsDoubled(|card|, false, j);
  }

  /** Every swap of two different neighbours is found, except of 0 and 9. */
  lemma LuhnFindsSwap(card: seq<Digit>, j: nat)
    requires IsLuhn(card) && j + 1 < |card|
    ensures IsLuhn(card[j := card[j + 1]][j + 1 := card[j]]) <==>
              card[j] == card[j + 1] || (card[j] == 0 && card[j + 1] == 9) || (card[j] == 9 && card[j + 1] == 0)
  {
    LuhnSwap(card, j);
    SharesSwapped(Luhn(card, false), card[j], card[j + 1], IsDoubled(|card|, false, j));
  }

  // ----- identity cards

  /** A digit, or ten for X. */
  type Mark = v: int | 0 <= v <= 10

  /** Seventeen digits and a digit or X. */
  predicate IsIdentity(id: string) {
    |id| == 18 && (forall i :: 0 <= i < 17 ==> IsDigit(id[i])) && (IsDigit(id[17]) || IsX(id[17]))
  }

  predicate IsX(c: char) {
    c == 'X' || c == 'x'
  }

  function Marks(id: string): (vs: seq<Mark>)
    requires IsIdentity(id)
    ensures |vs| == 18 && forall i :: 0 <= i < 18 ==> vs[i] == if IsX(id[i]) then 10 else Value(id[i])
  {
    seq(18, i requires 0 <= i < 18 => if IsX(id[i]) then 10 else Value(id[i]))
  }

  /** The recursive method of section 7 of ISO/IEC 7064 with modulus 11 and radix 2. */
  function Recursive(vs: seq<Mark>): (p: nat)
    ensures p < 11
  {
    if vs == [] then 0 else (Recursive(vs[..|vs| - 1]) + vs[|vs| - 1]) * 2 % 11
  }

  predicate IsMod112(vs: seq<Mark>)
    requires |vs| == 18
  {
    (Recursive(vs[..17]) + vs[17]) % 11 == 1
  }

  /** An identity card is reported unless it starts with a zero. */
  predicate Reported(vs: seq<Mark>)
    requires |vs| == 18
  {
    vs[0] != 0 && IsMod112(vs)
  }

  const W: seq<nat> := [7, 9, 10, 5, 8, 4, 2, 1, 6, 3, 7, 9, 10, 5, 8, 4, 2]

  /** The weights of all eighteen places. */
  function Weight(i: nat): (w: nat)
    requires i < 18
    ensures 1 <= w <= 10
  {
    if i == 17 then 1 else W[i]
  }

  lemma WeightsDouble(i: nat)
    requires i < 17
    ensures Weight(i) == 2 * Weight(i + 1) || Weight(i) == 2 * Weight(i + 1) - 11
  {
  }

  function WeightedSum(vs: seq<Mark>, n: nat): nat
    requires |vs| == 18 && n <= 18
  {
    if n == 0 then 0 else WeightedSum(vs, n - 1) + vs[n - 1] * Weight(n - 1)
  }

  /** A value doubled modulo 11 counts with half its weight. */
  lemma HalfTheWeight(w: int, v: int, x: int)
    requires w == 2 * v || w == 2 * v - 11
    ensures (x * w - (x * 2 % 11) * v) % 11 == 0
  {
    var q, r := x * 2 / 11, x * 2 % 11;
    var e := if w == 2 * v then 0 else 1;
    assert r == 2 * x - 11 * q && w == 2 * v - 11 * e;
    calc {
      x * w - r * v;
      x * (2 * v - 11 * e) - (2 * x - 11 * q) * v;
      11 * (q * v - x * e);
    }
  }

  lemma {:induction false} WeightedIsRecursive(vs: seq<Mark>, n: nat)
    requires |vs| == 18 && n <= 17
    ensures (WeightedSum(vs, n) - Recursive(vs[..n]) * Weight(n)) % 11 == 0
  {
    if n > 0 {
      WeightedIsRecursive(vs, n - 1);
      assert vs[..n][..n - 1] == vs[..n - 1];
      WeightsDouble(n - 1);
      MoveWeight(WeightedSum(vs, n - 1), Recursive(vs[..n - 1]), vs[n - 1], Weight(n - 1), Weight(n));
    }
  }

  lemma MoveWeight(s: int, p: int, a: int, w: int, v: int)
    requires (s - p * w) % 11 == 0 && (w == 2 * v || w == 2 * v - 11)
    ensures (s + a * w - ((p + a) * 2 % 11) * v) % 11 == 0
  {
    HalfTheWeight(w, v, p + a);
    assert (p + a) * w == p * w + a * w;
    AddMultiples(s - p * w, (p + a) * w - ((p + a) * 2 % 11) * v);
  }

  lemma AddMultiples(a: int, b: int)
    requires a % 11 == 0 && b % 11 == 0
    ensures (a + b) % 11 == 0
  {
  }

  /** The weighted sum and the recursive method agree. */
  lemma WeightedMeansMod112(vs: seq<Mark>)
    requires |vs| == 18
    ensures IsMod112(vs) <==> WeightedSum(vs, 18) % 11 == 1
  {
    WeightedIsRecursive(vs, 17);
    assert Weight(17) == 1;
    SameRemainder(WeightedSum(vs, 17), Recursive(vs[..17]), vs[17]);
  }

  lemma SameRemainder(s: int, p: int, a: int)
    requires (s - p * 1) % 11 == 0
    ensures (s + a) % 11 == (p + a) % 11
  {
  }

  lemma StartsWithZero(id: string)
    requires IsIdentity(id)
    ensures id[0] == '0' <==> Marks(id)[0] == 0
  {
    assert id[0] as int - '0' as int == Marks(id)[0];
    assert id[0] as int == '0' as int <==> id[0] == '0';
  }

  lemma WeightedStep(id: string, i: nat)
    requires IsIdentity(id) && i < 17
    ensures WeightedSum(Marks(id), i + 1) == WeightedSum(Marks(id), i) + Value(id[i]) * W[i]
  {
    assert Weight(i) == W[i];
  }

  lemma LastMark(id: string)
    requires IsIdentity(id)
    ensures WeightedSum(Marks(id), 18)
         == WeightedSum(Marks(id), 17) + if id[17] == 'X' || id[17] == 'x' then 10 else Value(id[17])
  {
    assert Weight(17) == 1;
  }

  /** The loop over a matched identity number. */
  method IdentityCheck(id: string) returns (found: bool)
    requires IsIdentity(id)
    ensures found <==> Reported(Marks(id))
  {
    ghost var vs := Marks(id);
    StartsWithZero(id);
    if id[0] == '0' {
      return false;
    }
    var sum: nat := 0;
    for i := 0 to |W|
      invariant sum == WeightedSum(vs, i)
    {
      WeightedStep(id, i);
      sum := sum + Value(id[i]) * W[i];
    }
    LastMark(id);
    sum := sum + if id[17] == 'X' || id[17] == 'x' then 10 else Value(id[17]);
    WeightedMeansMod112(vs);
    found := sum % 11 == 1;
  }

  lemma {:induction false} WeightedChange(vs: seq<Mark>, n: nat, j: nat, v: Mark)
    requires |vs| == 18 && n <= 18 && j < 18
    ensures WeightedSum(vs[j := v], n) == WeightedSum(vs, n) + if j < n then (v - vs[j]) * Weight(j) else 0
  {
    if n > 0 {
      WeightedChange(vs, n - 1, j, v);
      Difference(v, vs[j], Weight(j));
    }
  }

  lemma Difference(a: int, b: int, w: int)
    ensures (a - b) * w == a * w - b * w
  {
  }

  lemma NoZeroDivisors(t: int, w: int)
    requires -10 <= t <= 10 && -10 <= w <= 10 && t != 0 && w != 0
    ensures t * w % 11 != 0
  {
    var v := if w < 0 then -w else w;
    SmallFactor(t, v);
    assert w < 0 ==> t * w == -(t * v);
  }

  lemma SmallFactor(t: int, w: nat)
    requires -10 <= t <= 10 && 1 <= w <= 10 && t != 0
    ensures t * w % 11 != 0
  {
    if w == 1 {
    } else if w == 2 {
    } else if w == 3 {
    } else if w == 4 {
    } else if w == 5 {
    } else if w == 6 {
    } else if w == 7 {
    } else if w == 8 {
    } else if w == 9 {
    }
  }

  /** Marks whose weighted sum differs from a correct one by a product without the factor 11 are not correct. */
  lemma SumMoves(vs: seq<Mark>, us: seq<Mark>, t: int, w: int)
    requires |vs| == 18 && |us| == 18 && IsMod112(vs) && WeightedSum(us, 18) == WeightedSum(vs, 18) + t * w
    requires -10 <= t <= 10 && -10 <= w <= 10 && t != 0 && w != 0
    ensures !IsMod112(us)
  {
    WeightedMeansMod112(vs);
    WeightedMeansMod112(us);
    NoZeroDivisors(t, w);
    AddsToOne(WeightedSum(vs, 18), t * w);
  }

  lemma AddsToOne(s: int, x: int)
    requires s % 11 == 1 && x % 11 != 0
    ensures (s + x) % 11 != 1
  {
  }

  /** Every change of one character into one of another value is found. */
  lemma Mod112FindsChange(vs: seq<Mark>, j: nat, v: Mark)
    requires |vs| == 18 && Reported(vs) && j < 18 && v != vs[j]
    ensures !Reported(vs[j := v])
  {
    WeightedChange(vs, 18, j, v);
    SumMoves(vs, vs[j := v], (v as int) - (vs[j] as int), Weight(j));
  }

  lemma WeightedSwap(vs: seq<Mark>, j: nat)
    requires |vs| == 18 && j < 17
    ensures WeightedSum(vs[j := vs[j + 1]][j + 1 := vs[j]], 18)
         == WeightedSum(vs, 18) + (vs[j + 1] - vs[j]) * (Weight(j) - Weight(j + 1))
  {
    var once := vs[j := vs[j + 1]];
    WeightedChange(vs, 18, j, vs[j + 1]);
    WeightedChange(once, 18, j + 1, vs[j]);
    assert once[j + 1] == vs[j + 1];
    TwoProducts(vs[j], vs[j + 1], Weight(j), Weight(j + 1));
  }

  lemma TwoProducts(a: int, b: int, v: int, w: int)
    ensures (b - a) * v + (a - b) * w == (b - a) * (v - w)
  {
  }

  /** Every swap of two different neighbours is found. */
  lemma Mod112FindsSwap(vs: seq<Mark>, j: nat)
    requires |vs| == 18 && Reported(vs) && j < 17 && vs[j] != vs[j + 1]
    ensures !Reported(vs[j := vs[j + 1]][j + 1 := vs[j]])
  {
    WeightedSwap(vs, j);
    WeightsDouble(j);
    SumMoves(vs, vs[j := vs[j + 1]][j + 1 := vs[j]], (vs[j + 1] as int) - (vs[j] as int), Weight(j) - Weight(j + 1));
  }
}
