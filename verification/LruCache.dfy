/** `LRU<T, U>`: a list of items, most recently used first, and a hash map of iterators into it. */
module LruCache {

  import opened Options

  datatype Entry<U> = Entry(hash: nat, value: U)

  datatype State<U> = State(entries: seq<Entry<U>>, max: nat)

  // ----- what each operation does to the list

  /** Where the entry with hash `h` stands, or the length. */
  function IndexOf<U>(es: seq<Entry<U>>, h: nat): (k: nat)
    ensures k <= |es|
    ensures k < |es| ==> es[k].hash == h
    ensures forall j :: 0 <= j < k ==> es[j].hash != h
  {
    if es == [] || es[0].hash == h then 0 else 1 + IndexOf(es[1..], h)
  }

  function ToFront<T>(s: seq<T>, k: nat): seq<T>
    requires k < |s|
  {
    [s[k]] + s[..k] + s[k + 1..]
  }

  function AfterGet<U>(st: State<U>, h: nat): State<U> {
    var k := IndexOf(st.entries, h);
    if k == |st.entries| then st else st.(entries := ToFront(st.entries, k))
  }

  function AfterSet<U>(st: State<U>, h: nat, v: U): State<U> {
    var k := IndexOf(st.entries, h);
    if st.max == 0 then st
    else if k < |st.entries| then st.(entries := ToFront(st.entries[k := Entry(h, v)], k))
    else if |st.entries| < st.max then st.(entries := [Entry(h, v)] + st.entries)
    else st.(entries := [Entry(h, v)] + st.entries[..st.max - 1])
  }

  // ----- the class

  class Item<U> {
    const keyHash: nat
    var value: U

    constructor (k: nat, v: U)
      ensures keyHash == k && value == v
    {
      keyHash, value := k, v;
    }
  }

  /** Where the item with hash `h` stands in the list, or the length. */
  function Place<U>(l: seq<Item<U>>, h: nat): (k: nat)
    ensures k <= |l|
    ensures k < |l| ==> l[k].keyHash == h
    ensures forall j :: 0 <= j < k ==> l[j].keyHash != h
  {
    if l == [] || l[0].keyHash == h then 0 else 1 + Place(l[1..], h)
  }

  ghost predicate DistinctItems<U>(l: seq<Item<U>>) {
    forall i, j :: 0 <= i < j < |l| ==> l[i].keyHash != l[j].keyHash
  }

  /** Every hash stands once in the list, and the map knows exactly the hashes listed and sends each to its own item. */
  ghost predicate Linked<U>(l: seq<Item<U>>, m: map<nat, Item<U>>) {
    && DistinctItems(l)
    && (forall h :: h in m <==> Place(l, h) < |l|)
    && (forall h :: h in m ==> m[h] == l[Place(l, h)])
  }

  lemma PlaceIsUnique<U>(l: seq<Item<U>>, k: nat)
    requires DistinctItems(l) && k < |l|
    ensures Place(l, l[k].keyHash) == k
  {
    var j := Place(l, l[k].keyHash);
    assert j < |l| ==> l[j].keyHash == l[k].keyHash;
  }

  /** The place of `h` after a move to the front. */
  lemma PlaceToFront<U>(l: seq<Item<U>>, k: nat, h: nat)
    requires DistinctItems(l) && k < |l|
    ensures var p := Place(l, h);
      Place(ToFront(l, k), h) == if p == k then 0 else if p < k then p + 1 else p
  {
    var p, r := Place(l, h), ToFront(l, k);
    var q := if p == k then 0 else if p < k then p + 1 else p;
    assert forall i :: 0 <= i < |r| ==> r[i] == if i == 0 then l[k] else if i <= k then l[i - 1] else l[i];
    assert q < |r| ==> r[q].keyHash == h;
    assert forall j :: 0 <= j < q ==> r[j].keyHash != h;
  }

  lemma DistinctToFront<U>(l: seq<Item<U>>, k: nat)
    requires DistinctItems(l) && k < |l|
    ensures DistinctItems(ToFront(l, k))
  {
    var r := ToFront(l, k);
    assert forall i :: 0 <= i < |r| ==> r[i] == if i == 0 then l[k] else if i <= k then l[i - 1] else l[i];
  }

  lemma LinkedToFront<U>(l: seq<Item<U>>, m: map<nat, Item<U>>, k: nat)
    requires Linked(l, m) && k < |l|
    ensures Linked(ToFront(l, k), m)
  {
    DistinctToFront(l, k);
    forall h: nat
      ensures h in m <==> Place(ToFront(l, k), h) < |l|
      ensures h in m ==> m[h] == ToFront(l, k)[Place(ToFront(l, k), h)]
    {
      PlaceToFront(l, k, h);
    }
  }

  lemma PlaceDropLast<U>(l: seq<Item<U>>, h: nat)
    requires DistinctItems(l) && l != []
    ensures var n := |l| - 1; Place(l[..n], h) == if Place(l, h) < n then Place(l, h) else n
  {
    var n, p := |l| - 1, Place(l, h);
    assert forall j :: 0 <= j < n && j < p ==> l[..n][j].keyHash != h;
    assert p < n ==> l[..n][p].keyHash == h;
  }

  lemma LinkedDropLast<U>(l: seq<Item<U>>, m: map<nat, Item<U>>)
    requires Linked(l, m) && l != []
    ensures Linked(l[..|l| - 1], m - {l[|l| - 1].keyHash})
  {
    PlaceIsUnique(l, |l| - 1);
    var r, m' := l[..|l| - 1], m - {l[|l| - 1].keyHash};
    forall h: nat
      ensures h in m' <==> Place(r, h) < |r|
      ensures h in m' ==> m'[h] == r[Place(r, h)]
    {
      PlaceDropLast(l, h);
    }
  }

  lemma LinkedPush<U>(l: seq<Item<U>>, m: map<nat, Item<U>>, it: Item<U>)
    requires Linked(l, m) && it.keyHash !in m
    ensures Linked([it] + l, m[it.keyHash := it])
  {
    var r, m' := [it] + l, m[it.keyHash := it];
    forall h: nat
      ensures Place(r, h) == if h == it.keyHash then 0 else Place(l, h) + 1
    {
      assert r[1..] == l;
    }
    forall j | 0 <= j < |l| ensures l[j].keyHash != it.keyHash {
      PlaceIsUnique(l, j);
    }
  }

  /** What a list of items holds. */
  ghost function EntriesOf<U>(l: seq<Item<U>>): (es: seq<Entry<U>>)
    reads l
    ensures |es| == |l|
    ensures forall i :: 0 <= i < |l| ==> es[i] == Entry(l[i].keyHash, l[i].value)
  {
    seq(|l|, i requires 0 <= i < |l| reads l => Entry(l[i].keyHash, l[i].value))
  }

  lemma EntriesToFront<U>(l: seq<Item<U>>, k: nat)
    requires k < |l|
    ensures EntriesOf(ToFront(l, k)) == ToFront(EntriesOf(l), k)
  {
  }

  lemma EntriesPush<U>(l: seq<Item<U>>, it: Item<U>)
    ensures EntriesOf([it] + l) == [Entry(it.keyHash, it.value)] + EntriesOf(l)
  {
  }

  lemma EntriesTake<U>(l: seq<Item<U>>, n: nat)
    requires n <= |l|
    ensures EntriesOf(l[..n]) == EntriesOf(l)[..n]
  {
  }

  /** The list after `Set` on a hash that stands at `k`. */
  lemma OverwrittenView<U>(l: seq<Item<U>>, es: seq<Entry<U>>, max: nat, k: nat, v: U)
    requires k < |l| == |es| && max > 0 && l[k].value == v
    requires forall i :: 0 <= i < |l| ==> es[i].hash == l[i].keyHash && (i != k ==> es[i].value == l[i].value)
    requires IndexOf(es, es[k].hash) == k
    ensures AfterSet(State(es, max), es[k].hash, v) == State(EntriesOf(ToFront(l, k)), max)
  {
    EntriesToFront(l, k);
    assert EntriesOf(l) == es[k := Entry(es[k].hash, v)];
  }

  /** The list after `Get` on a hash it has. */
  lemma GotView<U>(l: seq<Item<U>>, h: nat, max: nat)
    requires Place(l, h) == IndexOf(EntriesOf(l), h) < |l|
    ensures AfterGet(State(EntriesOf(l), max), h) == State(EntriesOf(ToFront(l, Place(l, h))), max)
  {
    EntriesToFront(l, Place(l, h));
  }

  /** The list after `Set` on a hash it did not have. */
  function Inserted<U>(l: seq<Item<U>>, it: Item<U>, max: nat): seq<Item<U>>
    requires 0 < max && |l| <= max
  {
    if |l| < max then [it] + l else [it] + l[..max - 1]
  }

  /** What `Reorder` leaves of a list with a new item in front. */
  lemma PushedIsInserted<U>(l: seq<Item<U>>, it: Item<U>, max: nat, r: seq<Item<U>>)
    requires |l| <= max && max > 0
    requires r == if |l| < max then ToFront([it] + l, Place([it] + l, it.keyHash)) else ([it] + l)[..|l|]
    ensures r == Inserted(l, it, max)
  {
    if |l| < max {
      FirstToFront([it] + l);
    } else {
      TakeBehind(it, l, max - 1);
    }
  }

  lemma FirstToFront<U>(l: seq<Item<U>>)
    requires l != []
    ensures ToFront(l, Place(l, l[0].keyHash)) == l
  {
  }

  lemma TakeBehind<U>(it: Item<U>, l: seq<Item<U>>, n: nat)
    requires n <= |l|
    ensures ([it] + l)[..n + 1] == [it] + l[..n]
  {
  }

  lemma InsertedView<U>(l: seq<Item<U>>, it: Item<U>, es: seq<Entry<U>>, max: nat)
    requires es == EntriesOf(l) && IndexOf(es, it.keyHash) == |es| <= max && max > 0
    ensures AfterSet(State(es, max), it.keyHash, it.value) == State(EntriesOf(Inserted(l, it, max)), max)
  {
    EntriesPush(if |l| < max then l else l[..max - 1], it);
    if |l| == max {
      EntriesTake(l, max - 1);
    }
  }

  class LRU<T, U(==)> {
    const hasher: T -> nat
    var itemList: seq<Item<U>>
    var itemMap: map<nat, Item<U>>
    var max: nat

    ghost predicate Valid()
      reads this
    {
      Linked(itemList, itemMap) && |itemList| <= max
    }

    ghost function Contents(): seq<Entry<U>>
      reads this, itemList
    {
      EntriesOf(itemList)
    }

    ghost function View(): State<U>
      reads this, itemList
    {
      State(Contents(), max)
    }

    constructor (hasher: T -> nat, max: nat := 10)
      ensures Valid() && View() == State([], max) && this.hasher == hasher
    {
      this.hasher := hasher;
      itemList, itemMap, this.max := [], map[], max;
    }

    /** Moves an item to the front; right after an insertion at the front it drops the last item instead when
        there is one too many. */
    method Reorder(it: Item<U>)
      requires Linked(itemList, itemMap) && it.keyHash in itemMap && itemMap[it.keyHash] == it
      requires |itemList| <= max || (|itemList| == max + 1 && max > 0 && itemList[0] == it)
      modifies this`itemList, this`itemMap
      ensures Valid()
      ensures old(|itemList|) <= max ==>
        itemList == ToFront(old(itemList), Place(old(itemList), it.keyHash)) && itemMap == old(itemMap)
      ensures old(|itemList|) > max ==>
        itemList == old(itemList[..|itemList| - 1]) && itemMap == old(itemMap - {itemList[|itemList| - 1].keyHash})
    {
      if it == itemList[0] && |itemList| > max {
        LinkedDropLast(itemList, itemMap);
        var last := itemList[|itemList| - 1];
        itemMap := itemMap - {last.keyHash};
        itemList := itemList[..|itemList| - 1];
      } else {
        var at := Place(itemList, it.keyHash);
        LinkedToFront(itemList, itemMap, at);
        itemList := ToFront(itemList, at);
      }
    }

    lemma PlaceInContents(h: nat)
      ensures IndexOf(Contents(), h) == Place(itemList, h)
    {
      var k, es := Place(itemList, h), Contents();
      assert k < |es| ==> es[k].hash == h;
      assert forall j :: 0 <= j < k ==> es[j].hash != h;
    }

    /** The map has an iterator for a hash exactly when the list has the hash, to the place where it stands. */
    lemma Lookup(h: nat)
      requires Valid()
      ensures var k := IndexOf(Contents(), h);
        && (h in itemMap <==> k < |itemList|)
        && k == Place(itemList, h)
        && (h in itemMap ==> itemMap[h] == itemList[k])
    {
      PlaceInContents(h);
    }

    /** The branch of `Get` for a hash the map has. */
    method Hit(it: Item<U>)
      requires Valid() && it.keyHash in itemMap && itemMap[it.keyHash] == it
      modifies this`itemList, this`itemMap
      ensures Valid() && View() == AfterGet(old(View()), it.keyHash) && itemMap == old(itemMap)
      ensures itemList != [] && itemList[0] == it
    {
      Lookup(it.keyHash);
      GotView(itemList, it.keyHash, max);
      Reorder(it);
    }

    /** The item found, which becomes the most recent one; `null` stands for `end()`. */
    method Get(key: T) returns (it: Item?<U>)
      requires Valid()
      modifies this`itemList, this`itemMap
      ensures Valid() && View() == AfterGet(old(View()), hasher(key))
      ensures it == null <==> IndexOf(old(Contents()), hasher(key)) == |old(Contents())|
      ensures it != null ==> it == itemList[0] && it.keyHash == hasher(key)
      ensures itemMap == old(itemMap)
    {
      var keyHash := hasher(key);
      Lookup(keyHash);
      if keyHash in itemMap {
        it := itemMap[keyHash];
        Hit(it);
      } else {
        it := null;
      }
    }

    /** The branch of `Set` for a hash the map does not have. */
    method Insert(keyHash: nat, value: U)
      requires Valid() && max > 0 && keyHash !in itemMap
      modifies this`itemList, this`itemMap
      ensures Valid() && View() == AfterSet(old(View()), keyHash, value)
      ensures forall h :: h in itemMap ==> (h in old(itemMap) && itemMap[h] == old(itemMap)[h]) || fresh(itemMap[h])
    {
      PlaceInContents(keyHash);
      ghost var l, es := itemList, Contents();
      var it := new Item(keyHash, value);
      LinkedPush(itemList, itemMap, it);
      itemList := [it] + itemList;
      itemMap := itemMap[keyHash := it];
      ghost var pushed := itemList;
      assert |pushed| == |l| + 1 && pushed[0] == it;
      Reorder(it);
      PushedIsInserted(l, it, max, itemList);
      InsertedView(l, it, es, max);
    }

    /** The branch of `Set` for a hash the map has. */
    method Overwrite(it: Item<U>, value: U)
      requires Valid() && it.keyHash in itemMap && itemMap[it.keyHash] == it
      modifies this`itemList, this`itemMap, it
      ensures Valid() && View() == AfterSet(old(View()), it.keyHash, value) && itemMap == old(itemMap)
    {
      PlaceInContents(it.keyHash);
      ghost var l, es, k := itemList, Contents(), Place(itemList, it.keyHash);
      if it.value != value {
        it.value := value;
      }
      Reorder(it);
      OverwrittenView(l, es, max, k, value);
    }

    method Set(key: T, value: U)
      requires Valid()
      modifies this`itemList, this`itemMap, itemList
      ensures Valid() && View() == AfterSet(old(View()), hasher(key), value)
      ensures forall h :: h in itemMap ==> (h in old(itemMap) && itemMap[h] == old(itemMap)[h]) || fresh(itemMap[h])
    {
      if max <= 0 {
        return;
      }
      var keyHash := hasher(key);
      if keyHash in itemMap {
        Overwrite(itemMap[keyHash], value);
      } else {
        Insert(keyHash, value);
      }
    }

    method Contains(key: T) returns (found: bool)
      requires Valid()
      modifies this`itemList, this`itemMap
      ensures Valid() && View() == AfterGet(old(View()), hasher(key))
      ensures found <==> IndexOf(old(Contents()), hasher(key)) < |old(Contents())|
      ensures itemMap == old(itemMap)
    {
      var it := Get(key);
      found := it != null;
    }

    method Clear()
      modifies this
      ensures Valid() && View() == State([], old(max))
    {
      itemList, itemMap := [], map[];
    }

    method Reset(max: nat := 10)
      modifies this
      ensures Valid() && View() == State([], max)
    {
      Clear();
      this.max := max;
    }
  }

  // ----- whole runs

  datatype Op<U> = Get(hash: nat) | Set(hash: nat, v: U) | Clear | Reset(max: nat)

  /** A touch: a `Set`, or a `Get` that hits. */
  datatype Touch<U> = Wrote(hash: nat, v: U) | Read(hash: nat)

  /** The cache after some operations, and the touches since it was last emptied. */
  datatype Run<U> = Run(st: State<U>, log: seq<Touch<U>>)

  function Step<U>(r: Run<U>, op: Op<U>): Run<U> {
    match op
    case Get(h) =>
      Run(AfterGet(r.st, h), if IndexOf(r.st.entries, h) < |r.st.entries| then r.log + [Read(h)] else r.log)
    case Set(h, v) =>
      Run(AfterSet(r.st, h, v), if r.st.max > 0 then r.log + [Wrote(h, v)] else r.log)
    case Clear => Run(State([], r.st.max), [])
    case Reset(max) => Run(State([], max), [])
  }

  function RunOf<U>(max: nat, ops: seq<Op<U>>): Run<U> {
    if ops == [] then Run(State([], max), []) else Step(RunOf(max, ops[..|ops| - 1]), ops[|ops| - 1])
  }

  /** The different hashes touched after the last touch of `h`. */
  ghost function TouchedSince<U>(log: seq<Touch<U>>, h: nat): set<nat> {
    if log == [] || log[|log| - 1].hash == h then {}
    else TouchedSince(log[..|log| - 1], h) + {log[|log| - 1].hash}
  }

  ghost predicate Touched<U>(log: seq<Touch<U>>, h: nat) {
    exists i :: 0 <= i < |log| && log[i].hash == h
  }

  /** The value of the last `Set` on `h`. */
  function LastWritten<U>(log: seq<Touch<U>>, h: nat): Option<U> {
    if log == [] then None
    else if log[|log| - 1].Wrote? && log[|log| - 1].hash == h then Some(log[|log| - 1].v)
    else LastWritten(log[..|log| - 1], h)
  }

  // The recency order of a log without a bound, most recent hash first.

  function Without(hs: seq<nat>, h: nat): (r: seq<nat>)
    ensures |r| <= |hs|
  {
    if hs == [] then [] else (if hs[0] == h then [] else [hs[0]]) + Without(hs[1..], h)
  }

  function Recency<U>(log: seq<Touch<U>>): seq<nat> {
    if log == [] then []
    else [log[|log| - 1].hash] + Without(Recency(log[..|log| - 1]), log[|log| - 1].hash)
  }

  ghost predicate Distinct(hs: seq<nat>) {
    forall i, j :: 0 <= i < j < |hs| ==> hs[i] != hs[j]
  }

  /** In a list without repetition, dropping `hs[k]` closes the gap at `k`. */
  lemma {:induction false} WithoutPresent(hs: seq<nat>, k: nat)
    requires Distinct(hs) && k < |hs|
    ensures Without(hs, hs[k]) == hs[..k] + hs[k + 1..]
  {
    if k == 0 {
      WithoutAbsent(hs[1..], hs[0]);
    } else {
      WithoutPresent(hs[1..], k - 1);
    }
  }

  lemma {:induction false} WithoutAbsent(hs: seq<nat>, h: nat)
    requires h !in hs
    ensures Without(hs, h) == hs
  {
    if hs != [] {
      assert hs[0] in hs;
      WithoutAbsent(hs[1..], h);
    }
  }

  /** Dropping `h` changes nothing before its place. */
  lemma WithoutCases(hs: seq<nat>, h: nat) returns (k: nat)
    requires Distinct(hs)
    ensures k <= |hs| && (k < |hs| ==> hs[k] == h) && (k == |hs| ==> h !in hs)
    ensures Without(hs, h) == if k < |hs| then hs[..k] + hs[k + 1..] else hs
  {
    if h in hs {
      k :| 0 <= k < |hs| && hs[k] == h;
      WithoutPresent(hs, k);
    } else {
      k := |hs|;
      WithoutAbsent(hs, h);
    }
  }

  lemma ToFrontAt<T>(s: seq<T>, k: nat, i: nat)
    requires k < |s| && i < |s|
    ensures |ToFront(s, k)| == |s| && ToFront(s, k)[i] == s[if i == 0 then k else if i <= k then i - 1 else i]
  {
  }

  /** An order after a touch of `h`. */
  function Touching(order: seq<nat>, p: nat, h: nat): seq<nat>
    requires p <= |order|
  {
    if p < |order| then ToFront(order, p) else [h] + order
  }

  lemma TouchOrder(order: seq<nat>, h: nat) returns (p: nat)
    requires Distinct(order)
    ensures p <= |order| && (p < |order| ==> order[p] == h) && (p == |order| ==> h !in order)
    ensures [h] + Without(order, h) == Touching(order, p, h)
    ensures Distinct(Touching(order, p, h))
  {
    p := WithoutCases(order, h);
    TouchingIsDistinct(order, p, h);
  }

  lemma TouchingIsDistinct(order: seq<nat>, p: nat, h: nat)
    requires Distinct(order) && p <= |order| && (p == |order| ==> h !in order)
    ensures Distinct(Touching(order, p, h))
  {
    var order' := Touching(order, p, h);
    forall i, j | 0 <= i < j < |order'| ensures order'[i] != order'[j] {
      if p < |order| {
        ToFrontAt(order, p, i);
        ToFrontAt(order, p, j);
      } else {
        assert order[j - 1] in order;
      }
    }
  }

  lemma {:induction false} RecencyIsDistinct<U>(log: seq<Touch<U>>)
    ensures Distinct(Recency(log))
  {
    if log != [] {
      RecencyIsDistinct(log[..|log| - 1]);
      var p := TouchOrder(Recency(log[..|log| - 1]), log[|log| - 1].hash);
    }
  }

  /** The list is the first `max` hashes of the recency order, each with the value last written for it. */
  ghost predicate Follows<U>(r: Run<U>) {
    var order := Recency(r.log);
    && |r.st.entries| == (if |order| <= r.st.max then |order| else r.st.max)
    && forall i :: 0 <= i < |r.st.entries| ==>
      r.st.entries[i].hash == order[i] && LastWritten(r.log, order[i]) == Some(r.st.entries[i].value)
  }

  lemma RecencyStep<U>(log: seq<Touch<U>>, t: Touch<U>) returns (p: nat)
    ensures var order := Recency(log);
      && Distinct(order)
      && p <= |order| && (p < |order| ==> order[p] == t.hash) && (p == |order| ==> t.hash !in order)
      && Recency(log + [t]) == Touching(order, p, t.hash)
  {
    RecencyIsDistinct(log);
    p := TouchOrder(Recency(log), t.hash);
    assert (log + [t])[..|log|] == log;
  }

  lemma LastWrittenStep<U>(log: seq<Touch<U>>, t: Touch<U>, h: nat)
    ensures LastWritten(log + [t], h) == if t.Wrote? && t.hash == h then Some(t.v) else LastWritten(log, h)
  {
    assert (log + [t])[..|log|] == log;
  }

  /** A touch of an entry at place `k`, which leaves the value `v` there. */
  lemma TouchFollows<U>(r: Run<U>, t: Touch<U>, k: nat, v: U)
    requires Follows(r) && k < |r.st.entries| && r.st.entries[k].hash == t.hash
    requires v == if t.Wrote? then t.v else r.st.entries[k].value
    ensures Follows(Run(r.st.(entries := ToFront(r.st.entries[k := Entry(t.hash, v)], k)), r.log + [t]))
  {
    var order, es := Recency(r.log), r.st.entries;
    var p := RecencyStep(r.log, t);
    assert order[k] == t.hash && p == k;
    var es', order' := ToFront(es[k := Entry(t.hash, v)], k), ToFront(order, k);
    forall i | 0 <= i < |es'|
      ensures es'[i].hash == order'[i] && LastWritten(r.log + [t], order'[i]) == Some(es'[i].value)
    {
      var j := if i == 0 then k else if i <= k then i - 1 else i;
      ToFrontAt(es[k := Entry(t.hash, v)], k, i);
      ToFrontAt(order, k, i);
      LastWrittenStep(r.log, t, order[j]);
    }
  }

  /** A new entry in front, pushing out the last one when the list is full. */
  lemma InsertFollows<U>(r: Run<U>, h: nat, v: U)
    requires Follows(r) && r.st.max > 0 && IndexOf(r.st.entries, h) == |r.st.entries|
    ensures Follows(Run(AfterSet(r.st, h, v), r.log + [Wrote(h, v)]))
  {
    var order, es, t := Recency(r.log), r.st.entries, Wrote(h, v);
    var p := RecencyStep(r.log, t);
    assert forall i :: 0 <= i < |es| ==> order[i] == es[i].hash != h;
    assert p >= |es|;
    var es', order' := AfterSet(r.st, h, v).entries, Recency(r.log + [t]);
    forall i | 0 <= i < |es'|
      ensures es'[i].hash == order'[i] && LastWritten(r.log + [t], order'[i]) == Some(es'[i].value)
    {
      LastWrittenStep(r.log, t, order'[i]);
      if i > 0 {
        assert es'[i] == es[i - 1] && order'[i] == order[i - 1];
      }
    }
  }

  lemma StepFollows<U>(r: Run<U>, op: Op<U>)
    requires Follows(r)
    ensures Follows(Step(r, op))
  {
    if op.Get? || (op.Set? && r.st.max > 0) {
      var k := IndexOf(r.st.entries, op.hash);
      if k == |r.st.entries| {
        if op.Set? { InsertFollows(r, op.hash, op.v); }
      } else if op.Set? {
        TouchFollows(r, Wrote(op.hash, op.v), k, op.v);
      } else {
        var v := r.st.entries[k].value;
        TouchFollows(r, Read(op.hash), k, v);
        assert r.st.entries[k := Entry(op.hash, v)] == r.st.entries;
      }
    }
  }

  /** Every run of operations from an empty cache follows the recency order. */
  lemma {:induction false} RunFollows<U>(max: nat, ops: seq<Op<U>>)
    ensures Follows(RunOf(max, ops))
  {
    if ops != [] {
      RunFollows(max, ops[..|ops| - 1]);
      StepFollows(RunOf(max, ops[..|ops| - 1]), ops[|ops| - 1]);
    }
  }

  ghost function Elems(hs: seq<nat>): set<nat> {
    if hs == [] then {} else {hs[0]} + Elems(hs[1..])
  }

  lemma {:induction false} ElemsAppend(xs: seq<nat>, ys: seq<nat>)
    ensures Elems(xs + ys) == Elems(xs) + Elems(ys)
  {
    if xs == [] {
      assert xs + ys == ys;
    } else {
      assert (xs + ys)[1..] == xs[1..] + ys;
      ElemsAppend(xs[1..], ys);
    }
  }

  lemma {:induction false} NotInElems(hs: seq<nat>, x: nat)
    requires forall i :: 0 <= i < |hs| ==> hs[i] != x
    ensures x !in Elems(hs)
  {
    if hs != [] { NotInElems(hs[1..], x); }
  }

  lemma {:induction false} DistinctCount(hs: seq<nat>)
    requires Distinct(hs)
    ensures |Elems(hs)| == |hs|
  {
    if hs != [] {
      DistinctCount(hs[1..]);
      NotInElems(hs[1..], hs[0]);
    }
  }

  /** In the recency order, exactly the hashes touched since stand before `h`. */
  lemma {:induction false} PlaceInRecency<U>(log: seq<Touch<U>>, h: nat) returns (k: nat)
    ensures k <= |Recency(log)| && (k < |Recency(log)| <==> Touched(log, h))
    ensures k < |Recency(log)| ==> Recency(log)[k] == h
    ensures k < |Recency(log)| ==> Elems(Recency(log)[..k]) == TouchedSince(log, h)
    ensures k == |Recency(log)| ==> h !in Recency(log)
  {
    if log == [] {
      return 0;
    }
    var init, t := log[..|log| - 1], log[|log| - 1];
    assert log == init + [t];
    k := PlaceInRecency(init, h);
    var p := RecencyStep(init, t);
    if t.hash == h {
      k := 0;
    } else if k < |Recency(init)| {
      var i :| 0 <= i < |init| && init[i].hash == h;
      assert log[i].hash == h;
      k := PlaceAfterTouch(Recency(init), p, t.hash, k);
    } else {
      k := |Recency(log)|;
      ToFrontOrPush(Recency(init), p, t.hash, h);
      if i :| 0 <= i < |log| && log[i].hash == h {
        assert init[i].hash == h;
      }
    }
  }

  lemma ToFrontOrPush(order: seq<nat>, p: nat, g: nat, x: nat)
    requires p <= |order| && (p < |order| ==> order[p] == g)
    ensures x in Touching(order, p, g) <==> x == g || x in order
  {
    if p < |order| {
      assert order == order[..p] + [g] + order[p + 1..];
    }
  }

  /** Where the hash at place `k` goes when another one is touched, and what then stands before it. */
  lemma PlaceAfterTouch(order: seq<nat>, p: nat, g: nat, k: nat) returns (k': nat)
    requires p <= |order| && (p < |order| ==> order[p] == g) && k < |order| && k != p
    ensures var order' := Touching(order, p, g);
      && k' < |order'| && order'[k'] == order[k]
      && Elems(order'[..k']) == Elems(order[..k]) + {g}
  {
    var order' := Touching(order, p, g);
    k' := if p < k then k else k + 1;
    if p < k {
      var before, between := order[..p], order[p + 1..k];
      assert order'[..k'] == [g] + (before + between) && order[..k] == before + ([g] + between);
      ElemsAppend(before, between);
      ElemsAppend(before, [g] + between);
      ElemsAppend([g], before + between);
      ElemsAppend([g], between);
    } else {
      assert order'[..k'] == [g] + order[..k];
      ElemsAppend([g], order[..k]);
    }
  }

  /** What is cached, said of the history alone: `h` is in the list exactly when it was touched since the last
      emptying and fewer than `max` other hashes were touched after that; its value is the last one written. */
  lemma CachedExactlyWhenRecent<U>(max: nat, ops: seq<Op<U>>, h: nat)
    ensures var r := RunOf(max, ops);
      var k := IndexOf(r.st.entries, h);
      && |r.st.entries| <= r.st.max
      && (k < |r.st.entries| <==> Touched(r.log, h) && |TouchedSince(r.log, h)| < r.st.max)
      && (k < |r.st.entries| ==>
            k == |TouchedSince(r.log, h)| && LastWritten(r.log, h) == Some(r.st.entries[k].value))
  {
    var r := RunOf(max, ops);
    var order := Recency(r.log);
    RunFollows(max, ops);
    RecencyIsDistinct(r.log);
    var p := PlaceInRecency(r.log, h);
    if p < |order| {
      DistinctCount(order[..p]);
    }
    var k := IndexOf(r.st.entries, h);
    if k < |r.st.entries| {
      assert order[k] == h;
    }
    if p < |r.st.entries| {
      assert r.st.entries[p].hash == h;
    }
  }

  // ----- the object, run

  datatype Call<T, U> = CallGet(key: T) | CallContains(key: T) | CallSet(key: T, v: U) | CallClear | CallReset(max: nat)

  function OpOf<T, U>(hasher: T -> nat, call: Call<T, U>): Op<U> {
    match call
    case CallGet(key) => Get(hasher(key))
    case CallContains(key) => Get(hasher(key))
    case CallSet(key, v) => Set(hasher(key), v)
    case CallClear => Clear
    case CallReset(max) => Reset(max)
  }

  function OpsOf<T, U>(hasher: T -> nat, calls: seq<Call<T, U>>): (ops: seq<Op<U>>)
    ensures |ops| == |calls|
  {
    if calls == [] then [] else OpsOf(hasher, calls[..|calls| - 1]) + [OpOf(hasher, calls[|calls| - 1])]
  }

  lemma OpsOfLast<T, U>(max: nat, hasher: T -> nat, calls: seq<Call<T, U>>)
    requires calls != []
    ensures var n := |calls| - 1;
      RunOf(max, OpsOf(hasher, calls)) == Step(RunOf(max, OpsOf(hasher, calls[..n])), OpOf(hasher, calls[n]))
  {
    var ops := OpsOf(hasher, calls);
    assert ops[..|ops| - 1] == OpsOf(hasher, calls[..|calls| - 1]);
  }

  /** Every item listed is the one the map leads to, and the map leads to no other. */
  lemma ItemsOfMap<U>(l: seq<Item<U>>, m: map<nat, Item<U>>)
    requires Linked(l, m)
    ensures forall it :: it in l ==> it.keyHash in m && m[it.keyHash] == it
    ensures forall h :: h in m ==> m[h] in l
  {
    forall it | it in l ensures it.keyHash in m && m[it.keyHash] == it {
      var i :| 0 <= i < |l| && l[i] == it;
      PlaceIsUnique(l, i);
    }
  }

  /** One call on a cache. */
  method Perform<T, U(==)>(lru: LRU<T, U>, call: Call<T, U>)
    requires lru.Valid()
    modifies lru, lru.itemList
    ensures lru.Valid() && forall log :: lru.View() == Step(Run(old(lru.View()), log), OpOf(lru.hasher, call)).st
    ensures forall it :: it in lru.itemList ==> it in old(lru.itemList) || fresh(it)
  {
    ItemsOfMap(lru.itemList, lru.itemMap);
    match call {
      case CallGet(key) => var it := lru.Get(key);
      case CallContains(key) => var found := lru.Contains(key);
      case CallSet(key, v) => lru.Set(key, v);
      case CallClear => lru.Clear();
      case CallReset(max) => lru.Reset(max);
    }
    ItemsOfMap(lru.itemList, lru.itemMap);
  }

  /** A new cache after any calls holds what the run holds. */
  method Replay<T, U(==)>(hasher: T -> nat, max: nat, calls: seq<Call<T, U>>) returns (lru: LRU<T, U>)
    ensures fresh(lru) && lru.Valid() && lru.hasher == hasher
    ensures lru.View() == RunOf(max, OpsOf(hasher, calls)).st
    ensures forall i :: 0 <= i < |lru.itemList| ==> fresh(lru.itemList[i])
    decreases |calls|
  {
    if calls == [] {
      lru := new LRU(hasher, max);
    } else {
      var n := |calls| - 1;
      lru := Replay(hasher, max, calls[..n]);
      ghost var r := RunOf(max, OpsOf(hasher, calls[..n]));
      OpsOfLast(max, hasher, calls);
      Perform(lru, calls[n]);
      assert lru.View() == Step(Run(r.st, r.log), OpOf(hasher, calls[n])).st;
      forall i | 0 <= i < |lru.itemList| ensures fresh(lru.itemList[i]) {
        assert lru.itemList[i] in lru.itemList;
      }
    }
  }

  /** What such a cache answers for a key, said of the history alone. */
  method IsCached<T, U(==)>(hasher: T -> nat, max: nat, calls: seq<Call<T, U>>, key: T) returns (found: bool)
    ensures var r, h := RunOf(max, OpsOf(hasher, calls)), hasher(key);
      found <==> Touched(r.log, h) && |TouchedSince(r.log, h)| < r.st.max
  {
    var lru := Replay(hasher, max, calls);
    CachedExactlyWhenRecent(max, OpsOf(hasher, calls), hasher(key));
    found := lru.Contains(key);
  }
}
