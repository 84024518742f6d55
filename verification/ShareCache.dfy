/**
 The bounded cache of best shares: a binary max-heap over the share hashes, read as 256-bit
 little-endian integers, that keeps the lowest `CACHED_SHARES_CAPACITY` of everything offered.
 */
module ShareCache {
  import opened Bytes

  const CACHED_SHARES_CAPACITY := 100

  /** A share and the value that orders it; equality and order of the source look at `target` only. */
  datatype Entry = Entry(share: nat, target: nat)

  type Hash = s: seq<byte> | |s| == 32 witness Zeros(32)

  /** A share as it is offered, with its double hash. */
  datatype Offer = Offer(share: nat, hash: Hash)

  /** `SharesOrderedByDiff::new`: ordered by the hash as a 256-bit little-endian integer. */
  function NewEntry(o: Offer): Entry {
    Entry(o.share, LeNat(o.hash))
  }

  function Targets(s: seq<Entry>): (t: seq<nat>)
    ensures |t| == |s| && forall i :: 0 <= i < |s| ==> t[i] == s[i].target
  {
    seq(|s|, i requires 0 <= i < |s| => s[i].target)
  }

  // ---------------------------------------------------------------- what the cache should hold

  /** `kept` are the `min(|all|, 100)` smallest members of `all`. */
  ghost predicate Best(kept: multiset<nat>, all: multiset<nat>) {
    && kept <= all
    && |kept| == (if |all| < CACHED_SHARES_CAPACITY then |all| else CACHED_SHARES_CAPACITY)
    && forall x, y :: x in kept && y in all - kept ==> x <= y
  }

  lemma SubsetOfSameSize(a: multiset<nat>, b: multiset<nat>)
    requires a <= b && |a| == |b|
    ensures a == b
  {
    assert b == a + (b - a);
  }

  lemma MissingMember(a: multiset<nat>, b: multiset<nat>) returns (x: nat)
    requires a != b && |a| == |b|
    ensures a[x] > b[x]
  {
    if forall x :: x in a ==> a[x] <= b[x] {
      assert a <= b;
      SubsetOfSameSize(a, b);
      assert false;
    }
    x :| x in a && a[x] > b[x];
  }

  lemma KeptBelowLeftOut(kept: multiset<nat>, all: multiset<nat>, x: nat, y: nat)
    requires Best(kept, all) && x in kept && kept[y] < all[y]
    ensures x <= y
  {
    assert y in all - kept;
  }

  /** The smallest members are determined by what was offered, so `Best` names one multiset. */
  lemma BestIsUnique(a: multiset<nat>, b: multiset<nat>, all: multiset<nat>)
    requires Best(a, all) && Best(b, all)
    ensures a == b
  {
    if a != b {
      var x := MissingMember(a, b);
      var y := MissingMember(b, a);
      KeptBelowLeftOut(a, all, x, y);
      KeptBelowLeftOut(b, all, y, x);
    }
  }

  lemma BestWhenRoomLeft(kept: multiset<nat>, all: multiset<nat>, t: nat)
    requires Best(kept, all) && |kept| < CACHED_SHARES_CAPACITY
    ensures Best(kept + multiset{t}, all + multiset{t})
  {
    SubsetOfSameSize(kept, all);
  }

  lemma BestWhenReplaced(kept: multiset<nat>, all: multiset<nat>, worst: nat, t: nat)
    requires Best(kept, all) && |kept| == CACHED_SHARES_CAPACITY
    requires worst in kept && (forall x :: x in kept ==> x <= worst) && t < worst
    ensures Best(kept - multiset{worst} + multiset{t}, all + multiset{t})
  {
    var kept' := kept - multiset{worst} + multiset{t};
    var all' := all + multiset{t};
    assert all' - kept' == (all - kept) + multiset{worst};
    forall x, y | x in kept' && y in all' - kept' ensures x <= y {
      assert x in kept || x == t;
      assert y in all - kept || y == worst;
    }
  }

  lemma BestWhenDiscarded(kept: multiset<nat>, all: multiset<nat>, worst: nat, t: nat)
    requires Best(kept, all) && |kept| == CACHED_SHARES_CAPACITY
    requires worst in kept && (forall x :: x in kept ==> x <= worst) && worst <= t
    ensures Best(kept, all + multiset{t})
  {
    assert all + multiset{t} - kept == (all - kept) + multiset{t};
    forall x, y | x in kept && y in all + multiset{t} - kept ensures x <= y {
      assert y in all - kept || y == t;
    }
  }

  // ---------------------------------------------------------------- the heap

  function Parent(i: nat): nat
    requires i > 0
  {
    (i - 1) / 2
  }

  predicate Ordered(s: seq<Entry>, j: nat)
    requires 0 < j < |s|
  {
    s[j].target <= s[Parent(j)].target
  }

  predicate IsHeap(s: seq<Entry>) {
    forall j :: 0 < j < |s| ==> Ordered(s, j)
  }

  lemma {:induction false} RootIsWorst(s: seq<Entry>, i: nat)
    requires IsHeap(s) && i < |s|
    ensures s[i].target <= s[0].target
  {
    if i > 0 {
      assert Ordered(s, i);
      RootIsWorst(s, Parent(i));
    }
  }

  ghost predicate SameEntries(s: seq<Entry>, r: seq<Entry>) {
    |r| == |s| && multiset(r) == multiset(s) && multiset(Targets(r)) == multiset(Targets(s))
  }

  function Swapped(s: seq<Entry>, i: nat, j: nat): seq<Entry>
    requires i < |s| && j < |s|
  {
    s[i := s[j]][j := s[i]]
  }

  lemma SwapKeepsEntries(s: seq<Entry>, i: nat, j: nat)
    requires i < |s| && j < |s|
    ensures SameEntries(s, Swapped(s, i, j))
  {
    var t := Targets(s);
    assert Targets(Swapped(s, i, j)) == t[i := t[j]][j := t[i]];
  }

  /** Every link is ordered except the one above `i`, and `i`'s children are below `i`'s parent. */
  ghost predicate UpHole(s: seq<Entry>, i: nat) {
    && i < |s|
    && (forall j :: 0 < j < |s| && j != i ==> Ordered(s, j))
    && (forall j :: 0 < j < |s| && Parent(j) == i && i > 0 ==> s[j].target <= s[Parent(i)].target)
  }

  lemma UpStep(s: seq<Entry>, i: nat)
    requires UpHole(s, i) && i > 0 && s[Parent(i)].target < s[i].target
    ensures UpHole(Swapped(s, i, Parent(i)), Parent(i))
  {
    var p := Parent(i);
    var r := Swapped(s, i, p);
    forall j | 0 < j < |r| && j != p ensures Ordered(r, j) {
      if Parent(j) == i {
        assert Ordered(s, j);
      } else if Parent(j) == p && j != i {
        assert Ordered(s, j);
      } else if j != i {
        assert Ordered(s, j);
      }
    }
    forall j | 0 < j < |r| && Parent(j) == p && p > 0 ensures r[j].target <= r[Parent(p)].target {
      assert Ordered(s, p);
      assert j != i ==> Ordered(s, j);
    }
  }

  method SiftUp(s: seq<Entry>, at: nat) returns (r: seq<Entry>)
    requires UpHole(s, at)
    ensures IsHeap(r) && SameEntries(s, r)
  {
    r := s;
    var i := at;
    while i > 0 && r[Parent(i)].target < r[i].target
      invariant UpHole(r, i) && SameEntries(s, r)
      decreases i
    {
      UpStep(r, i);
      SwapKeepsEntries(r, i, Parent(i));
      r := Swapped(r, i, Parent(i));
      i := Parent(i);
    }
    forall j | 0 < j < |r| ensures Ordered(r, j) {
    }
  }

  /** Every link is ordered except those below `i`, whose children are below `i`'s parent. */
  ghost predicate DownHole(s: seq<Entry>, i: nat) {
    && i < |s|
    && (forall j :: 0 < j < |s| && Parent(j) != i ==> Ordered(s, j))
    && (forall j :: 0 < j < |s| && Parent(j) == i && i > 0 ==> s[j].target <= s[Parent(i)].target)
  }

  /** The child of `i` with the larger target. */
  function BiggerChild(s: seq<Entry>, i: nat): (c: nat)
    requires 2 * i + 1 < |s|
    ensures 0 < c < |s| && Parent(c) == i
    ensures forall j :: 0 < j < |s| && Parent(j) == i ==> s[j].target <= s[c].target
  {
    var l := 2 * i + 1;
    var c := if l + 1 < |s| && s[l].target < s[l + 1].target then l + 1 else l;
    assert forall j :: 0 < j < |s| && Parent(j) == i ==> j == l || j == l + 1;
    c
  }

  lemma DownStep(s: seq<Entry>, i: nat, c: nat)
    requires DownHole(s, i) && 2 * i + 1 < |s| && c == BiggerChild(s, i) && s[i].target < s[c].target
    ensures DownHole(Swapped(s, i, c), c)
  {
    var r := Swapped(s, i, c);
    forall j | 0 < j < |r| && Parent(j) != c ensures Ordered(r, j) {
      if Parent(j) == i {
      } else if j == i {
        assert Parent(c) == i;
      } else {
        assert Ordered(s, j);
      }
    }
    forall j | 0 < j < |r| && Parent(j) == c ensures r[j].target <= r[Parent(c)].target {
      assert Ordered(s, j);
    }
  }

  method SiftDown(s: seq<Entry>) returns (r: seq<Entry>)
    requires DownHole(s, 0)
    ensures IsHeap(r) && SameEntries(s, r)
  {
    r := s;
    var i: nat := 0;
    while 2 * i + 1 < |r| && r[i].target < r[BiggerChild(r, i)].target
      invariant DownHole(r, i) && SameEntries(s, r)
      decreases |r| - i
    {
      var c := BiggerChild(r, i);
      DownStep(r, i, c);
      SwapKeepsEntries(r, i, c);
      r := Swapped(r, i, c);
      i := c;
    }
    forall j | 0 < j < |r| ensures Ordered(r, j) {
    }
  }

  method Push(s: seq<Entry>, e: Entry) returns (r: seq<Entry>)
    requires IsHeap(s)
    ensures IsHeap(r) && SameEntries(s + [e], r)
  {
    forall j | 0 < j < |s| ensures Ordered(s + [e], j) {
      assert Ordered(s, j);
    }
    r := SiftUp(s + [e], |s|);
  }

  /** Removes the root, moving the last entry to the top and sifting it down. */
  method Pop(s: seq<Entry>) returns (worst: Entry, r: seq<Entry>)
    requires IsHeap(s) && s != []
    ensures worst == s[0] && IsHeap(r) && SameEntries(s[1..], r)
  {
    worst := s[0];
    var n := |s| - 1;
    if n == 0 {
      r := [];
    } else {
      var moved := s[..n][0 := s[n]];
      forall j | 0 < j < n && Parent(j) != 0 ensures Ordered(moved, j) {
        assert Ordered(s, j);
      }
      MoveLastToFront(s);
      r := SiftDown(moved);
    }
  }

  lemma MoveLastToFront(s: seq<Entry>)
    requires |s| > 1
    ensures SameEntries(s[1..], s[..|s| - 1][0 := s[|s| - 1]])
  {
    var n := |s| - 1;
    assert s[1..] == s[1..n] + [s[n]];
    assert s[..n][0 := s[n]] == [s[n]] + s[1..n];
    assert Targets(s[1..]) == Targets(s[1..n]) + [s[n].target];
    assert Targets([s[n]] + s[1..n]) == [s[n].target] + Targets(s[1..n]);
  }

  lemma WorstOf(s: seq<Entry>)
    requires IsHeap(s) && s != []
    ensures s[0].target in multiset(Targets(s))
    ensures forall x :: x in multiset(Targets(s)) ==> x <= s[0].target
  {
    var t := Targets(s);
    assert t[0] in t;
    forall x | x in multiset(t) ensures x <= s[0].target {
      assert x in t;
      var i :| 0 <= i < |t| && t[i] == x;
      RootIsWorst(s, i);
    }
  }

  lemma TargetsSnoc(s: seq<Entry>, e: Entry)
    ensures multiset(Targets(s + [e])) == multiset(Targets(s)) + multiset{e.target}
    ensures multiset(s + [e]) == multiset(s) + multiset{e}
  {
    assert Targets(s + [e]) == Targets(s) + [e.target];
  }

  lemma WithoutRoot(s: seq<Entry>)
    requires s != []
    ensures multiset(s[1..]) == multiset(s) - multiset{s[0]}
    ensures multiset(Targets(s[1..])) == multiset(Targets(s)) - multiset{s[0].target}
  {
    var t := Targets(s);
    assert s == [s[0]] + s[1..];
    assert t == [t[0]] + t[1..];
    assert Targets(s[1..]) == t[1..];
  }

  // ---------------------------------------------------------------- the cache

  /** The heap holds offered shares, and their targets are the best of all targets offered. */
  ghost predicate Caches(heap: seq<Entry>, offered: seq<Entry>) {
    && IsHeap(heap)
    && multiset(heap) <= multiset(offered)
    && Best(multiset(Targets(heap)), multiset(Targets(offered)))
  }

  lemma CachesPushed(heap: seq<Entry>, offered: seq<Entry>, e: Entry, r: seq<Entry>)
    requires Caches(heap, offered) && |heap| < CACHED_SHARES_CAPACITY
    requires IsHeap(r) && SameEntries(heap + [e], r)
    ensures Caches(r, offered + [e])
  {
    TargetsSnoc(heap, e);
    TargetsSnoc(offered, e);
    BestWhenRoomLeft(multiset(Targets(heap)), multiset(Targets(offered)), e.target);
  }

  lemma CachesReplaced(heap: seq<Entry>, offered: seq<Entry>, e: Entry, rest: seq<Entry>, r: seq<Entry>)
    requires Caches(heap, offered) && |heap| == CACHED_SHARES_CAPACITY && e.target < heap[0].target
    requires SameEntries(heap[1..], rest) && IsHeap(r) && SameEntries(rest + [e], r)
    ensures Caches(r, offered + [e])
  {
    TargetsSnoc(rest, e);
    TargetsSnoc(offered, e);
    WithoutRoot(heap);
    WorstOf(heap);
    BestWhenReplaced(multiset(Targets(heap)), multiset(Targets(offered)), heap[0].target, e.target);
  }

  lemma CachesDiscarded(heap: seq<Entry>, offered: seq<Entry>, e: Entry)
    requires Caches(heap, offered) && |heap| == CACHED_SHARES_CAPACITY && heap[0].target <= e.target
    ensures Caches(heap, offered + [e])
  {
    TargetsSnoc(offered, e);
    WorstOf(heap);
    BestWhenDiscarded(multiset(Targets(heap)), multiset(Targets(offered)), heap[0].target, e.target);
  }

  function Entries(offers: seq<Offer>): seq<Entry> {
    seq(|offers|, i requires 0 <= i < |offers| => NewEntry(offers[i]))
  }

  /** The hashes of the offers as 256-bit little-endian integers. */
  function HashValues(offers: seq<Offer>): seq<nat> {
    seq(|offers|, i requires 0 <= i < |offers| => LeNat(offers[i].hash))
  }

  lemma TargetsAreHashValues(offers: seq<Offer>)
    ensures Targets(Entries(offers)) == HashValues(offers)
  {
  }

  /** The entry is an offered share with its own hash value. */
  ghost predicate IsOffered(e: Entry, offers: seq<Offer>) {
    exists k :: 0 <= k < |offers| && e.share == offers[k].share && e.target == LeNat(offers[k].hash)
  }

  ghost predicate AllOffered(heap: seq<Entry>, offers: seq<Offer>) {
    forall i :: 0 <= i < |heap| ==> IsOffered(heap[i], offers)
  }

  lemma CachedAreOffered(heap: seq<Entry>, offers: seq<Offer>)
    requires multiset(heap) <= multiset(Entries(offers))
    ensures AllOffered(heap, offers)
  {
    var es := Entries(offers);
    forall i | 0 <= i < |heap| ensures IsOffered(heap[i], offers) {
      assert heap[i] in multiset(heap);
      assert heap[i] in es;
      var k :| 0 <= k < |es| && es[k] == heap[i];
      assert heap[i] == NewEntry(offers[k]);
    }
  }

  class Cache {
    var heap: seq<Entry>
    ghost var offered: seq<Offer>

    ghost predicate Valid()
      reads this
    {
      Caches(heap, Entries(offered))
    }

    constructor ()
      ensures Valid() && heap == [] && offered == []
    {
      heap, offered := [], [];
    }

    /** What the invariant means for the hashes offered. */
    lemma HoldsTheBest()
      requires Valid()
      ensures Best(multiset(Targets(heap)), multiset(HashValues(offered))) && AllOffered(heap, offered)
      ensures |heap| == if |offered| < 100 then |offered| else 100
    {
      TargetsAreHashValues(offered);
      CachedAreOffered(heap, offered);
      assert |multiset(Targets(heap))| == |heap| && |multiset(HashValues(offered))| == |offered|;
    }

    /** `add_share_to_cache`: the cache holds offered shares only, and their hash values are the lowest of all. */
    method Add(offer: Offer)
      requires Valid()
      modifies this
      ensures Valid() && offered == old(offered) + [offer]
      ensures Best(multiset(Targets(heap)), multiset(HashValues(offered))) && AllOffered(heap, offered)
      ensures |heap| == if |offered| < 100 then |offered| else 100
    {
      Insert(offer);
      HoldsTheBest();
    }

    /** Push while there is room, else replace the root if the newcomer is better. */
    method Insert(offer: Offer)
      requires Valid()
      modifies this
      ensures Valid() && offered == old(offered) + [offer]
    {
      var entry := NewEntry(offer);
      var len := |heap|;
      assert len == |multiset(Targets(heap))| <= CACHED_SHARES_CAPACITY;
      ghost var es := Entries(offered);
      var r := heap;
      if len < CACHED_SHARES_CAPACITY {
        r := Push(heap, entry);
        CachesPushed(heap, es, entry, r);
      } else if entry.target < heap[0].target {
        var worst, rest := Pop(heap);
        r := Push(rest, entry);
        CachesReplaced(heap, es, entry, rest, r);
      } else {
        CachesDiscarded(heap, es, entry);
      }
      heap := r;
      offered := offered + [offer];
      assert Entries(offered) == es + [entry];
    }

    /** Any sequence of insertions. */
    method AddAll(offers: seq<Offer>)
      requires Valid()
      modifies this
      ensures Valid() && offered == old(offered) + offers
      ensures Best(multiset(Targets(heap)), multiset(HashValues(offered))) && AllOffered(heap, offered)
      ensures |heap| == if |offered| < 100 then |offered| else 100
    {
      InsertAll(offers);
      HoldsTheBest();
    }

    method InsertAll(offers: seq<Offer>)
      requires Valid()
      modifies this
      ensures Valid() && offered == old(offered) + offers
    {
      for i := 0 to |offers|
        invariant Valid() && offered == old(offered) + offers[..i]
      {
        Insert(offers[i]);
        assert offers[..i + 1] == offers[..i] + [offers[i]];
      }
      assert offers[..|offers|] == offers;
    }
  }
}
