/**
 The mining device's share test and nonce search: the word-wise target comparison, the batched search
 with the midstate hasher, and the split of the nonce space among the workers.
 */
module NonceSearch {
  import opened Bytes
  import opened FastSha256d
  import opened Options

  const WORDS := 0x1_0000_0000

  function Wrap(n: nat): word {
    n % WORDS
  }

  // ---------------------------------------------------------------- target comparison

  lemma {:induction false} MulMono(p: nat, a: nat, b: nat)
    requires a <= b
    ensures p * a <= p * b
    decreases b - a
  {
    if a < b {
      MulMono(p, a, b - 1);
      assert p * b == p * (b - 1) + p;
    }
  }

  lemma MulLt(p: nat, u: nat, v: nat)
    requires u < v
    ensures p * u + p <= p * v
  {
    MulMono(p, u + 1, v);
  }

  /** Little-endian numbers of the same length are ordered by their high parts when those differ. */
  lemma HighPartDecides(a: seq<byte>, b: seq<byte>, k: nat)
    requires |a| == |b| && k <= |a| && LeNat(a[k..]) < LeNat(b[k..])
    ensures LeNat(a) < LeNat(b)
  {
    LeNatConcat(a[..k], a[k..]);
    LeNatConcat(b[..k], b[k..]);
    assert a == a[..k] + a[k..] && b == b[..k] + b[k..];
    LeNatBound(a[..k]);
    MulLt(Pow256(k), LeNat(a[k..]), LeNat(b[k..]));
  }

  lemma Pow256Four()
    ensures Pow256(4) == WORDS
  {
    assert Pow256(2) == 256 * 256;
  }

  /** Prefixing the next lower word to a high part. */
  lemma WordThenRest(s: seq<byte>, off: nat)
    requires off + 4 <= |s|
    ensures LeNat(s[off..]) == LeNat(s[off..off + 4]) + WORDS * LeNat(s[off + 4..])
    ensures LeNat(s[off..off + 4]) < WORDS
  {
    assert s[off..] == s[off..off + 4] + s[off + 4..];
    LeNatConcat(s[off..off + 4], s[off + 4..]);
    LeNatBound(s[off..off + 4]);
    Pow256Four();
  }

  /** `hash_meets_target_le`: eight words from the most significant down, stopping at the first difference. */
  method HashMeetsTarget(hash: Hash, target: Hash) returns (meets: bool)
    ensures meets == (LeNat(hash) <= LeNat(target))
  {
    var isBelow, isEqual := false, true;
    var i := 8;
    while i > 0
      invariant 0 <= i <= 8 && isEqual && !isBelow
      invariant LeNat(hash[4 * i..]) == LeNat(target[4 * i..])
    {
      i := i - 1;
      var off := 4 * i;
      WordThenRest(hash, off);
      WordThenRest(target, off);
      var hw := LeNat(hash[off..off + 4]);
      var tw := LeNat(target[off..off + 4]);
      if hw < tw {
        HighPartDecides(hash, target, off);
        isBelow, isEqual := true, false;
        break;
      } else if hw > tw {
        HighPartDecides(target, hash, off);
        isBelow, isEqual := false, false;
        break;
      }
    }
    if isEqual {
      assert hash[0..] == hash && target[0..] == target;
    }
    meets := isBelow || isEqual;
  }

  // ---------------------------------------------------------------- the search

  /** The header with this nonce hashes to a value at or below the target. */
  predicate Hit(compress: Compressor, h: Header, target: Hash, nonce: word) {
    LeNat(Sha256d(compress, Serialize(h.(nonce := nonce)))) <= LeNat(target)
  }

  type Test = word -> bool

  /** The target test as a function of the nonce alone; the nonce already in the header plays no part. */
  function Hits(compress: Compressor, h: Header, target: Hash): Test {
    HitsOf(compress, h.(nonce := 0), target)
  }

  function HitsOf(compress: Compressor, h: Header, target: Hash): Test {
    (nonce: word) => Hit(compress, h, target, nonce)
  }

  lemma HitsMean(compress: Compressor, h: Header, target: Hash, nonce: word)
    ensures Hits(compress, h, target)(nonce) == Hit(compress, h, target, nonce)
  {
    assert h.(nonce := 0).(nonce := nonce) == h.(nonce := nonce);
  }

  /** Without a target there is nothing to test. */
  function TestOf(compress: Compressor, h: Header, target: Option<Hash>): Option<Test> {
    if target.None? then None else Some(Hits(compress, h, target.value))
  }

  lemma SameTest(compress: Compressor, h: Header, target: Option<Hash>, nonce: word)
    ensures TestOf(compress, h.(nonce := nonce), target) == TestOf(compress, h, target)
  {
    assert h.(nonce := nonce).(nonce := 0) == h.(nonce := 0);
  }

  predicate HitAt(test: Test, start: word, j: nat) {
    test(Wrap(start + j))
  }

  predicate FirstAt(test: Test, start: word, i: nat) {
    HitAt(test, start, i) && forall j :: 0 <= j < i ==> !HitAt(test, start, j)
  }

  /** `found` is the first hit among `batch` consecutive nonces from `start`, wrapping at 2^32. */
  ghost predicate FirstHit(test: Test, start: word, batch: nat, found: Option<word>) {
    match found
    case None => forall j :: 0 <= j < batch ==> !HitAt(test, start, j)
    case Some(nonce) => exists i :: 0 <= i < batch && FirstAt(test, start, i) && nonce == Wrap(start + i)
  }

  /** The hasher was built for the static part of `h`. */
  ghost predicate HashesFor(fast: Hasher, h: Header)
    reads fast, fast.block1, fast.secondBlock
  {
    fast.Valid() && fast.header.(time := h.time, nonce := h.nonce) == h
  }

  /** One attempt: hash with this nonce and compare. */
  method TestNonce(fast: Hasher, h: Header, target: Hash, nonce: word) returns (meets: bool)
    requires HashesFor(fast, h)
    modifies fast.block1, fast.secondBlock
    ensures HashesFor(fast, h) && meets == Hits(fast.compress, h, target)(nonce)
  {
    HitsMean(fast.compress, h, target, nonce);
    var hash := fast.HashWithNonceTime(nonce, h.time);
    assert fast.header.(time := h.time, nonce := nonce) == h.(nonce := nonce);
    meets := HashMeetsTarget(hash, target);
  }

  /** The inner loop of `mine`: up to `batch` attempts, stopping at the first hit. */
  method SearchWindow(fast: Hasher, h: Header, target: Hash, batch: word) returns (found: Option<word>)
    requires HashesFor(fast, h)
    modifies fast.block1, fast.secondBlock
    ensures HashesFor(fast, h) && FirstHit(Hits(fast.compress, h, target), h.nonce, batch, found)
  {
    ghost var test := Hits(fast.compress, h, target);
    found := None;
    var i := 0;
    while i < batch && found.None?
      invariant 0 <= i <= batch && HashesFor(fast, h)
      invariant FirstHit(test, h.nonce, i, found)
    {
      var nonce := Wrap(h.nonce + i);
      var meets := TestNonce(fast, h, target, nonce);
      OneMore(test, h.nonce, i, meets);
      if meets {
        found := Some(nonce);
      }
      i := i + 1;
    }
    Longer(test, h.nonce, i, batch, found);
  }

  lemma OneMore(test: Test, start: word, i: nat, meets: bool)
    requires FirstHit(test, start, i, None) && meets == test(Wrap(start + i))
    ensures FirstHit(test, start, i + 1, if meets then Some(Wrap(start + i)) else None)
  {
    assert meets == HitAt(test, start, i);
    assert meets ==> FirstAt(test, start, i);
  }

  /** A hit stays the first one in a longer window. */
  lemma Longer(test: Test, start: word, i: nat, batch: nat, found: Option<word>)
    requires FirstHit(test, start, i, found) && (if found.Some? then i <= batch else i == batch)
    ensures FirstHit(test, start, batch, found)
  {
  }

  /** One window of `mine` and what was reported for it. */
  datatype Window = Window(start: word, batch: word, found: Option<word>)

  /** The least hit is reported, and nothing without a target. */
  ghost predicate ReportsFirstHit(test: Option<Test>, w: Window) {
    if test.None? then w.found.None? else FirstHit(test.value, w.start, w.batch, w.found)
  }

  /** Where the search goes on after these windows. */
  function NextNonce(start: word, windows: seq<Window>): word {
    if windows == [] then start
    else Wrap(windows[|windows| - 1].start + windows[|windows| - 1].batch)
  }

  /** Each window starts where the one before it ended. */
  predicate Contiguous(start: word, windows: seq<Window>) {
    forall k :: 0 <= k < |windows| ==> windows[k].start == NextNonce(start, windows[..k])
  }

  /** How many nonces each window was to try. */
  function Batches(windows: seq<Window>): seq<word> {
    seq(|windows|, i requires 0 <= i < |windows| => windows[i].batch)
  }

  function Tested(windows: seq<Window>): nat {
    if windows == [] then 0 else Tested(windows[..|windows| - 1]) + windows[|windows| - 1].batch
  }

  /** After contiguous windows the search stands at `start` plus all batches, modulo 2^32. */
  lemma {:induction false} WindowsSweep(start: word, windows: seq<Window>)
    requires Contiguous(start, windows)
    ensures NextNonce(start, windows) == Wrap(start + Tested(windows))
  {
    if windows != [] {
      var n := |windows| - 1;
      var init := windows[..n];
      forall k | 0 <= k < n ensures init[k].start == NextNonce(start, init[..k]) {
        assert init[..k] == windows[..k];
      }
      WindowsSweep(start, init);
      WrapAdd(start + Tested(init), windows[n].batch);
    }
  }

  lemma WrapAdd(a: nat, b: nat)
    ensures Wrap(Wrap(a) + b) == Wrap(a + b)
  {
  }

  datatype NextShare = ValidShare | InvalidShare | NoTarget | NoHeader

  /** What an attempt at the header's own nonce must report. */
  function ShareOutcome(compress: Compressor, header: Option<Header>, target: Option<Hash>): NextShare {
    match (header, target)
    case (None, _) => NoHeader
    case (_, None) => NoTarget
    case (Some(h), Some(t)) => if Hits(compress, h, t)(h.nonce) then ValidShare else InvalidShare
  }

  class Miner {
    const compress: Compressor
    var header: Option<Header>
    var target: Option<Hash>
    var fast: Hasher?

    /** The hasher, when there is one, was built for the static part of this header. */
    ghost predicate Valid()
      reads this, fast, if fast == null then {} else {fast.block1, fast.secondBlock}
    {
      fast != null ==> header.Some? && fast.compress == compress && HashesFor(fast, header.value)
    }

    constructor (compress: Compressor, header: Option<Header>, target: Option<Hash>)
      ensures Valid() && this.compress == compress && this.header == header && this.target == target
      ensures fast != null <==> header.Some?
      ensures fast != null ==> fresh(fast) && fresh(fast.block1) && fresh(fast.secondBlock)
    {
      this.compress, this.header, this.target := compress, header, target;
      if header.Some? {
        var hasher := new Hasher(compress, header.value);
        fast := hasher;
      } else {
        fast := null;
      }
    }

    /** `next_share`: one attempt at the current nonce, by the midstate hasher or the plain hash. */
    method TryNonce() returns (r: NextShare)
      requires Valid()
      modifies if fast == null then {} else {fast.block1, fast.secondBlock}
      ensures Valid() && header == old(header) && target == old(target)
      ensures r == ShareOutcome(compress, header, target)
    {
      if header.None? {
        return NoHeader;
      }
      var h := header.value;
      var hash;
      if fast != null {
        hash := fast.HashWithNonceTime(h.nonce, h.time);
      } else {
        hash := Sha256d(compress, Serialize(h));
      }
      if target.None? {
        return NoTarget;
      }
      HitsMean(compress, h, target.value, h.nonce);
      assert h.(nonce := h.nonce) == h;
      var meets := HashMeetsTarget(hash, target.value);
      r := if meets then ValidShare else InvalidShare;
    }

    /** Hasher and target are there, so whole batches are searched. */
    predicate CanFast()
      reads this
    {
      fast != null && target.Some?
    }

    /** One micro-batch of `mine`: search a window, then advance past it. */
    method MineWindow(batch: word) returns (w: Window)
      requires Valid() && CanFast()
      modifies this`header, fast.block1, fast.secondBlock
      ensures Valid() && w.start == old(header.value.nonce) && w.batch == batch
      ensures ReportsFirstHit(TestOf(compress, old(header.value), target), w)
      ensures header == Some(old(header.value).(nonce := Wrap(w.start + w.batch)))
    {
      var h := header.value;
      var found := SearchWindow(fast, h, target.value, batch);
      header := Some(h.(nonce := Wrap(h.nonce + batch)));
      w := Window(h.nonce, batch, found);
    }

    /** The other path of `mine`: one attempt by `next_share`, then the next nonce. */
    method MineOne() returns (w: Window)
      requires Valid() && header.Some?
      modifies this`header, if fast == null then {} else {fast.block1, fast.secondBlock}
      ensures Valid() && w.start == old(header.value.nonce) && w.batch == 1
      ensures ReportsFirstHit(TestOf(compress, old(header.value), target), w)
      ensures header == Some(old(header.value).(nonce := Wrap(w.start + w.batch)))
    {
      var h := header.value;
      var r := TryNonce();
      w := Window(h.nonce, 1, if r.ValidShare? then Some(h.nonce) else None);
      OneNonce(TestOf(compress, h, target), h.nonce, w.found);
      header := Some(h.(nonce := Wrap(h.nonce + 1)));
    }

    /**
     `mine` until it is killed, one pass per element of `batches`: the windows are contiguous and what is
     reported for each is its least hit. Without a header nothing happens.
     */
    method MineWindows(batches: seq<word>) returns (windows: seq<Window>)
      requires Valid()
      modifies this`header, if fast == null then {} else {fast.block1, fast.secondBlock}
      ensures Valid()
      ensures old(header).None? ==> windows == [] && header == None
      ensures old(header).Some? ==> Searched(old(header).value, windows, batches)
    {
      windows := [];
      if header.None? {
        return;
      }
      ghost var h := header.value;
      while |windows| < |batches|
        invariant Valid() && |windows| <= |batches| && Searched(h, windows, batches[..|windows|])
      {
        windows := MineNext(h, windows, batches);
      }
      assert batches[..|windows|] == batches;
    }

    /** The search that began with header `h` has covered these batches. */
    ghost predicate Searched(h: Header, windows: seq<Window>, batches: seq<word>)
      reads this
    {
      && Covers(TestOf(compress, h, target), h.nonce, CanFast(), windows, batches)
      && header == Some(h.(nonce := NextNonce(h.nonce, windows)))
    }

    /** One more pass. */
    method MineNext(ghost h: Header, windows: seq<Window>, batches: seq<word>) returns (more: seq<Window>)
      requires |windows| < |batches|
      requires Valid() && Searched(h, windows, batches[..|windows|])
      modifies this`header, if fast == null then {} else {fast.block1, fast.secondBlock}
      ensures Valid() && |more| == |windows| + 1 && Searched(h, more, batches[..|more|])
    {
      var n := |windows|;
      ghost var current := header.value;
      var w := MinePass(batches[n]);
      assert current == h.(nonce := w.start);
      SameTest(compress, h, target, w.start);
      CoversMore(TestOf(compress, h, target), h.nonce, CanFast(), windows, batches, w);
      more := windows + [w];
    }

    /** One pass of `mine`. */
    method MinePass(batch: word) returns (w: Window)
      requires Valid() && header.Some?
      modifies this`header, if fast == null then {} else {fast.block1, fast.secondBlock}
      ensures Valid() && w.start == old(header.value.nonce) && w.batch == (if CanFast() then batch else 1)
      ensures ReportsFirstHit(TestOf(compress, old(header.value), target), w)
      ensures header == Some(old(header.value).(nonce := Wrap(w.start + w.batch)))
    {
      if CanFast() {
        w := MineWindow(batch);
      } else {
        w := MineOne();
      }
    }
  }

  /** What the passes cover: the batches asked for, or one nonce each. */
  function Sizes(canFast: bool, batches: seq<word>): seq<word> {
    seq(|batches|, i requires 0 <= i < |batches| => if canFast then batches[i] else 1)
  }

  /** The windows are those batches, contiguous from `start`, and report their least hits. */
  ghost predicate Covers(test: Option<Test>, start: word, canFast: bool, windows: seq<Window>, batches: seq<word>) {
    Batches(windows) == Sizes(canFast, batches) && Swept(test, start, windows)
  }

  lemma CoversMore(test: Option<Test>, start: word, canFast: bool, windows: seq<Window>, batches: seq<word>, w: Window)
    requires |windows| < |batches| && Covers(test, start, canFast, windows, batches[..|windows|])
    requires w.start == NextNonce(start, windows) && w.batch == (if canFast then batches[|windows|] else 1)
    requires ReportsFirstHit(test, w)
    ensures Covers(test, start, canFast, windows + [w], batches[..|windows| + 1])
    ensures NextNonce(start, windows + [w]) == Wrap(w.start + w.batch)
  {
    SweptMore(test, start, windows, w);
    BatchesMore(canFast, windows, batches, w);
  }

  lemma SweptMore(test: Option<Test>, start: word, windows: seq<Window>, w: Window)
    requires Swept(test, start, windows) && w.start == NextNonce(start, windows) && ReportsFirstHit(test, w)
    ensures Swept(test, start, windows + [w]) && NextNonce(start, windows + [w]) == Wrap(w.start + w.batch)
  {
    Extend(start, windows, w);
  }

  lemma BatchesMore(canFast: bool, windows: seq<Window>, batches: seq<word>, w: Window)
    requires |windows| < |batches| && Batches(windows) == Sizes(canFast, batches[..|windows|])
    requires w.batch == (if canFast then batches[|windows|] else 1)
    ensures Batches(windows + [w]) == Sizes(canFast, batches[..|windows| + 1])
  {
    var n := |windows|;
    forall i | 0 <= i < n ensures windows[i].batch == (if canFast then batches[i] else 1) {
      assert Batches(windows)[i] == Sizes(canFast, batches[..n])[i];
    }
  }

  /** An attempt by `next_share` is a window of one nonce. */
  lemma OneNonce(test: Option<Test>, nonce: word, found: Option<word>)
    requires found == if test.Some? && test.value(nonce) then Some(nonce) else None
    ensures ReportsFirstHit(test, Window(nonce, 1, found))
  {
    if test.Some? {
      assert HitAt(test.value, nonce, 0) == test.value(nonce);
      assert found.Some? ==> FirstAt(test.value, nonce, 0);
    }
  }

  /** Contiguous windows, each reporting its least hit. */
  ghost predicate Swept(test: Option<Test>, start: word, windows: seq<Window>) {
    Contiguous(start, windows) && forall k :: 0 <= k < |windows| ==> ReportsFirstHit(test, windows[k])
  }

  lemma Extend(start: word, windows: seq<Window>, w: Window)
    requires Contiguous(start, windows) && w.start == NextNonce(start, windows)
    ensures Contiguous(start, windows + [w])
    ensures NextNonce(start, windows + [w]) == Wrap(w.start + w.batch)
  {
    var more := windows + [w];
    forall k | 0 <= k < |more| ensures more[k].start == NextNonce(start, more[..k]) {
      assert more[..k] == if k < |windows| then windows[..k] else windows;
    }
  }

  // ---------------------------------------------------------------- the workers

  /** `u32::MAX / p`. */
  function Unit(p: word): nat
    requires p > 0
  {
    (WORDS - 1) / p
  }

  /** The `j`-th nonce tried by worker `i` of `p`, as the machine computes it. */
  function WorkerNonce(p: word, i: nat, j: nat): word
    requires p > 0
  {
    Wrap(Wrap(i * Unit(p)) + j)
  }

  lemma UnitFits(p: word)
    requires p > 0
    ensures p * Unit(p) <= WORDS - 1 < p * Unit(p) + p
  {
  }

  lemma BelowProduct(u: nat, i: nat, j: nat, p: nat)
    requires i < p && j < u
    ensures i * u + j < p * u
  {
    MulMono(u, i + 1, p);
  }

  lemma WrapSmall(n: nat)
    requires n < WORDS
    ensures Wrap(n) == n
  {
  }

  /** No wrap-around: the machine value is the mathematical one. */
  lemma WorkerNonceExact(p: word, i: nat, j: nat)
    requires 0 < p && i < p && j < Unit(p)
    ensures WorkerNonce(p, i, j) == i * Unit(p) + j < p * Unit(p) <= WORDS - 1
  {
    UnitFits(p);
    var u := Unit(p);
    BelowProduct(u, i, j, p);
    ProductIsNat(i, u);
    WrapSmall(i * u);
    WrapSmall(i * u + j);
  }

  lemma ProductIsNat(a: nat, b: nat)
    ensures 0 <= a * b
  {
  }

  lemma DigitsUnique(u: nat, i: nat, j: nat, i': nat, j': nat)
    requires j < u && j' < u && i * u + j == i' * u + j'
    ensures i == i' && j == j'
  {
    if i < i' {
      BelowProduct(u, i, j, i');
    } else if i' < i {
      BelowProduct(u, i', j', i);
    }
  }

  /** The first `Unit(p)` nonces of different workers never meet, and no worker repeats one. */
  lemma WorkersAreDisjoint(p: word, i: nat, j: nat, i': nat, j': nat)
    requires 0 < p && i < p && i' < p && j < Unit(p) && j' < Unit(p)
    requires i != i' || j != j'
    ensures WorkerNonce(p, i, j) != WorkerNonce(p, i', j')
  {
    WorkerNonceExact(p, i, j);
    WorkerNonceExact(p, i', j');
    if WorkerNonce(p, i, j) == WorkerNonce(p, i', j') {
      DigitsUnique(Unit(p), i, j, i', j');
    }
  }

  lemma Digits(u: nat, n: nat, p: nat) returns (i: nat, j: nat)
    requires n < p * u
    ensures i < p && j < u && n == i * u + j
  {
    if n < (p - 1) * u {
      i, j := Digits(u, n, p - 1);
    } else {
      i, j := p - 1, n - (p - 1) * u;
      assert (p - 1) * u + u == p * u;
    }
  }

  /** Every nonce below `p * Unit(p)` has its worker and its position, and at most `p` nonces lie above. */
  lemma WorkersCover(p: word, n: word) returns (i: nat, j: nat)
    requires p > 0
    ensures n < p * Unit(p) ==> i < p && j < Unit(p) && WorkerNonce(p, i, j) == n
    ensures 1 <= WORDS - p * Unit(p) <= p
  {
    i, j := 0, 0;
    UnitFits(p);
    if n < p * Unit(p) {
      i, j := Digits(Unit(p), n, p);
      WorkerNonceExact(p, i, j);
    }
  }

  // ---------------------------------------------------------------- the workers' searches

  lemma {:induction false} TestedGrows(windows: seq<Window>, a: nat, b: nat)
    requires a <= b <= |windows|
    ensures Tested(windows[..a]) <= Tested(windows[..b])
    decreases b
  {
    if a < b {
      TestedGrows(windows, a, b - 1);
      assert windows[..b][..b - 1] == windows[..b - 1];
    }
  }

  /** How many nonces a search has passed before offset `j` of window `k`. */
  function Position(windows: seq<Window>, k: nat, j: nat): nat
    requires k < |windows|
  {
    Tested(windows[..k]) + j
  }

  lemma PositionBound(windows: seq<Window>, k: nat, j: nat, m: nat)
    requires k < m <= |windows| && j < windows[k].batch
    ensures Position(windows, k, j) < Tested(windows[..m])
  {
    assert windows[..k + 1][..k] == windows[..k];
    TestedGrows(windows, k + 1, m);
  }

  lemma PositionsDiffer(windows: seq<Window>, k: nat, j: nat, k': nat, j': nat)
    requires k < |windows| && j < windows[k].batch && k' < |windows| && j' < windows[k'].batch
    requires k != k' || j != j'
    ensures Position(windows, k, j) != Position(windows, k', j')
  {
    if k < k' {
      PositionBound(windows, k, j, k');
    } else if k' < k {
      PositionBound(windows, k', j', k);
    }
  }

  /** The nonce tried at offset `j` of window `k`. */
  function TriedNonce(windows: seq<Window>, k: nat, j: nat): word
    requires k < |windows|
  {
    Wrap(windows[k].start + j)
  }

  /** It is the worker's nonce at that position of its search. */
  lemma TriedIsWorkerNonce(p: word, i: nat, windows: seq<Window>, k: nat, j: nat)
    requires p > 0 && Contiguous(Wrap(i * Unit(p)), windows) && k < |windows|
    ensures TriedNonce(windows, k, j) == WorkerNonce(p, i, Position(windows, k, j))
  {
    ProductIsNat(i, Unit(p));
    TriedFromStart(Wrap(i * Unit(p)), windows, k, j);
  }

  lemma TriedFromStart(start: word, windows: seq<Window>, k: nat, j: nat)
    requires Contiguous(start, windows) && k < |windows|
    ensures TriedNonce(windows, k, j) == Wrap(start + Position(windows, k, j))
  {
    forall m | 0 <= m < k ensures windows[..k][m].start == NextNonce(start, windows[..k][..m]) {
      assert windows[..m] == windows[..k][..m];
    }
    WindowsSweep(start, windows[..k]);
    WrapAdd(start + Tested(windows[..k]), j);
  }

  /** A search of worker `i` of `p`, from its own start and not past its share of the nonces. */
  predicate WorkerSearch(p: word, i: nat, windows: seq<Window>)
    requires p > 0
  {
    i < p && Contiguous(Wrap(i * Unit(p)), windows) && Tested(windows) <= Unit(p)
  }

  /**
   Whatever batches they use, workers that have each passed at most their share of the nonces have never
   tried the same nonce twice, neither two of them nor one on its own.
   */
  lemma SearchesAreDisjoint(p: word, i: nat, ws: seq<Window>, k: nat, j: nat,
                            i': nat, ws': seq<Window>, k': nat, j': nat)
    requires p > 0 && WorkerSearch(p, i, ws) && WorkerSearch(p, i', ws') && (i == i' ==> ws == ws')
    requires k < |ws| && j < ws[k].batch && k' < |ws'| && j' < ws'[k'].batch
    requires i != i' || k != k' || j != j'
    ensures TriedNonce(ws, k, j) != TriedNonce(ws', k', j')
  {
    assert ws[..|ws|] == ws && ws'[..|ws'|] == ws';
    PositionBound(ws, k, j, |ws|);
    PositionBound(ws', k', j', |ws'|);
    TriedIsWorkerNonce(p, i, ws, k, j);
    TriedIsWorkerNonce(p, i', ws', k', j');
    if i == i' {
      PositionsDiffer(ws, k, j, k', j');
    }
    WorkersAreDisjoint(p, i, Position(ws, k, j), i', Position(ws', k', j'));
  }
}
