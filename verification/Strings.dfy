/** The splitting of Rust's `str` that the parsers rely on. */
module Strings {
  /** The first position of `c`, or the length if there is none. */
  function IndexOf(s: string, c: char): (i: nat)
    ensures i <= |s| && c !in s[..i] && (i < |s| ==> s[i] == c)
  {
    if s == [] || s[0] == c then 0
    else
      var i := IndexOf(s[1..], c);
      assert s[..i + 1] == [s[0]] + s[1..][..i];
      i + 1
  }

  /** Rust's `split`. */
  function Split(s: string, c: char): (parts: seq<string>)
    ensures parts != []
    decreases |s|
  {
    var i := IndexOf(s, c);
    if i == |s| then [s] else [s[..i]] + Split(s[i + 1..], c)
  }

  lemma {:induction false} FirstIsUnique(s: string, c: char, i: nat)
    requires i <= |s| && c !in s[..i] && (i < |s| ==> s[i] == c)
    ensures IndexOf(s, c) == i
  {
    if i > 0 {
      assert s[..i][0] == s[0];
      assert s[1..][..i - 1] == s[..i][1..];
      FirstIsUnique(s[1..], c, i - 1);
    }
  }

  lemma IndexOfFirst(x: string, c: char, y: string)
    requires c !in x
    ensures IndexOf(x + [c] + y, c) == |x|
  {
    var s := x + [c] + y;
    assert s[|x|] == c && s[..|x|] == x;
    FirstIsUnique(s, c, |x|);
  }

  lemma IndexOfNone(x: string, c: char)
    requires c !in x
    ensures IndexOf(x, c) == |x|
  {
    assert x[..|x|] == x;
    FirstIsUnique(x, c, |x|);
  }

  lemma SplitFirst(x: string, c: char, y: string)
    requires c !in x
    ensures Split(x + [c] + y, c) == [x] + Split(y, c)
  {
    IndexOfFirst(x, c, y);
    var s := x + [c] + y;
    assert s[..|x|] == x && s[|x| + 1..] == y;
  }

  lemma Pair(x: string, y: string, rest: seq<string>)
    ensures [x] + ([y] + rest) == [x, y] + rest
  {
  }

  lemma SplitTwo(x: string, y: string, c: char, z: string)
    requires c !in x && c !in y
    ensures Split(x + [c] + (y + [c] + z), c) == [x, y] + Split(z, c)
  {
    var rest := Split(z, c);
    SplitFirst(y, c, z);
    SplitFirst(x, c, y + [c] + z);
    Pair(x, y, rest);
  }

  lemma SplitNone(x: string, c: char)
    requires c !in x
    ensures Split(x, c) == [x]
  {
    IndexOfNone(x, c);
  }

  lemma SplitPair(x: string, y: string, c: char)
    requires c !in x && c !in y
    ensures Split(x + [c] + y, c) == [x, y]
  {
    SplitFirst(x, c, y);
    SplitNone(y, c);
  }

  /** A string is its only piece exactly when it has just one. */
  lemma SplitAlone(s: string, x: string, c: char)
    requires c !in x
    ensures s == x <==> |Split(s, c)| == 1 && Split(s, c)[0] == x
  {
    if s == x {
      SplitNone(x, c);
    } else {
      var i := IndexOf(s, c);
      assert i == |s| ==> Split(s, c) == [s];
    }
  }

  /** What follows a piece: nothing, or the separator and anything. */
  predicate Tail(t: string, c: char) {
    t == [] || t[0] == c
  }

  lemma SplitHead(x: string, c: char, t: string)
    requires c !in x && Tail(t, c)
    ensures Split(x + t, c)[0] == x
    ensures t == [] ==> Split(x + t, c) == [x]
    ensures t != [] ==> Split(x + t, c) == [x] + Split(t[1..], c)
  {
    if t == [] {
      assert x + t == x;
      SplitNone(x, c);
    } else {
      assert x + t == x + [c] + t[1..];
      SplitFirst(x, c, t[1..]);
    }
  }

  /** Gluing the pieces back together. */
  function Join(parts: seq<string>, c: char): string
    requires parts != []
  {
    if |parts| == 1 then parts[0] else parts[0] + [c] + Join(parts[1..], c)
  }

  lemma {:induction false} JoinSplit(s: string, c: char)
    ensures Join(Split(s, c), c) == s
    decreases |s|
  {
    var i := IndexOf(s, c);
    if i < |s| {
      var rest := Split(s[i + 1..], c);
      assert Split(s, c) == [s[..i]] + rest;
      JoinSplit(s[i + 1..], c);
      JoinMore(s[..i], rest, c);
      assert s == s[..i] + [c] + s[i + 1..];
    }
  }

  lemma JoinMore(first: string, rest: seq<string>, c: char)
    requires rest != []
    ensures Join([first] + rest, c) == first + [c] + Join(rest, c)
  {
    var parts := [first] + rest;
    assert |parts| > 1 && parts[0] == first && parts[1..] == rest;
  }

  lemma {:induction false} SplitClean(s: string, c: char)
    ensures forall i :: 0 <= i < |Split(s, c)| ==> c !in Split(s, c)[i]
    decreases |s|
  {
    var i := IndexOf(s, c);
    if i < |s| {
      SplitClean(s[i + 1..], c);
    } else {
      assert s[..i] == s;
    }
  }
}
