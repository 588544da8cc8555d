/** Items that stand one after another in a stream. */
module Succession {
  /** The position after x when it stands at position c; negative when it does not. */
  type Reader<!T> = (nat, T) -> int

  /** At most one item stands at a position, and it takes some space. */
  ghost predicate Deterministic<T(!new)>(at: Reader<T>) {
    && (forall c, x, y :: at(c, x) >= 0 && at(c, y) >= 0 ==> x == y)
    && forall c, x :: at(c, x) >= 0 ==> at(c, x) > c
  }

  /** The position after the items that stand at position c, or -1 if they do not; nothing is
      read past a position at which the reading stops. */
  ghost function EndOf<T>(at: Reader<T>, stops: nat -> bool, c: nat, xs: seq<T>): (r: int)
    ensures r >= -1
  {
    if xs == [] then c
    else
      var u := EndOf(at, stops, c, xs[..|xs| - 1]);
      if u < 0 || stops(u) || at(u, xs[|xs| - 1]) < 0 then -1 else at(u, xs[|xs| - 1])
  }

  lemma EndOfNext<T>(at: Reader<T>, stops: nat -> bool, c: nat, xs: seq<T>, x: T, u: nat)
    requires EndOf(at, stops, c, xs) == u && !stops(u) && at(u, x) >= 0
    ensures EndOf(at, stops, c, xs + [x]) == at(u, x)
  {
    assert (xs + [x])[..|xs|] == xs;
  }

  lemma {:induction false} PrefixStands<T>(at: Reader<T>, stops: nat -> bool, c: nat, xs: seq<T>, n: nat)
    requires EndOf(at, stops, c, xs) >= 0 && n <= |xs|
    ensures EndOf(at, stops, c, xs[..n]) >= 0
    decreases |xs|
  {
    if n < |xs| {
      PrefixStands(at, stops, c, xs[..|xs| - 1], n);
      assert xs[..|xs| - 1][..n] == xs[..n];
    } else {
      assert xs[..n] == xs;
    }
  }

  lemma {:induction false} SameLength<T(!new)>(at: Reader<T>, stops: nat -> bool, c: nat, xs: seq<T>, ys: seq<T>)
    requires Deterministic(at) && |xs| == |ys|
    requires EndOf(at, stops, c, xs) >= 0 && EndOf(at, stops, c, ys) >= 0
    ensures xs == ys
  {
    if xs != [] {
      SameLength(at, stops, c, xs[..|xs| - 1], ys[..|ys| - 1]);
      assert xs == xs[..|xs| - 1] + [xs[|xs| - 1]] && ys == ys[..|ys| - 1] + [ys[|ys| - 1]];
    }
  }

  /** Of two lists that stand at a position, the shorter one begins the other. */
  lemma ShorterIsPrefix<T(!new)>(at: Reader<T>, stops: nat -> bool, c: nat, xs: seq<T>, ys: seq<T>, u: nat)
    requires Deterministic(at) && |xs| <= |ys| && EndOf(at, stops, c, xs) == u && EndOf(at, stops, c, ys) >= 0
    ensures xs <= ys
    ensures |xs| < |ys| ==> !stops(u) && at(u, ys[|xs|]) >= 0
  {
    PrefixStands(at, stops, c, ys, |xs|);
    SameLength(at, stops, c, xs, ys[..|xs|]);
    if |xs| < |ys| {
      PrefixStands(at, stops, c, ys, |xs| + 1);
      assert ys[..|xs| + 1][..|xs|] == xs;
    }
  }

  lemma {:induction false} EndOfGrows<T(!new)>(at: Reader<T>, stops: nat -> bool, c: nat, xs: seq<T>)
    requires Deterministic(at) && EndOf(at, stops, c, xs) >= 0
    ensures EndOf(at, stops, c, xs) >= c + |xs|
  {
    if xs != [] { EndOfGrows(at, stops, c, xs[..|xs| - 1]); }
  }

  /** Reading the first item and then the others. */
  lemma {:induction false} EndOfCons<T>(at: Reader<T>, stops: nat -> bool, c: nat, x: T, xs: seq<T>)
    requires !stops(c) && at(c, x) >= 0
    ensures EndOf(at, stops, c, [x] + xs) == EndOf(at, stops, at(c, x), xs)
  {
    if xs == [] {
      assert [x] + xs == [] + [x];
      EndOfNext(at, stops, c, [], x, c);
    } else {
      EndOfCons(at, stops, c, x, xs[..|xs| - 1]);
      assert ([x] + xs)[..|xs|] == [x] + xs[..|xs| - 1];
    }
  }

  /** Items up to the first position at which the reading stops, and one more there. */
  ghost predicate Whole<T>(at: Reader<T>, stops: nat -> bool, c: nat, xs: seq<T>) {
    xs != [] && var u := EndOf(at, stops, c, xs[..|xs| - 1]); u >= 0 && stops(u) && at(u, xs[|xs| - 1]) >= 0
  }

  lemma WholeCons<T>(at: Reader<T>, stops: nat -> bool, c: nat, x: T, xs: seq<T>)
    requires !stops(c) && at(c, x) >= 0 && Whole(at, stops, at(c, x), xs)
    ensures Whole(at, stops, c, [x] + xs)
  {
    EndOfCons(at, stops, c, x, xs[..|xs| - 1]);
    assert ([x] + xs)[..|xs|] == [x] + xs[..|xs| - 1];
  }
}
