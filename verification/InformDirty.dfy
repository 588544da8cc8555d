/** Telling the caches below a leaf that its content has changed. */
module InformDirty {
  import opened Wrappers
  import opened Exprs
  import opened ExprInfo
  import opened ExprDirty

  // ----- where the walk gets through -----

  /** Among the first n inputs of e, the first one that is x is read. */
  ghost predicate ReadFirstOf(x: Expr, e: Expr, n: nat)
    requires n <= |e.mInputs| == |e.contentNeedContent|
  {
    exists i :: 0 <= i < n && e.mInputs[i].from == x && e.contentNeedContent[i] &&
      forall k :: 0 <= k < i ==> e.mInputs[k].from != x
  }

  /** The first input of e that is x is read.  The walk that comes from x only goes on then. */
  ghost predicate ReadFirst(x: Expr, e: Expr) {
    |e.mInputs| == |e.contentNeedContent| && ReadFirstOf(x, e, |e.mInputs|)
  }

  /** The content of d and e depends on x, or d is x, and e does not read the first of its inputs that is d. */
  ghost predicate Hides(all: set<Expr>, height: nat, x: Expr, d: Expr, e: Expr)
    requires Acyclic(all, height)
  {
    && d in all && e in all && Feeds(d, e) && (d == x || Draws(all, height, d, x)) && Draws(all, height, e, x)
    && !ReadFirst(d, e)
  }

  /** Whichever way the walk from x comes to an expression whose content depends on x, it gets through. */
  ghost predicate Unhindered(all: set<Expr>, height: nat, x: Expr)
    requires Acyclic(all, height)
  {
    forall d, e :: d in all && e in all ==> !Hides(all, height, x, d, e)
  }

  // ----- the state of the walk -----

  /** The flags say which expressions the walk has come to. */
  ghost predicate Flagged(all: set<Expr>, visited: seq<Expr>)
    reads all`mVisited
  {
    (forall e :: e in all ==> (e.mVisited <==> e in visited)) && forall e :: e in visited ==> e in all
  }

  /** Below an expression that the walk got through and is done with, it has come to all consumers. */
  ghost predicate DoneBut(all: set<Expr>, visited: seq<Expr>, reached: seq<Expr>, open: set<Expr>) {
    forall e, f :: e in reached && e !in open && f in all && Feeds(e, f) ==> f in visited
  }

  /** The walk gets through to expressions whose content depends on the root, and to the others only
      over an input that is not read. */
  ghost predicate Traced(all: set<Expr>, height: nat, visited: seq<Expr>, reached: seq<Expr>, root: Expr)
    requires Acyclic(all, height)
  {
    && (forall e :: e in reached ==> e in visited && e in all && Draws(all, height, e, root))
    && forall f :: f in visited && f !in reached ==>
         exists d :: d in all && (d == root || d in reached) && Feeds(d, f) && !ReadFirst(d, f)
  }

  ghost predicate Known(all: set<Expr>, caches: set<ComputeCache>)
    reads all`mCache
  {
    forall e :: e in all && e.mCache != null ==> e.mCache in caches
  }

  ghost predicate CacheOf(reached: seq<Expr>, c: ComputeCache)
    reads reached`mCache
  {
    exists e :: e in reached && e.mCache == c
  }

  /** Besides the caches that were dirty, those of the expressions reached are, and no others. */
  ghost predicate Told(all: set<Expr>, caches: set<ComputeCache>, dirty: set<ComputeCache>, reached: seq<Expr>)
    reads all`mCache, reached`mCache, caches`mContentDirty
  {
    Known(all, caches) && forall c :: c in caches ==> (c.mContentDirty <==> c in dirty || CacheOf(reached, c))
  }

  /** What the walk from `root` has done so far; locked. */
  ghost predicate Walking(all: set<Expr>, height: nat, caches: set<ComputeCache>, dirty: set<ComputeCache>, root: Expr,
      visited: seq<Expr>, reached: seq<Expr>, open: set<Expr>)
    reads all`mCache, all`mVisited, caches`mContentDirty
  {
    forall key: nat {:trigger Unlock(key)} :: Unlock(key) ==>
      && Acyclic(all, height) && (forall e :: e in reached ==> e in all) && Flagged(all, visited)
      && Told(all, caches, dirty, reached) && Traced(all, height, visited, reached, root)
      && DoneBut(all, visited, reached, open)
  }

  /** What the walk has settled about the expressions it has been to stays. */
  ghost predicate Continues(visited0: seq<Expr>, reached0: seq<Expr>, visited: seq<Expr>, reached: seq<Expr>) {
    && (forall e :: e in visited0 ==> e in visited) && (forall e :: e in reached0 ==> e in reached)
    && forall e :: e in visited0 && e in reached ==> e in reached0
  }

  // ----- a way on which the walk is hindered -----

  /** A chain of consumers over inputs that are read, up to the last, which is hidden. */
  ghost predicate Hindered(all: set<Expr>, p: seq<Expr>) {
    && |p| > 1 && (forall k :: 0 <= k < |p| ==> p[k] in all)
    && (forall k :: 0 <= k < |p| - 1 ==> Feeds(p[k], p[k + 1]))
    && forall k :: 0 <= k < |p| - 1 ==> (ReadFirst(p[k], p[k + 1]) <==> k + 1 < |p| - 1)
  }

  /** Every consumer in the chain is the first link of the one before. */
  ghost predicate Leads(p: seq<Expr>)
    reads p`mTo
  {
    forall k :: 0 <= k < |p| - 1 ==> p[k].mTo != [] && p[k].mTo[0] == p[k + 1]
  }

  /** The walk is about to take the chain p, if there is one. */
  ghost predicate Takes(all: set<Expr>, p: seq<Expr>, x: Expr, visited: seq<Expr>)
    reads p`mTo
  {
    p != [] ==> Hindered(all, p) && Leads(p) && p[0] == x && forall k :: 1 <= k < |p| ==> p[k] !in visited
  }

  /** Of the expressions that are hidden, one of lowest rank. */
  lemma {:induction false} LowestHidden(all: set<Expr>, height: nat, x: Expr, d0: Expr, e0: Expr)
    returns (d: Expr, e: Expr)
    requires Acyclic(all, height) && Hides(all, height, x, d0, e0)
    ensures Hides(all, height, x, d, e) && forall a, b :: Hides(all, height, x, a, b) ==> e.rank <= b.rank
    decreases e0.rank
  {
    if a, b :| Hides(all, height, x, a, b) && b.rank < e0.rank {
      d, e := LowestHidden(all, height, x, a, b);
    } else {
      d, e := d0, e0;
    }
  }

  /** A chain of consumers from x to d over inputs that are read first. */
  ghost predicate Open(all: set<Expr>, q: seq<Expr>) {
    && q != [] && (forall k :: 0 <= k < |q| ==> q[k] in all)
    && forall k :: 0 <= k < |q| - 1 ==> Feeds(q[k], q[k + 1]) && ReadFirst(q[k], q[k + 1])
  }

  lemma {:induction false} OpenTo(all: set<Expr>, height: nat, x: Expr, d: Expr, low: nat) returns (q: seq<Expr>)
    requires Acyclic(all, height) && x in all && d in all && (d == x || Draws(all, height, d, x)) && d.rank < low
    requires forall a, b :: Hides(all, height, x, a, b) ==> low <= b.rank
    ensures Open(all, q) && q[0] == x && q[|q| - 1] == d
    decreases d.rank
  {
    if d == x {
      q := [x];
    } else {
      var i :| 0 <= i < |d.mInputs| && d.contentNeedContent[i] &&
        (d.mInputs[i].from == x || Draws(all, height, d.mInputs[i].from, x));
      var f := d.mInputs[i].from;
      var r := OpenTo(all, height, x, f, low);
      assert Feeds(f, d) && !Hides(all, height, x, f, d);
      q := r + [d];
      forall k | 0 <= k < |q| - 1 ensures Feeds(q[k], q[k + 1]) && ReadFirst(q[k], q[k + 1]) {
        if k < |r| - 1 { assert q[k + 1] == r[k + 1]; }
      }
    }
  }

  /** When the walk from x can be hindered at all, there is a chain at whose end it is. */
  lemma HinderingChain(all: set<Expr>, height: nat, x: Expr) returns (p: seq<Expr>)
    requires Acyclic(all, height) && x in all && !Unhindered(all, height, x)
    ensures Hindered(all, p) && p[0] == x && Draws(all, height, p[|p| - 1], x)
  {
    var d0, e0 :| d0 in all && e0 in all && Hides(all, height, x, d0, e0);
    var d, e := LowestHidden(all, height, x, d0, e0);
    var i :| 0 <= i < |e.mInputs| && e.mInputs[i].from == d;
    var q := OpenTo(all, height, x, d, e.rank);
    p := q + [e];
    forall k | 0 <= k < |p| - 1
      ensures Feeds(p[k], p[k + 1]) && (ReadFirst(p[k], p[k + 1]) <==> k + 1 < |p| - 1)
    {
      if k < |q| - 1 { assert p[k + 1] == q[k + 1]; }
    }
  }

  lemma {:induction false} ChainDraws(all: set<Expr>, height: nat, p: seq<Expr>, k: nat)
    requires Acyclic(all, height) && Hindered(all, p) && 0 < k < |p| - 1
    ensures Draws(all, height, p[k], p[0])
  {
    assert Feeds(p[k - 1], p[k - 1 + 1]) && ReadFirst(p[k - 1], p[k - 1 + 1]);
    if k > 1 { ChainDraws(all, height, p, k - 1); }
  }

  /** The walk from x can be hindered exactly if there is such a chain, to an expression whose content depends on x. */
  lemma HinderedExactly(all: set<Expr>, height: nat, x: Expr)
    requires Acyclic(all, height) && x in all
    ensures !Unhindered(all, height, x) <==>
      exists p :: Hindered(all, p) && p[0] == x && Draws(all, height, p[|p| - 1], x)
  {
    if !Unhindered(all, height, x) {
      var p := HinderingChain(all, height, x);
    }
    forall p | Hindered(all, p) && p[0] == x && Draws(all, height, p[|p| - 1], x)
      ensures !Unhindered(all, height, x)
    {
      var k := |p| - 2;
      if k > 0 { ChainDraws(all, height, p, k); }
      assert Feeds(p[k], p[k + 1]) && !ReadFirst(p[k], p[k + 1]);
      assert Hides(all, height, x, p[k], p[k + 1]);
    }
  }

  /** Makes e the first link of x. */
  method LinkFirst(x: Expr, e: Expr)
    requires e in x.mTo
    modifies x`mTo
    ensures multiset(x.mTo) == multiset(old(x.mTo)) && x.mTo != [] && x.mTo[0] == e
  {
    var j := 0;
    while x.mTo[j] != e
      invariant 0 <= j < |x.mTo| && x.mTo == old(x.mTo) && e in x.mTo[j..]
      decreases |x.mTo| - j
    {
      assert x.mTo[j..] == [x.mTo[j]] + x.mTo[j + 1..];
      j := j + 1;
    }
    assert x.mTo == x.mTo[..j] + [x.mTo[j]] + x.mTo[j + 1..];
    x.mTo := [x.mTo[j]] + x.mTo[..j] + x.mTo[j + 1..];
  }

  /** Some order of the links makes the walk take the chain. */
  method LinkChain(p: seq<Expr>, ghost all: set<Expr>, ghost height: nat)
    requires Acyclic(all, height) && Linked(all) && Hindered(all, p)
    modifies p`mTo
    ensures Linked(all) && Leads(p) && forall x :: x in all ==> multiset(x.mTo) == multiset(old(x.mTo))
  {
    for k := 0 to |p| - 1
      invariant Linked(all) && forall x :: x in all ==> multiset(x.mTo) == multiset(old(x.mTo))
      invariant forall i :: 0 <= i < k ==> p[i].mTo != [] && p[i].mTo[0] == p[i + 1]
    {
      assert Feeds(p[k], p[k + 1]);
      ghost var before := p[k].mTo;
      LinkFirst(p[k], p[k + 1]);
      assert forall e: Expr? :: e in p[k].mTo <==> e in multiset(before);
      forall i | 0 <= i < k ensures p[i] != p[k] { ChainAscends(all, height, p, i, k); }
    }
  }

  // ----- the walk -----

  /** Comes to e from x, unless the walk has been there: marks its cache and goes on if the first input
      that is x is read. */
  method InformConsumer(x: Expr, e: Expr, visited0: seq<Expr>, ghost reached0: seq<Expr>, ghost all: set<Expr>,
      ghost caches: set<ComputeCache>, ghost dirty: set<ComputeCache>)
    returns (recurse: bool, visited: seq<Expr>, ghost reached: seq<Expr>)
    requires Flagged(all, visited0) && Told(all, caches, dirty, reached0) && ShapesOnly(all) && e in all
    requires |e.shapeNeedContent| == |e.contentNeedContent| == |e.mInputs|
    modifies e`mVisited, caches`mContentDirty
    ensures Flagged(all, visited) && Told(all, caches, dirty, reached)
    ensures visited == visited0 + if Feeds(x, e) && e !in visited0 then [e] else []
    ensures recurse == (Feeds(x, e) && e !in visited0 && ReadFirst(x, e))
    ensures reached == reached0 + if recurse then [e] else []
  {
    recurse, visited, reached := false, visited0, reached0;
    for i := 0 to |e.mInputs|
      invariant Flagged(all, visited) && Told(all, caches, dirty, reached)
      invariant visited == visited0 + if e !in visited0 && exists k :: 0 <= k < i && e.mInputs[k].from == x
        then [e] else []
      invariant recurse == (e !in visited0 && ReadFirstOf(x, e, i))
      invariant reached == reached0 + if recurse then [e] else []
    {
      if e.mInputs[i].from == x && !recurse && !e.mVisited {
        visited := visited + [e];
        e.mVisited := true;
        if e.shapeNeedContent != [] && e.contentNeedContent[i] {
          if e.mCache != null {
            e.mCache.SetContentDirty();
          }
          recurse, reached := true, reached + [e];
        }
      }
    }
  }

  /** One more expression has been come to. */
  lemma Arrived(all: set<Expr>, height: nat, visited0: seq<Expr>, reached0: seq<Expr>, root: Expr, open: set<Expr>,
      x: Expr, e: Expr, visited: seq<Expr>, reached: seq<Expr>)
    requires Acyclic(all, height) && x in all && e in all && (x == root || x in reached0)
    requires Traced(all, height, visited0, reached0, root) && DoneBut(all, visited0, reached0, open)
    requires Feeds(x, e) && e !in visited0 && visited == visited0 + [e]
    requires reached == reached0 + if ReadFirst(x, e) then [e] else []
    ensures Traced(all, height, visited, reached, root) && DoneBut(all, visited, reached, open + {e})
    ensures Continues(visited0, reached0, visited, reached)
  {
    if ReadFirst(x, e) {
      assert Draws(all, height, e, root);
    }
    forall f | f in visited && f !in reached
      ensures exists d :: d in all && (d == root || d in reached) && Feeds(d, f) && !ReadFirst(d, f)
    {
      if f != e {
        var d :| d in all && (d == root || d in reached0) && Feeds(d, f) && !ReadFirst(d, f);
        assert d == root || d in reached;
      }
    }
  }

  /** Comes to e from x, which the walk got through to. */
  method ComeTo(x: Expr, e: Expr, visited0: seq<Expr>, ghost reached0: seq<Expr>, ghost all: set<Expr>,
      ghost height: nat, ghost caches: set<ComputeCache>, ghost dirty: set<ComputeCache>, ghost root: Expr,
      ghost open: set<Expr>)
    returns (recurse: bool, visited: seq<Expr>, ghost reached: seq<Expr>)
    requires Walking(all, height, caches, dirty, root, visited0, reached0, open) && ShapesOnly(all)
    requires x in all && e in all && (x == root || x in reached0)
    modifies e`mVisited, caches`mContentDirty
    ensures Walking(all, height, caches, dirty, root, visited, reached, if recurse then open + {e} else open)
    ensures Continues(visited0, reached0, visited, reached) && (Feeds(x, e) ==> e in visited)
    ensures recurse == (Feeds(x, e) && e !in visited0 && ReadFirst(x, e)) && (recurse ==> e in reached)
    ensures visited == visited0 + if Feeds(x, e) && e !in visited0 then [e] else []
    ensures e !in visited0 && !recurse ==> e !in reached
  {
    assert Unlock(0);
    recurse, visited, reached := InformConsumer(x, e, visited0, reached0, all, caches, dirty);
    if Feeds(x, e) && e !in visited0 {
      Arrived(all, height, visited0, reached0, root, open, x, e, visited, reached);
    }
  }

  /** Everything below e has been come to. */
  lemma Closes(all: set<Expr>, height: nat, caches: set<ComputeCache>, dirty: set<ComputeCache>, root: Expr,
      visited: seq<Expr>, reached: seq<Expr>, open: set<Expr>, e: Expr)
    requires Walking(all, height, caches, dirty, root, visited, reached, open + {e})
    requires forall f :: f in all && Feeds(e, f) ==> f in visited
    ensures Walking(all, height, caches, dirty, root, visited, reached, open)
  {
    assert Unlock(0);
  }

  /** When the walk gets through to the next in the chain, the rest of the chain lies ahead. */
  lemma ChainGoesOn(all: set<Expr>, height: nat, p: seq<Expr>, x: Expr, visited0: seq<Expr>)
    requires Acyclic(all, height) && p != [] && Takes(all, p, x, visited0) && ReadFirst(x, p[1])
    ensures Takes(all, p[1..], p[1], visited0 + [p[1]])
  {
    var q := p[1..];
    assert ReadFirst(p[0], p[0 + 1]) && |p| > 2;
    forall k | 0 <= k < |q| - 1
      ensures Feeds(q[k], q[k + 1]) && (ReadFirst(q[k], q[k + 1]) <==> k + 1 < |q| - 1)
        && q[k].mTo != [] && q[k].mTo[0] == q[k + 1]
    {
      assert q[k] == p[k + 1] && q[k + 1] == p[k + 2] && Feeds(p[k + 1], p[k + 1 + 1]);
    }
    forall k | 1 <= k < |q| ensures q[k] !in visited0 + [p[1]] {
      ChainAscends(all, height, p, 1, k + 1);
    }
  }

  lemma {:induction false} ChainAscends(all: set<Expr>, height: nat, p: seq<Expr>, i: nat, j: nat)
    requires Acyclic(all, height) && Hindered(all, p) && i < j < |p|
    ensures p[i].rank < p[j].rank
    decreases j
  {
    assert Feeds(p[j - 1], p[j - 1 + 1]);
    if i < j - 1 { ChainAscends(all, height, p, i, j - 1); }
  }

  /** Follows one link of x, and the walk below the consumer if it gets through. */
  method InformLink(x: Expr, e: Expr, visited0: seq<Expr>, ghost reached0: seq<Expr>, ghost all: set<Expr>,
      ghost height: nat, ghost caches: set<ComputeCache>, ghost dirty: set<ComputeCache>, ghost root: Expr,
      ghost open: set<Expr>, ghost p: seq<Expr>)
    returns (visited: seq<Expr>, ghost reached: seq<Expr>)
    requires Acyclic(all, height) && ShapesOnly(all) && Linked(all) && x in all && e in all
    requires Walking(all, height, caches, dirty, root, visited0, reached0, open) && (x == root || x in reached0)
    requires Takes(all, p, x, visited0) && (p != [] ==> e == p[1])
    modifies all`mVisited, all`mTo, caches`mContentDirty
    ensures Linked(all) && Walking(all, height, caches, dirty, root, visited, reached, open)
    ensures Continues(visited0, reached0, visited, reached) && (Feeds(x, e) ==> e in visited)
    ensures p != [] ==> p[|p| - 1] in visited && p[|p| - 1] !in reached
    ensures forall d :: d in all && d.rank <= x.rank ==> d.mTo == old(d.mTo)
    decreases height - x.rank, 0
  {
    var recurse;
    recurse, visited, reached :=
      ComeTo(x, e, visited0, reached0, all, height, caches, dirty, root, open);
    if recurse {
      ghost var rest := if p == [] then [] else p[1..];
      if p != [] { ChainGoesOn(all, height, p, x, visited0); }
      visited, reached := Inform(e, visited, reached, all, height, caches, dirty, root, open + {e}, rest);
      Closes(all, height, caches, dirty, root, visited, reached, open, e);
    } else if p != [] {
      assert Feeds(p[0], p[0 + 1]) && !ReadFirst(p[0], p[0 + 1]) && |p| == 2;
    }
  }

  /** The walk below x. */
  method Inform(x: Expr, visited0: seq<Expr>, ghost reached0: seq<Expr>, ghost all: set<Expr>,
      ghost height: nat, ghost caches: set<ComputeCache>, ghost dirty: set<ComputeCache>, ghost root: Expr,
      ghost open: set<Expr>, ghost p: seq<Expr>)
    returns (visited: seq<Expr>, ghost reached: seq<Expr>)
    requires Acyclic(all, height) && ShapesOnly(all) && Linked(all) && x in all
    requires Walking(all, height, caches, dirty, root, visited0, reached0, open) && (x == root || x in reached0)
    requires Takes(all, p, x, visited0)
    modifies all`mVisited, all`mTo, caches`mContentDirty
    ensures Linked(all) && Walking(all, height, caches, dirty, root, visited, reached, open)
    ensures Continues(visited0, reached0, visited, reached) && forall e :: e in all && Feeds(x, e) ==> e in visited
    ensures p != [] ==> p[|p| - 1] in visited && p[|p| - 1] !in reached
    ensures forall d :: d in all && d.rank < x.rank ==> d.mTo == old(d.mTo)
    decreases height - x.rank, 1
  {
    var i := 0;
    visited, reached := visited0, reached0;
    while i < |x.mTo|
      invariant i <= |x.mTo| && Linked(all)
      invariant Walking(all, height, caches, dirty, root, visited, reached, open)
      invariant Continues(visited0, reached0, visited, reached)
      invariant forall e :: e in all && Feeds(x, e) ==> e in visited || e in Ahead(all, x, x.mTo[i..])
      invariant i == 0 && p != [] ==> Takes(all, p, x, visited)
      invariant i > 0 && p != [] ==> p[|p| - 1] in visited && p[|p| - 1] !in reached
      invariant forall d :: d in all && d.rank < x.rank ==> d.mTo == old(d.mTo)
      decreases |x.mTo| - i
    {
      assert i == 0 && p != [] ==> p[0].mTo[0] == p[0 + 1];
      if x.mTo[i] == null {
        DropLink(x, i, all);
      } else {
        ghost var links := x.mTo;
        assert links[i..] == [links[i]] + links[i + 1..];
        visited, reached := InformLink(x, x.mTo[i], visited, reached, all, height, caches, dirty, root, open,
          if i == 0 then p else []);
        i := i + 1;
      }
    }
  }

  lemma {:induction false} DependsOnLower(all: set<Expr>, height: nat, e: Expr, x: Expr)
    requires Acyclic(all, height) && e in all && DependsOn(all, height, e, x)
    ensures x.rank < e.rank
    decreases e.rank
  {
    var i :| 0 <= i < |e.mInputs| && (e.mInputs[i].from == x || DependsOn(all, height, e.mInputs[i].from, x));
    if e.mInputs[i].from != x { DependsOnLower(all, height, e.mInputs[i].from, x); }
  }

  /** What the walk came to without getting through, something hid. */
  lemma HiddenBy(all: set<Expr>, height: nat, visited: seq<Expr>, reached: seq<Expr>, x: Expr, e: Expr)
    returns (b: Expr)
    requires Acyclic(all, height) && e in all && Draws(all, height, e, x)
    requires Traced(all, height, visited, reached, x) && e in visited && e !in reached
    ensures b in all && Hides(all, height, x, b, e)
  {
    b :| b in all && (b == x || b in reached) && Feeds(b, e) && !ReadFirst(b, e);
  }

  /** Unhindered, the walk gets through to everything whose content depends on the leaf. */
  lemma {:induction false} ReachesAll(all: set<Expr>, height: nat, visited: seq<Expr>, reached: seq<Expr>, x: Expr,
      e: Expr)
    requires Acyclic(all, height) && x in all && e in all && Draws(all, height, e, x) && Unhindered(all, height, x)
    requires Traced(all, height, visited, reached, x) && DoneBut(all, visited, reached, {x})
    requires forall f :: f in all && Feeds(x, f) ==> f in visited
    ensures e in reached
    decreases e.rank
  {
    var i :| 0 <= i < |e.mInputs| && e.contentNeedContent[i] &&
      (e.mInputs[i].from == x || Draws(all, height, e.mInputs[i].from, x));
    var d := e.mInputs[i].from;
    assert Feeds(d, e);
    if d != x { ReachesAll(all, height, visited, reached, x, d); }
    if e !in reached {
      var b := HiddenBy(all, height, visited, reached, x, e);
      assert false;
    }
  }

  ghost predicate NoFlags(all: set<Expr>)
    reads all`mVisited
  {
    forall e :: e in all ==> !e.mVisited
  }

  /** What the walk from x makes of the caches: it marks those of the expressions that it reaches.  The content of
      these depends on x.  Unhindered, it reaches all such; and none at the end of a chain that it takes. */
  method InformDirty(x: Expr, ghost all: set<Expr>, ghost height: nat, ghost caches: set<ComputeCache>,
      ghost p: seq<Expr>)
    returns (ghost reached: seq<Expr>)
    requires Acyclic(all, height) && ShapesOnly(all) && Linked(all) && Known(all, caches) && NoFlags(all) && x in all
    requires Takes(all, p, x, [])
    modifies all`mVisited, all`mTo, caches`mContentDirty
    ensures Linked(all) && NoFlags(all)
    ensures forall c :: c in caches ==> (c.mContentDirty <==> old(c.mContentDirty) || CacheOf(reached, c))
    ensures forall e :: e in reached ==> e in all && Draws(all, height, e, x)
    ensures Unhindered(all, height, x) ==> forall e :: e in all && Draws(all, height, e, x) ==> e in reached
    ensures p != [] ==> p[|p| - 1] !in reached
  {
    ghost var dirty := set c | c in caches && c.mContentDirty;
    Starts(all, height, caches, dirty, x);
    var visited;
    visited, reached := Inform(x, [], [], all, height, caches, dirty, x, {x}, p);
    Ends(all, height, caches, dirty, x, visited, reached);
    ClearFlags(visited, all);
  }

  lemma Starts(all: set<Expr>, height: nat, caches: set<ComputeCache>, dirty: set<ComputeCache>, x: Expr)
    requires Acyclic(all, height) && Known(all, caches) && NoFlags(all)
    requires dirty == set c | c in caches && c.mContentDirty
    ensures Walking(all, height, caches, dirty, x, [], [], {x})
  {}

  lemma Ends(all: set<Expr>, height: nat, caches: set<ComputeCache>, dirty: set<ComputeCache>, x: Expr,
      visited: seq<Expr>, reached: seq<Expr>)
    requires Acyclic(all, height) && x in all && Walking(all, height, caches, dirty, x, visited, reached, {x})
    requires forall f :: f in all && Feeds(x, f) ==> f in visited
    ensures Flagged(all, visited) && Told(all, caches, dirty, reached)
    ensures forall e :: e in reached ==> e in all && Draws(all, height, e, x)
    ensures Unhindered(all, height, x) ==> forall e :: e in all && Draws(all, height, e, x) ==> e in reached
  {
    assert Unlock(0);
    if Unhindered(all, height, x) {
      forall e | e in all && Draws(all, height, e, x) ensures e in reached {
        ReachesAll(all, height, visited, reached, x, e);
      }
    }
  }

  method ClearFlags(visited: seq<Expr>, ghost all: set<Expr>)
    requires Flagged(all, visited)
    modifies visited`mVisited
    ensures NoFlags(all)
  {
    for i := 0 to |visited|
      invariant forall e :: e in all && e !in visited ==> !e.mVisited
      invariant forall k :: 0 <= k < i ==> !visited[k].mVisited
    {
      visited[i].mVisited := false;
    }
  }
}
