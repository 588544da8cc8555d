/** A read that gives a value from before the last write. */
module StaleReads {
  import opened Wrappers
  import opened Exprs
  import opened ExprInfo
  import opened ExprDirty
  import opened InformDirty
  import opened ComputeCaches
  import opened MakeCaches
  import opened Engine
  import EngineGrows

  /** Applies f to the first input, and has its shape. */
  function Apply(f: Tensor -> Tensor): Op {
    Op(SameShape().shape, 1, (args: seq<Option<Tensor>>) =>
         if args != [] && args[0].Some? then [f(args[0].value)] else [0])
  }

  ghost predicate Computes(e: Expr, f: Tensor -> Tensor, inputs: seq<Port>, read: seq<bool>) {
    e.mOp == Some(Apply(f)) && e.mInputs == inputs && e.contentNeedContent == read
  }

  /** Two functions a and y of an input x, and y again as c: c does not read its other input, which is a, as a crop
      does not read the one that only says how large to cut. */
  ghost predicate Quad(x: Expr, a: Expr, y: Expr, c: Expr, f: Tensor -> Tensor, g: Tensor -> Tensor) {
    && x.mOp.None? && x.isInput && Computes(a, f, [Port(x, 0)], [true]) && Computes(y, g, [Port(x, 0)], [true])
    && Computes(c, t => t, [Port(y, 0), Port(a, 0)], [true, false])
  }

  lemma QuadValue(all: set<Expr>, height: nat, content: Expr -> Tensor, x: Expr, a: Expr, y: Expr, c: Expr,
      f: Tensor -> Tensor, g: Tensor -> Tensor)
    requires Shaped(all, height) && Quad(x, a, y, c, f, g) && c in all
    ensures OutsOf(all, height, content, c) == [g(content(x))]
  {
    assert c.mInputs[0].from == y && y.mInputs[0].from == x;
    assert ArgsTo(all, height, content, y, 1) == [Some(content(x))];
    assert OutsOf(all, height, content, y) == [g(content(x))];
    var args := ArgsTo(all, height, content, c, 2);
    assert args == ArgsTo(all, height, content, c, 1) + [None];
    assert args[0] == Some(g(content(x)));
  }

  lemma HasShape(all: set<Expr>, height: nat, leaf: Expr -> Value, e: Expr, f: Tensor -> Tensor, inputs: seq<Port>,
      read: seq<bool>)
    requires Acyclic(all, height) && e in all && Computes(e, f, inputs, read) && 1 <= |inputs| <= 2
    requires forall i :: 0 <= i < |inputs| ==> ShapeOf(all, height, leaf, inputs[i].from).Some?
    ensures ShapeOf(all, height, leaf, e).Some?
  {
    assert ShapesTo(all, height, leaf, e, 0) == Some([]);
    assert ShapeOf(all, height, leaf, e.mInputs[0].from).Some?;
    var one := ShapesTo(all, height, leaf, e, 1);
    assert one.Some? && |one.value| == 1;
    var ins := ShapesTo(all, height, leaf, e, |inputs|);
    if |inputs| == 2 { assert ShapeOf(all, height, leaf, e.mInputs[1].from).Some?; }
    assert ins.Some? && ins.value != [];
  }

  lemma QuadShape(all: set<Expr>, height: nat, leaf: Expr -> Value, x: Expr, a: Expr, y: Expr, c: Expr,
      f: Tensor -> Tensor, g: Tensor -> Tensor)
    requires Acyclic(all, height) && Quad(x, a, y, c, f, g) && c in all
    ensures ShapeOf(all, height, leaf, c).Some?
  {
    assert c.mInputs[0].from == y && c.mInputs[1].from == a && a.mInputs[0].from == x && y.mInputs[0].from == x;
    HasShape(all, height, leaf, a, f, [Port(x, 0)], [true]);
    HasShape(all, height, leaf, y, g, [Port(x, 0)], [true]);
    HasShape(all, height, leaf, c, t => t, [Port(y, 0), Port(a, 0)], [true, false]);
  }

  /** The walk from x comes to c by way of a first, whose content c does not read. */
  lemma QuadChain(all: set<Expr>, x: Expr, a: Expr, y: Expr, c: Expr, f: Tensor -> Tensor, g: Tensor -> Tensor)
    requires Quad(x, a, y, c, f, g) && all == {x, a, y, c} && a != y && |x.mInputs| == 0
    requires x.mTo != [] && x.mTo[0] == a && a.mTo != [] && a.mTo[0] == c
    ensures Takes(all, [x, a, c], x, [])
  {
    assert a.mInputs[0].from == x && c.mInputs[0].from == y && c.mInputs[1].from == a;
    var p := [x, a, c];
    assert ReadFirst(x, a) by { assert ReadFirstOf(x, a, 1); }
    assert !ReadFirst(a, c);
    forall k | 0 <= k < |p| - 1
      ensures Feeds(p[k], p[k + 1]) && (ReadFirst(p[k], p[k + 1]) <==> k + 1 < |p| - 1)
        && p[k].mTo != [] && p[k].mTo[0] == p[k + 1]
    {
      if k == 0 { assert p[k] == x && p[k + 1] == a; } else { assert k == 1 && p[k] == a && p[k + 1] == c; }
    }
  }

  // ----- setting up -----

  /** No cache has been made, and the input holds t. */
  ghost predicate Unread(w: World, x: Expr, t: Tensor) {
    w.g.caches == {} && w.g.missing == {} && w.g.content(x) == [t]
  }

  /** The first of all links of x, none of which has expired, leads to e. */
  ghost predicate LeadsTo(x: Expr, e: Expr)
    reads x`mTo
  {
    null !in x.mTo && x.mTo != [] && x.mTo[0] == e
  }

  /** An engine that has one input. */
  method Begin(before: Tensor) returns (x: Expr, ghost w: World)
    ensures fresh(x) && x.mOp.None? && x.isInput && x.mInputs == [] && x.mTo == []
    ensures Running(w) && Framed(w) && w.all == {x} && Unread(w, x, before)
  {
    x := new Expr.Leaf([1], Some(before), true);
    var none := MakeCaches.Schedule([], [], 0, map[], map[], {}, {}, {});
    w := World({x}, 1, Net({}, {x}, (y: Expr) => [1], (y: Expr) => [before], {}, {}), (c: ComputeCache) => x,
      (c: ComputeCache) => 0,
      (c: ComputeCache) => Pipe(none, [], {}, Wiring(map[], map[], map[]), (a: seq<Value>, b: seq<Value>) => []),
      (y: Expr) => before);
    Engine.Starts(w);
  }

  /** One more operator. */
  method Add(f: Tensor -> Tensor, inputs: seq<Port>, read: seq<bool>, ghost w: World)
    returns (e: Expr, ghost w': World)
    requires Running(w) && |inputs| == |read|
    requires forall i :: 0 <= i < |inputs| ==> inputs[i].from in w.all && inputs[i].index < Outputs(inputs[i].from)
    modifies w.all`mTo
    ensures fresh(e) && Computes(e, f, inputs, read) && e.mTo == [] && Running(w') && Framed(w')
    ensures w' == EngineGrows.WithOperator(w, e)
    ensures forall x :: x in w.all ==> Extended(x, e, old(x.mTo), x.mTo) && (Feeds(x, e) ==> e in x.mTo)
  {
    var shapes := seq(|inputs|, i => false);
    e, w' := EngineGrows.Create(Apply(f), inputs, read, shapes, w);
    AllLinked(w');
  }

  lemma AllLinked(w: World)
    requires Running(w)
    ensures Linked(w.all)
  {
    assert Unlock(0);
  }

  method AddTwo(f: Tensor -> Tensor, g: Tensor -> Tensor, before: Tensor)
    returns (x: Expr, a: Expr, y: Expr, ghost w: World)
    ensures x.mOp.None? && x.isInput && x.mInputs == [] && a != y && a.mTo == [] && LeadsTo(x, a)
    ensures Computes(a, f, [Port(x, 0)], [true]) && Computes(y, g, [Port(x, 0)], [true]) && fresh({x, a, y})
    ensures Running(w) && Framed(w) && w.all == {x, a, y} && Unread(w, x, before)
  {
    x, w := Begin(before);
    a, w := Add(f, [Port(x, 0)], [true], w);
    assert a.mInputs[0].from == x;
    assert LeadsTo(x, a);
    ghost var two := w.all;
    assert two == {x, a};
    y, w := Add(g, [Port(x, 0)], [true], w);
    assert y.mInputs[0].from != a;
  }

  /** A running engine with the four expressions, in which the walk from x will come to c by way of a first; locked. */
  ghost predicate Staged(w: World, x: Expr, a: Expr, y: Expr, c: Expr, f: Tensor -> Tensor, g: Tensor -> Tensor,
      t: Tensor)
    reads w.all`mInfoDirty, w.all`mValid, w.all`info, w.all`mTo, w.all`mVisited, w.all`mCache, w.all`mCacheOffset
    reads w.g.leaves`info, w.g.leaves`content, w.g.leaves`mInfoDirty, w.g.leaves`mContentDirty, w.g.caches
    reads x`mTo, a`mTo, c`mTo
  {
    forall key: nat {:trigger Unlock(key)} :: Unlock(key) ==>
      && Quad(x, a, y, c, f, g) && w.all == {x, a, y, c} && Running(w) && Framed(w)
      && w.g.missing == {} && w.g.content(x) == [t] && Takes(w.all, [x, a, c], x, [])
  }

  method SetUp(f: Tensor -> Tensor, g: Tensor -> Tensor, before: Tensor)
    returns (x: Expr, a: Expr, y: Expr, c: Expr, ghost w: World)
    ensures fresh({x, a, y, c}) && w.all == {x, a, y, c} && w.g.caches == {}
    ensures Quad(x, a, y, c, f, g) && Staged(w, x, a, y, c, f, g, before)
  {
    x, a, y, w := AddTwo(f, g, before);
    c, w := Add(t => t, [Port(y, 0), Port(a, 0)], [true, false], w);
    assert c.mInputs[1].from == a;
    QuadChain(w.all, x, a, y, c, f, g);
  }

  // ----- reading twice -----

  /** Reading an expression whose cache is clean: nothing is run. */
  method ReadClean(e: Expr) returns (r: Option<Value>)
    requires e.mOp.Some? && !e.mInfoDirty && e.mCache != null && e.mCache.Clean()
      && e.mCacheOffset + Outputs(e) <= |e.mCache.result|
    ensures r == if exists i :: 0 <= i < |e.mCache.mInputInside| && e.mCache.mInputInside[i].mContentDirty then None
      else Some(e.mCache.result[e.mCacheOffset..e.mCacheOffset + Outputs(e)])
  {
    var stop := ContentMissing(e.mCache.mInputInside);
    if stop {
      return None;
    }
    r := Some(e.mCache.result[e.mCacheOffset..e.mCacheOffset + Outputs(e)]);
  }

  lemma NothingMissing(w: World, c: ComputeCache)
    requires Framed(w) && Current(w.g) && w.g.missing == {} && c in w.g.caches
    ensures forall i :: 0 <= i < |c.mInputInside| ==> !c.mInputInside[i].mContentDirty
  {
    StaticAt(w, c);
    forall i | 0 <= i < |c.mInputInside| ensures !c.mInputInside[i].mContentDirty {
      assert c.mInputInside[i] in w.g.leaves;
    }
  }

  method ReadFirstTime(x: Expr, a: Expr, y: Expr, c: Expr, f: Tensor -> Tensor, g: Tensor -> Tensor, before: Tensor,
      plan: (seq<Value>, seq<Value>) -> Value, ghost w: World)
    returns (r: Option<Value>, ghost w': World)
    requires Staged(w, x, a, y, c, f, g, before) && w.g.caches == {}
    modifies w.all`mInfoDirty, w.all`mValid, w.all`info, c`mCache, c`mCacheOffset
    ensures r == Some([g(before)]) && !c.mInfoDirty && c.mCache != null && c.mCache.Clean()
    ensures Staged(w', x, a, y, c, f, g, before) && w'.all == w.all && fresh(w'.g.caches)
  {
    assert Unlock(0);
    QuadShape(w.all, w.height, w.g.shape, x, a, y, c, f, g);
    QuadValue(w.all, w.height, ContentOf(w), x, a, y, c, f, g);
    r, w' := Engine.Read(c, plan, w);
  }

  /** What the cache of c holds before the write, and what c will be after it. */
  lemma BeforeWrite(w: World, x: Expr, a: Expr, y: Expr, c: Expr, f: Tensor -> Tensor, g: Tensor -> Tensor, t: Tensor,
      after: Tensor)
    requires Staged(w, x, a, y, c, f, g, t) && c.mCache != null && c.mCache.Clean()
    ensures Running(w) && Framed(w) && w.all == {x, a, y, c} && x.mOp.None? && x.isInput && w.g.missing == {}
    ensures Takes(w.all, [x, a, c], x, []) && c.mCache in w.g.caches && w.target(c.mCache) == c
    ensures c.mOp.Some? && Outputs(c) == 1
      && Computed(w.all, w.height, ContentOf(w), c, c.mCacheOffset, c.mCache.result)
    ensures w.offset(c.mCache) == c.mCacheOffset
    ensures OutsOf(w.all, w.height, ContentOf(w), c) == [g(t)]
    ensures OutsOf(w.all, w.height, ContentOf(Wrote(w, x, after)), c) == [g(after)]
  {
    assert Unlock(0);
    CacheKnown(w, c);
    QuadValue(w.all, w.height, ContentOf(w), x, a, y, c, f, g);
    QuadValue(w.all, w.height, ContentOf(Wrote(w, x, after)), x, a, y, c, f, g);
  }

  /** The write does not reach the cache of c. */
  method WritePast(x: Expr, a: Expr, y: Expr, c: Expr, f: Tensor -> Tensor, g: Tensor -> Tensor, before: Tensor,
      after: Tensor, ghost w: World)
    returns (ghost w': World)
    requires Staged(w, x, a, y, c, f, g, before) && c.mCache != null && c.mCache.Clean() && g(before) != g(after)
    modifies w.all`mVisited, w.all`mTo, w.g.caches`mContentDirty, x`mContentDirty, x`content
    ensures w'.g.content(x) == [after] && !Running(w') && StillHolds(c, [g(before)])
    ensures Shaped(w'.all, w'.height) && c in w'.all && OutsOf(w'.all, w'.height, ContentOf(w'), c) == [g(after)]
  {
    BeforeWrite(w, x, a, y, c, f, g, before, after);
    w' := Engine.Write(x, after, w, [x, a, c]);
    Outdated(w, w', x, after, c, [g(before)], [g(after)]);
  }

  /** The cache of e is clean and holds v, and the leaves that it reads have been written; locked. */
  ghost predicate StillHolds(e: Expr, v: Value)
    reads e`mCache, e`mCacheOffset
    reads if e.mCache == null then {} else {e.mCache}
    reads (if e.mCache == null then [] else e.mCache.mInputInside)`mContentDirty
  {
    forall key: nat {:trigger Unlock(key)} :: Unlock(key) ==>
      && e.mOp.Some? && e.mCache != null && e.mCache.Clean() && |v| == Outputs(e)
      && e.mCacheOffset + Outputs(e) <= |e.mCache.result|
      && e.mCache.result[e.mCacheOffset..e.mCacheOffset + Outputs(e)] == v
      && forall i :: 0 <= i < |e.mCache.mInputInside| ==> !e.mCache.mInputInside[i].mContentDirty
  }

  lemma Outdated(w: World, w': World, x: Expr, after: Tensor, e: Expr, v: Value, v': Value)
    requires AllStatic(w) && w.g.missing == {} && w' == Wrote(w, x, after)
    requires Framed(w') && Current(w'.g) && v != v'
    requires e.mOp.Some? && e.mCache != null && e.mCache in w.g.caches && w.target(e.mCache) == e && e.mCache.Clean()
    requires w.offset(e.mCache) == e.mCacheOffset
      && Computed(w.all, w.height, ContentOf(w), e, e.mCacheOffset, e.mCache.result)
    requires OutsOf(w.all, w.height, ContentOf(w), e) == v && OutsOf(w.all, w.height, ContentOf(w'), e) == v'
    ensures !Running(w') && StillHolds(e, v)
  {
    if Running(w') { SameValue(w, w', e.mCache); }
    NothingMissing(w', e.mCache);
  }

  method ReadAgain(c: Expr, ghost v: Value) returns (r: Option<Value>)
    requires StillHolds(c, v) && !c.mInfoDirty
    ensures r == Some(v)
  {
    assert Unlock(0);
    r := ReadClean(c);
  }

  method ReadTwice(x: Expr, a: Expr, y: Expr, c: Expr, f: Tensor -> Tensor, g: Tensor -> Tensor, before: Tensor,
      after: Tensor, plan: (seq<Value>, seq<Value>) -> Value, ghost w: World)
    returns (first: Option<Value>, second: Option<Value>, ghost w': World)
    requires Staged(w, x, a, y, c, f, g, before) && w.g.caches == {} && w.all == {x, a, y, c} && g(before) != g(after)
    modifies w.all
    ensures first == second == Some([g(before)])
    ensures w'.g.content(x) == [after] && !Running(w')
    ensures Shaped(w'.all, w'.height) && c in w'.all && OutsOf(w'.all, w'.height, ContentOf(w'), c) == [g(after)]
  {
    ghost var w0;
    first, w0 := ReadFirstTime(x, a, y, c, f, g, before, plan, w);
    w' := WritePast(x, a, y, c, f, g, before, after, w0);
    second := ReadAgain(c, [g(before)]);
  }

  /** Reads c, writes x and reads c again: the second read gives what the first gave, although c has another value
      now.  The walk that the write sets off comes to c over the input that c does not read, and not again. */
  method StaleRead(f: Tensor -> Tensor, g: Tensor -> Tensor, before: Tensor, after: Tensor,
      plan: (seq<Value>, seq<Value>) -> Value)
    returns (x: Expr, a: Expr, y: Expr, c: Expr, first: Option<Value>, second: Option<Value>, ghost w: World)
    requires g(before) != g(after)
    ensures Quad(x, a, y, c, f, g) && w.g.content(x) == [after] && !Running(w)
    ensures Shaped(w.all, w.height) && c in w.all && OutsOf(w.all, w.height, ContentOf(w), c) == [g(after)]
    ensures first == second == Some([g(before)])
  {
    x, a, y, c, w := SetUp(f, g, before);
    first, second, w := ReadTwice(x, a, y, c, f, g, before, after, plan, w);
  }
}
