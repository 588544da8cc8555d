/** New expressions in a running engine. */
module EngineGrows {
  import opened Wrappers
  import opened Exprs
  import opened ExprInfo
  import opened ExprDirty
  import opened InformDirty
  import opened ComputeCaches
  import opened MakeCaches
  import opened Engine

  // ----- what a larger world does not change -----

  lemma {:induction false} DrawsLarger(all: set<Expr>, height: nat, more: set<Expr>, height': nat, e: Expr, x: Expr)
    requires Acyclic(all, height) && Acyclic(more, height') && all <= more && e in all
    ensures Draws(more, height', e, x) <==> Draws(all, height, e, x)
    decreases e.rank
  {
    forall i | 0 <= i < |e.mInputs|
      ensures Draws(more, height', e.mInputs[i].from, x) <==> Draws(all, height, e.mInputs[i].from, x)
    {
      DrawsLarger(all, height, more, height', e.mInputs[i].from, x);
    }
  }

  lemma {:induction false} PipelinedLarger(all: set<Expr>, height: nat, more: set<Expr>, height': nat,
      has: set<Expr>, who: seq<Expr>, starts: seq<nat>, stages: seq<Stage>)
    requires Shaped(all, height) && Shaped(more, height') && all <= more
      && Pipelined(all, height, has, who, starts, stages)
    ensures Pipelined(more, height', has, who, starts, stages)
    decreases |stages|
  {
    if stages != [] {
      var n := |stages| - 1;
      PipelinedLarger(all, height, more, height', has, who[..n], starts[..n], stages[..n]);
    }
  }

  /** The world w with one more expression, which is `x`; a leaf is known to the caches' net. */
  ghost predicate Extends(w: World, w': World, x: Expr) {
    && x !in w.all && w'.all == w.all + {x} && w'.g.caches == w.g.caches && Shaped(w'.all, w'.height)
    && w'.target == w.target && w'.offset == w.offset && w'.pipe == w.pipe
    && w'.g.unknown == w.g.unknown && w'.g.leaves == (if x.mOp.None? then w.g.leaves + {x} else w.g.leaves)
    && forall y :: y in w.all ==>
         w'.constant(y) == w.constant(y) && w'.g.shape(y) == w.g.shape(y) && w'.g.content(y) == w.g.content(y)
         && (y in w'.g.missing <==> y in w.g.missing)
  }

  lemma StaticLarger(w: World, w': World, x: Expr, c: ComputeCache)
    requires AllStatic(w) && Extends(w, w', x) && c in w.g.caches
    ensures Static(w', c)
  {
    StaticAt(w, c);
    var t, p := w.target(c), w.pipe(c);
    PipelinedLarger(w.all, w.height, w'.all, w'.height, p.has, p.who, p.r.starts, p.r.stages);
    forall y | y in w.all ensures Draws(w'.all, w'.height, t, y) <==> Draws(w.all, w.height, t, y) {
      DrawsLarger(w.all, w.height, w'.all, w'.height, t, y);
    }
    forall y | y in p.r.near ensures y in w'.all && GoodSlot(w', c, y) { assert GoodSlot(w, c, y); }
    forall j | 0 <= j < |c.mInputs| ensures Draws(w'.all, w'.height, t, w'.target(c.mInputs[j])) {
      StaticAt(w, c.mInputs[j]);
    }
  }

  lemma AllStaticLarger(w: World, w': World, x: Expr)
    requires AllStatic(w) && Extends(w, w', x)
    requires x.mOp.None? ==> |w'.g.content(x)| == 1 && (!x.isInput ==> w'.g.content(x) == [w'.constant(x)])
    ensures AllStatic(w')
  {
    forall c | c in w'.g.caches ensures Static(w', c) { StaticLarger(w, w', x, c); }
  }

  lemma SoundLarger(w: World, w': World, x: Expr)
    requires AllStatic(w) && Extends(w, w', x) && Closed(w'.g) && Sound(w.g)
    ensures Sound(w'.g)
  {
    SoundBySets(w.g);
    assert CleanOnes(w'.g) == CleanOnes(w.g) && PreparedOnes(w'.g) == PreparedOnes(w.g);
    forall d | d in CleanOnes(w'.g) ensures ValueOf(w'.g, d) == Some(d.result) {
      ValueSame(w.g, w'.g, w.g.caches, d);
    }
    forall d | d in PreparedOnes(w'.g) ensures d.prepared == PlanOf(w'.g, d) {
      PlanSame(w.g, w'.g, w.g.caches, d);
    }
    SoundBySets(w'.g);
  }

  /** Reading gives the same as before. */
  lemma {:induction false} OutsLarger(all: set<Expr>, height: nat, content: Expr -> Tensor, more: set<Expr>,
      height': nat,
      content': Expr -> Tensor, e: Expr)
    requires Shaped(all, height) && Shaped(more, height') && all <= more && e in all
    requires forall x :: x in all ==> content'(x) == content(x)
    ensures OutsOf(more, height', content', e) == OutsOf(all, height, content, e)
    decreases e.rank, |e.mInputs| + 1
  {
    ArgsLarger(all, height, content, more, height', content', e, |e.mInputs|);
  }

  lemma {:induction false} ArgsLarger(all: set<Expr>, height: nat, content: Expr -> Tensor, more: set<Expr>,
      height': nat,
      content': Expr -> Tensor, e: Expr, n: nat)
    requires Shaped(all, height) && Shaped(more, height') && all <= more && e in all && n <= |e.mInputs|
    requires forall x :: x in all ==> content'(x) == content(x)
    ensures ArgsTo(more, height', content', e, n) == ArgsTo(all, height, content, e, n)
    decreases e.rank, n
  {
    if n > 0 {
      ArgsLarger(all, height, content, more, height', content', e, n - 1);
      OutsLarger(all, height, content, more, height', content', e.mInputs[n - 1].from);
    }
  }

  // ----- creating expressions -----

  ghost function WithOperator(w: World, e: Expr): World {
    w.(all := w.all + {e}, height := w.height + 1)
  }

  ghost function WithLeaf(w: World, x: Expr, info: Value, content: Option<Tensor>): World {
    var t := if content.Some? then content.value else 0;
    w.(all := w.all + {x}, height := w.height + 1, constant := (y: Expr) => if y == x then t else w.constant(y),
       g := w.g.(leaves := w.g.leaves + {x},
                 shape := (y: Expr) => if y == x then info else w.g.shape(y),
                 content := (y: Expr) => if y == x then [t] else w.g.content(y),
                 missing := w.g.missing - {x} + if content.None? then {x} else {}))
  }

  /** A world to which an expression has been added that nothing depends on. */
  lemma Grown(w: World, w': World, x: Expr)
    requires AllStatic(w) && Extends(w, w', x) && Sound(w.g) && Current(w'.g) && x.mCache == null
    requires x.mOp.None? ==> |w'.g.content(x)| == 1 && (!x.isInput ==> w'.g.content(x) == [w'.constant(x)])
    requires Attached(w.all, w.g.caches, w.target, w.offset) && Graph(w'.all, w'.height) && Marked(w'.all, w'.g.caches)
    ensures Running(w') && Framed(w')
  {
    AllStaticLarger(w, w', x);
    SoundLarger(w, w', x);
    assert Attached(w'.all, w'.g.caches, w'.target, w'.offset);
  }

  lemma Unlocked(w: World)
    requires Running(w)
    ensures Framed(w) && Sound(w.g) && Current(w.g) && AllSensible(w.all, w.height) && Linked(w.all)
      && NoFlags(w.all)
    ensures CachesStale(w.all, w.g.caches, StaleOnes(w.g.caches))
  {
    assert Unlock(0);
  }

  lemma OperatorExtends(w: World, e: Expr)
    requires AllStatic(w) && e !in w.all && e.mOp.Some? && Acyclic(w.all + {e}, w.height + 1)
    requires forall i :: 0 <= i < |e.mInputs| ==> e.mInputs[i].index < Outputs(e.mInputs[i].from)
    requires forall args :: |e.mOp.value.run(args)| == e.mOp.value.outputs
    ensures Extends(w, WithOperator(w, e), e)
  {}

  lemma LeafExtends(w: World, x: Expr, info: Value, content: Option<Tensor>)
    requires AllStatic(w) && x !in w.all && x.mOp.None? && x.mInputs == [] && x.contentNeedContent == []
      && x.shapeNeedContent == []
    requires x.rank == 0
    ensures Extends(w, WithLeaf(w, x, info, content), x)
  {}

  lemma LeafGraph(all: set<Expr>, height: nat, x: Expr)
    requires AllSensible(all, height) && Linked(all) && NoFlags(all) && x !in all && x.rank == 0
    requires x.mOp.None? && x.mInputs == [] && x.contentNeedContent == [] && x.shapeNeedContent == []
    requires x.mTo == [] && !x.mInfoDirty && x.mValid && !x.mVisited
    ensures Graph(all + {x}, height + 1)
  {
    var more := all + {x};
    assert forall d :: d in all ==> d.mInputs == [] || forall i :: 0 <= i < |d.mInputs| ==> d.mInputs[i].from != x;
    forall d | d in more ensures Sensible(more, height + 1, d) {
      if d != x { assert Sensible(all, height, d); }
    }
  }

  ghost predicate NewLeaf(x: Expr, info: Value, content: Option<Tensor>)
    reads x
  {
    && x.mOp.None? && x.mInputs == [] && x.contentNeedContent == [] && x.shapeNeedContent == [] && x.rank == 0
    && x.mTo == [] && !x.mInfoDirty && x.mValid && !x.mVisited && x.mCache == null && x.info == info
    && x.mContentDirty == content.None? && x.content == [if content.Some? then content.value else 0]
  }

  lemma LeafGrown(w: World, x: Expr, info: Value, content: Option<Tensor>)
    requires Running(w) && x !in w.all && NewLeaf(x, info, content) && (x.isInput || content.Some?)
    ensures Running(WithLeaf(w, x, info, content)) && Framed(WithLeaf(w, x, info, content))
  {
    Unlocked(w);
    LeafExtends(w, x, info, content);
    LeafGraph(w.all, w.height, x);
    Grown(w, WithLeaf(w, x, info, content), x);
  }

  /** Creates an operator in a running engine. */
  method Create(op: Op, inputs: seq<Port>, contentNeeds: seq<bool>, shapeNeeds: seq<bool>, ghost w: World)
    returns (e: Expr, ghost w': World)
    requires Running(w) && |contentNeeds| == |shapeNeeds| == |inputs|
    requires forall i :: 0 <= i < |inputs| ==>
      inputs[i].from in w.all && inputs[i].index < Outputs(inputs[i].from) && !shapeNeeds[i]
    requires forall args :: |op.run(args)| == op.outputs
    modifies w.all`mTo
    ensures fresh(e) && e.mOp == Some(op) && e.mInputs == inputs && e.contentNeedContent == contentNeeds
    ensures w' == WithOperator(w, e) && Running(w') && Framed(w')
    ensures e.mCache == null && e.mTo == [] && forall x :: x in w.all ==> Extended(x, e, old(x.mTo), x.mTo)
  {
    Unlocked(w);
    e := ExprDirty.Create(op, inputs, contentNeeds, shapeNeeds, w.all, w.height, w.g.caches, StaleOnes(w.g.caches));
    w' := WithOperator(w, e);
    OperatorExtends(w, e);
    Grown(w, w', e);
  }

  /** Creates a leaf in a running engine: an input, which may still have to be written, or a constant. */
  method CreateLeaf(info: Value, content: Option<Tensor>, isInput: bool, ghost w: World)
    returns (x: Expr, ghost w': World)
    requires Running(w) && (isInput || content.Some?)
    ensures fresh(x) && x.mOp.None? && x.isInput == isInput && w' == WithLeaf(w, x, info, content) && Running(w')
      && Framed(w') && x.mTo == []
  {
    x := new Expr.Leaf(info, content, isInput);
    w' := WithLeaf(w, x, info, content);
    LeafGrown(w, x, info, content);
  }

  /** Whatever is created, every expression there was keeps its value. */
  lemma CreationKeepsValues(w: World, w': World, x: Expr, e: Expr)
    requires AllStatic(w) && Extends(w, w', x) && e in w.all
    ensures OutsOf(w'.all, w'.height, ContentOf(w'), e) == OutsOf(w.all, w.height, ContentOf(w), e)
  {
    OutsLarger(w.all, w.height, ContentOf(w), w'.all, w'.height, ContentOf(w'), e);
  }
}
