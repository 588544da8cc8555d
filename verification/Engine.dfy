/** The lazy engine: any run of resizing leaves, writing them and reading expressions. */
module Engine {
  import opened Wrappers
  import opened DepthFirst
  import opened Exprs
  import opened ExprInfo
  import opened ExprDirty
  import opened InformDirty
  import opened ComputeCaches
  import opened MakeCaches

  // ----- the session of a pipeline -----

  /** Where a session finds what its pipeline reads from outside: the position of a leaf among its
      leaves, the content of a constant, and the input session and offset of another expression. */
  datatype Wiring = Wiring(leafSlot: map<Expr, nat>, constant: map<Expr, Tensor>, cacheSlot: map<Expr, (nat, nat)>)

  function At(vs: seq<Value>, i: nat, k: nat): Tensor {
    if i < |vs| && k < |vs[i]| then vs[i][k] else 0
  }

  function EnvOf(w: Wiring, contents: seq<Value>, results: seq<Value>): Env {
    Env((x: Expr) =>
          if x in w.leafSlot then At(contents, w.leafSlot[x], 0) else if x in w.constant then w.constant[x] else 0,
        (p: Port) =>
          if p.from in w.cacheSlot then At(results, w.cacheSlot[p.from].0, w.cacheSlot[p.from].1 + p.index) else 0)
  }

  function PipelineSession(plan: (seq<Value>, seq<Value>) -> Value, w: Wiring, stages: seq<Stage>): Session {
    Session(plan,
      (p: Value, contents: seq<Value>, results: seq<Value>) => Some(RunStages(EnvOf(w, contents, results), stages)))
  }

  // ----- what never changes about a cache -----

  datatype Pipe = Pipe(r: MakeCaches.Schedule, who: seq<Expr>, has: set<Expr>, w: Wiring,
    plan: (seq<Value>, seq<Value>) -> Value)

  /** Expressions and caches with what is known about them: what leaves hold, which expression a
      cache was made for and where its outputs are among the cache's tensors, how it was made, and
      what constants hold. */
  datatype World = World(all: set<Expr>, height: nat, g: Net, target: ComputeCache -> Expr, offset: ComputeCache -> nat,
    pipe: ComputeCache -> Pipe, constant: Expr -> Tensor)

  ghost predicate GoodSlot(w: World, c: ComputeCache, x: Expr) {
    var p := w.pipe(c);
    if x.mOp.Some? then
      x in p.has && x in p.w.cacheSlot &&
      var (j, o) := p.w.cacheSlot[x];
      j < |c.mInputs| && w.target(c.mInputs[j]) == x && w.offset(c.mInputs[j]) == o
    else if x.isInput then
      x in p.w.leafSlot && p.w.leafSlot[x] < |c.mInputInside| && c.mInputInside[p.w.leafSlot[x]] == x
    else x !in p.w.leafSlot && x in p.w.constant && p.w.constant[x] == w.constant(x)
  }

  /** The cache runs a pipeline for its target, and reads from what the target's content depends on. */
  ghost predicate Static(w: World, c: ComputeCache)
    requires Shaped(w.all, w.height)
  {
    var t, p := w.target(c), w.pipe(c);
    && t in w.all && t.mOp.Some? && c.rank == t.rank && c.mSession == PipelineSession(p.plan, p.w, p.r.stages)
    && Pipelined(w.all, w.height, p.has, p.who, p.r.starts, p.r.stages) && AllReadNear(p.who, p.has, p.r.near)
    && (exists k :: 0 <= k < |p.who| && p.who[k] == t && w.offset(c) == p.r.starts[k])
    && (forall x :: x in p.r.near ==> x in w.all && GoodSlot(w, c, x))
    && (forall i :: 0 <= i < |c.mInputInside| ==> var x := c.mInputInside[i];
          x in w.all && x.mOp.None? && x.isInput && Draws(w.all, w.height, t, x))
    && forall j :: 0 <= j < |c.mInputs| ==> Draws(w.all, w.height, t, w.target(c.mInputs[j]))
  }

  ghost predicate AllStatic(w: World) {
    && Shaped(w.all, w.height) && Closed(w.g) && w.g.unknown == {}
    && (forall key: nat {:trigger Unlock(key)} :: Unlock(key) ==> forall c :: c in w.g.caches ==> Static(w, c))
    && w.g.leaves == set x | x in w.all && x.mOp.None?
    && forall x :: x in w.g.leaves ==> |w.g.content(x)| == 1 && (!x.isInput ==> w.g.content(x) == [w.constant(x)])
  }

  lemma StaticAt(w: World, c: ComputeCache)
    requires AllStatic(w) && c in w.g.caches
    ensures Static(w, c)
  {
    assert Unlock(0);
  }

  ghost function Single(f: Expr -> Value): Expr -> Tensor {
    (x: Expr) => if |f(x)| == 1 then f(x)[0] else 0
  }

  ghost function ContentOf(w: World): Expr -> Tensor {
    Single(w.g.content)
  }

  // ----- what sessions compute -----

  lemma RunComputes(w: World, c: ComputeCache, plan: Value, contents: seq<Value>, results: seq<Value>)
    requires AllStatic(w) && c in w.g.caches && |contents| == |c.mInputInside| && |results| == |c.mInputs|
    requires forall i :: 0 <= i < |contents| ==> contents[i] == w.g.content(c.mInputInside[i])
    requires forall j :: 0 <= j < |results| ==>
      Computed(w.all, w.height, ContentOf(w), w.target(c.mInputs[j]), w.offset(c.mInputs[j]), results[j])
    ensures var r := c.mSession.run(plan, contents, results);
      r.Some? && Computed(w.all, w.height, ContentOf(w), w.target(c), w.offset(c), r.value)
  {
    var p := w.pipe(c);
    StaticAt(w, c);
    var env := EnvOf(p.w, contents, results);
    forall x | x in p.r.near && x.mOp.None? ensures env.leaf(x) == ContentOf(w)(x) {
      assert GoodSlot(w, c, x) && x in w.g.leaves;
    }
    forall e, i: nat | e in p.r.near && e in w.all && e.mOp.Some? && e in p.has && i < Outputs(e)
      ensures env.cached(Port(e, i)) == OutsOf(w.all, w.height, ContentOf(w), e)[i]
    {
      assert GoodSlot(w, c, e);
      var (j, o) := p.w.cacheSlot[e];
      assert Computed(w.all, w.height, ContentOf(w), w.target(c.mInputs[j]), w.offset(c.mInputs[j]), results[j]);
    }
    StagesCompute(w.all, w.height, ContentOf(w), p.has, p.r.near, env, p.who, p.r.starts, p.r.stages);
  }

  lemma {:induction false} MapAt(f: Expr -> Value, xs: seq<Expr>, i: nat)
    requires i < |xs|
    ensures |Map(f, xs)| == |xs| && Map(f, xs)[i] == f(xs[i])
  {
    MapLength(f, xs[..|xs| - 1]);
    if i < |xs| - 1 { MapAt(f, xs[..|xs| - 1], i); }
  }

  lemma {:induction false} MapLength(f: Expr -> Value, xs: seq<Expr>)
    ensures |Map(f, xs)| == |xs|
  {
    if xs != [] { MapLength(f, xs[..|xs| - 1]); }
  }

  /** Evaluating cache by cache gives what evaluating the expressions from scratch gives. */
  lemma {:induction false} ValuesAreOutputs(w: World, c: ComputeCache)
    requires AllStatic(w) && c in w.g.caches
    ensures var r := ValueOf(w.g, c);
      r.Some? && Computed(w.all, w.height, ContentOf(w), w.target(c), w.offset(c), r.value)
    decreases c.rank, |c.mInputs| + 1
  {
    InputsAreOutputs(w, c, |c.mInputs|);
    var contents := Map(w.g.content, c.mInputInside);
    MapLength(w.g.content, c.mInputInside);
    forall i | 0 <= i < |contents| ensures contents[i] == w.g.content(c.mInputInside[i]) {
      MapAt(w.g.content, c.mInputInside, i);
    }
    RunComputes(w, c, PlanOf(w.g, c), contents, ValuesTo(w.g, c, |c.mInputs|).value);
  }

  lemma {:induction false} InputsAreOutputs(w: World, c: ComputeCache, n: nat)
    requires AllStatic(w) && c in w.g.caches && n <= |c.mInputs|
    ensures var r := ValuesTo(w.g, c, n);
      && r.Some? && |r.value| == n
      && forall j :: 0 <= j < n ==>
           Computed(w.all, w.height, ContentOf(w), w.target(c.mInputs[j]), w.offset(c.mInputs[j]), r.value[j])
    decreases c.rank, n
  {
    if n > 0 {
      InputsAreOutputs(w, c, n - 1);
      ValuesAreOutputs(w, c.mInputs[n - 1]);
    }
  }

  // ----- the invariant of every run -----

  ghost function StaleOnes(caches: set<ComputeCache>): set<ComputeCache>
    reads caches`mShapeDirty
  {
    set c | c in caches && c.mShapeDirty
  }

  /** Expressions and caches know each other. */
  ghost predicate Attached(all: set<Expr>, caches: set<ComputeCache>, target: ComputeCache -> Expr,
      offset: ComputeCache -> nat)
    reads all`mCache, all`mCacheOffset
  {
    && (forall e :: e in all && e.mCache != null ==>
          e.mOp.Some? && e.mCache in caches && target(e.mCache) == e && offset(e.mCache) == e.mCacheOffset)
    && forall c :: c in caches ==> target(c) in all && target(c).mCache == c
  }

  /** What the expressions say about each other; locked. */
  ghost predicate Graph(all: set<Expr>, height: nat)
    reads all`mInfoDirty, all`mValid, all`info, all`mTo, all`mVisited
  {
    forall key: nat {:trigger Unlock(key)} :: Unlock(key) ==>
      AllSensible(all, height) && Linked(all) && NoFlags(all)
  }

  /** The sessions of expressions of unknown shape have to be prepared; locked. */
  ghost predicate Marked(all: set<Expr>, caches: set<ComputeCache>)
    reads all`mInfoDirty, all`mCache, caches`mShapeDirty
  {
    forall key: nat {:trigger Unlock(key)} :: Unlock(key) ==> CachesStale(all, caches, StaleOnes(caches))
  }

  // ----- soundness by sets -----

  /** The caches in cs hold their values, their leaves have been written, and their inputs are in `clean`. */
  ghost predicate CleanIn(g: Net, cs: set<ComputeCache>, clean: set<ComputeCache>)
    requires Closed(g)
    reads cs`result
  {
    cs <= g.caches && forall c :: c in cs ==>
      ValueOf(g, c) == Some(c.result) && NoneIn(c.mInputInside, g.missing)
        && forall i :: 0 <= i < |c.mInputs| ==> c.mInputs[i] in clean
  }

  /** The caches in cs are prepared for the current shapes, and their inputs are in `ready`. */
  ghost predicate ReadyIn(g: Net, cs: set<ComputeCache>, ready: set<ComputeCache>)
    requires Closed(g)
    reads cs`prepared
  {
    cs <= g.caches && forall c :: c in cs ==>
      c.prepared == PlanOf(g, c) && NoneIn(c.mInputInside, g.unknown)
        && forall i :: 0 <= i < |c.mInputs| ==> c.mInputs[i] in ready
  }

  ghost predicate CleanSound(g: Net, clean: set<ComputeCache>)
    requires Closed(g)
    reads clean`result
  {
    CleanIn(g, clean, clean)
  }

  ghost predicate ReadySound(g: Net, ready: set<ComputeCache>)
    requires Closed(g)
    reads ready`prepared
  {
    ReadyIn(g, ready, ready)
  }

  lemma SoundBySets(g: Net)
    requires Closed(g)
    ensures Sound(g) <==> CleanSound(g, CleanOnes(g)) && ReadySound(g, PreparedOnes(g))
  {
    assert Unlock(0);
    if Sound(g) {
      forall c | c in g.caches ensures ShapeSound(g, c) && ContentSound(g, c) {}
    }
    if CleanSound(g, CleanOnes(g)) && ReadySound(g, PreparedOnes(g)) {
      forall c | c in g.caches ensures ShapeSound(g, c) && ContentSound(g, c) {
        assert c.Clean() ==> c in CleanOnes(g);
        assert !c.mShapeDirty ==> c in PreparedOnes(g);
      }
    }
  }

  /** All but what the leaves hold. */
  ghost predicate Framed(w: World)
    reads w.all`mInfoDirty, w.all`mValid, w.all`info, w.all`mTo, w.all`mVisited, w.all`mCache, w.all`mCacheOffset
    reads w.g.caches`mShapeDirty
  {
    && AllStatic(w) && Attached(w.all, w.g.caches, w.target, w.offset)
    && Graph(w.all, w.height) && Marked(w.all, w.g.caches)
  }

  /** Whatever the user does, this holds; locked. */
  ghost predicate Running(w: World)
    reads w.all`mInfoDirty, w.all`mValid, w.all`info, w.all`mTo, w.all`mVisited, w.all`mCache, w.all`mCacheOffset
    reads w.g.leaves`info, w.g.leaves`content, w.g.leaves`mInfoDirty, w.g.leaves`mContentDirty, w.g.caches
  {
    forall key: nat {:trigger Unlock(key)} :: Unlock(key) ==> Framed(w) && Sound(w.g) && Current(w.g)
  }

  lemma Opened(w: World)
    requires Running(w)
    ensures Framed(w) && Sound(w.g) && Current(w.g)
  {
    assert Unlock(0);
  }

  // ----- writing a leaf -----

  ghost function Wrote(w: World, x: Expr, v: Tensor): World {
    w.(g := w.g.(content := (y: Expr) => if y == x then [v] else w.g.content(y), missing := w.g.missing - {x}))
  }

  lemma WriteKeepsStatic(w: World, x: Expr, v: Tensor)
    requires AllStatic(w) && x in w.all && x.mOp.None? && x.isInput
    ensures AllStatic(Wrote(w, x, v))
  {
    forall c | c in w.g.caches ensures Static(Wrote(w, x, v), c) {
      StaticAt(w, c);
    }
  }

  /** The caches for whose target the content depends on x. */
  ghost function Dependents(w: World, x: Expr): set<ComputeCache>
    requires AllStatic(w)
  {
    set c | c in w.g.caches && w.target(c) in w.all && Draws(w.all, w.height, w.target(c), x)
  }

  /** The other caches are connected to one another, and to other leaves. */
  lemma OthersApart(w: World, x: Expr)
    requires AllStatic(w) && x in w.all
    ensures var others := w.g.caches - Dependents(w, x); InputsWithin(others) && x !in LeavesOf(others)
  {
    var others := w.g.caches - Dependents(w, x);
    forall c, i | c in others && 0 <= i < |c.mInputs| ensures c.mInputs[i] in others {
      StaticAt(w, c);
      StaticAt(w, c.mInputs[i]);
      if c.mInputs[i] in Dependents(w, x) {
        DrawsTransitive(w.all, w.height, w.target(c), w.target(c.mInputs[i]), x);
      }
    }
    forall c, i | c in others && 0 <= i < |c.mInputInside| ensures c.mInputInside[i] != x {
      StaticAt(w, c);
    }
  }

  /** Once everything whose content depends on x is marked, the others are as they should be. */
  lemma WriteKeepsSound(w: World, x: Expr, v: Tensor, clean: set<ComputeCache>, ready: set<ComputeCache>)
    requires AllStatic(w) && x in w.all && CleanSound(w.g, clean) && ReadySound(w.g, ready)
    ensures var g := Wrote(w, x, v).g; Closed(g) && CleanSound(g, clean - Dependents(w, x)) && ReadySound(g, ready)
  {
    var g, others := Wrote(w, x, v).g, w.g.caches - Dependents(w, x);
    OthersApart(w, x);
    forall c | c in clean && c !in Dependents(w, x)
      ensures ValueOf(g, c) == Some(c.result)
      ensures forall i :: 0 <= i < |c.mInputs| ==> c.mInputs[i] in clean - Dependents(w, x)
    {
      ValueSame(w.g, g, others, c);
    }
    forall c | c in ready ensures c.prepared == PlanOf(g, c) {
      PlanSame(w.g, g, w.g.caches, c);
    }
  }

  /** The caches in `told` have been marked, and all is otherwise as it was; locked. */
  ghost predicate WritePending(w: World, clean: set<ComputeCache>, told: set<ComputeCache>)
    reads w.all`mInfoDirty, w.all`mValid, w.all`info, w.all`mTo, w.all`mVisited, w.all`mCache, w.all`mCacheOffset
    reads w.g.caches
  {
    forall key: nat {:trigger Unlock(key)} :: Unlock(key) ==>
      && Framed(w) && clean <= w.g.caches && CleanSound(w.g, clean) && ReadySound(w.g, PreparedOnes(w.g))
      && CleanOnes(w.g) == clean - told
  }

  /** The walk gets through to all whose content depends on x, or it takes the chain p and leaves the cache of the
      last in it alone. */
  ghost predicate ToldBelow(w: World, x: Expr, p: seq<Expr>, told: set<ComputeCache>)
    requires AllStatic(w)
    reads p`mCache
  {
    && told <= Dependents(w, x) && (Unhindered(w.all, w.height, x) ==> told == Dependents(w, x))
    && (p != [] ==> p[|p| - 1].mCache !in told)
  }

  lemma ToldAre(w: World, x: Expr, p: seq<Expr>, reached: seq<Expr>, told: set<ComputeCache>)
    requires AllStatic(w) && Attached(w.all, w.g.caches, w.target, w.offset)
    requires told == set c | c in w.g.caches && CacheOf(reached, c)
    requires forall e :: e in reached ==> e in w.all && Draws(w.all, w.height, e, x)
    requires Unhindered(w.all, w.height, x) ==>
      forall e :: e in w.all && Draws(w.all, w.height, e, x) ==> e in reached
    requires p != [] ==> p[|p| - 1] in w.all && p[|p| - 1] !in reached
    ensures ToldBelow(w, x, p, told)
  {
    forall c | c in told ensures c in Dependents(w, x) {
      var e :| e in reached && e.mCache == c;
    }
    if Unhindered(w.all, w.height, x) {
      forall c | c in Dependents(w, x) ensures c in told {
        assert w.target(c) in reached;
      }
    }
  }

  method InformGraph(x: Expr, ghost all: set<Expr>, ghost height: nat, ghost caches: set<ComputeCache>,
      ghost p: seq<Expr>)
    returns (ghost reached: seq<Expr>)
    requires Acyclic(all, height) && Graph(all, height) && Known(all, caches) && x in all && Takes(all, p, x, [])
    modifies all`mVisited, all`mTo, caches`mContentDirty
    ensures Graph(all, height)
    ensures forall c :: c in caches ==> (c.mContentDirty <==> old(c.mContentDirty) || CacheOf(reached, c))
    ensures forall e :: e in reached ==> e in all && Draws(all, height, e, x)
    ensures Unhindered(all, height, x) ==> forall e :: e in all && Draws(all, height, e, x) ==> e in reached
    ensures p != [] ==> p[|p| - 1] !in reached
  {
    assert Unlock(0);
    reached := InformDirty.InformDirty(x, all, height, caches, p);
  }

  /** Tells the caches below x. */
  method MarkDependents(x: Expr, ghost w: World, ghost p: seq<Expr>) returns (ghost told: set<ComputeCache>)
    requires AllStatic(w) && Attached(w.all, w.g.caches, w.target, w.offset) && Graph(w.all, w.height) && x in w.all
    requires Takes(w.all, p, x, [])
    modifies w.all`mVisited, w.all`mTo, w.g.caches`mContentDirty
    ensures Graph(w.all, w.height) && CleanOnes(w.g) == old(CleanOnes(w.g)) - told && ToldBelow(w, x, p, told)
  {
    ghost var reached := InformGraph(x, w.all, w.height, w.g.caches, p);
    told := set c | c in w.g.caches && CacheOf(reached, c);
    ToldAre(w, x, p, reached, told);
  }

  method Mark(x: Expr, ghost w: World, ghost p: seq<Expr>)
    returns (ghost clean: set<ComputeCache>, ghost told: set<ComputeCache>)
    requires Running(w) && AllStatic(w) && x in w.all && Takes(w.all, p, x, [])
    modifies w.all`mVisited, w.all`mTo, w.g.caches`mContentDirty
    ensures WritePending(w, clean, told) && ToldBelow(w, x, p, told) && clean == old(CleanOnes(w.g))
  {
    assert Unlock(0);
    clean := CleanOnes(w.g);
    SoundBySets(w.g);
    told := MarkDependents(x, w, p);
  }

  lemma LeafKnown(w: World, x: Expr)
    requires Running(w) && x in w.all && x.mOp.None?
    ensures AllStatic(w) && Current(w.g) && x in w.g.leaves && !x.mInfoDirty
  {
    assert Unlock(0);
    assert Sensible(w.all, w.height, x);
  }

  /** The new content is what the leaf holds. */
  method SetContent(x: Expr, v: Tensor, ghost w: World)
    requires Current(w.g) && x in w.g.leaves && !x.mInfoDirty
    modifies x`mContentDirty, x`content
    ensures Current(Wrote(w, x, v).g)
  {
    x.mContentDirty := false;
    x.content := [v];
  }

  lemma WriteDone(w: World, x: Expr, v: Tensor, clean: set<ComputeCache>, told: set<ComputeCache>)
    requires WritePending(w, clean, told) && x in w.all && x.mOp.None? && x.isInput && Current(Wrote(w, x, v).g)
    ensures Framed(Wrote(w, x, v)) && AllStatic(w)
    ensures told == Dependents(w, x) ==> Running(Wrote(w, x, v))
  {
    assert Unlock(0);
    var w' := Wrote(w, x, v);
    WriteKeepsStatic(w, x, v);
    if told == Dependents(w, x) {
      WriteKeepsSound(w, x, v, clean, PreparedOnes(w.g));
      assert CleanOnes(w'.g) == clean - told && PreparedOnes(w'.g) == PreparedOnes(w.g);
      SoundBySets(w'.g);
    }
  }

  /** A clean cache holds what evaluating its target from scratch gives. */
  lemma CleanHolds(w: World, c: ComputeCache)
    requires Running(w) && AllStatic(w) && c in w.g.caches && c.Clean()
    ensures Computed(w.all, w.height, ContentOf(w), w.target(c), w.offset(c), c.result)
  {
    Opened(w);
    SoundBySets(w.g);
    ValuesAreOutputs(w, c);
  }

  /** Writes a leaf, after telling the caches below it.  Every cache that is clean then holds its value, if the walk
      is not hindered; if it takes a chain at whose end it is, the cache there stays as it was. */
  method Write(x: Expr, v: Tensor, ghost w: World, ghost p: seq<Expr>) returns (ghost w': World)
    requires Running(w) && x in w.all && x.mOp.None? && x.isInput && Takes(w.all, p, x, [])
    modifies w.all`mVisited, w.all`mTo, w.g.caches`mContentDirty, x`mContentDirty, x`content
    ensures w' == Wrote(w, x, v) && Framed(w') && Current(w'.g) && x.content == [v] && !x.mContentDirty
    ensures Unhindered(w.all, w.height, x) ==> Running(w')
    ensures p != [] && p[|p| - 1].mCache != null && old(p[|p| - 1].mCache.Clean()) ==> p[|p| - 1].mCache.Clean()
  {
    LeafKnown(w, x);
    ghost var clean, told := Mark(x, w, p);
    if p != [] && p[|p| - 1].mCache != null { StillClean(w, p[|p| - 1], clean, told); }
    SetContent(x, v, w);
    WriteDone(w, x, v, clean, told);
    w' := Wrote(w, x, v);
  }

  lemma StillClean(w: World, e: Expr, clean: set<ComputeCache>, told: set<ComputeCache>)
    requires WritePending(w, clean, told) && e in w.all && e.mCache != null && e.mCache !in told
    ensures e.mCache in clean ==> e.mCache.Clean()
    ensures e.mCache in w.g.caches
  {
    assert Unlock(0);
    assert e.mCache in clean ==> e.mCache in CleanOnes(w.g);
  }

  /** A clean cache holds one value only. */
  lemma SameValue(w: World, w': World, c: ComputeCache)
    requires AllStatic(w) && AllStatic(w') && w' == w.(g := w'.g) && w'.g.caches == w.g.caches && c in w.g.caches
    requires c.Clean() && Computed(w.all, w.height, ContentOf(w), w.target(c), w.offset(c), c.result) && Running(w')
    ensures OutsOf(w.all, w.height, ContentOf(w'), w.target(c)) == OutsOf(w.all, w.height, ContentOf(w), w.target(c))
  {
    var e, a := w.target(c), w.offset(c);
    CleanHolds(w', c);
    assert OutsOf(w.all, w.height, ContentOf(w'), e) == c.result[a..a + Outputs(e)];
    assert OutsOf(w.all, w.height, ContentOf(w), e) == c.result[a..a + Outputs(e)];
  }

  /** Puts the links of a chain in the order in which the walk takes it. */
  method Relink(p: seq<Expr>, ghost w: World)
    requires Running(w) && Hindered(w.all, p)
    modifies p`mTo
    ensures Running(w) && Takes(w.all, p, p[0], [])
  {
    Opened(w);
    RelinkGraph(p, w.all, w.height);
  }

  method RelinkGraph(p: seq<Expr>, ghost all: set<Expr>, ghost height: nat)
    requires Graph(all, height) && Hindered(all, p)
    modifies p`mTo
    ensures Graph(all, height) && Leads(p)
  {
    assert Unlock(0);
    LinkChain(p, all, height);
  }

  lemma CacheKnown(w: World, e: Expr)
    requires Running(w) && e in w.all && e.mCache != null
    ensures Framed(w) && e.mCache in w.g.caches && w.target(e.mCache) == e && w.offset(e.mCache) == e.mCacheOffset
    ensures e.mCache.Clean() ==> Computed(w.all, w.height, ContentOf(w), e, e.mCacheOffset, e.mCache.result)
  {
    Opened(w);
    if e.mCache.Clean() { CleanHolds(w, e.mCache); }
  }

  /** Whenever something hinders the walk from a leaf, that is, when there is a chain as below, some order of the
      links leaves a cache alone whose content depends on the leaf: it still counts as clean and holds the value from
      before the write, and if the write has changed this value, the invariant is lost. */
  method WriteHindered(x: Expr, v: Tensor, p: seq<Expr>, ghost w: World) returns (ghost w': World)
    requires Running(w) && Framed(w) && x in w.all && x.mOp.None? && x.isInput && Hindered(w.all, p) && p[0] == x
    requires var e := p[|p| - 1]; e.mCache != null && e.mCache.Clean()
    modifies p`mTo, w.all`mVisited, w.all`mTo, w.g.caches`mContentDirty, x`mContentDirty, x`content
    ensures w' == Wrote(w, x, v) && Framed(w') && Current(w'.g)
    ensures var e := p[|p| - 1];
      e.mCache.Clean() && Computed(w.all, w.height, ContentOf(w), e, e.mCacheOffset, e.mCache.result)
    ensures var e := p[|p| - 1];
      OutsOf(w.all, w.height, ContentOf(w'), e) != OutsOf(w.all, w.height, ContentOf(w), e) ==> !Running(w')
  {
    ghost var e := p[|p| - 1];
    CacheKnown(w, e);
    Relink(p, w);
    w' := Write(x, v, w, p);
    if Running(w') { SameValue(w, w', e.mCache); }
  }

  // ----- resizing a leaf -----

  ghost function Resized(w: World, x: Expr, info: Value): World {
    w.(g := w.g.(shape := (y: Expr) => if y == x then info else w.g.shape(y), missing := w.g.missing + {x}))
  }

  lemma ResizeKeepsStatic(w: World, x: Expr, info: Value)
    requires AllStatic(w)
    ensures AllStatic(Resized(w, x, info))
  {
    forall c | c in w.g.caches ensures Static(Resized(w, x, info), c) {
      StaticAt(w, c);
    }
  }

  /** What depends on an expression of unknown shape has no known shape. */
  lemma {:induction false} UnknownAbove(all: set<Expr>, height: nat, e: Expr, x: Expr)
    requires AllSensible(all, height) && e in all && x in all && x.mInfoDirty && DependsOn(all, height, e, x)
    ensures e.mInfoDirty
    decreases e.rank
  {
    assert Sensible(all, height, e);
    var i :| 0 <= i < |e.mInputs| && (e.mInputs[i].from == x || DependsOn(all, height, e.mInputs[i].from, x));
    if e.mInputs[i].from != x { UnknownAbove(all, height, e.mInputs[i].from, x); }
  }

  /** The sessions that need not be prepared anew are connected to one another and were prepared
      before; no session that depends on x is among them. */
  lemma ReadyAfterResize(w: World, x: Expr, ready: set<ComputeCache>)
    requires AllStatic(w) && Attached(w.all, w.g.caches, w.target, w.offset) && AllSensible(w.all, w.height)
      && x in w.all
    requires CachesStale(w.all, w.g.caches, w.g.caches - ready) && ready <= w.g.caches && ReadySound(w.g, ready)
    requires forall e :: e in w.all && DependsOn(w.all, w.height, e, x) ==> e.mInfoDirty
    ensures PreparedOnes(w.g) <= ready - Dependents(w, x) && InputsWithin(PreparedOnes(w.g))
  {
    forall c | c in PreparedOnes(w.g) ensures c in ready - Dependents(w, x) {
      assert w.target(c) in w.all;
      if c in Dependents(w, x) { DrawsDepends(w.all, w.height, w.target(c), x); }
    }
    forall c, i | c in PreparedOnes(w.g) && 0 <= i < |c.mInputs| ensures c.mInputs[i] in PreparedOnes(w.g) {
      var d := c.mInputs[i];
      assert c in ready && d in ready;
      StaticAt(w, c);
      if d.mShapeDirty {
        assert MarkedFor(w.all, d);
        DrawsDepends(w.all, w.height, w.target(c), w.target(d));
        UnknownAbove(w.all, w.height, w.target(c), w.target(d));
      }
    }
  }

  lemma ResizeKeepsSound(w: World, x: Expr, info: Value, clean: set<ComputeCache>, ready: set<ComputeCache>)
    requires AllStatic(w) && x in w.all && CleanSound(w.g, clean) && ReadySound(w.g, ready) && clean <= ready
    requires PreparedOnes(w.g) <= ready - Dependents(w, x) && InputsWithin(PreparedOnes(w.g))
    requires CleanOnes(w.g) == clean * PreparedOnes(w.g)
    ensures var g := Resized(w, x, info).g; Closed(g) && CleanSound(g, CleanOnes(g)) && ReadySound(g, PreparedOnes(g))
  {
    var g, others := Resized(w, x, info).g, w.g.caches - Dependents(w, x);
    OthersApart(w, x);
    assert CleanOnes(g) == CleanOnes(w.g) && PreparedOnes(g) == PreparedOnes(w.g);
    forall c | c in PreparedOnes(g) ensures c.prepared == PlanOf(g, c) {
      PlanSame(w.g, g, others, c);
    }
    forall c | c in CleanOnes(g) ensures ValueOf(g, c) == Some(c.result) {
      ValueSame(w.g, g, others, c);
    }
  }

  /** Everything below x has been told; locked. */
  ghost predicate ResizePending(w: World, x: Expr, clean: set<ComputeCache>, ready: set<ComputeCache>)
    reads w.all`mInfoDirty, w.all`mValid, w.all`info, w.all`mTo, w.all`mVisited, w.all`mCache, w.all`mCacheOffset
    reads w.g.caches
  {
    forall key: nat {:trigger Unlock(key)} :: Unlock(key) ==>
      && AllStatic(w) && Attached(w.all, w.g.caches, w.target, w.offset) && Graph(w.all, w.height)
      && CachesStale(w.all, w.g.caches, w.g.caches - ready) && clean <= ready <= w.g.caches
      && CleanSound(w.g, clean) && ReadySound(w.g, ready) && CleanOnes(w.g) == clean * PreparedOnes(w.g)
      && forall e :: e in w.all && DependsOn(w.all, w.height, e, x) ==> e.mInfoDirty
  }

  lemma ResizeDone(w: World, x: Expr, info: Value, clean: set<ComputeCache>, ready: set<ComputeCache>)
    requires ResizePending(w, x, clean, ready) && x in w.all && Current(Resized(w, x, info).g)
    ensures Running(Resized(w, x, info))
  {
    assert Unlock(0);
    var w' := Resized(w, x, info);
    ReadyAfterResize(w, x, ready);
    ResizeKeepsStatic(w, x, info);
    ResizeKeepsSound(w, x, info, clean, ready);
    SoundBySets(w'.g);
  }

  /** Changes the leaf and tells everything below it. */
  method Tell(x: Expr, info: Value, hasMemory: bool, ghost w: World, ghost stale: set<ComputeCache>) returns (ok: bool)
    requires Shaped(w.all, w.height) && Graph(w.all, w.height) && CachesStale(w.all, w.g.caches, stale)
    requires x in w.all && x.mOp.None? && info != x.info
    modifies x`info, w.all`mInfoDirty, w.all`mContentDirty, w.all`mValid, w.all`mTo, w.g.caches`mShapeDirty
    ensures ok == hasMemory && x.info == info
    ensures ok ==> Graph(w.all, w.height) && CachesStale(w.all, w.g.caches, stale) && x.mContentDirty
    ensures ok ==> forall e :: e in w.all && DependsOn(w.all, w.height, e, x) ==> e.mInfoDirty
    ensures ok ==>
      forall y :: y in w.all && y.mOp.None? ==> !y.mInfoDirty && (y != x ==> y.mContentDirty == old(y.mContentDirty))
  {
    assert Unlock(0);
    ok := ExprDirty.Resize(x, info, hasMemory, w.all, w.height, w.g.caches, stale);
    if ok {
      forall y | y in w.all && y.mOp.None? ensures !y.mInfoDirty {
        assert Sensible(w.all, w.height, y);
      }
    }
  }

  /** The same, for a running engine. */
  method TellAll(x: Expr, info: Value, hasMemory: bool, ghost w: World, ghost clean: set<ComputeCache>,
      ghost ready: set<ComputeCache>)
    returns (ok: bool)
    requires Framed(w) && Current(w.g) && x in w.all && x.mOp.None? && info != x.info
    requires clean == CleanOnes(w.g) && ready == PreparedOnes(w.g) && CleanSound(w.g, clean) && ReadySound(w.g, ready)
    modifies x`info, w.all`mInfoDirty, w.all`mContentDirty, w.all`mValid, w.all`mTo, w.g.caches`mShapeDirty
    ensures ok == hasMemory && (ok ==> ResizePending(w, x, clean, ready) && Current(Resized(w, x, info).g))
    ensures x.info == info && (ok ==> x.mContentDirty)
  {
    assert Unlock(0);
    assert StaleOnes(w.g.caches) == w.g.caches - ready;
    ok := Tell(x, info, hasMemory, w, w.g.caches - ready);
    if ok { Told(w, x, clean, ready); }
  }

  lemma Told(w: World, x: Expr, clean: set<ComputeCache>, ready: set<ComputeCache>)
    requires AllStatic(w) && Attached(w.all, w.g.caches, w.target, w.offset) && Graph(w.all, w.height)
    requires CachesStale(w.all, w.g.caches, w.g.caches - ready) && clean <= ready <= w.g.caches
    requires CleanSound(w.g, clean) && ReadySound(w.g, ready)
    requires forall c :: c in w.g.caches && !c.mShapeDirty ==> (c in clean <==> !c.mContentDirty)
    requires forall e :: e in w.all && DependsOn(w.all, w.height, e, x) ==> e.mInfoDirty
    ensures ResizePending(w, x, clean, ready)
  {
    assert CleanOnes(w.g) == clean * PreparedOnes(w.g);
  }

  lemma Started(w: World) returns (clean: set<ComputeCache>, ready: set<ComputeCache>)
    requires Running(w)
    ensures Framed(w) && Current(w.g) && clean == CleanOnes(w.g) && ready == PreparedOnes(w.g)
    ensures CleanSound(w.g, clean) && ReadySound(w.g, ready)
  {
    assert Unlock(0);
    clean, ready := CleanOnes(w.g), PreparedOnes(w.g);
    SoundBySets(w.g);
  }

  /** Gives an input leaf another shape; its content then has to be written again.  If there is no
      memory for it, the engine may be left with shapes that are out of date; ExprDirty.Resize says
      when it is. */
  method ResizeLeaf(x: Expr, info: Value, hasMemory: bool, ghost w: World) returns (ok: bool, ghost w': World)
    requires Running(w) && x in w.all && x.mOp.None?
    modifies x`info, w.all`mInfoDirty, w.all`mContentDirty, w.all`mValid, w.all`mTo, w.g.caches`mShapeDirty
    ensures ok == (info == old(x.info) || hasMemory) && (ok ==> Running(w')) && x.info == info
    ensures ok && info != old(x.info) ==> x.mContentDirty
    ensures w' == if info == old(x.info) then w else Resized(w, x, info)
  {
    w' := w;
    if info == x.info {
      return true, w;
    }
    ghost var clean, ready := Started(w);
    ok := TellAll(x, info, hasMemory, w, clean, ready);
    w' := Resized(w, x, info);
    if ok {
      ResizeDone(w, x, info, clean, ready);
    }
  }

  // ----- bringing a cache up to date -----

  /** The caches that c depends on, and c. */
  ghost function Scope(w: World, c: ComputeCache): set<ComputeCache>
    requires AllStatic(w) && c in w.g.caches
  {
    set d | d in w.g.caches
      && (d == c || (w.target(c) in w.all && Draws(w.all, w.height, w.target(c), w.target(d))))
  }

  lemma ScopeClosed(w: World, c: ComputeCache)
    requires AllStatic(w) && c in w.g.caches
    ensures InputsWithin(Scope(w, c)) && Closed(w.g.(caches := Scope(w, c))) && c in Scope(w, c)
  {
    forall d, i | d in Scope(w, c) && 0 <= i < |d.mInputs| ensures d.mInputs[i] in Scope(w, c) {
      StaticAt(w, d);
      StaticAt(w, c);
      if d != c { DrawsTransitive(w.all, w.height, w.target(c), w.target(d), w.target(d.mInputs[i])); }
    }
  }

  /** What is sound is sound within the scope, and the other way round if what was sound outside
      has not lost its inputs. */
  lemma ScopeSound(g: Net, scope: set<ComputeCache>, clean: set<ComputeCache>, ready: set<ComputeCache>)
    requires Closed(g) && scope <= g.caches && InputsWithin(scope) && CleanSound(g, clean) && ReadySound(g, ready)
    ensures var g' := g.(caches := scope); Closed(g') && CleanSound(g', clean * scope) && ReadySound(g', ready * scope)
  {
    var g' := g.(caches := scope);
    forall c | c in clean * scope ensures ValueOf(g', c) == Some(c.result) {
      ValueSame(g, g', scope, c);
    }
    forall c | c in ready * scope ensures c.prepared == PlanOf(g', c) {
      PlanSame(g, g', scope, c);
    }
  }

  /** Once the scope is sound, so is everything, if what was clean or prepared in it still is. */
  lemma SoundAgain(g: Net, scope: set<ComputeCache>, clean: set<ComputeCache>, ready: set<ComputeCache>)
    requires Closed(g) && scope <= g.caches && InputsWithin(scope) && Sound(g.(caches := scope))
    requires var now := CleanOnes(g.(caches := scope)); clean * scope <= now && CleanOnes(g) == clean - scope + now
    requires var now := PreparedOnes(g.(caches := scope));
      ready * scope <= now && PreparedOnes(g) == ready - scope + now
    requires CleanIn(g, clean - scope, clean) && ReadyIn(g, ready - scope, ready)
    ensures Sound(g)
  {
    var g' := g.(caches := scope);
    SoundBySets(g');
    forall c | c in CleanOnes(g')
      ensures ValueOf(g, c) == Some(c.result) && forall i :: 0 <= i < |c.mInputs| ==> c.mInputs[i] in CleanOnes(g)
    {
      ValueSame(g, g', scope, c);
    }
    forall c | c in PreparedOnes(g')
      ensures c.prepared == PlanOf(g, c) && forall i :: 0 <= i < |c.mInputs| ==> c.mInputs[i] in PreparedOnes(g)
    {
      PlanSame(g, g', scope, c);
    }
    SoundBySets(g);
  }

  /** Nothing that c depends on is of unknown shape. */
  ghost predicate ShapesKnown(w: World, c: ComputeCache)
    requires AllStatic(w) && c in w.g.caches
    reads w.all`mInfoDirty
  {
    forall d :: d in Scope(w, c) && w.target(d) in w.all ==> !w.target(d).mInfoDirty
  }

  /** Runs the sessions that c needs. */
  method ComputeInScope(c: ComputeCache, ghost w: World, ghost scope: set<ComputeCache>) returns (code: Code)
    requires AllStatic(w) && Sound(w.g) && Current(w.g) && c in scope && scope <= w.g.caches && InputsWithin(scope)
    modifies scope`mShapeDirty, scope`mContentDirty, scope`prepared, scope`result
    ensures Sound(w.g)
    ensures code == NoError ==> c.Clean() && ValueOf(w.g, c) == Some(c.result)
    ensures Closed(w.g.(caches := scope))
    ensures code == CallBackStop ==> Blocked(w.g.(caches := scope), c)
    ensures Blocked(w.g.(caches := scope), c) ==> code != NoError
    ensures code == RunError ==> ValueOf(w.g, c).None?
  {
    ghost var g' := w.g.(caches := scope);
    ghost var clean, ready := CleanOnes(w.g), PreparedOnes(w.g);
    SoundBySets(w.g);
    ScopeSound(w.g, scope, clean, ready);
    assert CleanOnes(g') == clean * scope && PreparedOnes(g') == ready * scope;
    SoundBySets(g');
    ValueSame(w.g, g', scope, c);
    assert CleanIn(w.g, clean - scope, clean) && ReadyIn(w.g, ready - scope, ready);
    ghost var ran;
    code, ran := Compute(c, g');
    SoundAgain(w.g, scope, clean, ready);
  }

  lemma {:induction false} UnwrittenLeaf(w: World, c: ComputeCache) returns (x: Expr)
    requires AllStatic(w) && c in w.g.caches && Unwritten(w.g, c)
    ensures w.target(c) in w.all && IsAwaited(w, x) && Draws(w.all, w.height, w.target(c), x)
    decreases c.rank
  {
    StaticAt(w, c);
    if i :| 0 <= i < |c.mInputInside| && c.mInputInside[i] in w.g.missing {
      x := c.mInputInside[i];
    } else {
      var i :| 0 <= i < |c.mInputs| && Unwritten(w.g, c.mInputs[i]);
      x := UnwrittenLeaf(w, c.mInputs[i]);
      StaticAt(w, c.mInputs[i]);
      DrawsTransitive(w.all, w.height, w.target(c), w.target(c.mInputs[i]), x);
    }
  }

  /** An input leaf that has to be written first. */
  ghost predicate IsAwaited(w: World, x: Expr) {
    x in w.all && x.mOp.None? && x.isInput && x in w.g.missing
  }

  /** A leaf that the content of e depends on, or e itself, has to be written first. */
  ghost predicate Waiting(w: World, e: Expr)
    requires Shaped(w.all, w.height) && e in w.all
  {
    exists x :: x in w.all && IsAwaited(w, x) && (e == x || Draws(w.all, w.height, e, x))
  }

  lemma {:induction false} StageAt(all: set<Expr>, height: nat, has: set<Expr>, who: seq<Expr>, starts: seq<nat>,
      stages: seq<Stage>, k: nat)
    requires Shaped(all, height) && Pipelined(all, height, has, who, starts, stages) && k < |who|
    ensures who[k] in all && StageWired(has, who[..k], starts[..k], who[k], stages[k])
    decreases |who|
  {
    var n := |stages| - 1;
    if k < n {
      StageAt(all, height, has, who[..n], starts[..n], stages[..n], k);
      assert who[..n][..k] == who[..k] && starts[..n][..k] == starts[..k] && stages[..n][k] == stages[k];
    }
  }

  /** Where a stage of the session of c finds an input that it reads: at a leaf or another session of which c knows, or
      at an earlier stage. */
  lemma InputFound(w: World, c: ComputeCache, k: nat, i: nat)
    requires AllStatic(w) && c in w.g.caches && k < |w.pipe(c).who|
    requires var e := w.pipe(c).who[k]; e in w.all && i < |e.mInputs| && e.contentNeedContent[i]
    ensures var p := w.pipe(c); var d := p.who[k].mInputs[i].from;
      if d.mOp.None? then d.isInput ==> d in c.mInputInside
      else (exists j :: 0 <= j < |c.mInputs| && w.target(c.mInputs[j]) == d) || exists j :: 0 <= j < k && p.who[j] == d
  {
    StaticAt(w, c);
    var p := w.pipe(c);
    var e := p.who[k];
    var d := e.mInputs[i].from;
    StageAt(w.all, w.height, p.has, p.who, p.r.starts, p.r.stages, k);
    assert ReadsNear(e, p.has, p.r.near);
    assert InputWired(p.has, p.who[..k], p.r.starts[..k], e, i, p.r.stages[k].inputs[i]);
    if d.mOp.None? || d in p.has {
      assert GoodSlot(w, c, d);
      if d.mOp.Some? {
        var (j, o) := p.w.cacheSlot[d];
        assert w.target(c.mInputs[j]) == d;
      }
    } else {
      var j :| 0 <= j < k && p.who[..k][j] == d;
      assert p.who[j] == d;
    }
  }

  /** A stage that depends on an unwritten leaf keeps the session from running. */
  lemma {:induction false} StageWaits(w: World, c: ComputeCache, k: nat, x: Expr)
    requires AllStatic(w) && c in w.g.caches && k < |w.pipe(c).who| && IsAwaited(w, x)
    requires w.pipe(c).who[k] in w.all && Draws(w.all, w.height, w.pipe(c).who[k], x)
    ensures Unwritten(w.g, c)
    decreases w.pipe(c).who[k].rank, 0
  {
    var p := w.pipe(c);
    var e := p.who[k];
    var i :| 0 <= i < |e.mInputs| && e.contentNeedContent[i] &&
      (e.mInputs[i].from == x || Draws(w.all, w.height, e.mInputs[i].from, x));
    var d := e.mInputs[i].from;
    InputFound(w, c, k, i);
    if d.mOp.Some? {
      if j :| 0 <= j < |c.mInputs| && w.target(c.mInputs[j]) == d {
        TargetWaits(w, c.mInputs[j], x);
      } else {
        var j :| 0 <= j < k && p.who[j] == d;
        StageWaits(w, c, j, x);
      }
    }
  }

  lemma {:induction false} TargetWaits(w: World, c: ComputeCache, x: Expr)
    requires AllStatic(w) && c in w.g.caches && IsAwaited(w, x)
    requires w.target(c) in w.all && Draws(w.all, w.height, w.target(c), x)
    ensures Unwritten(w.g, c)
    decreases w.target(c).rank, 1
  {
    StaticAt(w, c);
    var k :| 0 <= k < |w.pipe(c).who| && w.pipe(c).who[k] == w.target(c);
    StageWaits(w, c, k, x);
  }

  /** The session of e waits for a leaf exactly if e does. */
  lemma WaitingIsUnwritten(w: World, c: ComputeCache)
    requires AllStatic(w) && c in w.g.caches
    ensures w.target(c) in w.all && (Waiting(w, w.target(c)) <==> Unwritten(w.g, c))
  {
    StaticAt(w, c);
    var e := w.target(c);
    if Waiting(w, e) {
      var x :| x in w.all && IsAwaited(w, x) && (e == x || Draws(w.all, w.height, e, x));
      TargetWaits(w, c, x);
    }
    if Unwritten(w.g, c) { var x := UnwrittenLeaf(w, c); }
  }

  lemma {:induction false} AllShaped(g: Net, c: ComputeCache)
    requires Closed(g) && c in g.caches && g.unknown == {}
    ensures !Shapeless(g, c)
    decreases c.rank
  {
    forall i | 0 <= i < |c.mInputs| ensures !Shapeless(g, c.mInputs[i]) { AllShaped(g, c.mInputs[i]); }
  }

  /** A part of the net that is closed under inputs. */
  lemma {:induction false} UnwrittenWithin(g: Net, scope: set<ComputeCache>, c: ComputeCache)
    requires Closed(g) && scope <= g.caches && Closed(g.(caches := scope)) && c in scope
    ensures Unwritten(g.(caches := scope), c) <==> Unwritten(g, c)
    decreases c.rank
  {
    forall i | 0 <= i < |c.mInputs|
      ensures Unwritten(g.(caches := scope), c.mInputs[i]) <==> Unwritten(g, c.mInputs[i])
    {
      UnwrittenWithin(g, scope, c.mInputs[i]);
    }
  }

  /** A session holds the value of its expression, or nothing if that waits for a leaf. */
  lemma BringDone(w: World, c: ComputeCache, scope: set<ComputeCache>, code: Code)
    requires AllStatic(w) && c in scope && scope <= w.g.caches && Closed(w.g.(caches := scope))
    requires code == NoError ==> ValueOf(w.g, c) == Some(c.result)
    requires code == CallBackStop ==> Blocked(w.g.(caches := scope), c)
    requires Blocked(w.g.(caches := scope), c) ==> code != NoError
    requires code == RunError ==> ValueOf(w.g, c).None?
    ensures w.target(c) in w.all && (code == NoError <==> !Waiting(w, w.target(c)))
    ensures code == NoError ==> Computed(w.all, w.height, ContentOf(w), w.target(c), w.offset(c), c.result)
  {
    ValuesAreOutputs(w, c);
    AllShaped(w.g.(caches := scope), c);
    UnwrittenWithin(w.g, scope, c);
    WaitingIsUnwritten(w, c);
  }

  lemma MarkedBy(all: set<Expr>, caches: set<ComputeCache>)
    requires forall e :: e in all && e.mCache != null ==> e.mCache in caches && (e.mInfoDirty ==> e.mCache.mShapeDirty)
    ensures Marked(all, caches)
  {}

  lemma MarkedAgain(w: World, c: ComputeCache)
    requires AllStatic(w) && Attached(w.all, w.g.caches, w.target, w.offset) && c in w.g.caches && ShapesKnown(w, c)
    requires forall e ::
      e in w.all && e.mCache != null && e.mCache !in Scope(w, c) && e.mInfoDirty ==> e.mCache.mShapeDirty
    ensures Marked(w.all, w.g.caches)
  {
  }

  lemma OthersAttached(w: World)
    requires Framed(w)
    ensures forall d :: d in w.all && d.mCache != null ==>
      d.mOp.Some? && d.mCache in w.g.caches && w.target(d.mCache) == d && w.offset(d.mCache) == d.mCacheOffset
        && (d.mInfoDirty ==> d.mCache.mShapeDirty)
    ensures forall d :: d in w.g.caches ==> w.target(d) in w.all && w.target(d).mCache == d
  {
    assert Unlock(0);
  }

  method BringIn(c: ComputeCache, ghost w: World, ghost scope: set<ComputeCache>) returns (code: Code)
    requires AllStatic(w) && Sound(w.g) && Current(w.g) && c in w.g.caches && scope == Scope(w, c)
      && w.target(c) in w.all
    modifies scope`mShapeDirty, scope`mContentDirty, scope`prepared, scope`result
    ensures Sound(w.g)
    ensures code == NoError <==> !Waiting(w, w.target(c))
    ensures code == NoError ==>
      c.Clean() && Computed(w.all, w.height, ContentOf(w), w.target(c), w.offset(c), c.result)
  {
    ScopeClosed(w, c);
    code := ComputeInScope(c, w, scope);
    BringDone(w, c, scope, code);
  }

  /** Brings a cache up to date of whose targets none is of unknown shape. */
  method BringKnown(c: ComputeCache, ghost w: World) returns (code: Code)
    requires Framed(w) && Sound(w.g) && Current(w.g) && c in w.g.caches && w.target(c) in w.all && ShapesKnown(w, c)
    modifies w.g.caches`mShapeDirty, w.g.caches`mContentDirty, w.g.caches`prepared, w.g.caches`result
    ensures Framed(w) && Sound(w.g) && Current(w.g) && (code == NoError <==> !Waiting(w, w.target(c)))
    ensures code == NoError ==>
      c.Clean() && Computed(w.all, w.height, ContentOf(w), w.target(c), w.offset(c), c.result)
  {
    OthersAttached(w);
    code := BringIn(c, w, Scope(w, c));
    MarkedAgain(w, c);
  }

  /** Brings a cache up to date that may be asked for. */
  method Bring(c: ComputeCache, ghost w: World) returns (code: Code)
    requires Running(w) && AllStatic(w) && c in w.g.caches && ShapesKnown(w, c)
    modifies w.g.caches`mShapeDirty, w.g.caches`mContentDirty, w.g.caches`prepared, w.g.caches`result
    ensures Running(w) && w.target(c) in w.all && (code == NoError <==> !Waiting(w, w.target(c)))
    ensures code == NoError ==>
      c.Clean() && Computed(w.all, w.height, ContentOf(w), w.target(c), w.offset(c), c.result)
  {
    Opened(w);
    StaticAt(w, c);
    code := BringKnown(c, w);
  }

  method RequireShape(e: Expr, ghost all: set<Expr>, ghost height: nat, ghost leaf: Expr -> Value) returns (ok: bool)
    requires Acyclic(all, height) && Graph(all, height) && LeafInfos(all, leaf) && e in all
    modifies all`mInfoDirty, all`mValid, all`info
    ensures Graph(all, height) && (ok ==> !e.mInfoDirty) && ok == ShapeOf(all, height, leaf, e).Some?
    ensures forall x :: x in all && x.mOp.None? ==> !x.mInfoDirty && x.info == leaf(x)
    ensures forall d :: d in all && d.mInfoDirty ==> old(d.mInfoDirty)
  {
    assert Unlock(0);
    ok := RequireInfo(e, all, height);
    forall x | x in all && x.mOp.None? ensures !x.mInfoDirty && x.info == leaf(x) {
      assert Sensible(all, height, x) && old(Sensible(all, height, x));
    }
    NoStaleShapes(all, height, leaf, e);
  }

  /** Asks for the shape of e. */
  method Require(e: Expr, ghost w: World) returns (ok: bool)
    requires Running(w) && AllStatic(w) && e in w.all
    modifies w.all`mInfoDirty, w.all`mValid, w.all`info
    ensures Running(w) && (ok ==> !e.mInfoDirty) && ok == ShapeOf(w.all, w.height, w.g.shape, e).Some?
  {
    assert Unlock(0);
    ok := RequireShape(e, w.all, w.height, w.g.shape);
    MarkedBy(w.all, w.g.caches);
    assert Current(w.g) && Sound(w.g);
  }

  // ----- making a cache -----

  method ToSeq<T(==)>(s: set<T>) returns (q: seq<T>)
    ensures forall x :: x in q <==> x in s
  {
    q := [];
    var rest := s;
    while rest != {}
      invariant rest <= s && forall x :: x in q <==> x in s - rest
    {
      var x :| x in rest;
      q := q + [x];
      rest := rest - {x};
    }
  }

  method IndexOf<T(==)>(q: seq<T>, x: T) returns (i: nat)
    requires x in q
    ensures i < |q| && q[i] == x
  {
    i := 0;
    while q[i] != x
      invariant i < |q| && x in q[i..]
      decreases |q| - i
    {
      i := i + 1;
    }
  }

  /** The wiring leads to what x holds. */
  ghost predicate GoodEntry(k: Wiring, leaves: seq<Expr>, caches: seq<ComputeCache>, x: Expr)
    reads x`mCache, x`mCacheOffset, x`content
  {
    if x.mOp.Some? then
      x in k.cacheSlot && k.cacheSlot[x].0 < |caches| && caches[k.cacheSlot[x].0] == x.mCache
        && k.cacheSlot[x].1 == x.mCacheOffset
    else if x.isInput then x in k.leafSlot && k.leafSlot[x] < |leaves| && leaves[k.leafSlot[x]] == x
    else x !in k.leafSlot && x in k.constant && x.content == [k.constant[x]]
  }

  /** Notes where to find what is read from outside. */
  method Connect(near: set<Expr>, leaves: seq<Expr>, caches: seq<ComputeCache>) returns (k: Wiring)
    requires forall x :: x in near ==>
      if x.mOp.Some? then x.mCache != null && x.mCache in caches
      else if x.isInput then x in leaves
      else |x.content| == 1
    ensures forall x :: x in near ==> GoodEntry(k, leaves, caches, x)
  {
    k := Wiring(map[], map[], map[]);
    var rest := near;
    while rest != {}
      invariant rest <= near && forall x :: x in near - rest ==> GoodEntry(k, leaves, caches, x)
      invariant forall x :: x in k.leafSlot ==> x in near - rest && x.isInput
    {
      var x :| x in rest;
      ghost var done, k0 := near - rest, k;
      assert near - (rest - {x}) == done + {x};
      if x.mOp.Some? {
        var j := IndexOf(caches, x.mCache);
        k := k.(cacheSlot := k.cacheSlot[x := (j, x.mCacheOffset)]);
      } else if x.isInput {
        var i := IndexOf(leaves, x);
        k := k.(leafSlot := k.leafSlot[x := i]);
      } else {
        k := k.(constant := k.constant[x := x.content[0]]);
      }
      rest := rest - {x};
      forall y | y in done && y != x ensures GoodEntry(k, leaves, caches, y) {
        assert GoodEntry(k0, leaves, caches, y);
      }
    }
  }

  ghost function Patched<T>(f: ComputeCache -> T, c: ComputeCache, v: T): ComputeCache -> T {
    (d: ComputeCache) => if d == c then v else f(d)
  }

  /** One more cache, made for e. */
  ghost function With(w: World, c: ComputeCache, e: Expr, offset: nat, pipe: Pipe): World {
    w.(g := w.g.(caches := w.g.caches + {c}),
       target := Patched(w.target, c, e), offset := Patched(w.offset, c, offset), pipe := Patched(w.pipe, c, pipe))
  }

  /** What has to hold of a new cache. */
  ghost predicate Fresh(w: World, c: ComputeCache, e: Expr, offset: nat, pipe: Pipe)
    requires Shaped(w.all, w.height)
  {
    && c !in w.g.caches && e in w.all && e.mOp.Some? && c.rank == e.rank
       && c.mSession == PipelineSession(pipe.plan, pipe.w, pipe.r.stages)
    && Pipelined(w.all, w.height, pipe.has, pipe.who, pipe.r.starts, pipe.r.stages)
       && AllReadNear(pipe.who, pipe.has, pipe.r.near)
    && (exists k :: 0 <= k < |pipe.who| && pipe.who[k] == e && offset == pipe.r.starts[k])
    && (forall j ::
       0 <= j < |c.mInputs| ==> c.mInputs[j] in w.g.caches && Draws(w.all, w.height, e, w.target(c.mInputs[j])))
    && (forall i :: 0 <= i < |c.mInputInside| ==> var x := c.mInputInside[i];
          x in w.all && x.mOp.None? && x.isInput && Draws(w.all, w.height, e, x))
    && forall x :: x in pipe.r.near ==> x in w.all && GoodSlot(With(w, c, e, offset, pipe), c, x)
  }

  lemma WithKeepsStatic(w: World, c: ComputeCache, e: Expr, offset: nat, pipe: Pipe)
    requires AllStatic(w) && Fresh(w, c, e, offset, pipe)
    ensures AllStatic(With(w, c, e, offset, pipe))
  {
    var w' := With(w, c, e, offset, pipe);
    forall d | d in w'.g.caches ensures Static(w', d) {
      if d != c { StaticStays(w, c, e, offset, pipe, d); }
    }
    forall j | 0 <= j < |c.mInputs| ensures c.mInputs[j].rank < c.rank {
      StaticAt(w, c.mInputs[j]);
      DrawsDepends(w.all, w.height, e, w.target(c.mInputs[j]));
      DependsOnLower(w.all, w.height, e, w.target(c.mInputs[j]));
    }
  }

  lemma StaticStays(w: World, c: ComputeCache, e: Expr, offset: nat, pipe: Pipe, d: ComputeCache)
    requires AllStatic(w) && c !in w.g.caches && d in w.g.caches
    ensures Static(With(w, c, e, offset, pipe), d)
  {
    var w' := With(w, c, e, offset, pipe);
    StaticAt(w, d);
    forall x | x in w.pipe(d).r.near ensures GoodSlot(w', d, x) {
      assert GoodSlot(w, d, x);
      if x.mOp.Some? {
        var (j, o) := w.pipe(d).w.cacheSlot[x];
        assert d.mInputs[j] in w.g.caches;
        assert w'.target(d.mInputs[j]) == w.target(d.mInputs[j]) && w'.offset(d.mInputs[j]) == w.offset(d.mInputs[j]);
      }
    }
  }

  lemma WithKeepsSound(w: World, c: ComputeCache, g: Net)
    requires AllStatic(w) && Sound(w.g) && c.mShapeDirty && c !in w.g.caches && g == w.g.(caches := w.g.caches + {c})
      && Closed(g)
    ensures Sound(g)
  {
    SoundBySets(w.g);
    assert CleanOnes(g) == CleanOnes(w.g) && PreparedOnes(g) == PreparedOnes(w.g);
    forall d | d in CleanOnes(g) ensures ValueOf(g, d) == Some(d.result) {
      ValueSame(w.g, g, w.g.caches, d);
    }
    forall d | d in PreparedOnes(g) ensures d.prepared == PlanOf(g, d) {
      PlanSame(w.g, g, w.g.caches, d);
    }
    SoundBySets(g);
  }

  lemma FreshCache(w: World, e: Expr, c: ComputeCache, pipe: Pipe)
    requires AllStatic(w) && Current(w.g) && Attached(w.all, w.g.caches, w.target, w.offset) && e in w.all
      && e.mOp.Some?
    requires Cached(w.all, pipe.has) && Built(w.all, w.height, pipe.has, [e], [], pipe.r, pipe.who)
    requires forall x :: x in pipe.r.near ==> GoodEntry(pipe.w, c.mInputInside, c.mInputs, x)
    requires forall x :: x in c.mInputInside <==> x in pipe.r.leaves
    requires forall d :: d in c.mInputs <==> d in pipe.r.caches
    requires c.mSession == PipelineSession(pipe.plan, pipe.w, pipe.r.stages) && c.rank == e.rank && c !in w.g.caches
    ensures e in pipe.r.dst && Fresh(w, c, e, pipe.r.dst[e], pipe)
  {
    var r := pipe.r;
    assert e in [e];
    forall x | x in r.near
      ensures x in w.all && Draws(w.all, w.height, e, x) && GoodSlot(With(w, c, e, r.dst[e], pipe), c, x)
    {
      NearSlot(w, e, c, pipe, x);
    }
    forall j | 0 <= j < |c.mInputs|
      ensures c.mInputs[j] in w.g.caches && Draws(w.all, w.height, e, w.target(c.mInputs[j]))
    {
      assert c.mInputs[j] in r.caches;
      var d :| d in r.near && d.mCache == c.mInputs[j];
    }
    forall i | 0 <= i < |c.mInputInside|
      ensures var x := c.mInputInside[i]; x in w.all && x.mOp.None? && x.isInput && Draws(w.all, w.height, e, x)
    {
      assert c.mInputInside[i] in r.leaves;
    }
  }

  lemma NearSlot(w: World, e: Expr, c: ComputeCache, pipe: Pipe, x: Expr)
    requires AllStatic(w) && Current(w.g) && Attached(w.all, w.g.caches, w.target, w.offset) && e in w.all
      && c !in w.g.caches
    requires Cached(w.all, pipe.has) && Taken(w.all, w.height, [e], pipe.r.near, pipe.r.leaves, pipe.r.caches)
    requires x in pipe.r.near && GoodEntry(pipe.w, c.mInputInside, c.mInputs, x) && e in pipe.r.dst
    ensures x in w.all && Draws(w.all, w.height, e, x) && GoodSlot(With(w, c, e, pipe.r.dst[e], pipe), c, x)
  {
    assert StrictlyDrawn(w.all, w.height, [e], x);
    if x.mOp.Some? {
      assert x.mCache in w.g.caches;
    } else {
      assert x in w.g.leaves;
    }
  }

  /** The engine with the new cache attached. */
  lemma WithRuns(w: World, c: ComputeCache, e: Expr, offset: nat, pipe: Pipe)
    requires AllStatic(w) && Fresh(w, c, e, offset, pipe) && Sound(w.g) && Current(w.g) && Graph(w.all, w.height)
    requires c.mShapeDirty && e.mCache == c && e.mCacheOffset == offset
    requires forall d :: d in w.all && d != e && d.mCache != null ==>
      d.mOp.Some? && d.mCache in w.g.caches && w.target(d.mCache) == d && w.offset(d.mCache) == d.mCacheOffset
        && (d.mInfoDirty ==> d.mCache.mShapeDirty)
    requires forall d :: d in w.g.caches ==> w.target(d) in w.all && w.target(d).mCache == d
    ensures var w' := With(w, c, e, offset, pipe); Running(w') && Framed(w')
  {
    var w' := With(w, c, e, offset, pipe);
    WithKeepsStatic(w, c, e, offset, pipe);
    WithKeepsSound(w, c, w'.g);
    MarkedBy(w'.all, w'.g.caches);
    assert Attached(w'.all, w'.g.caches, w'.target, w'.offset);
  }

  /** Builds the pipeline of e and a session for it. */
  method Build(e: Expr, plan: (seq<Value>, seq<Value>) -> Value, ghost w: World)
    returns (c: ComputeCache, offset: nat, ghost pipe: Pipe)
    requires AllStatic(w) && Current(w.g) && Attached(w.all, w.g.caches, w.target, w.offset) && e in w.all
      && e.mOp.Some?
    ensures fresh(c) && c.mShapeDirty && Fresh(w, c, e, offset, pipe)
  {
    ghost var has := set d | d in w.all && d.mCache != null;
    var r, who := MakePipeline([e], w.all, w.height, has);
    assert forall x :: x in r.near ==> x in w.all && (x.mOp.None? ==> x in w.g.leaves);
    var leaves := ToSeq(r.leaves);
    var caches := ToSeq(r.caches);
    var k := Connect(r.near, leaves, caches);
    pipe := Pipe(r, who, has, k, plan);
    c := new ComputeCache(leaves, caches, PipelineSession(plan, k, r.stages), e.rank);
    FreshCache(w, e, c, pipe);
    offset := r.dst[e];
  }

  /** Gives e a session of its own. */
  method MakeCache(e: Expr, plan: (seq<Value>, seq<Value>) -> Value, ghost w: World) returns (ghost w': World)
    requires Running(w) && AllStatic(w) && e in w.all && e.mOp.Some? && e.mCache == null
    modifies e`mCache, e`mCacheOffset
    ensures Running(w') && Framed(w') && e.mCache != null && fresh(e.mCache) && e.mCache in w'.g.caches
    ensures w'.target(e.mCache) == e && w'.all == w.all && w'.height == w.height
    ensures w' == w.(g := w'.g, target := w'.target, offset := w'.offset, pipe := w'.pipe)
      && w'.g == w.g.(caches := w.g.caches + {e.mCache})
  {
    Opened(w);
    ghost var pipe;
    var c, offset;
    c, offset, pipe := Build(e, plan, w);
    w' := Attach(e, c, offset, pipe, w);
  }

  method Attach(e: Expr, c: ComputeCache, offset: nat, ghost pipe: Pipe, ghost w: World) returns (ghost w': World)
    requires Framed(w) && Sound(w.g) && Current(w.g) && e in w.all && e.mCache == null
    requires Fresh(w, c, e, offset, pipe) && c.mShapeDirty
    modifies e`mCache, e`mCacheOffset
    ensures w' == With(w, c, e, offset, pipe) && e.mCache == c && Running(w') && Framed(w')
  {
    OthersAttached(w);
    e.mCache := c;
    e.mCacheOffset := offset;
    w' := With(w, c, e, offset, pipe);
    WithRuns(w, c, e, offset, pipe);
  }

  // ----- reading -----

  lemma AllKnown(w: World, c: ComputeCache)
    requires Running(w) && AllStatic(w) && c in w.g.caches && w.target(c) in w.all && !w.target(c).mInfoDirty
    ensures ShapesKnown(w, c)
  {
    assert Unlock(0);
    forall d | d in Scope(w, c) && w.target(d) in w.all ensures !w.target(d).mInfoDirty {
      if d != c && w.target(d).mInfoDirty {
        DrawsDepends(w.all, w.height, w.target(c), w.target(d));
        UnknownAbove(w.all, w.height, w.target(c), w.target(d));
      }
    }
  }

  /** What a leaf holds. */
  method ReadLeaf(x: Expr, ghost w: World) returns (r: Option<Value>)
    requires Running(w) && AllStatic(w) && x in w.all && x.mOp.None?
    ensures r.Some? ==> r.value == OutsOf(w.all, w.height, ContentOf(w), x)
    ensures r.None? <==> Waiting(w, x)
  {
    assert Unlock(0);
    assert x in w.g.leaves;
    if x.isInput && x.mContentDirty {
      return None;
    }
    return Some(x.content);
  }

  /** What the session of e holds, once it is up to date. */
  method ReadCache(e: Expr, ghost w: World) returns (r: Option<Value>)
    requires Running(w) && Framed(w) && e in w.all && e.mCache != null && !e.mInfoDirty
    modifies w.g.caches`mShapeDirty, w.g.caches`mContentDirty, w.g.caches`prepared, w.g.caches`result
    ensures Running(w) && (r.Some? ==> e.mCache.Clean())
    ensures r.Some? ==> r.value == OutsOf(w.all, w.height, ContentOf(w), e)
    ensures r.None? <==> Waiting(w, e)
  {
    AllKnown(w, e.mCache);
    var code := Bring(e.mCache, w);
    if code != NoError {
      return None;
    }
    r := Some(e.mCache.result[e.mCacheOffset..e.mCacheOffset + Outputs(e)]);
  }

  /** Makes a cache for e if there is none. */
  method HaveCache(e: Expr, plan: (seq<Value>, seq<Value>) -> Value, ghost w: World) returns (ghost w': World)
    requires Running(w) && Framed(w) && e in w.all && e.mOp.Some?
    modifies e`mCache, e`mCacheOffset
    ensures Running(w') && Framed(w') && e.mCache != null
    ensures w'.all == w.all && w'.height == w.height && w.g.caches <= w'.g.caches
    ensures w'.g == w.g.(caches := w'.g.caches) && fresh(w'.g.caches - w.g.caches)
  {
    w' := w;
    if e.mCache == null {
      w' := MakeCache(e, plan, w);
    }
  }

  /** Reads an expression: what it gives is what evaluating from scratch gives, and it gives nothing exactly if the
      expression has no shape or waits for a leaf to be written. */
  method Read(e: Expr, plan: (seq<Value>, seq<Value>) -> Value, ghost w: World)
    returns (r: Option<Value>, ghost w': World)
    requires Running(w) && Framed(w) && e in w.all
    modifies w.all`mInfoDirty, w.all`mValid, w.all`info, e`mCache, e`mCacheOffset
    modifies w.g.caches`mShapeDirty, w.g.caches`mContentDirty, w.g.caches`prepared, w.g.caches`result
    ensures Running(w') && Framed(w') && w'.all == w.all && w'.height == w.height && w.g.caches <= w'.g.caches
    ensures w'.g == w.g.(caches := w'.g.caches) && fresh(w'.g.caches - w.g.caches)
    ensures r.Some? ==> r.value == OutsOf(w.all, w.height, ContentOf(w), e)
    ensures r.Some? && e.mOp.Some? ==> !e.mInfoDirty && e.mCache != null && e.mCache.Clean()
    ensures r.None? <==> ShapeOf(w.all, w.height, w.g.shape, e).None? || Waiting(w, e)
  {
    w' := w;
    if e.mOp.None? {
      r := ReadLeaf(e, w);
      return;
    }
    var ok := Require(e, w);
    if !ok {
      assert Unlock(0);
      return None, w';
    }
    w' := HaveCache(e, plan, w);
    r := ReadCache(e, w');
  }

  /** An engine without any cache yet. */
  lemma Starts(w: World)
    requires Shaped(w.all, w.height) && AllSensible(w.all, w.height) && Linked(w.all) && NoFlags(w.all)
    requires w.g.caches == {} && (forall e :: e in w.all ==> e.mCache == null) && Current(w.g)
    requires w.g.unknown == {} && w.g.leaves == set x | x in w.all && x.mOp.None?
    requires forall x :: x in w.g.leaves ==> |w.g.content(x)| == 1 && (!x.isInput ==> w.g.content(x) == [w.constant(x)])
    ensures Running(w) && Framed(w)
  {
    MarkedBy(w.all, w.g.caches);
  }
}
