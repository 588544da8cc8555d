/** Bringing a cached session up to date on demand.

    A session is prepared for the shapes of its inputs and then run on their contents.  Caches
    keep what they are connected to for good, and only change their flags and results. */
module ComputeCaches {
  import opened Wrappers
  import opened DepthFirst
  import opened Exprs

  datatype Code = NoError | CallBackStop | RunError

  function Infos(xs: seq<Expr>): seq<Value>
    reads xs`info
  {
    if xs == [] then [] else Infos(xs[..|xs| - 1]) + [xs[|xs| - 1].info]
  }

  function Contents(xs: seq<Expr>): seq<Value>
    reads xs`content
  {
    if xs == [] then [] else Contents(xs[..|xs| - 1]) + [xs[|xs| - 1].content]
  }

  function Plans(cs: seq<ComputeCache>): seq<Value>
    reads cs`prepared
  {
    if cs == [] then [] else Plans(cs[..|cs| - 1]) + [cs[|cs| - 1].prepared]
  }

  function Results(cs: seq<ComputeCache>): seq<Value>
    reads cs`result
  {
    if cs == [] then [] else Results(cs[..|cs| - 1]) + [cs[|cs| - 1].result]
  }

  /** Prepares the session for the shapes of its inputs. */
  method ResizeImpl(c: ComputeCache)
    modifies c`mShapeDirty, c`mContentDirty, c`prepared
    ensures !c.mShapeDirty && c.mContentDirty
    ensures c.prepared == c.mSession.plan(Infos(c.mInputInside), old(Plans(c.mInputs)))
  {
    c.mShapeDirty := false;
    c.prepared := c.mSession.plan(Infos(c.mInputInside), Plans(c.mInputs));
    c.mContentDirty := true;
  }

  /** Runs the session. */
  method RunSession(c: ComputeCache) returns (code: Code)
    modifies c`result
    ensures var r := c.mSession.run(c.prepared, Contents(c.mInputInside), old(Results(c.mInputs)));
      if r.Some? then code == NoError && c.result == r.value else code == RunError && c.result == old(c.result)
  {
    var r := c.mSession.run(c.prepared, Contents(c.mInputInside), Results(c.mInputs));
    if r.None? {
      return RunError;
    }
    c.result := r.value;
    return NoError;
  }

  /** Whether the shape of a leaf is not known. */
  method InfoMissing(xs: seq<Expr>) returns (missing: bool)
    ensures missing <==> exists i :: 0 <= i < |xs| && xs[i].mInfoDirty
  {
    for i := 0 to |xs|
      invariant forall k :: 0 <= k < i ==> !xs[k].mInfoDirty
    {
      if xs[i].mInfoDirty {
        return true;
      }
    }
    return false;
  }

  /** Whether the content of a leaf has not been written. */
  method ContentMissing(xs: seq<Expr>) returns (missing: bool)
    ensures missing <==> exists i :: 0 <= i < |xs| && xs[i].mContentDirty
  {
    for i := 0 to |xs|
      invariant forall k :: 0 <= k < i ==> !xs[k].mContentDirty
    {
      if xs[i].mContentDirty {
        return true;
      }
    }
    return false;
  }

  method AllVisited(cs: seq<ComputeCache>, visited: set<ComputeCache>) returns (ok: bool)
    ensures ok <==> forall i :: 0 <= i < |cs| ==> cs[i] in visited
  {
    for i := 0 to |cs|
      invariant forall k :: 0 <= k < i ==> cs[k] in visited
    {
      if cs[i] !in visited {
        return false;
      }
    }
    return true;
  }

  // ----- what a cache should hold -----

  /** The caches and leaves of an engine, and what the leaves hold; `unknown` are the leaves whose shape has not been
      set, and `missing` those whose content has not been written. */
  datatype Net = Net(caches: set<ComputeCache>, leaves: set<Expr>, shape: Expr -> Value, content: Expr -> Value,
    unknown: set<Expr>, missing: set<Expr>)

  /** The caches are closed under inputs and without a cycle, and connected to known leaves. */
  ghost predicate Closed(g: Net) {
    && (forall c, i :: c in g.caches && 0 <= i < |c.mInputs| ==> c.mInputs[i] in g.caches && c.mInputs[i].rank < c.rank)
    && forall c, i :: c in g.caches && 0 <= i < |c.mInputInside| ==> c.mInputInside[i] in g.leaves
  }

  ghost predicate Current(g: Net)
    reads g.leaves`info, g.leaves`content, g.leaves`mInfoDirty, g.leaves`mContentDirty
  {
    forall x :: x in g.leaves ==>
      && g.shape(x) == x.info && g.content(x) == x.content
      && (x in g.unknown <==> x.mInfoDirty) && (x in g.missing <==> x.mContentDirty)
  }

  function Map(f: Expr -> Value, xs: seq<Expr>): seq<Value> {
    if xs == [] then [] else Map(f, xs[..|xs| - 1]) + [f(xs[|xs| - 1])]
  }

  /** The plan for the current shapes. */
  ghost function PlanOf(g: Net, c: ComputeCache): Value
    requires Closed(g) && c in g.caches
    decreases c.rank, |c.mInputs| + 1
  {
    c.mSession.plan(Map(g.shape, c.mInputInside), PlansTo(g, c, |c.mInputs|))
  }

  ghost function PlansTo(g: Net, c: ComputeCache, n: nat): seq<Value>
    requires Closed(g) && c in g.caches && n <= |c.mInputs|
    decreases c.rank, n
  {
    if n == 0 then [] else PlansTo(g, c, n - 1) + [PlanOf(g, c.mInputs[n - 1])]
  }

  /** The value for the current shapes and contents, computed from scratch; none if a run fails. */
  ghost function ValueOf(g: Net, c: ComputeCache): Option<Value>
    requires Closed(g) && c in g.caches
    decreases c.rank, |c.mInputs| + 1
  {
    var ins := ValuesTo(g, c, |c.mInputs|);
    if ins.None? then None else c.mSession.run(PlanOf(g, c), Map(g.content, c.mInputInside), ins.value)
  }

  ghost function ValuesTo(g: Net, c: ComputeCache, n: nat): Option<seq<Value>>
    requires Closed(g) && c in g.caches && n <= |c.mInputs|
    decreases c.rank, n
  {
    if n == 0 then Some([])
    else
      var before, last := ValuesTo(g, c, n - 1), ValueOf(g, c.mInputs[n - 1]);
      if before.None? || last.None? then None else Some(before.value + [last.value])
  }

  /** A leaf that the plan of c depends on has no shape. */
  ghost predicate Shapeless(g: Net, c: ComputeCache)
    requires Closed(g) && c in g.caches
    decreases c.rank
  {
    || (exists i :: 0 <= i < |c.mInputInside| && c.mInputInside[i] in g.unknown)
    || exists i :: 0 <= i < |c.mInputs| && Shapeless(g, c.mInputs[i])
  }

  /** A leaf that the value of c depends on has not been written. */
  ghost predicate Unwritten(g: Net, c: ComputeCache)
    requires Closed(g) && c in g.caches
    decreases c.rank
  {
    || (exists i :: 0 <= i < |c.mInputInside| && c.mInputInside[i] in g.missing)
    || exists i :: 0 <= i < |c.mInputs| && Unwritten(g, c.mInputs[i])
  }

  ghost predicate Blocked(g: Net, c: ComputeCache)
    requires Closed(g) && c in g.caches
  {
    Shapeless(g, c) || Unwritten(g, c)
  }

  /** None of the leaves is in the set. */
  ghost predicate NoneIn(xs: seq<Expr>, out: set<Expr>) {
    forall i :: 0 <= i < |xs| ==> xs[i] !in out
  }

  // ----- what a change does not touch -----

  ghost predicate InputsWithin(cs: set<ComputeCache>) {
    forall c, i :: c in cs && 0 <= i < |c.mInputs| ==> c.mInputs[i] in cs
  }

  ghost function LeavesOf(cs: set<ComputeCache>): set<Expr> {
    set c, i | c in cs && 0 <= i < |c.mInputInside| :: c.mInputInside[i]
  }

  lemma {:induction false} MapSame(f: Expr -> Value, f': Expr -> Value, xs: seq<Expr>)
    requires forall i :: 0 <= i < |xs| ==> f(xs[i]) == f'(xs[i])
    ensures Map(f, xs) == Map(f', xs)
  {
    if xs != [] { MapSame(f, f', xs[..|xs| - 1]); }
  }

  ghost predicate SameShapes(g: Net, g': Net, cs: set<ComputeCache>) {
    && Closed(g) && Closed(g') && cs <= g.caches && cs <= g'.caches && InputsWithin(cs)
    && forall x :: x in LeavesOf(cs) ==> g'.shape(x) == g.shape(x)
  }

  ghost predicate SameContents(g: Net, g': Net, cs: set<ComputeCache>) {
    forall x :: x in LeavesOf(cs) ==> g'.content(x) == g.content(x)
  }

  /** Caches connected to the same leaves of the same shapes have the same plans. */
  lemma {:induction false} PlanSame(g: Net, g': Net, cs: set<ComputeCache>, c: ComputeCache)
    requires SameShapes(g, g', cs) && c in cs
    ensures PlanOf(g', c) == PlanOf(g, c)
    decreases c.rank, |c.mInputs| + 1
  {
    PlansSame(g, g', cs, c, |c.mInputs|);
    MapSame(g.shape, g'.shape, c.mInputInside);
  }

  lemma {:induction false} PlansSame(g: Net, g': Net, cs: set<ComputeCache>, c: ComputeCache, n: nat)
    requires SameShapes(g, g', cs) && c in cs && n <= |c.mInputs|
    ensures PlansTo(g', c, n) == PlansTo(g, c, n)
    decreases c.rank, n
  {
    if n > 0 {
      PlansSame(g, g', cs, c, n - 1);
      PlanSame(g, g', cs, c.mInputs[n - 1]);
    }
  }

  /** If the contents are the same, too, so are the values. */
  lemma {:induction false} ValueSame(g: Net, g': Net, cs: set<ComputeCache>, c: ComputeCache)
    requires SameShapes(g, g', cs) && SameContents(g, g', cs) && c in cs
    ensures ValueOf(g', c) == ValueOf(g, c)
    decreases c.rank, |c.mInputs| + 1
  {
    ValuesSame(g, g', cs, c, |c.mInputs|);
    PlanSame(g, g', cs, c);
    MapSame(g.content, g'.content, c.mInputInside);
  }

  lemma {:induction false} ValuesSame(g: Net, g': Net, cs: set<ComputeCache>, c: ComputeCache, n: nat)
    requires SameShapes(g, g', cs) && SameContents(g, g', cs) && c in cs && n <= |c.mInputs|
    ensures ValuesTo(g', c, n) == ValuesTo(g, c, n)
    decreases c.rank, n
  {
    if n > 0 {
      ValuesSame(g, g', cs, c, n - 1);
      ValueSame(g, g', cs, c.mInputs[n - 1]);
    }
  }

  // ----- the invariant -----

  /** A session whose shape flag is clear is prepared for the current shapes, which are known, and so are its inputs. */
  ghost predicate ShapeSound(g: Net, c: ComputeCache)
    requires Closed(g) && c in g.caches
    reads g.caches`mShapeDirty, g.caches`prepared
  {
    !c.mShapeDirty ==>
      c.prepared == PlanOf(g, c) && NoneIn(c.mInputInside, g.unknown)
        && forall i :: 0 <= i < |c.mInputs| ==> !c.mInputs[i].mShapeDirty
  }

  /** A clean cache holds its value, its leaves have been written, and its inputs are clean. */
  ghost predicate ContentSound(g: Net, c: ComputeCache)
    requires Closed(g) && c in g.caches
    reads g.caches`mShapeDirty, g.caches`mContentDirty, g.caches`result
  {
    c.Clean() ==>
      ValueOf(g, c) == Some(c.result) && NoneIn(c.mInputInside, g.missing)
        && forall i :: 0 <= i < |c.mInputs| ==> c.mInputs[i].Clean()
  }

  /** All caches are; under a lock. */
  ghost predicate Sound(g: Net)
    reads g.caches`mShapeDirty, g.caches`mContentDirty, g.caches`prepared, g.caches`result
  {
    Closed(g) && forall key: nat {:trigger Unlock(key)} :: Unlock(key) ==>
      forall c :: c in g.caches ==> ShapeSound(g, c) && ContentSound(g, c)
  }

  /** Nothing prepared lacks a shape. */
  lemma {:induction false} PreparedHasShapes(g: Net, c: ComputeCache)
    requires Sound(g) && c in g.caches && !c.mShapeDirty
    ensures !Shapeless(g, c)
    decreases c.rank
  {
    assert Unlock(0);
    assert ShapeSound(g, c);
    forall i | 0 <= i < |c.mInputs| ensures !Shapeless(g, c.mInputs[i]) { PreparedHasShapes(g, c.mInputs[i]); }
  }

  /** Nothing clean waits for a leaf to be written. */
  lemma {:induction false} CleanIsWritten(g: Net, c: ComputeCache)
    requires Sound(g) && c in g.caches && c.Clean()
    ensures !Unwritten(g, c)
    decreases c.rank
  {
    assert Unlock(0);
    assert ContentSound(g, c);
    forall i | 0 <= i < |c.mInputs| ensures !Unwritten(g, c.mInputs[i]) { CleanIsWritten(g, c.mInputs[i]); }
  }

  lemma CleanIsFree(g: Net, c: ComputeCache)
    requires Sound(g) && c in g.caches && c.Clean()
    ensures !Blocked(g, c)
  {
    PreparedHasShapes(g, c);
    CleanIsWritten(g, c);
  }

  // ----- the explicit stack -----

  ghost function CacheRank(): ComputeCache -> nat {
    (c: ComputeCache) => c.rank
  }

  /** Whatever keeps d from having a value keeps c from it. */
  ghost predicate FailsFor(g: Net, d: ComputeCache, c: ComputeCache)
    requires Closed(g) && c in g.caches && d in g.caches
  {
    && (Shapeless(g, d) ==> Shapeless(g, c)) && (Unwritten(g, d) ==> Unwritten(g, c))
    && (ValueOf(g, d).None? ==> ValueOf(g, c).None?)
  }

  lemma {:induction false} InputFails(g: Net, c: ComputeCache, i: nat, n: nat)
    requires Closed(g) && c in g.caches && i < n <= |c.mInputs| && ValueOf(g, c.mInputs[i]).None?
    ensures ValuesTo(g, c, n).None?
  {
    if i < n - 1 { InputFails(g, c, i, n - 1); }
  }

  /** The search from c: what is on the stack is in the net, and a reason to stop there is one to
      stop for c; c is at the bottom, and
      only there, until it is visited. */
  ghost predicate Searching(g: Net, c: ComputeCache, stack: seq<ComputeCache>, visited: set<ComputeCache>)
    requires Closed(g) && c in g.caches
  {
    && visited <= g.caches
    && (forall k :: 0 <= k < |stack| ==> stack[k] in g.caches && FailsFor(g, stack[k], c))
    && (forall k :: 0 < k < |stack| ==> stack[k].rank < c.rank)
    && if stack == [] then c in visited else stack[0] == c && c !in visited
  }

  ghost predicate HasUnvisited(c: ComputeCache, visited: set<ComputeCache>) {
    exists i :: 0 <= i < |c.mInputs| && c.mInputs[i] !in visited
  }

  lemma Popped(g: Net, c: ComputeCache, stack: seq<ComputeCache>, visited: set<ComputeCache>)
    requires Closed(g) && c in g.caches && stack != [] && Searching(g, c, stack, visited)
    ensures var top, rest := stack[|stack| - 1], stack[..|stack| - 1];
      && Searching(g, c, rest, visited + {top})
      && if top in visited then
          && visited + {top} == visited && Height(CacheRank(), rest, visited) == Height(CacheRank(), stack, visited)
          && Above(rest, visited) < Above(stack, visited)
         else |g.caches - (visited + {top})| < |g.caches - visited|
  {
    PopDecreases(CacheRank(), g.caches, stack, visited);
  }

  lemma Pushed(g: Net, c: ComputeCache, stack: seq<ComputeCache>, visited: set<ComputeCache>)
    requires Closed(g) && c in g.caches && stack != [] && Searching(g, c, stack, visited)
    requires stack[|stack| - 1] !in visited
    requires HasUnvisited(stack[|stack| - 1], visited)
    ensures var more := stack + stack[|stack| - 1].mInputs;
      Searching(g, c, more, visited) && Height(CacheRank(), more, visited) < Height(CacheRank(), stack, visited)
  {
    var top := stack[|stack| - 1];
    forall k | 0 <= k < |top.mInputs| ensures FailsFor(g, top.mInputs[k], c) {
      if ValueOf(g, top.mInputs[k]).None? { InputFails(g, top, k, |top.mInputs|); }
    }
    var i :| 0 <= i < |top.mInputs| && top.mInputs[i] !in visited;
    PushLower(CacheRank(), stack, top.mInputs, visited, top.rank, i);
  }

  // ----- one session at a time -----

  lemma {:induction false} PlansAgree(g: Net, c: ComputeCache, n: nat)
    requires Closed(g) && c in g.caches && n <= |c.mInputs|
    requires forall i :: 0 <= i < |c.mInputs| ==> c.mInputs[i].prepared == PlanOf(g, c.mInputs[i])
    ensures Plans(c.mInputs[..n]) == PlansTo(g, c, n)
  {
    if n > 0 {
      PlansAgree(g, c, n - 1);
      assert c.mInputs[..n][..n - 1] == c.mInputs[..n - 1];
    }
  }

  lemma {:induction false} ResultsAgree(g: Net, c: ComputeCache, n: nat)
    requires Closed(g) && c in g.caches && n <= |c.mInputs|
    requires forall i :: 0 <= i < |c.mInputs| ==> ValueOf(g, c.mInputs[i]) == Some(c.mInputs[i].result)
    ensures ValuesTo(g, c, n) == Some(Results(c.mInputs[..n]))
  {
    if n > 0 {
      ResultsAgree(g, c, n - 1);
      assert c.mInputs[..n][..n - 1] == c.mInputs[..n - 1];
    }
  }

  lemma {:induction false} LeavesAgree(g: Net, xs: seq<Expr>)
    requires Current(g) && forall i :: 0 <= i < |xs| ==> xs[i] in g.leaves
    ensures Infos(xs) == Map(g.shape, xs) && Contents(xs) == Map(g.content, xs)
  {
    if xs != [] { LeavesAgree(g, xs[..|xs| - 1]); }
  }

  /** Resizing one session whose inputs are all prepared. */
  method ResizeOne(c: ComputeCache, ghost g: Net)
    requires Sound(g) && Current(g) && c in g.caches && c.mShapeDirty && NoneIn(c.mInputInside, g.unknown)
    requires forall i :: 0 <= i < |c.mInputs| ==> !c.mInputs[i].mShapeDirty
    modifies c`mShapeDirty, c`mContentDirty, c`prepared
    ensures Sound(g) && !c.mShapeDirty && c.mContentDirty
  {
    assert Unlock(0);
    assert c.mInputs[..|c.mInputs|] == c.mInputs;
    assert forall i :: 0 <= i < |c.mInputs| ==> ShapeSound(g, c.mInputs[i]);
    PlansAgree(g, c, |c.mInputs|);
    LeavesAgree(g, c.mInputInside);
    ResizeImpl(c);
    forall e | e in g.caches ensures ShapeSound(g, e) && ContentSound(g, e) {
      assert old(ShapeSound(g, e)) && old(ContentSound(g, e));
      if e.Clean() { assert forall i :: 0 <= i < |e.mInputs| ==> old(e.mInputs[i].Clean()); }
    }
  }

  /** A prepared session with clean inputs runs to its value. */
  lemma RunsToValue(g: Net, c: ComputeCache)
    requires Sound(g) && Current(g) && c in g.caches && !c.mShapeDirty
    requires forall i :: 0 <= i < |c.mInputs| ==> c.mInputs[i].Clean()
    ensures c.mSession.run(c.prepared, Contents(c.mInputInside), Results(c.mInputs)) == ValueOf(g, c)
  {
    assert Unlock(0);
    assert c.mInputs[..|c.mInputs|] == c.mInputs;
    assert forall i :: 0 <= i < |c.mInputs| ==> ContentSound(g, c.mInputs[i]);
    assert ShapeSound(g, c);
    ResultsAgree(g, c, |c.mInputs|);
    LeavesAgree(g, c.mInputInside);
  }

  /** Running one session whose inputs are all clean. */
  method RunOne(c: ComputeCache, ghost g: Net) returns (code: Code)
    requires Sound(g) && Current(g) && c in g.caches && !c.mShapeDirty && c.mContentDirty
      && NoneIn(c.mInputInside, g.missing)
    requires forall i :: 0 <= i < |c.mInputs| ==> c.mInputs[i].Clean()
    modifies c`result, c`mContentDirty
    ensures Sound(g)
    ensures code == NoError ==> c.Clean()
    ensures code != NoError ==> code == RunError && !c.Clean() && ValueOf(g, c).None?
  {
    assert Unlock(0);
    RunsToValue(g, c);
    code := RunSession(c);
    if code == NoError {
      c.mContentDirty := false;
    }
    forall e | e in g.caches ensures ShapeSound(g, e) && ContentSound(g, e) {
      assert old(ShapeSound(g, e)) && old(ContentSound(g, e));
      if e != c && e.Clean() { assert forall i :: 0 <= i < |e.mInputs| ==> old(e.mInputs[i].Clean()); }
    }
  }

  // ----- bringing a cache up to date -----

  /** What a look at the topmost entry leads to. */
  datatype Move = Stop | Fail | Descend | Finish(ran: bool)

  /** Prepared sessions stay as they are; the others end up prepared but not run, or not prepared. */
  twostate predicate ShapesKept(g: Net)
    reads g.caches`mShapeDirty, g.caches`mContentDirty
  {
    forall d :: d in g.caches ==>
      if old(d.mShapeDirty) then d.mShapeDirty || d.mContentDirty
      else !d.mShapeDirty && d.mContentDirty == old(d.mContentDirty)
  }

  ghost function PreparedOnes(g: Net): set<ComputeCache>
    reads g.caches`mShapeDirty
  {
    set d | d in g.caches && !d.mShapeDirty
  }

  /** Prepares the cache, if its inputs have been visited. */
  method ResizeStep(cache: ComputeCache, visited: set<ComputeCache>, ghost g: Net) returns (move: Move)
    requires Sound(g) && Current(g) && cache in g.caches && visited <= PreparedOnes(g)
    modifies cache`mShapeDirty, cache`mContentDirty, cache`prepared
    ensures Sound(g) && ShapesKept(g) && old(PreparedOnes(g)) <= PreparedOnes(g)
    ensures move.Stop? ==> cache.mShapeDirty && Shapeless(g, cache)
    ensures move.Descend? ==> cache.mShapeDirty && cache !in visited && HasUnvisited(cache, visited)
    ensures move.Finish? ==> !cache.mShapeDirty
    ensures !move.Fail?
  {
    if !cache.mShapeDirty {
      return Finish(false);
    }
    var stop := InfoMissing(cache.mInputInside);
    if stop {
      return Stop;
    }
    var ready := AllVisited(cache.mInputs, visited);
    if !ready {
      return Descend;
    }
    ResizeOne(cache, g);
    return Finish(false);
  }

  /** Prepares a session and, before it, all those it depends on; stops exactly if some leaf among theirs
      has no shape. */
  method Resize(c: ComputeCache, ghost g: Net) returns (code: Code)
    requires Sound(g) && Current(g) && c in g.caches
    modifies g.caches`mShapeDirty, g.caches`mContentDirty, g.caches`prepared
    ensures Sound(g) && ShapesKept(g) && !code.RunError?
    ensures code == NoError ==> !c.mShapeDirty
    ensures code == CallBackStop ==> c.mShapeDirty
    ensures code == CallBackStop <==> Shapeless(g, c)
  {
    var dfsStack, visited := [c], {};
    while dfsStack != []
      invariant Sound(g) && ShapesKept(g) && Searching(g, c, dfsStack, visited)
      invariant visited <= PreparedOnes(g)
      invariant |dfsStack| > 1 ==> c.mShapeDirty
      decreases |g.caches - visited|, Height(CacheRank(), dfsStack, visited), Above(dfsStack, visited)
    {
      var cache := dfsStack[|dfsStack| - 1];
      var move := ResizeStep(cache, visited, g);
      match move {
        case Stop =>
          return CallBackStop;
        case Descend =>
          Pushed(g, c, dfsStack, visited);
          dfsStack := dfsStack + cache.mInputs;
        case Finish(_) =>
          Popped(g, c, dfsStack, visited);
          visited := visited + {cache};
          dfsStack := dfsStack[..|dfsStack| - 1];
      }
    }
    PreparedHasShapes(g, c);
    return NoError;
  }

  ghost function CleanOnes(g: Net): set<ComputeCache>
    reads g.caches`mShapeDirty, g.caches`mContentDirty
  {
    set d | d in g.caches && d.Clean()
  }

  /** Runs the cache, if it has to be run and its inputs have been visited. */
  method ComputeStep(cache: ComputeCache, visited: set<ComputeCache>, ghost g: Net) returns (move: Move)
    requires Sound(g) && Current(g) && cache in g.caches && visited <= CleanOnes(g)
    modifies g.caches`mShapeDirty, g.caches`mContentDirty, g.caches`prepared, cache`result
    ensures Sound(g)
    ensures move.Stop? ==> Blocked(g, cache)
    ensures move.Fail? ==> ValueOf(g, cache).None?
    ensures move.Descend? ==> cache !in visited && HasUnvisited(cache, visited)
    ensures move == Finish(false) ==> CleanOnes(g) == old(CleanOnes(g)) && cache in CleanOnes(g)
    ensures move == Finish(true) ==> cache !in old(CleanOnes(g)) && !HasUnvisited(cache, visited)
    ensures CleanOnes(g) == old(CleanOnes(g)) + if move == Finish(true) then {cache} else {}
    ensures old(PreparedOnes(g)) <= PreparedOnes(g)
  {
    var stop := ContentMissing(cache.mInputInside);
    if stop {
      return Stop;
    }
    if cache.mShapeDirty {
      var code := Resize(cache, g);
      if code != NoError {
        cache.SetShapeDirty();
        return Stop;
      }
    }
    if !cache.mContentDirty {
      return Finish(false);
    }
    var ready := AllVisited(cache.mInputs, visited);
    if !ready {
      return Descend;
    }
    var code := RunOne(cache, g);
    if code != NoError {
      return Fail;
    }
    return Finish(true);
  }

  /** Sessions run one after another: each once, none that was clean before, and each after the
      inputs that were not. */
  ghost predicate Schedule(ran: seq<ComputeCache>, clean: set<ComputeCache>) {
    && (forall k :: 0 <= k < |ran| ==> ran[k] !in clean && ran[k] !in ran[..k])
    && forall k, i ::
       0 <= k < |ran| && 0 <= i < |ran[k].mInputs| ==> ran[k].mInputs[i] in clean || ran[k].mInputs[i] in ran[..k]
  }

  lemma ScheduleNext(ran: seq<ComputeCache>, clean: set<ComputeCache>, c: ComputeCache)
    requires Schedule(ran, clean) && c !in clean && c !in ran
    requires forall i :: 0 <= i < |c.mInputs| ==> c.mInputs[i] in clean || c.mInputs[i] in ran
    ensures Schedule(ran + [c], clean)
  {
    var more := ran + [c];
    assert forall k :: 0 <= k < |ran| ==> more[..k] == ran[..k];
    assert more[..|ran|] == ran;
  }

  /** The state of the search from c, when `now` are the clean caches: the visited ones, those that
      were clean at first, and of the others the ones that have been run. */
  ghost predicate Computing(visited: set<ComputeCache>, ran: seq<ComputeCache>, clean: set<ComputeCache>,
      now: set<ComputeCache>) {
    && Schedule(ran, clean) && visited <= now && clean <= now
    && (forall d :: d in now ==> d in clean || d in ran)
    && forall d :: d in ran ==> d in visited
  }

  lemma Ran(visited: set<ComputeCache>, ran: seq<ComputeCache>, clean: set<ComputeCache>, now: set<ComputeCache>,
      top: ComputeCache)
    requires Computing(visited, ran, clean, now) && top !in now && !HasUnvisited(top, visited)
    ensures Computing(visited + {top}, ran + [top], clean, now + {top})
  {
    ScheduleNext(ran, clean, top);
  }

  /** Brings a cache up to date.  On success it holds its value.  It does not succeed as long as a leaf that it depends
      on has no shape or has not been written; it only stops for such a leaf, and only fails where computing from
      scratch fails. */
  method Compute(c: ComputeCache, ghost g: Net) returns (code: Code, ghost ran: seq<ComputeCache>)
    requires Sound(g) && Current(g) && c in g.caches
    modifies g.caches`mShapeDirty, g.caches`mContentDirty, g.caches`prepared, g.caches`result
    ensures Sound(g)
    ensures code == NoError ==> c.Clean() && ValueOf(g, c) == Some(c.result)
    ensures code == CallBackStop ==> Blocked(g, c)
    ensures Blocked(g, c) ==> code != NoError
    ensures code == RunError ==> ValueOf(g, c).None?
    ensures Schedule(ran, old(CleanOnes(g))) && old(CleanOnes(g)) <= CleanOnes(g)
    ensures old(PreparedOnes(g)) <= PreparedOnes(g)
  {
    ran := [];
    var dfsStack, visited := [c], {};
    while dfsStack != []
      invariant Sound(g) && Searching(g, c, dfsStack, visited)
      invariant Computing(visited, ran, old(CleanOnes(g)), CleanOnes(g))
      invariant old(PreparedOnes(g)) <= PreparedOnes(g)
      decreases |g.caches - visited|, Height(CacheRank(), dfsStack, visited), Above(dfsStack, visited)
    {
      var cache := dfsStack[|dfsStack| - 1];
      ghost var now := CleanOnes(g);
      var move := ComputeStep(cache, visited, g);
      match move {
        case Stop =>
          return CallBackStop, ran;
        case Fail =>
          return RunError, ran;
        case Descend =>
          Pushed(g, c, dfsStack, visited);
          dfsStack := dfsStack + cache.mInputs;
        case Finish(run) =>
          if run {
            Ran(visited, ran, old(CleanOnes(g)), now, cache);
            ran := ran + [cache];
          }
          Popped(g, c, dfsStack, visited);
          visited := visited + {cache};
          dfsStack := dfsStack[..|dfsStack| - 1];
      }
    }
    assert ContentSound(g, c) by {
      assert Unlock(0);
    }
    CleanIsFree(g, c);
    return NoError, ran;
  }
}
