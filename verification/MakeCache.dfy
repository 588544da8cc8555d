/** Turning expressions into the pipeline of a session. */
module MakeCaches {
  import opened Wrappers
  import opened DepthFirst
  import opened Exprs
  import opened ExprInfo
  import opened ExprDirty

  function Outputs(e: Expr): nat {
    if e.mOp.None? then 1 else e.mOp.value.outputs
  }

  /** Ports exist, and operators fill their outputs. */
  ghost predicate Shaped(all: set<Expr>, height: nat) {
    && Acyclic(all, height)
    && (forall e, i :: e in all && 0 <= i < |e.mInputs| ==> e.mInputs[i].index < Outputs(e.mInputs[i].from))
    && forall e, args :: e in all && e.mOp.Some? ==> |e.mOp.value.run(args)| == e.mOp.value.outputs
  }

  // ----- values from scratch -----

  /** All outputs of an expression, when the leaves hold `content`. */
  ghost function OutsOf(all: set<Expr>, height: nat, content: Expr -> Tensor, e: Expr): (r: Value)
    requires Shaped(all, height) && e in all
    ensures |r| == Outputs(e)
    decreases e.rank, |e.mInputs| + 1
  {
    if e.mOp.None? then [content(e)] else e.mOp.value.run(ArgsTo(all, height, content, e, |e.mInputs|))
  }

  ghost function ArgsTo(all: set<Expr>, height: nat, content: Expr -> Tensor, e: Expr, n: nat): seq<Option<Tensor>>
    requires Shaped(all, height) && e in all && n <= |e.mInputs|
    decreases e.rank, n
  {
    if n == 0 then []
    else
      ArgsTo(all, height, content, e, n - 1) +
      [if e.contentNeedContent[n - 1]
        then Some(OutsOf(all, height, content, e.mInputs[n - 1].from)[e.mInputs[n - 1].index])
       else None]
  }

  // ----- pipelines -----

  /** Where a stage takes an input from: nowhere, if it does not read it; a leaf; another session;
      or a tensor of its own session. */
  datatype Source = Unread | FromLeaf(leaf: Expr) | FromCache(port: Port) | FromTensor(offset: nat)

  datatype Stage = Stage(op: Op, inputs: seq<Source>)

  /** What the leaves and the other sessions hold. */
  datatype Env = Env(leaf: Expr -> Tensor, cached: Port -> Tensor)

  function Load(env: Env, tensors: Value, s: Source): Option<Tensor> {
    match s
    case Unread => None
    case FromLeaf(x) => Some(env.leaf(x))
    case FromCache(p) => Some(env.cached(p))
    case FromTensor(t) => if t < |tensors| then Some(tensors[t]) else None
  }

  function LoadAll(env: Env, tensors: Value, ss: seq<Source>): seq<Option<Tensor>> {
    if ss == [] then [] else LoadAll(env, tensors, ss[..|ss| - 1]) + [Load(env, tensors, ss[|ss| - 1])]
  }

  /** All tensors of a session, after its stages have run in order. */
  function RunStages(env: Env, stages: seq<Stage>): Value {
    if stages == [] then []
    else
      var tensors, last := RunStages(env, stages[..|stages| - 1]), stages[|stages| - 1];
      tensors + last.op.run(LoadAll(env, tensors, last.inputs))
  }

  // ----- what the pipeline has to be -----

  /** The expressions with a session of their own. */
  ghost predicate Cached(all: set<Expr>, has: set<Expr>)
    reads all`mCache
  {
    forall e :: e in all ==> (e in has <==> e.mCache != null)
  }

  /** Stage k computes who[k], and its outputs are the tensors from starts[k] on.  Its input i comes
      from where it should: a tensor of its own session is an output of an earlier stage. */
  ghost predicate InputWired(has: set<Expr>, who: seq<Expr>, starts: seq<nat>, e: Expr, i: nat, s: Source)
    requires i < |e.mInputs| == |e.contentNeedContent| && |who| == |starts|
  {
    var p := e.mInputs[i];
    if !e.contentNeedContent[i] then s == Unread
    else if p.from.mOp.None? then s == FromLeaf(p.from)
    else if p.from in has then s == FromCache(p)
    else exists j :: 0 <= j < |who| && who[j] == p.from && s == FromTensor(starts[j] + p.index)
  }

  ghost predicate StageWired(has: set<Expr>, who: seq<Expr>, starts: seq<nat>, e: Expr, stage: Stage)
    requires |e.mInputs| == |e.contentNeedContent| && |who| == |starts|
  {
    && e.mOp == Some(stage.op) && |stage.inputs| == |e.mInputs|
    && forall i :: 0 <= i < |stage.inputs| ==> InputWired(has, who, starts, e, i, stage.inputs[i])
  }

  function TotalOutputs(who: seq<Expr>): nat {
    if who == [] then 0 else TotalOutputs(who[..|who| - 1]) + Outputs(who[|who| - 1])
  }

  ghost predicate Pipelined(all: set<Expr>, height: nat, has: set<Expr>, who: seq<Expr>, starts: seq<nat>,
      stages: seq<Stage>)
    requires Shaped(all, height)
  {
    |who| == |starts| == |stages| &&
    (stages == [] ||
      var n := |stages| - 1;
      && Pipelined(all, height, has, who[..n], starts[..n], stages[..n])
      && who[n] in all && starts[n] == TotalOutputs(who[..n])
      && StageWired(has, who[..n], starts[..n], who[n], stages[n]))
  }

  /** The leaves and sessions nearby hold what they should. */
  ghost predicate Supplied(all: set<Expr>, height: nat, content: Expr -> Tensor, has: set<Expr>, near: set<Expr>,
      env: Env)
    requires Shaped(all, height)
  {
    && (forall x :: x in near && x.mOp.None? ==> env.leaf(x) == content(x))
    && forall e, i: nat :: e in near && e in all && e.mOp.Some? && e in has && i < Outputs(e) ==>
         env.cached(Port(e, i)) == OutsOf(all, height, content, e)[i]
  }

  /** Leaves and expressions with a session that e reads are nearby. */
  ghost predicate ReadsNear(e: Expr, has: set<Expr>, near: set<Expr>) {
    forall i :: 0 <= i < |e.mInputs| && i < |e.contentNeedContent| && e.contentNeedContent[i] ==>
      var d := e.mInputs[i].from; d.mOp.None? || d in has ==> d in near
  }

  ghost predicate AllReadNear(who: seq<Expr>, has: set<Expr>, near: set<Expr>) {
    forall e :: e in who ==> ReadsNear(e, has, near)
  }

  /** The outputs of e are the tensors from `start` on. */
  ghost predicate Computed(all: set<Expr>, height: nat, content: Expr -> Tensor, e: Expr, start: nat, tensors: Value)
    requires Shaped(all, height)
  {
    && e in all && start + Outputs(e) <= |tensors|
    && forall i :: 0 <= i < Outputs(e) ==> tensors[start + i] == OutsOf(all, height, content, e)[i]
  }

  /** Running the stages computes the expressions. */
  lemma {:induction false} StagesCompute(all: set<Expr>, height: nat, content: Expr -> Tensor, has: set<Expr>,
      near: set<Expr>, env: Env,
      who: seq<Expr>, starts: seq<nat>, stages: seq<Stage>)
    requires Shaped(all, height) && Supplied(all, height, content, has, near, env) && AllReadNear(who, has, near)
    requires Pipelined(all, height, has, who, starts, stages)
    ensures var r := RunStages(env, stages);
      && |r| == TotalOutputs(who)
      && forall k :: 0 <= k < |who| ==> Computed(all, height, content, who[k], starts[k], r)
  {
    if stages != [] {
      var n := |stages| - 1;
      StagesCompute(all, height, content, has, near, env, who[..n], starts[..n], stages[..n]);
      var before := RunStages(env, stages[..n]);
      var e := who[n];
      LoadsArgs(all, height, content, has, near, env, who[..n], starts[..n], e, stages[n].inputs, before, |e.mInputs|);
      assert stages[n].inputs[..|e.mInputs|] == stages[n].inputs;
      var r := RunStages(env, stages);
      assert r == before + OutsOf(all, height, content, e);
      forall k | 0 <= k < n ensures Computed(all, height, content, who[k], starts[k], r) {
        assert who[..n][k] == who[k] && starts[..n][k] == starts[k];
      }
    }
  }

  lemma {:induction false} LoadsArgs(all: set<Expr>, height: nat, content: Expr -> Tensor, has: set<Expr>,
      near: set<Expr>, env: Env,
      who: seq<Expr>, starts: seq<nat>, e: Expr, sources: seq<Source>, tensors: Value, n: nat)
    requires Shaped(all, height) && Supplied(all, height, content, has, near, env) && e in all
      && ReadsNear(e, has, near)
    requires |who| == |starts| && n <= |sources| == |e.mInputs|
    requires forall i :: 0 <= i < |sources| ==> InputWired(has, who, starts, e, i, sources[i])
    requires forall k :: 0 <= k < |who| ==> Computed(all, height, content, who[k], starts[k], tensors)
    ensures LoadAll(env, tensors, sources[..n]) == ArgsTo(all, height, content, e, n)
  {
    if n > 0 {
      LoadsArgs(all, height, content, has, near, env, who, starts, e, sources, tensors, n - 1);
      assert sources[..n][..n - 1] == sources[..n - 1];
      LoadsArg(all, height, content, has, near, env, who, starts, e, n - 1, sources[n - 1], tensors);
    }
  }

  lemma LoadsArg(all: set<Expr>, height: nat, content: Expr -> Tensor, has: set<Expr>, near: set<Expr>, env: Env,
      who: seq<Expr>, starts: seq<nat>, e: Expr, i: nat, s: Source, tensors: Value)
    requires Shaped(all, height) && Supplied(all, height, content, has, near, env) && e in all
      && ReadsNear(e, has, near)
    requires i < |e.mInputs| && |who| == |starts|
    requires InputWired(has, who, starts, e, i, s)
    requires forall k :: 0 <= k < |who| ==> Computed(all, height, content, who[k], starts[k], tensors)
    ensures Load(env, tensors, s) == if e.contentNeedContent[i]
      then Some(OutsOf(all, height, content, e.mInputs[i].from)[e.mInputs[i].index]) else None
  {
    var p := e.mInputs[i];
    if e.contentNeedContent[i] && p.from.mOp.Some? && p.from !in has {
      var j :| 0 <= j < |who| && who[j] == p.from && s == FromTensor(starts[j] + p.index);
      assert Computed(all, height, content, who[j], starts[j], tensors);
    }
  }

  // ----- building the pipeline -----

  /** A target, or something that the content of a target depends on. */
  ghost predicate Drawn(all: set<Expr>, height: nat, targets: seq<Expr>, e: Expr)
    requires Acyclic(all, height)
  {
    exists t :: t in targets && t in all && (t == e || Draws(all, height, t, e))
  }

  ghost predicate StrictlyDrawn(all: set<Expr>, height: nat, targets: seq<Expr>, e: Expr)
    requires Acyclic(all, height)
  {
    exists t :: t in targets && t in all && Draws(all, height, t, e)
  }

  /** Leaves and sessions are only taken from below the targets. */
  ghost predicate Taken(all: set<Expr>, height: nat, targets: seq<Expr>, near: set<Expr>, leaves: set<Expr>,
      caches: set<ComputeCache>)
    requires Acyclic(all, height)
    reads all`mCache
  {
    && (forall x :: x in near ==> x in all && StrictlyDrawn(all, height, targets, x))
    && (forall x ::
       x in near ==> if x.mOp.None? then x.isInput ==> x in leaves else x.mCache != null && x.mCache in caches)
    && (forall x :: x in leaves ==> x in near && x.mOp.None? && x.isInput)
    && forall c :: c in caches ==> exists e :: e in near && e.mCache == c
  }

  lemma InputDrawn(all: set<Expr>, height: nat, targets: seq<Expr>, e: Expr, i: nat)
    requires Acyclic(all, height) && e in all && Drawn(all, height, targets, e)
    requires i < |e.mInputs| && e.contentNeedContent[i]
    ensures Drawn(all, height, targets, e.mInputs[i].from) && StrictlyDrawn(all, height, targets, e.mInputs[i].from)
  {
    var t :| t in targets && t in all && (t == e || Draws(all, height, t, e));
    DrawsInput(all, height, t, e, i);
  }

  lemma {:induction false} DrawsInput(all: set<Expr>, height: nat, t: Expr, e: Expr, i: nat)
    requires Acyclic(all, height) && t in all && e in all && (t == e || Draws(all, height, t, e))
    requires i < |e.mInputs| && e.contentNeedContent[i]
    ensures Draws(all, height, t, e.mInputs[i].from)
    decreases t.rank
  {
    if t != e {
      var k :| 0 <= k < |t.mInputs| && t.contentNeedContent[k] &&
        (t.mInputs[k].from == e || Draws(all, height, t.mInputs[k].from, e));
      DrawsInput(all, height, t.mInputs[k].from, e, i);
    }
  }

  /** An operator that is a target, or that the content of one depends on and that has no session of its own. */
  ghost predicate Needed(all: set<Expr>, height: nat, has: set<Expr>, targets: seq<Expr>, e: Expr)
    requires Acyclic(all, height)
  {
    e in all && e.mOp.Some? && Drawn(all, height, targets, e) && (e in targets || e !in has)
  }

  /** Whether every input of e can be had; if not, the first one that has to be computed before. */
  method Scan(e: Expr, visited: set<Expr>, near0: set<Expr>, leaves0: set<Expr>, caches0: set<ComputeCache>,
      targets: seq<Expr>,
      ghost all: set<Expr>, ghost height: nat, ghost has: set<Expr>)
    returns (next: Option<Expr>, near: set<Expr>, leaves: set<Expr>, caches: set<ComputeCache>)
    requires Acyclic(all, height) && Cached(all, has) && e in all && Drawn(all, height, targets, e)
    requires Taken(all, height, targets, near0, leaves0, caches0)
    ensures Taken(all, height, targets, near, leaves, caches) && near0 <= near
    ensures next.None? ==> ReadsNear(e, has, near)
    ensures next.None? ==> Ready(e, visited, has)
    ensures next.Some? ==>
      !Ready(e, visited, has) && next.value in all && next.value.rank < e.rank && next.value.mOp.Some?
    ensures next.Some? ==> next.value !in visited && Needed(all, height, has, targets, next.value)
  {
    near, leaves, caches := near0, leaves0, caches0;
    for i := 0 to |e.mInputs|
      invariant Taken(all, height, targets, near, leaves, caches) && near0 <= near
      invariant forall k :: 0 <= k < i && e.contentNeedContent[k] ==>
        var d := e.mInputs[k].from;
        if d.mOp.None? || d in has then d in near else d in visited
    {
      var d := e.mInputs[i].from;
      if e.contentNeedContent[i] {
        InputDrawn(all, height, targets, e, i);
        if d.mOp.None? {
          near := near + {d};
          if d.isInput {
            leaves := leaves + {d};
          }
        } else if d.mCache != null {
          near := near + {d};
          caches := caches + {d.mCache};
        } else if d !in visited {
          return Some(d), near, leaves, caches;
        }
      }
    }
    next := None;
  }

  /** The stages that visited expressions were given. */
  ghost predicate Placed(visited: map<Expr, nat>, who: seq<Expr>) {
    forall e :: e in visited ==> visited[e] < |who| && who[visited[e]] == e
  }

  /** Where a stage for e takes its inputs from. */
  method Wire(e: Expr, visited: map<Expr, nat>, starts: seq<nat>, ghost who: seq<Expr>,
      ghost all: set<Expr>, ghost height: nat, ghost has: set<Expr>) returns (stage: Stage)
    requires Acyclic(all, height) && Cached(all, has) && e in all && e.mOp.Some? && |who| == |starts|
      && Placed(visited, who)
    requires Ready(e, visited.Keys, has)
    ensures StageWired(has, who, starts, e, stage)
  {
    var sources := [];
    for i := 0 to |e.mInputs|
      invariant |sources| == i && forall k :: 0 <= k < i ==> InputWired(has, who, starts, e, k, sources[k])
    {
      var p := e.mInputs[i];
      var s := Unread;
      if e.contentNeedContent[i] {
        if p.from.mOp.None? {
          s := FromLeaf(p.from);
        } else if p.from.mCache != null {
          s := FromCache(p);
        } else {
          s := FromTensor(starts[visited[p.from]] + p.index);
        }
      }
      sources := sources + [s];
    }
    return Stage(e.mOp.value, sources);
  }

  lemma PipelinedNext(all: set<Expr>, height: nat, has: set<Expr>, who: seq<Expr>, starts: seq<nat>, stages: seq<Stage>,
      e: Expr, stage: Stage)
    requires Shaped(all, height) && Pipelined(all, height, has, who, starts, stages)
    requires e in all && |e.mInputs| == |e.contentNeedContent| && StageWired(has, who, starts, e, stage)
    ensures Pipelined(all, height, has, who + [e], starts + [TotalOutputs(who)], stages + [stage])
  {
    assert (who + [e])[..|who|] == who && (starts + [TotalOutputs(who)])[..|starts|] == starts;
    assert (stages + [stage])[..|stages|] == stages;
  }

  // ----- the search -----

  ghost function ExprRank(): Expr -> nat {
    (e: Expr) => e.rank
  }

  /** What is on the stack and what has been emitted is needed; every target is on the stack or has been
      emitted, and its offset is where it was emitted last. */
  ghost predicate Emitting(all: set<Expr>, height: nat, has: set<Expr>, targets: seq<Expr>, stack: seq<Expr>,
      dst: map<Expr, nat>, who: seq<Expr>, starts: seq<nat>)
    requires Acyclic(all, height)
  {
    && (forall e :: e in stack ==> Needed(all, height, has, targets, e))
    && (forall e :: e in who ==> Needed(all, height, has, targets, e))
    && (forall e :: e in dst ==> e in targets)
    && (forall e :: e in targets && e.mOp.Some? ==> e in stack || e in dst)
    && forall e :: e in dst ==> exists k :: 0 <= k < |who| && k < |starts| && who[k] == e && dst[e] == starts[k]
  }

  lemma EmittingPush(all: set<Expr>, height: nat, has: set<Expr>, targets: seq<Expr>, stack: seq<Expr>,
      dst: map<Expr, nat>, who: seq<Expr>, starts: seq<nat>, d: Expr)
    requires Acyclic(all, height) && Emitting(all, height, has, targets, stack, dst, who, starts)
    requires Needed(all, height, has, targets, d)
    ensures Emitting(all, height, has, targets, stack + [d], dst, who, starts)
  {}

  lemma EmittingPop(all: set<Expr>, height: nat, has: set<Expr>, targets: seq<Expr>, stack: seq<Expr>,
      dst: map<Expr, nat>, who: seq<Expr>, starts: seq<nat>, offset: nat)
    requires Acyclic(all, height) && Emitting(all, height, has, targets, stack, dst, who, starts) && stack != []
      && |who| == |starts|
    ensures var e := stack[|stack| - 1];
      Emitting(all, height, has, targets, stack[..|stack| - 1], if e in targets then dst[e := offset]
        else dst, who + [e], starts + [offset])
  {
    var e, rest := stack[|stack| - 1], stack[..|stack| - 1];
    assert stack == rest + [e];
    var dst' := if e in targets then dst[e := offset] else dst;
    forall d | d in dst' ensures exists k ::
      0 <= k < |who + [e]| && (who + [e])[k] == d && dst'[d] == (starts + [offset])[k] {
      if d == e && e in targets {
        assert (who + [e])[|who|] == d;
      } else {
        var k :| 0 <= k < |who| && k < |starts| && who[k] == d && dst[d] == starts[k];
        assert (who + [e])[k] == d;
      }
    }
  }

  /** What a visited expression reads has been visited, or need not be. */
  ghost predicate Ready(e: Expr, visited: set<Expr>, has: set<Expr>) {
    forall i :: 0 <= i < |e.mInputs| && i < |e.contentNeedContent| && e.contentNeedContent[i] ==>
      var d := e.mInputs[i].from; d.mOp.None? || d in has || d in visited
  }

  ghost predicate AllReady(visited: set<Expr>, has: set<Expr>) {
    forall e :: e in visited ==> Ready(e, visited, has)
  }

  lemma NearGrows(who: seq<Expr>, has: set<Expr>, near: set<Expr>, near': set<Expr>)
    requires AllReadNear(who, has, near) && near <= near'
    ensures AllReadNear(who, has, near')
  {
    forall e | e in who ensures ReadsNear(e, has, near') {
      assert ReadsNear(e, has, near);
    }
  }

  lemma Bookkeeping(visited: map<Expr, nat>, who: seq<Expr>, has: set<Expr>, near: set<Expr>, e: Expr)
    requires Placed(visited, who) && AllReady(visited.Keys, has) && Ready(e, visited.Keys, has)
    requires AllReadNear(who, has, near) && ReadsNear(e, has, near)
    ensures var visited' := if e in visited then visited else visited[e := |who|];
      visited'.Keys == visited.Keys + {e} && Placed(visited', who + [e]) && AllReady(visited'.Keys, has)
    ensures AllReadNear(who + [e], has, near)
    ensures TotalOutputs(who + [e]) == TotalOutputs(who) + Outputs(e)
  {
    var visited' := if e in visited then visited else visited[e := |who|];
    assert visited'.Keys == visited.Keys + {e};
    forall d | d in visited' ensures visited'[d] < |who + [e]| && (who + [e])[visited'[d]] == d {
      if d in visited { assert visited'[d] == visited[d] && (who + [e])[visited[d]] == who[visited[d]]; }
    }
    forall d | d in visited' ensures Ready(d, visited'.Keys, has) {
      if d in visited { assert Ready(d, visited.Keys, has); }
    }
    assert (who + [e])[..|who|] == who;
  }

  /** The pipeline so far: its stages and where their tensors start, where each expression was first
      emitted, the offsets of the targets, what it reads from outside, and of this the leaves that
      may be written and the sessions. */
  datatype Schedule = Schedule(stages: seq<Stage>, starts: seq<nat>, offset: nat, visited: map<Expr, nat>,
    dst: map<Expr, nat>,
    near: set<Expr>, leaves: set<Expr>, caches: set<ComputeCache>)

  function Emit(r: Schedule, e: Expr, stage: Stage, isTarget: bool): Schedule {
    r.(stages := r.stages + [stage], starts := r.starts + [r.offset], offset := r.offset + Outputs(e),
       visited := if e in r.visited then r.visited else r.visited[e := |r.stages|],
       dst := if isTarget then r.dst[e := r.offset] else r.dst)
  }

  /** The state of the search; locked. */
  ghost predicate Building(all: set<Expr>, height: nat, has: set<Expr>, targets: seq<Expr>, stack: seq<Expr>,
      r: Schedule, who: seq<Expr>)
    requires Shaped(all, height)
    reads all`mCache
  {
    forall key: nat {:trigger Unlock(key)} :: Unlock(key) ==> Built(all, height, has, targets, stack, r, who)
  }

  ghost predicate Built(all: set<Expr>, height: nat, has: set<Expr>, targets: seq<Expr>, stack: seq<Expr>,
      r: Schedule, who: seq<Expr>)
    requires Shaped(all, height)
    reads all`mCache
  {
    && Pipelined(all, height, has, who, r.starts, r.stages) && r.offset == TotalOutputs(who)
    && Emitting(all, height, has, targets, stack, r.dst, who, r.starts) && Placed(r.visited, who)
       && AllReady(r.visited.Keys, has)
    && AllReadNear(who, has, r.near) && Taken(all, height, targets, r.near, r.leaves, r.caches)
  }

  lemma Emitted(all: set<Expr>, height: nat, has: set<Expr>, targets: seq<Expr>, stack: seq<Expr>, r: Schedule,
      who: seq<Expr>,
      e: Expr, stage: Stage)
    requires Shaped(all, height) && Building(all, height, has, targets, stack, r, who) && stack != []
      && e == stack[|stack| - 1]
    requires Ready(e, r.visited.Keys, has) && ReadsNear(e, has, r.near)
    requires |e.mInputs| == |e.contentNeedContent| && |who| == |r.starts| && StageWired(has, who, r.starts, e, stage)
    ensures Building(all, height, has, targets, stack[..|stack| - 1], Emit(r, e, stage, e in targets), who + [e])
    ensures Emit(r, e, stage, e in targets).visited.Keys == r.visited.Keys + {e}
  {
    assert Unlock(0);
    assert e in stack;
    PipelinedNext(all, height, has, who, r.starts, r.stages, e, stage);
    EmittingPop(all, height, has, targets, stack, r.dst, who, r.starts, r.offset);
    Bookkeeping(r.visited, who, has, r.near, e);
  }

  method Operators(targets: seq<Expr>) returns (stack: seq<Expr>)
    ensures forall e :: e in stack <==> e in targets && e.mOp.Some?
  {
    stack := [];
    for i := 0 to |targets|
      invariant forall e :: e in stack <==> e in targets[..i] && e.mOp.Some?
    {
      if targets[i].mOp.Some? {
        stack := stack + [targets[i]];
      }
    }
    assert targets[..|targets|] == targets;
  }

  /** Looks at the topmost expression, and notes the leaves and sessions that it reads. */
  method ScanTop(e: Expr, r0: Schedule, targets: seq<Expr>, ghost stack: seq<Expr>, ghost who: seq<Expr>,
      ghost all: set<Expr>, ghost height: nat, ghost has: set<Expr>) returns (next: Option<Expr>, r: Schedule)
    requires Shaped(all, height) && Cached(all, has) && e in all && Drawn(all, height, targets, e)
    requires Building(all, height, has, targets, stack, r0, who)
    ensures Building(all, height, has, targets, stack, r, who) && r.visited == r0.visited
    ensures next.None? ==> Ready(e, r.visited.Keys, has) && ReadsNear(e, has, r.near)
    ensures next.Some? ==> !Ready(e, r.visited.Keys, has) && next.value !in r.visited && next.value.rank < e.rank
    ensures next.Some? ==> Needed(all, height, has, targets, next.value)
  {
    assert Unlock(0);
    var near, leaves, caches;
    next, near, leaves, caches := Scan(e, r0.visited.Keys, r0.near, r0.leaves, r0.caches, targets, all, height, has);
    NearGrows(who, has, r0.near, near);
    r := r0.(near := near, leaves := leaves, caches := caches);
  }

  /** Emits the topmost expression. */
  method EmitTop(e: Expr, r0: Schedule, targets: seq<Expr>, ghost stack: seq<Expr>, ghost who0: seq<Expr>,
      ghost all: set<Expr>, ghost height: nat, ghost has: set<Expr>) returns (r: Schedule, ghost who: seq<Expr>)
    requires Shaped(all, height) && Cached(all, has) && Building(all, height, has, targets, stack, r0, who0)
    requires stack != [] && e == stack[|stack| - 1] && Ready(e, r0.visited.Keys, has) && ReadsNear(e, has, r0.near)
    ensures Building(all, height, has, targets, stack[..|stack| - 1], r, who) && r.visited.Keys == r0.visited.Keys + {e}
  {
    assert Unlock(0);
    assert e in stack;
    var stage := Wire(e, r0.visited, r0.starts, who0, all, height, has);
    Emitted(all, height, has, targets, stack, r0, who0, e, stage);
    r, who := Emit(r0, e, stage, e in targets), who0 + [e];
  }

  lemma BuildingStarts(all: set<Expr>, height: nat, has: set<Expr>, targets: seq<Expr>, stack: seq<Expr>)
    requires Shaped(all, height) && forall e :: e in targets ==> e in all
    requires forall e :: e in stack <==> e in targets && e.mOp.Some?
    ensures Building(all, height, has, targets, stack, Schedule([], [], 0, map[], map[], {}, {}, {}), [])
  {}

  lemma BuildingTop(all: set<Expr>, height: nat, has: set<Expr>, targets: seq<Expr>, stack: seq<Expr>, r: Schedule,
      who: seq<Expr>)
    requires Shaped(all, height) && Building(all, height, has, targets, stack, r, who) && stack != []
    ensures var e := stack[|stack| - 1];
      e in all && Drawn(all, height, targets, e) && (e in r.visited ==> Ready(e, r.visited.Keys, has))
  {
    assert Unlock(0);
    assert stack[|stack| - 1] in stack;
  }

  lemma BuildingPush(all: set<Expr>, height: nat, has: set<Expr>, targets: seq<Expr>, stack: seq<Expr>, r: Schedule,
      who: seq<Expr>, d: Expr)
    requires Shaped(all, height) && Building(all, height, has, targets, stack, r, who)
    requires Needed(all, height, has, targets, d)
    ensures Building(all, height, has, targets, stack + [d], r, who)
  {
    assert Unlock(0);
    EmittingPush(all, height, has, targets, stack, r.dst, who, r.starts, d);
  }

  /** The search gets closer to its end. */
  ghost predicate Closer(all: set<Expr>, stack: seq<Expr>, visited: set<Expr>, stack': seq<Expr>, visited': set<Expr>) {
    || |all - visited'| < |all - visited|
    || (visited' == visited && Height(ExprRank(), stack', visited) < Height(ExprRank(), stack, visited))
    || (visited' == visited && Height(ExprRank(), stack', visited) == Height(ExprRank(), stack, visited)
        && Above(stack', visited) < Above(stack, visited))
  }

  /** Deals with the topmost expression: puts what it waits for on top of it, or emits it. */
  method Advance(stack: seq<Expr>, r0: Schedule, targets: seq<Expr>, ghost who0: seq<Expr>,
      ghost all: set<Expr>, ghost height: nat, ghost has: set<Expr>)
        returns (stack': seq<Expr>, r: Schedule, ghost who: seq<Expr>)
    requires Shaped(all, height) && Cached(all, has) && stack != []
      && Building(all, height, has, targets, stack, r0, who0)
    ensures Building(all, height, has, targets, stack', r, who)
    ensures Closer(all, stack, r0.visited.Keys, stack', r.visited.Keys)
  {
    var e := stack[|stack| - 1];
    BuildingTop(all, height, has, targets, stack, r0, who0);
    var next;
    next, r := ScanTop(e, r0, targets, stack, who0, all, height, has);
    who := who0;
    match next {
      case Some(d) =>
        PushLower(ExprRank(), stack, [d], r.visited.Keys, e.rank, 0);
        BuildingPush(all, height, has, targets, stack, r, who, d);
        stack' := stack + [d];
      case None =>
        PopDecreases(ExprRank(), all, stack, r.visited.Keys);
        r, who := EmitTop(e, r, targets, stack, who, all, height, has);
        stack' := stack[..|stack| - 1];
    }
  }

  /** Linearises what the targets need, up to leaves and expressions with a session of their own. */
  method MakePipeline(targets: seq<Expr>, ghost all: set<Expr>, ghost height: nat, ghost has: set<Expr>)
    returns (r: Schedule, ghost who: seq<Expr>)
    requires Shaped(all, height) && Cached(all, has) && forall e :: e in targets ==> e in all
    ensures Built(all, height, has, targets, [], r, who)
  {
    var dfsStack := Operators(targets);
    r, who := Schedule([], [], 0, map[], map[], {}, {}, {}), [];
    BuildingStarts(all, height, has, targets, dfsStack);
    while dfsStack != []
      invariant Building(all, height, has, targets, dfsStack, r, who)
      decreases |all - r.visited.Keys|, Height(ExprRank(), dfsStack, r.visited.Keys), Above(dfsStack, r.visited.Keys)
    {
      dfsStack, r, who := Advance(dfsStack, r, targets, who, all, height, has);
    }
    assert Unlock(0);
  }

  // ----- what the pipeline computes -----

  /** Running the pipeline in order leaves every target's outputs at the offset noted for it,
      however often it was emitted. */
  lemma TargetsComputed(all: set<Expr>, height: nat, content: Expr -> Tensor, has: set<Expr>, env: Env,
      targets: seq<Expr>, r: Schedule, who: seq<Expr>, t: Expr)
    requires Shaped(all, height) && Supplied(all, height, content, has, r.near, env)
      && Built(all, height, has, targets, [], r, who)
    requires t in targets && t.mOp.Some?
    ensures t in r.dst && Computed(all, height, content, t, r.dst[t], RunStages(env, r.stages))
  {
    StagesCompute(all, height, content, has, r.near, env, who, r.starts, r.stages);
    var k :| 0 <= k < |who| && k < |r.starts| && who[k] == t && r.dst[t] == r.starts[k];
  }

  /** A stage reads tensors of its own session only where earlier stages left them. */
  lemma {:induction false} ReadsEarlier(all: set<Expr>, height: nat, has: set<Expr>, who: seq<Expr>, starts: seq<nat>,
      stages: seq<Stage>, k: nat, i: nat)
    requires Shaped(all, height) && Pipelined(all, height, has, who, starts, stages) && k < |stages|
      && i < |stages[k].inputs|
    ensures stages[k].inputs[i].FromTensor? ==> stages[k].inputs[i].offset < starts[k]
    decreases |stages|
  {
    var n := |stages| - 1;
    if k < n {
      ReadsEarlier(all, height, has, who[..n], starts[..n], stages[..n], k, i);
      assert stages[..n][k] == stages[k] && starts[..n][k] == starts[k];
    } else if stages[k].inputs[i].FromTensor? {
      assert InputWired(has, who[..n], starts[..n], who[n], i, stages[n].inputs[i]);
      var p := who[n].mInputs[i];
      var j :| 0 <= j < n && who[..n][j] == p.from && stages[n].inputs[i] == FromTensor(starts[..n][j] + p.index);
      EndsBefore(all, height, has, who[..n], starts[..n], stages[..n], j);
    }
  }

  lemma {:induction false} EndsBefore(all: set<Expr>, height: nat, has: set<Expr>, who: seq<Expr>, starts: seq<nat>,
      stages: seq<Stage>, j: nat)
    requires Shaped(all, height) && Pipelined(all, height, has, who, starts, stages) && j < |who|
    ensures starts[j] + Outputs(who[j]) <= TotalOutputs(who)
    decreases |stages|
  {
    var n := |stages| - 1;
    if j < n { EndsBefore(all, height, has, who[..n], starts[..n], stages[..n], j); }
  }
}
