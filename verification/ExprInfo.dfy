/** Shapes on demand: asking for one, and invalidating those below a leaf that is resized. */
module ExprInfo {
  import opened Wrappers
  import opened Exprs

  // ----- the graph -----

  /** The expressions are closed under inputs and without a cycle; leaves are those without an operator. */
  ghost predicate Acyclic(all: set<Expr>, height: nat) {
    forall e :: e in all ==>
      && e.rank < height && (e.mOp.None? ==> e.mInputs == [])
      && |e.contentNeedContent| == |e.shapeNeedContent| == |e.mInputs|
      && forall i :: 0 <= i < |e.mInputs| ==>
           e.mInputs[i].from in all && e.mInputs[i].from.rank < e.rank
  }

  /** No operator needs the content of an input to know its output shape; locked. */
  ghost predicate ShapesOnly(all: set<Expr>) {
    forall key: nat {:trigger Unlock(key)} :: Unlock(key) ==>
      forall e, i :: e in all && 0 <= i < |e.mInputs| && i < |e.shapeNeedContent| ==> !e.shapeNeedContent[i]
  }

  function InputInfos(ports: seq<Port>): seq<Value>
    reads (set p | p in ports :: p.from)`info
  {
    if ports == [] then [] else InputInfos(ports[..|ports| - 1]) + [ports[|ports| - 1].from.info]
  }

  // ----- the invariant -----

  ghost predicate InputsKnown(all: set<Expr>, height: nat, e: Expr)
    requires Acyclic(all, height) && e in all
    reads all`mInfoDirty
  {
    forall i :: 0 <= i < |e.mInputs| ==> !e.mInputs[i].from.mInfoDirty
  }

  /** What is known about an expression: its shape follows from the known shapes of its inputs; or
      it is no use asking, for an input's sake or because the known shapes of the inputs do not
      suit; or it has not been asked for. */
  ghost predicate Sensible(all: set<Expr>, height: nat, e: Expr)
    requires Acyclic(all, height) && e in all
    reads all`mInfoDirty, all`mValid, all`info
  {
    if e.mOp.None? then !e.mInfoDirty && e.mValid
    else
      && (!e.mInfoDirty ==>
         e.mValid && InputsKnown(all, height, e) && e.mOp.value.shape(InputInfos(e.mInputs)) == Some(e.info))
      && (!e.mValid ==>
           || (exists i :: 0 <= i < |e.mInputs| && !e.mInputs[i].from.mValid)
           || (InputsKnown(all, height, e) && e.mOp.value.shape(InputInfos(e.mInputs)) == None))
  }

  ghost predicate AllSensible(all: set<Expr>, height: nat)
    reads all`mInfoDirty, all`mValid, all`info
  {
    Acyclic(all, height) && ShapesOnly(all) && forall e :: e in all ==> Sensible(all, height, e)
  }

  // ----- shapes from scratch -----

  ghost function ShapeOf(all: set<Expr>, height: nat, leaf: Expr -> Value, e: Expr): Option<Value>
    requires Acyclic(all, height) && e in all
    decreases e.rank, |e.mInputs| + 1
  {
    if e.mOp.None? then Some(leaf(e))
    else
      var ins := ShapesTo(all, height, leaf, e, |e.mInputs|);
      if ins.None? then None else e.mOp.value.shape(ins.value)
  }

  ghost function ShapesTo(all: set<Expr>, height: nat, leaf: Expr -> Value, e: Expr, n: nat): Option<seq<Value>>
    requires Acyclic(all, height) && e in all && n <= |e.mInputs|
    decreases e.rank, n
  {
    if n == 0 then Some([])
    else
      var before, last := ShapesTo(all, height, leaf, e, n - 1), ShapeOf(all, height, leaf, e.mInputs[n - 1].from);
      if before.None? || last.None? then None else Some(before.value + [last.value])
  }

  ghost predicate LeafInfos(all: set<Expr>, leaf: Expr -> Value)
    reads all`info
  {
    forall e :: e in all && e.mOp.None? ==> leaf(e) == e.info
  }

  lemma {:induction false} KnownInputs(all: set<Expr>, height: nat, leaf: Expr -> Value, e: Expr, n: nat)
    requires Acyclic(all, height) && e in all && n <= |e.mInputs|
    requires forall i :: 0 <= i < n ==> ShapeOf(all, height, leaf, e.mInputs[i].from) == Some(e.mInputs[i].from.info)
    ensures ShapesTo(all, height, leaf, e, n) == Some(InputInfos(e.mInputs[..n]))
  {
    if n > 0 {
      KnownInputs(all, height, leaf, e, n - 1);
      assert e.mInputs[..n][..n - 1] == e.mInputs[..n - 1];
    }
  }

  lemma {:induction false} UnknownInput(all: set<Expr>, height: nat, leaf: Expr -> Value, e: Expr, i: nat, n: nat)
    requires Acyclic(all, height) && e in all && i < n <= |e.mInputs|
      && ShapeOf(all, height, leaf, e.mInputs[i].from).None?
    ensures ShapesTo(all, height, leaf, e, n).None?
  {
    if i < n - 1 { UnknownInput(all, height, leaf, e, i, n - 1); }
  }

  /** No shape is stale: what is known is what computing from scratch gives, and what is no use
      asking for has no shape. */
  lemma {:induction false} NoStaleShapes(all: set<Expr>, height: nat, leaf: Expr -> Value, e: Expr)
    requires AllSensible(all, height) && LeafInfos(all, leaf) && e in all
    ensures !e.mInfoDirty ==> ShapeOf(all, height, leaf, e) == Some(e.info)
    ensures !e.mValid ==> ShapeOf(all, height, leaf, e) == None
    decreases e.rank
  {
    assert Sensible(all, height, e);
    forall i | 0 <= i < |e.mInputs|
      ensures var d := e.mInputs[i].from;
        && (!d.mInfoDirty ==> ShapeOf(all, height, leaf, d) == Some(d.info))
        && (!d.mValid ==> ShapeOf(all, height, leaf, d) == None)
    {
      NoStaleShapes(all, height, leaf, e.mInputs[i].from);
    }
    assert e.mInputs[..|e.mInputs|] == e.mInputs;
    if e.mOp.Some? && InputsKnown(all, height, e) {
      KnownInputs(all, height, leaf, e, |e.mInputs|);
    } else if !e.mValid {
      var i :| 0 <= i < |e.mInputs| && !e.mInputs[i].from.mValid;
      UnknownInput(all, height, leaf, e, i, |e.mInputs|);
    }
  }

  // ----- asking for a shape -----

  /** What asking for the shape of an expression of rank r leaves alone: shapes that were known, and
      everything of higher rank. */
  twostate predicate InfoKept(all: set<Expr>, r: nat)
    reads all`mInfoDirty, all`mValid, all`info
  {
    forall d :: d in all ==>
      && (d.rank > r ==> d.mInfoDirty == old(d.mInfoDirty) && d.mValid == old(d.mValid))
      && (d.rank > r || !old(d.mInfoDirty) ==> d.mInfoDirty == old(d.mInfoDirty) && d.info == old(d.info))
  }

  /** Computes the shape of e, after those of its inputs; false if there is none. */
  method RequireInfo(e: Expr, ghost all: set<Expr>, ghost height: nat) returns (ok: bool)
    requires AllSensible(all, height) && e in all
    modifies all`mInfoDirty, all`mValid, all`info
    ensures AllSensible(all, height) && InfoKept(all, e.rank)
    ensures if ok then !e.mInfoDirty else !e.mValid
    decreases e.rank
  {
    assert Sensible(all, height, e);
    if !e.mInfoDirty {
      return true;
    }
    if !e.mValid {
      return false;
    }
    ok := RequireInputs(e, all, height);
    if !ok {
      Reject(e, all, height);
      return;
    }
    ok := ComputeInfo(e, all, height);
  }

  /** Asks for the shapes of the inputs, up to the first that has none. */
  method RequireInputs(e: Expr, ghost all: set<Expr>, ghost height: nat) returns (ok: bool)
    requires AllSensible(all, height) && e in all && e.mInfoDirty && e.mValid
    modifies all`mInfoDirty, all`mValid, all`info
    ensures AllSensible(all, height) && InfoKept(all, e.rank) && e.mInfoDirty && e.mValid
    ensures if ok then InputsKnown(all, height, e) else exists i :: 0 <= i < |e.mInputs| && !e.mInputs[i].from.mValid
    decreases e.rank, 0
  {
    for i := 0 to |e.mInputs|
      invariant AllSensible(all, height) && InfoKept(all, e.rank) && e.mInfoDirty && e.mValid
      invariant forall k :: 0 <= k < i ==> !e.mInputs[k].from.mInfoDirty
    {
      var ready := RequireInfo(e.mInputs[i].from, all, height);
      if !ready {
        return false;
      }
    }
    return true;
  }

  /** Remembers that it is no use asking. */
  method Reject(e: Expr, ghost all: set<Expr>, ghost height: nat)
    requires AllSensible(all, height) && e in all && e.mOp.Some? && e.mInfoDirty && e.mValid
    requires exists i :: 0 <= i < |e.mInputs| && !e.mInputs[i].from.mValid
    modifies e`mValid
    ensures AllSensible(all, height) && !e.mValid
  {
    e.mValid := false;
    forall d | d in all ensures Sensible(all, height, d) {
      assert old(Sensible(all, height, d));
    }
  }

  /** Applies the operator to the known shapes of the inputs. */
  method ComputeInfo(e: Expr, ghost all: set<Expr>, ghost height: nat) returns (ok: bool)
    requires AllSensible(all, height) && e in all && e.mOp.Some? && e.mInfoDirty && e.mValid
      && InputsKnown(all, height, e)
    modifies e`mInfoDirty, e`mValid, e`info
    ensures AllSensible(all, height) && if ok then !e.mInfoDirty && e.mValid else !e.mValid && e.mInfoDirty
  {
    var r := e.mOp.value.shape(InputInfos(e.mInputs));
    ok := r.Some?;
    if ok {
      e.info := r.value;
      e.mInfoDirty := false;
    } else {
      e.mValid := false;
    }
    forall d | d in all ensures Sensible(all, height, d) {
      assert old(Sensible(all, height, d));
    }
  }
}
