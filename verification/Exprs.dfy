/** Expressions and cached sessions of the lazy engine.

    An expression is an operator over ports of other expressions, or a leaf.  What an operator
    makes of shapes, and what a session computes, is opaque.  The record that an expression keeps
    about its outputs is folded into the expression. */
module Exprs {
  import opened Wrappers

  type Tensor = int

  /** A shape, a session's plan, or a list of tensors. */
  type Value = seq<Tensor>

  /** The output shape, from the shapes of the inputs; none if they do not suit.  The outputs, from
      the inputs that the operator reads. */
  datatype Op = Op(shape: seq<Value> -> Option<Value>, outputs: nat, run: seq<Option<Tensor>> -> Value)

  /** Output `index` of an expression. */
  datatype Port = Port(from: Expr, index: nat)

  /** Preparing: from the shapes of the leaves and the plans of the input caches.  Running: from
      the plan, the contents of the leaves and the results of the input caches. */
  datatype Session = Session(plan: (seq<Value>, seq<Value>) -> Value,
    run: (Value, seq<Value>, seq<Value>) -> Option<Value>)

  class Expr {
    const mOp: Option<Op>
    /** Whether a leaf is an input, which may be written, or a constant. */
    const isInput: bool
    const mInputs: seq<Port>
    /** Which inputs the operator reads, and which ones it needs to know its output shape. */
    const contentNeedContent: seq<bool>
    const shapeNeedContent: seq<bool>
    ghost const rank: nat
    var mTo: seq<Expr?>
    var mValid: bool
    var mVisited: bool
    var mInfoDirty: bool
    var mContentDirty: bool
    var info: Value
    var content: Value
    var mCache: ComputeCache?
    var mCacheOffset: nat

    /** A leaf of a known shape. */
    constructor Leaf(info: Value, content: Option<Tensor>, isInput: bool)
      ensures mOp == None && this.isInput == isInput && mInputs == [] && contentNeedContent == []
        && shapeNeedContent == []
      ensures mTo == [] && mValid && !mVisited && !mInfoDirty && this.info == info && mCache == null && rank == 0
      ensures mContentDirty == content.None? && this.content == [if content.Some? then content.value else 0]
    {
      mOp, mInputs, contentNeedContent, shapeNeedContent, rank := None, [], [], [], 0;
      this.isInput, mCacheOffset := isInput, 0;
      mTo, mValid, mVisited, mInfoDirty, mCache := [], true, false, false, null;
      this.info := info;
      mContentDirty := content.None?;
      this.content := [if content.Some? then content.value else 0];
    }

    /** An operator; its consumer links are entered by AddLinkForInputs. */
    constructor Apply(op: Op, inputs: seq<Port>, contentNeeds: seq<bool>, shapeNeeds: seq<bool>, ghost rank: nat)
      ensures mOp == Some(op) && mInputs == inputs && contentNeedContent == contentNeeds
        && shapeNeedContent == shapeNeeds && !isInput
      ensures mTo == [] && mValid && !mVisited && mInfoDirty && mContentDirty && mCache == null && this.rank == rank
    {
      mOp, mInputs, contentNeedContent, shapeNeedContent, this.rank := Some(op), inputs, contentNeeds, shapeNeeds, rank;
      mTo, mValid, mVisited, mInfoDirty, mContentDirty, mCache := [], true, false, true, true, null;
      info, content, isInput, mCacheOffset := [], [], false, 0;
    }
  }

  class ComputeCache {
    const mInputInside: seq<Expr>
    const mInputs: seq<ComputeCache>
    const mSession: Session
    ghost const rank: nat
    var mContentDirty: bool
    var mShapeDirty: bool
    var prepared: Value
    var result: Value

    constructor (leaves: seq<Expr>, inputs: seq<ComputeCache>, session: Session, ghost rank: nat)
      ensures mInputInside == leaves && mInputs == inputs && mSession == session && this.rank == rank
      ensures mContentDirty && mShapeDirty
    {
      mInputInside, mInputs, mSession, this.rank := leaves, inputs, session, rank;
      mContentDirty, mShapeDirty, prepared, result := true, true, [], [];
    }

    predicate Clean()
      reads `mShapeDirty, `mContentDirty
    {
      !mShapeDirty && !mContentDirty
    }

    method SetShapeDirty()
      modifies `mShapeDirty
      ensures mShapeDirty
    {
      mShapeDirty := true;
    }

    method SetContentDirty()
      modifies `mContentDirty
      ensures mContentDirty
    {
      mContentDirty := true;
    }
  }
}
