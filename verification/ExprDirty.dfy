/** Invalidating shapes: consumer links, and the walk along them with its early stop. */
module ExprDirty {
  import opened Wrappers
  import opened Exprs
  import opened ExprInfo

  // ----- consumer links -----

  ghost predicate Feeds(x: Expr, e: Expr) {
    exists i :: 0 <= i < |e.mInputs| && e.mInputs[i].from == x
  }

  ghost function Consumers(all: set<Expr>, x: Expr): set<Expr> {
    set e | e in all && Feeds(x, e)
  }

  /** Every consumer is in the link list of each of its inputs. */
  ghost predicate Linked(all: set<Expr>)
    reads all`mTo
  {
    && (forall x, e :: x in all && e in all && Feeds(x, e) ==> e in x.mTo)
    && forall x, e :: x in all && e in x.mTo && e != null ==> e in all
  }

  /** Every expression is sensible but for those in `holes`. */
  ghost predicate SensibleBut(all: set<Expr>, height: nat, holes: set<Expr>)
    reads all`mInfoDirty, all`mValid, all`info
  {
    Acyclic(all, height) && ShapesOnly(all) && forall e :: e in all && e !in holes ==> Sensible(all, height, e)
  }

  /** The session belongs to an expression whose shape is not known. */
  ghost predicate MarkedFor(all: set<Expr>, c: ComputeCache)
    reads all`mInfoDirty, all`mCache
  {
    exists e :: e in all && e.mCache == c && e.mInfoDirty
  }

  /** The session of an expression of unknown shape has to be prepared anew; so have the sessions
      in `stale`, and no others. */
  ghost predicate CachesStale(all: set<Expr>, caches: set<ComputeCache>, stale: set<ComputeCache>)
    reads all`mInfoDirty, all`mCache, caches`mShapeDirty
  {
    && (forall e :: e in all && e.mCache != null ==> e.mCache in caches && (e.mInfoDirty ==> e.mCache.mShapeDirty))
    && forall c :: c in caches ==> (c in stale ==> c.mShapeDirty) && (c.mShapeDirty ==> c in stale || MarkedFor(all, c))
  }

  predicate Unasked(e: Expr)
    reads e`mInfoDirty, e`mValid
  {
    e.mInfoDirty && e.mValid
  }

  /** Forgets the shape of e; false if there was nothing to forget. */
  method SetInfoDirty(e: Expr, ghost all: set<Expr>, ghost caches: set<ComputeCache>, ghost stale: set<ComputeCache>)
    returns (changed: bool)
    requires e in all && CachesStale(all, caches, stale)
    modifies e`mInfoDirty, e`mContentDirty, e`mValid, caches`mShapeDirty
    ensures Unasked(e) && CachesStale(all, caches, stale) && changed == !old(Unasked(e))
    ensures e.mContentDirty == (changed || old(e.mContentDirty))
  {
    if e.mInfoDirty && e.mValid {
      return false;
    }
    e.mInfoDirty := true;
    e.mContentDirty := true;
    e.mValid := true;
    if e.mCache != null {
      e.mCache.SetShapeDirty();
    }
    return true;
  }

  /** What the walk below x leaves alone: expressions not asked for yet, leaves, and the links of
      expressions of lower rank. */
  twostate predicate OnlyForgotten(all: set<Expr>, r: nat)
    reads all`mInfoDirty, all`mContentDirty, all`mValid, all`mTo
  {
    && (forall d :: d in all && old(Unasked(d)) ==> Unasked(d))
    && (forall d :: d in all && d.mOp.None? ==> d.mContentDirty == old(d.mContentDirty))
    && forall d :: d in all && d.rank < r ==> d.mTo == old(d.mTo)
  }

  /** One consumer: its shape is forgotten once, whatever number of its inputs x is. */
  method VisitConsumer(x: Expr, e: Expr, ghost all: set<Expr>, ghost caches: set<ComputeCache>,
      ghost stale: set<ComputeCache>) returns (recurse: bool)
    requires e in all && CachesStale(all, caches, stale)
    modifies e`mInfoDirty, e`mContentDirty, e`mValid, caches`mShapeDirty
    ensures CachesStale(all, caches, stale) && recurse == (Feeds(x, e) && !old(Unasked(e)))
    ensures Unasked(e) == (old(Unasked(e)) || Feeds(x, e))
    ensures !Feeds(x, e) ==>
      e.mInfoDirty == old(e.mInfoDirty) && e.mValid == old(e.mValid) && e.mContentDirty == old(e.mContentDirty)
  {
    recurse := false;
    for i := 0 to |e.mInputs|
      invariant CachesStale(all, caches, stale)
      invariant if exists k :: 0 <= k < i && e.mInputs[k].from == x
        then Unasked(e) && recurse == !old(Unasked(e))
        else (!recurse && e.mInfoDirty == old(e.mInfoDirty) && e.mValid == old(e.mValid)
          && e.mContentDirty == old(e.mContentDirty))
    {
      if e.mInputs[i].from == x {
        if !recurse {
          recurse := SetInfoDirty(e, all, caches, stale);
        }
      }
    }
  }

  // ----- the walk -----

  /** The consumers of x that are still in a list of links. */
  ghost function Ahead(all: set<Expr>, x: Expr, links: seq<Expr?>): set<Expr> {
    set e | e in all && Feeds(x, e) && e in links
  }

  /** Follows one link of x: forgets the consumer's shape and, if it had one or had failed to get
      one, those below it. */
  method VisitLink(x: Expr, e: Expr, ghost all: set<Expr>, ghost height: nat, ghost caches: set<ComputeCache>,
      ghost stale: set<ComputeCache>, ghost holes: set<Expr>)
    requires Linked(all) && CachesStale(all, caches, stale) && x in all && e in all
    requires SensibleBut(all, height, if Feeds(x, e) then holes + {e} else holes)
    modifies all`mInfoDirty, all`mContentDirty, all`mValid, all`mTo, caches`mShapeDirty
    ensures Linked(all) && CachesStale(all, caches, stale) && OnlyForgotten(all, x.rank + 1)
    ensures SensibleBut(all, height, holes) && (Feeds(x, e) ==> Unasked(e))
    decreases height - x.rank, 0
  {
    var recurse := VisitConsumer(x, e, all, caches, stale);
    forall d | d in all && d !in holes && (recurse ==> d !in Consumers(all, e)) ensures Sensible(all, height, d) {
      if d != e { assert old(Sensible(all, height, d)); }
    }
    if recurse {
      VisitOutputs(e, all, height, caches, stale, holes);
    }
  }

  /** Removes an expired link. */
  method DropLink(x: Expr, i: nat, ghost all: set<Expr>)
    requires Linked(all) && x in all && i < |x.mTo| && x.mTo[i] == null
    modifies x`mTo
    ensures Linked(all) && |x.mTo| == old(|x.mTo|) - 1 && x.mTo[i..] == old(x.mTo[i + 1..])
    ensures Ahead(all, x, x.mTo[i..]) == old(Ahead(all, x, x.mTo[i..]))
  {
    ghost var links := x.mTo;
    assert links == links[..i] + [links[i]] + links[i + 1..];
    assert links[i..] == [links[i]] + links[i + 1..];
    x.mTo := x.mTo[..i] + x.mTo[i + 1..];
    assert x.mTo[i..] == links[i + 1..];
  }

  /** Follows the links of x, dropping those that have expired.  An expression that has not been
      asked for stops the walk: what is below it has nothing to forget. */
  method VisitOutputs(x: Expr, ghost all: set<Expr>, ghost height: nat, ghost caches: set<ComputeCache>,
      ghost stale: set<ComputeCache>, ghost holes: set<Expr>)
    requires Linked(all) && CachesStale(all, caches, stale) && x in all
    requires SensibleBut(all, height, holes + Consumers(all, x))
    modifies all`mInfoDirty, all`mContentDirty, all`mValid, all`mTo, caches`mShapeDirty
    ensures Linked(all) && CachesStale(all, caches, stale) && OnlyForgotten(all, x.rank)
    ensures SensibleBut(all, height, holes) && forall e :: e in all && Feeds(x, e) ==> Unasked(e)
    decreases height - x.rank, 1
  {
    var i := 0;
    while i < |x.mTo|
      invariant i <= |x.mTo| && Linked(all) && CachesStale(all, caches, stale) && OnlyForgotten(all, x.rank)
      invariant SensibleBut(all, height, holes + Ahead(all, x, x.mTo[i..]))
      invariant forall e :: e in all && Feeds(x, e) ==> Unasked(e) || e in Ahead(all, x, x.mTo[i..])
      decreases |x.mTo| - i
    {
      if x.mTo[i] == null {
        DropLink(x, i, all);
      } else {
        ghost var links := x.mTo;
        assert links[i..] == [links[i]] + links[i + 1..];
        VisitLink(x, x.mTo[i], all, height, caches, stale, holes + Ahead(all, x, links[i + 1..]));
        i := i + 1;
      }
    }
  }

  // ----- resizing a leaf -----

  ghost predicate DependsOn(all: set<Expr>, height: nat, e: Expr, x: Expr)
    requires Acyclic(all, height) && e in all
    decreases e.rank
  {
    exists i :: 0 <= i < |e.mInputs| && (e.mInputs[i].from == x || DependsOn(all, height, e.mInputs[i].from, x))
  }

  /** The content of e depends on that of x: there is a way from e to x through inputs that are read. */
  ghost predicate Draws(all: set<Expr>, height: nat, e: Expr, x: Expr)
    requires Acyclic(all, height) && e in all
    decreases e.rank
  {
    exists i :: 0 <= i < |e.mInputs| && e.contentNeedContent[i] &&
      (e.mInputs[i].from == x || Draws(all, height, e.mInputs[i].from, x))
  }

  lemma {:induction false} DrawsDepends(all: set<Expr>, height: nat, e: Expr, x: Expr)
    requires Acyclic(all, height) && e in all && Draws(all, height, e, x)
    ensures DependsOn(all, height, e, x)
    decreases e.rank
  {
    var i :| 0 <= i < |e.mInputs| && e.contentNeedContent[i] &&
      (e.mInputs[i].from == x || Draws(all, height, e.mInputs[i].from, x));
    if e.mInputs[i].from != x { DrawsDepends(all, height, e.mInputs[i].from, x); }
  }

  lemma {:induction false} DrawsTransitive(all: set<Expr>, height: nat, a: Expr, b: Expr, x: Expr)
    requires Acyclic(all, height) && a in all && b in all && Draws(all, height, a, b) && Draws(all, height, b, x)
    ensures Draws(all, height, a, x)
    decreases a.rank
  {
    var i :| 0 <= i < |a.mInputs| && a.contentNeedContent[i] &&
      (a.mInputs[i].from == b || Draws(all, height, a.mInputs[i].from, b));
    if a.mInputs[i].from != b { DrawsTransitive(all, height, a.mInputs[i].from, b, x); }
  }

  /** When no consumer of x has a known shape, nothing that depends on x has. */
  lemma {:induction false} UnknownBelow(all: set<Expr>, height: nat, x: Expr, e: Expr)
    requires AllSensible(all, height) && e in all && x in all && DependsOn(all, height, e, x)
    requires forall d :: d in all && Feeds(x, d) ==> d.mInfoDirty
    ensures e.mInfoDirty
    decreases e.rank
  {
    var i :| 0 <= i < |e.mInputs| && (e.mInputs[i].from == x || DependsOn(all, height, e.mInputs[i].from, x));
    assert Sensible(all, height, e);
    if e.mInputs[i].from == x {
      assert Feeds(x, e);
    } else {
      UnknownBelow(all, height, x, e.mInputs[i].from);
    }
  }

  lemma AllUnknownBelow(all: set<Expr>, height: nat, x: Expr)
    requires AllSensible(all, height) && x in all && forall d :: d in all && Feeds(x, d) ==> d.mInfoDirty
    ensures forall e :: e in all && DependsOn(all, height, e, x) ==> e.mInfoDirty
  {
    forall e | e in all && DependsOn(all, height, e, x) ensures e.mInfoDirty {
      UnknownBelow(all, height, x, e);
    }
  }

  /** What d records still goes with the shapes of its inputs. */
  ghost predicate StillFits(d: Expr)
    requires d.mOp.Some?
    reads d`mInfoDirty, d`mValid, d`info, (set p | p in d.mInputs :: p.from)`info,
      (set p | p in d.mInputs :: p.from)`mValid
  {
    if d.mInfoDirty && d.mValid then true
    else if d.mValid then d.mOp.value.shape(InputInfos(d.mInputs)) == Some(d.info)
    else
      || (exists i :: 0 <= i < |d.mInputs| && !d.mInputs[i].from.mValid)
      || d.mOp.value.shape(InputInfos(d.mInputs)) == None
  }

  /** Gives a leaf another shape.  If there is no memory for it, the shape has changed all the same
      and nothing below has been told; then no shape is stale if and only if every consumer either has
      not been asked for its shape, or makes of the new one what it records. */
  method Resize(x: Expr, info: Value, hasMemory: bool, ghost all: set<Expr>, ghost height: nat,
      ghost caches: set<ComputeCache>, ghost stale: set<ComputeCache>)
    returns (ok: bool)
    requires AllSensible(all, height) && Linked(all) && CachesStale(all, caches, stale) && x in all && x.mOp.None?
    modifies x`info, all`mInfoDirty, all`mContentDirty, all`mValid, all`mTo, caches`mShapeDirty
    ensures Linked(all) && CachesStale(all, caches, stale) && x.info == info && ok == (info == old(x.info) || hasMemory)
    ensures ok ==> AllSensible(all, height)
    ensures !ok ==> (AllSensible(all, height) <==> forall d :: d in Consumers(all, x) ==> StillFits(d))
    ensures !ok ==> forall d :: d in all ==> d.mInfoDirty == old(d.mInfoDirty) && d.mValid == old(d.mValid)
    ensures ok && info != old(x.info) ==> forall e :: e in all && DependsOn(all, height, e, x) ==> e.mInfoDirty
    ensures ok && info != old(x.info) ==> x.mContentDirty
    ensures forall d :: d in all && d.mOp.None? && d != x ==> d.mContentDirty == old(d.mContentDirty)
  {
    if info == x.info {
      return true;
    }
    SetInfo(x, info, all, height);
    if !hasMemory {
      FitsAll(x, all, height);
      return false;
    }
    ResetLeaf(x, all, height, caches, stale);
    VisitOutputs(x, all, height, caches, stale, {});
    AllUnknownBelow(all, height, x);
    return true;
  }

  /** The leaf's shape is known, and its content has to be written again. */
  method ResetLeaf(x: Expr, ghost all: set<Expr>, ghost height: nat, ghost caches: set<ComputeCache>,
      ghost stale: set<ComputeCache>)
    requires SensibleBut(all, height, Consumers(all, x)) && CachesStale(all, caches, stale) && x in all && x.mOp.None?
    modifies x`mValid, x`mInfoDirty, x`mContentDirty
    ensures SensibleBut(all, height, Consumers(all, x)) && CachesStale(all, caches, stale) && x.mContentDirty
  {
    assert x !in Consumers(all, x) && Sensible(all, height, x);
    x.mValid := true;
    x.mInfoDirty := false;
    x.mContentDirty := true;
  }

  /** What d has been asked for it was asked when the shapes of its inputs were known, or an input has no shape. */
  ghost predicate HadInputs(all: set<Expr>, height: nat, d: Expr)
    requires Acyclic(all, height) && d in all
    reads all`mInfoDirty, all`mValid
  {
    && d.mOp.Some? && (!d.mInfoDirty ==> d.mValid && InputsKnown(all, height, d))
    && (!d.mValid ==> (exists i :: 0 <= i < |d.mInputs| && !d.mInputs[i].from.mValid) || InputsKnown(all, height, d))
  }

  lemma FitsAll(x: Expr, all: set<Expr>, height: nat)
    requires SensibleBut(all, height, Consumers(all, x))
    requires forall d :: d in Consumers(all, x) ==> HadInputs(all, height, d)
    ensures AllSensible(all, height) <==> forall d :: d in Consumers(all, x) ==> StillFits(d)
  {
    forall d | d in Consumers(all, x) ensures Sensible(all, height, d) <==> StillFits(d) {
      assert HadInputs(all, height, d);
    }
  }

  /** Changes the shape of a leaf, and so what its consumers should know. */
  method SetInfo(x: Expr, info: Value, ghost all: set<Expr>, ghost height: nat)
    requires AllSensible(all, height) && x in all && x.mOp.None?
    modifies x`info
    ensures x.info == info && SensibleBut(all, height, Consumers(all, x))
    ensures forall d :: d in Consumers(all, x) ==> HadInputs(all, height, d)
  {
    assert forall d :: d in Consumers(all, x) ==> Sensible(all, height, d) && HadInputs(all, height, d);
    x.info := info;
    forall d | d in all && !Feeds(x, d) ensures Sensible(all, height, d) {
      assert old(Sensible(all, height, d));
    }
  }

  /** The operator whose output has the shape of its first input. */
  function SameShape(): Op {
    Op(infos => if infos == [] then None else Some(infos[0]), 1, _ => [])
  }

  ghost predicate Pair(all: set<Expr>, x: Expr, e: Expr) {
    all == {x, e} && x != e && x.mOp.None? && x.mInputs == [] && e.mOp == Some(SameShape()) && e.mInputs == [Port(x, 0)]
  }

  lemma PairInfos(all: set<Expr>, x: Expr, e: Expr)
    requires Pair(all, x, e)
    ensures e.mOp.value.shape(InputInfos(e.mInputs)) == Some(x.info) && Consumers(all, x) == {e}
  {
    assert e.mInputs[0].from == x;
    assert InputInfos(e.mInputs) == [x.info];
  }

  method MakePair() returns (x: Expr, e: Expr, ghost all: set<Expr>)
    ensures Pair(all, x, e) && AllSensible(all, 2) && Linked(all) && CachesStale(all, {}, {})
    ensures fresh(x) && fresh(e) && x.info == [1] && Unasked(e)
  {
    x := new Expr.Leaf([1], None, true);
    e := Create(SameShape(), [Port(x, 0)], [true], [false], {x}, 1, {}, {});
    all := {x} + {e};
  }

  /** An input of shape 1, and an expression of the same shape that has been asked for it; the input
      gets the shape 2, for which there is no memory.  The expression still says 1. */
  method StaleShape() returns (x: Expr, e: Expr, ghost all: set<Expr>)
    ensures Pair(all, x, e) && Acyclic(all, 2) && Linked(all) && !AllSensible(all, 2)
    ensures x.info == [2] && !e.mInfoDirty && e.info == [1] && e.mOp.value.shape(InputInfos(e.mInputs)) == Some([2])
  {
    x, e, all := MakePair();
    Ask(x, e, all);
    var ok := Resize(x, [2], false, all, 2, {}, {});
    PairInfos(all, x, e);
    assert !StillFits(e);
  }

  method Ask(x: Expr, e: Expr, ghost all: set<Expr>)
    requires Pair(all, x, e) && AllSensible(all, 2) && CachesStale(all, {}, {}) && x.info == [1] && Unasked(e)
    modifies all`mInfoDirty, all`mValid, all`info
    ensures AllSensible(all, 2) && CachesStale(all, {}, {}) && x.info == [1] && !e.mInfoDirty && e.info == [1]
  {
    assert Sensible(all, 2, x);
    var known := RequireInfo(e, all, 2);
    PairInfos(all, x, e);
    assert Sensible(all, 2, e) && Sensible(all, 2, x);
  }

  // ----- creating an expression -----

  /** Only the links of the inputs of e change, and a list without an expired link only gets longer, by links to e. */
  ghost predicate Extended(x: Expr, e: Expr, links: seq<Expr?>, links': seq<Expr?>) {
    && (!Feeds(x, e) ==> links' == links)
    && (null !in links ==>
         null !in links' && links <= links' && forall k :: |links| <= k < |links'| ==> links'[k] == e)
  }

  /** Enters e in the link list of each of its inputs, in the place of an expired link if there is one. */
  method AddLinkForInputs(e: Expr, ghost all: set<Expr>)
    requires Linked(all) && e !in all && forall i :: 0 <= i < |e.mInputs| ==> e.mInputs[i].from in all
    modifies all`mTo
    ensures forall x, d :: x in all && d in all && Feeds(x, d) ==> d in x.mTo
    ensures forall x, d :: x in all && d in x.mTo && d != null ==> d in all + {e}
    ensures forall x :: x in all && Feeds(x, e) ==> e in x.mTo
    ensures forall x :: x in all ==> Extended(x, e, old(x.mTo), x.mTo)
  {
    for i := 0 to |e.mInputs|
      invariant forall x, d :: x in all && d in all && Feeds(x, d) ==> d in x.mTo
      invariant forall x, d :: x in all && d in x.mTo && d != null ==> d in all + {e}
      invariant forall k :: 0 <= k < i ==> e in e.mInputs[k].from.mTo
      invariant forall x :: x in all ==> Extended(x, e, old(x.mTo), x.mTo)
    {
      AddLink(e.mInputs[i].from, e);
    }
  }

  method AddLink(x: Expr, e: Expr)
    modifies x`mTo
    ensures forall d: Expr? :: d != null ==> (d in x.mTo <==> d == e || d in old(x.mTo))
    ensures null !in old(x.mTo) ==> x.mTo == old(x.mTo) + [e]
    ensures null in old(x.mTo) ==>
      var links := old(x.mTo);
      exists j :: 0 <= j < |links| && links[j] == null && null !in links[..j] && x.mTo == links[j := e]
  {
    for j := 0 to |x.mTo|
      invariant x.mTo == old(x.mTo) && null !in x.mTo[..j]
    {
      if x.mTo[j] == null {
        x.mTo := x.mTo[j := e];
        assert x.mTo[j] == e;
        assert forall k :: 0 <= k < |x.mTo| && k != j ==> x.mTo[k] == old(x.mTo)[k];
        return;
      }
    }
    x.mTo := x.mTo + [e];
  }

  /** A new expression has not been asked for its shape, and nothing depends on it. */
  method Create(op: Op, inputs: seq<Port>, contentNeeds: seq<bool>, shapeNeeds: seq<bool>,
      ghost all: set<Expr>, ghost height: nat, ghost caches: set<ComputeCache>, ghost stale: set<ComputeCache>)
        returns (e: Expr)
    requires AllSensible(all, height) && Linked(all) && CachesStale(all, caches, stale)
    requires |contentNeeds| == |shapeNeeds| == |inputs|
    requires forall i :: 0 <= i < |inputs| ==> inputs[i].from in all && !shapeNeeds[i]
    modifies all`mTo
    ensures fresh(e) && e.mOp == Some(op) && e.mInputs == inputs && Unasked(e) && e.mCache == null && !e.mVisited
    ensures e.contentNeedContent == contentNeeds && e.mTo == []
    ensures forall x :: x in all ==> Extended(x, e, old(x.mTo), x.mTo)
    ensures AllSensible(all + {e}, height + 1) && Linked(all + {e}) && CachesStale(all + {e}, caches, stale)
  {
    e := new Expr.Apply(op, inputs, contentNeeds, shapeNeeds, height);
    AddLinkForInputs(e, all);
    forall d | d in all + {e} ensures Sensible(all + {e}, height + 1, d) {
      if d != e { assert old(Sensible(all, height, d)); }
    }
  }
}
