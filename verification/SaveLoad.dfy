/** Saving a graph as a list of operators, and loading it again. */
module SaveLoad {
  import opened Wrappers
  import opened Exprs
  import opened ExprInfo
  import opened ExprDirty
  import opened InformDirty
  import opened MakeCaches
  import opened ExecuteOrder

  /** What is saved of an expression besides its place in the graph.  Which inputs an operator needs
      follows from the operator; it travels with it here. */
  datatype Payload =
    | Operator(op: Op, contentNeeds: seq<bool>, shapeNeeds: seq<bool>)
    | InputLeaf(dims: Value)
    | ConstLeaf(dims: Value, data: Tensor)

  datatype OpT = OpT(payload: Payload, inputIndexes: seq<nat>, outputIndexes: seq<nat>)

  function PayloadOf(e: Expr): Payload
    reads e`info, e`content
  {
    if e.mOp.Some? then Operator(e.mOp.value, e.contentNeedContent, e.shapeNeedContent)
    else if e.isInput then InputLeaf(e.info)
    else ConstLeaf(e.info, if |e.content| == 1 then e.content[0] else 0)
  }

  function Range(start: nat, n: nat): seq<nat> {
    seq(n, i requires 0 <= i < n => start + i)
  }

  // ----- saving -----

  /** Where the outputs of order[j] start among all tensors. */
  function Start(order: seq<Expr>, j: nat): nat
    requires j <= |order|
  {
    TotalOutputs(order[..j])
  }

  /** Index t means output p.index of p.from. */
  ghost predicate IndexOfPort(order: seq<Expr>, p: Port, t: nat) {
    exists j :: 0 <= j < |order| && order[j] == p.from && t == Start(order, j) + p.index
  }

  ghost predicate SavedAs(order: seq<Expr>, k: nat, t: OpT)
    requires k < |order|
    reads order`info, order`content
  {
    var e := order[k];
    && t.payload == PayloadOf(e) && t.outputIndexes == Range(Start(order, k), Outputs(e))
       && |t.inputIndexes| == |e.mInputs|
    && forall i :: 0 <= i < |e.mInputs| ==> IndexOfPort(order, e.mInputs[i], t.inputIndexes[i])
  }

  ghost predicate Saved(order: seq<Expr>, net: seq<OpT>)
    reads order`info, order`content
  {
    |net| == |order| && forall k :: 0 <= k < |order| ==> SavedAs(order, k, net[k])
  }

  lemma StartNext(order: seq<Expr>, j: nat)
    requires j < |order|
    ensures Start(order, j + 1) == Start(order, j) + Outputs(order[j])
  {
    assert order[..j + 1][..j] == order[..j];
  }

  /** The indices of all outputs of the first n ops. */
  function OutputIndexes(net: seq<OpT>, n: nat): seq<nat>
    requires n <= |net|
  {
    if n == 0 then [] else OutputIndexes(net, n - 1) + net[n - 1].outputIndexes
  }

  /** The outputs of all ops are numbered from zero on, in the order of the ops, without a gap. */
  lemma {:induction false} OutputsCountUp(order: seq<Expr>, net: seq<OpT>, n: nat)
    requires Saved(order, net) && n <= |net|
    ensures |OutputIndexes(net, n)| == Start(order, n)
    ensures forall i :: 0 <= i < |OutputIndexes(net, n)| ==> OutputIndexes(net, n)[i] == i
  {
    if n > 0 {
      OutputsCountUp(order, net, n - 1);
      StartNext(order, n - 1);
      assert SavedAs(order, n - 1, net[n - 1]);
    }
  }

  /** Notes where every expression's outputs start. */
  method Offsets(order: seq<Expr>) returns (m: map<Expr, nat>)
    requires Ordered(order)
    ensures forall k :: 0 <= k < |order| ==> order[k] in m && m[order[k]] == Start(order, k)
  {
    m := map[];
    var offset := 0;
    for k := 0 to |order|
      invariant offset == Start(order, k) && m.Keys <= Listed(order[..k])
      invariant forall j :: 0 <= j < k ==> order[j] in m && m[order[j]] == Start(order, j)
    {
      StartNext(order, k);
      assert order[k] !in order[..k];
      m := m[order[k] := offset];
      offset := offset + Outputs(order[k]);
    }
  }

  method SaveOp(order: seq<Expr>, k: nat, m: map<Expr, nat>) returns (t: OpT)
    requires Ordered(order) && k < |order|
    requires forall j :: 0 <= j < |order| ==> order[j] in m && m[order[j]] == Start(order, j)
    ensures SavedAs(order, k, t)
  {
    var e := order[k];
    var inputIndexes: seq<nat> := [];
    for i := 0 to |e.mInputs|
      invariant |inputIndexes| == i && forall h :: 0 <= h < i ==> IndexOfPort(order, e.mInputs[h], inputIndexes[h])
    {
      assert e.mInputs[i].from in order[..k];
      var t: nat := m[e.mInputs[i].from] + e.mInputs[i].index;
      assert IndexOfPort(order, e.mInputs[i], t);
      inputIndexes := inputIndexes + [t];
    }
    return OpT(PayloadOf(e), inputIndexes, Range(m[e], Outputs(e)));
  }

  method SaveOps(order: seq<Expr>) returns (net: seq<OpT>)
    requires Ordered(order)
    ensures Saved(order, net)
  {
    var m := Offsets(order);
    net := [];
    for k := 0 to |order|
      invariant |net| == k && forall j :: 0 <= j < k ==> SavedAs(order, j, net[j])
    {
      var t := SaveOp(order, k, m);
      net := net + [t];
    }
  }

  /** Saves everything the variables depend on. */
  method Save(vars: seq<Expr?>, ghost all: set<Expr>, ghost height: nat) returns (net: seq<OpT>, ghost order: seq<Expr>)
    requires Acyclic(all, height) && NoFlags(all) && Within(all, NonNull(vars))
    modifies all`mVisited
    ensures NoFlags(all) && Ordered(order) && Saved(order, net) && order == VisitAll(all, height, NonNull(vars), [])
    ensures (forall e :: e in all ==> (e in order <==> Below(all, height, NonNull(vars), e))) && Within(all, order)
  {
    var sequence := GetExecuteOrder(vars, all, height);
    order := sequence;
    net := SaveOps(sequence);
  }

  // ----- loading -----

  /** A leading dimension of -1 is opened as 1. */
  function Opened(dims: Value): Value {
    if dims != [] && dims[0] == -1 then dims[0 := 1] else dims
  }

  /** How many elements a tensor of these dimensions has. */
  function Elements(dims: Value): int {
    if dims == [] then 1 else dims[0] * Elements(dims[1..])
  }

  /** Of what is opened the other dimensions are left alone, and they alone say how many elements there are. */
  lemma OpenedElements(dims: Value)
    ensures if dims != [] && dims[0] == -1 then
        Opened(dims)[1..] == dims[1..] && Elements(Opened(dims)) == Elements(dims[1..]) && |Opened(dims)| == |dims|
      else Opened(dims) == dims
  {
    if dims != [] && dims[0] == -1 { assert Opened(dims)[1..] == dims[1..]; }
  }

  ghost predicate Made(e: Expr, p: Payload)
    reads e`info, e`content, e`mContentDirty
  {
    match p
    case Operator(op, needs, shapes) => e.mOp == Some(op) && e.contentNeedContent == needs
      && e.shapeNeedContent == shapes
    case InputLeaf(dims) => NoNeeds(e) && e.isInput && e.info == Opened(dims) && e.mContentDirty
    case ConstLeaf(dims, data) => NoNeeds(e) && !e.isInput && e.info == dims && e.content == [data]
  }

  ghost predicate NoNeeds(e: Expr) {
    e.mOp.None? && e.contentNeedContent == [] && e.shapeNeedContent == []
  }

  /** The variables made so far: by index, and in the order they are returned. */
  datatype Known = Known(byIndex: map<nat, Port>, list: seq<Port>)

  /** After the first n outputs of e have been entered; the first one to claim an index keeps it. */
  function AddTo(m: Known, e: Expr, indexes: seq<nat>, n: nat): Known
    requires n <= |indexes|
  {
    if n == 0 then m
    else
      var r := AddTo(m, e, indexes, n - 1);
      if indexes[n - 1] in r.byIndex then r
      else Known(r.byIndex[indexes[n - 1] := Port(e, n - 1)], r.list + [Port(e, n - 1)])
  }

  ghost function VarsOf(net: seq<OpT>, es: seq<Expr>, k: nat): Known
    requires k <= |net| && k <= |es|
  {
    if k == 0 then Known(map[], [])
    else AddTo(VarsOf(net, es, k - 1), es[k - 1], net[k - 1].outputIndexes, |net[k - 1].outputIndexes|)
  }

  /** The inputs up to the first index that no variable has. */
  function CollectTo(m: map<nat, Port>, indexes: seq<nat>, n: nat): (r: seq<Port>)
    requires n <= |indexes|
    ensures |r| <= n
  {
    if n == 0 then []
    else
      var r := CollectTo(m, indexes, n - 1);
      if |r| < n - 1 || indexes[n - 1] !in m then r else r + [m[indexes[n - 1]]]
  }

  ghost predicate LoadedAs(net: seq<OpT>, es: seq<Expr>, k: nat)
    requires k < |net| && k < |es|
    reads es`info, es`content, es`mContentDirty
  {
    && Made(es[k], net[k].payload)
    && es[k].mInputs == if net[k].payload.Operator?
         then CollectTo(VarsOf(net, es, k).byIndex, net[k].inputIndexes, |net[k].inputIndexes|) else []
  }

  method FindInputs(m: map<nat, Port>, indexes: seq<nat>) returns (inputs: seq<Port>)
    ensures inputs == CollectTo(m, indexes, |indexes|)
  {
    inputs := [];
    var i := 0;
    while i < |indexes| && indexes[i] in m
      invariant i <= |indexes| && inputs == CollectTo(m, indexes, i) && |inputs| == i
    {
      inputs := inputs + [m[indexes[i]]];
      i := i + 1;
    }
    CollectStops(m, indexes, i, |indexes|);
  }

  lemma {:induction false} CollectStops(m: map<nat, Port>, indexes: seq<nat>, i: nat, n: nat)
    requires i <= n <= |indexes| && |CollectTo(m, indexes, i)| == i && (i < |indexes| ==> indexes[i] !in m)
    ensures CollectTo(m, indexes, n) == CollectTo(m, indexes, i)
    decreases n
  {
    if i < n { CollectStops(m, indexes, i, n - 1); }
  }

  method MakeExpr(t: OpT, m: map<nat, Port>, ghost rank: nat) returns (e: Expr)
    ensures fresh(e) && Made(e, t.payload) && e.rank <= rank
    ensures e.mInputs == if t.payload.Operator? then CollectTo(m, t.inputIndexes, |t.inputIndexes|) else []
    ensures e.mTo == [] && !e.mVisited && e.mValid && e.mCache == null && e.mInfoDirty == e.mOp.Some?
    ensures e.mOp.Some? ==> e.rank == rank
  {
    if t.payload.Operator? {
      var inputs := FindInputs(m, t.inputIndexes);
      e := new Expr.Apply(t.payload.op, inputs, t.payload.contentNeeds, t.payload.shapeNeeds, rank);
    } else if t.payload.InputLeaf? {
      e := new Expr.Leaf(Opened(t.payload.dims), None, true);
    } else {
      e := new Expr.Leaf(t.payload.dims, Some(t.payload.data), false);
    }
  }

  method EnterOutputs(m0: Known, e: Expr, indexes: seq<nat>) returns (m: Known)
    ensures m == AddTo(m0, e, indexes, |indexes|)
  {
    m := m0;
    for v := 0 to |indexes|
      invariant m == AddTo(m0, e, indexes, v)
    {
      if indexes[v] !in m.byIndex {
        m := Known(m.byIndex[indexes[v] := Port(e, v)], m.list + [Port(e, v)]);
      }
    }
  }

  /** The variables lead to expressions loaded before. */
  ghost predicate VarsAmong(m: map<nat, Port>, all: set<Expr>) {
    forall t :: t in m ==> m[t].from in all
  }

  lemma {:induction false} AddAmong(m: Known, e: Expr, indexes: seq<nat>, n: nat, all: set<Expr>)
    requires n <= |indexes| && VarsAmong(m.byIndex, all)
    ensures VarsAmong(AddTo(m, e, indexes, n).byIndex, all + {e})
  {
    if n > 0 { AddAmong(m, e, indexes, n - 1, all); }
  }

  lemma {:induction false} CollectAmong(m: map<nat, Port>, indexes: seq<nat>, n: nat, all: set<Expr>)
    requires n <= |indexes| && VarsAmong(m, all)
    ensures forall i :: 0 <= i < |CollectTo(m, indexes, n)| ==> CollectTo(m, indexes, n)[i].from in all
  {
    if n > 0 { CollectAmong(m, indexes, n - 1, all); }
  }

  lemma {:induction false} VarsSame(net: seq<OpT>, es: seq<Expr>, es': seq<Expr>, k: nat)
    requires k <= |net| && k <= |es| && es <= es'
    ensures VarsOf(net, es', k) == VarsOf(net, es, k)
  {
    if k > 0 { VarsSame(net, es, es', k - 1); }
  }

  ghost predicate AllLoaded(net: seq<OpT>, es: seq<Expr>)
    reads es`info, es`content, es`mContentDirty
  {
    |es| <= |net| && forall k :: 0 <= k < |es| ==> LoadedAs(net, es, k)
  }

  /** The expressions are distinct, and inputs come first; ranks follow the order. */
  ghost predicate InOrder(es: seq<Expr>) {
    && (forall k :: 0 <= k < |es| ==> es[k] !in es[..k] && es[k].rank <= k)
    && forall k :: 0 <= k < |es| && es[k].mInputs != [] ==>
         es[k].rank == k && forall i :: 0 <= i < |es[k].mInputs| ==> es[k].mInputs[i].from in es[..k]
  }

  lemma AllLoadedNext(net: seq<OpT>, es: seq<Expr>, e: Expr)
    requires |es| < |net| && AllLoaded(net, es) && Made(e, net[|es|].payload)
    requires e.mInputs == if net[|es|].payload.Operator?
      then CollectTo(VarsOf(net, es, |es|).byIndex, net[|es|].inputIndexes, |net[|es|].inputIndexes|) else []
    ensures AllLoaded(net, es + [e])
  {
    forall k | 0 <= k < |es + [e]| ensures LoadedAs(net, es + [e], k) {
      VarsSame(net, es, es + [e], k);
      if k < |es| { assert LoadedAs(net, es, k); }
    }
  }

  lemma InOrderNext(es: seq<Expr>, e: Expr)
    requires InOrder(es) && e !in es && e.rank <= |es| && (e.mInputs != [] ==> e.rank == |es|)
    requires forall i :: 0 <= i < |e.mInputs| ==> e.mInputs[i].from in es
    ensures InOrder(es + [e])
  {
    var more := es + [e];
    assert forall k :: 0 <= k < |es| ==> more[..k] == es[..k];
    assert more[..|es|] == es;
  }

  lemma VarsAmongNext(net: seq<OpT>, es: seq<Expr>, e: Expr)
    requires |es| < |net| && VarsAmong(VarsOf(net, es, |es|).byIndex, Listed(es))
    ensures VarsAmong(VarsOf(net, es + [e], |es| + 1).byIndex, Listed(es + [e])) && Listed(es + [e]) == Listed(es) + {e}
    ensures VarsOf(net, es + [e], |es| + 1) ==
      AddTo(VarsOf(net, es, |es|), e, net[|es|].outputIndexes, |net[|es|].outputIndexes|)
  {
    assert Listed(es + [e]) == Listed(es) + {e};
    VarsSame(net, es, es + [e], |es|);
    AddAmong(VarsOf(net, es, |es|), e, net[|es|].outputIndexes, |net[|es|].outputIndexes|, Listed(es));
  }

  ghost predicate InputsIn(e: Expr, all: set<Expr>) {
    forall i :: 0 <= i < |e.mInputs| ==> e.mInputs[i].from in all
  }

  /** The links among the loaded expressions, under a lock. */
  ghost predicate Joined(all: set<Expr>)
    reads all`mTo
  {
    forall key: nat {:trigger Unlock(key)} :: Unlock(key) ==> Linked(all) && forall d :: d in all ==> InputsIn(d, all)
  }

  /** Enters the new expression in the lists of its inputs. */
  method LinkNew(e: Expr, ghost all: set<Expr>)
    requires Joined(all) && e !in all && e.mTo == [] && InputsIn(e, all)
    modifies all`mTo
    ensures Joined(all + {e})
  {
    assert Unlock(0);
    AddLinkForInputs(e, all);
  }

  /** Everything about the loaded expressions but their links, under a lock. */
  ghost predicate Unlinked(net: seq<OpT>, es: seq<Expr>, variables: Known)
    reads es`info, es`content, es`mContentDirty, es`mVisited
  {
    forall key: nat {:trigger Unlock(key)} :: Unlock(key) ==>
      && AllLoaded(net, es) && InOrder(es) && NoFlags(Listed(es))
      && variables == VarsOf(net, es, |es|) && VarsAmong(variables.byIndex, Listed(es))
  }

  lemma NothingLoaded(net: seq<OpT>)
    ensures Unlinked(net, [], Known(map[], []))
  {
  }

  lemma UnlinkedNext(net: seq<OpT>, es: seq<Expr>, m: Known, e: Expr)
    requires |es| < |net| && Unlinked(net, es, m) && e !in es && !e.mVisited && Made(e, net[|es|].payload)
    requires e.rank <= |es| && (e.mInputs != [] ==> e.rank == |es|)
    requires e.mInputs == if net[|es|].payload.Operator?
      then CollectTo(m.byIndex, net[|es|].inputIndexes, |net[|es|].inputIndexes|) else []
    ensures Unlinked(net, es + [e], AddTo(m, e, net[|es|].outputIndexes, |net[|es|].outputIndexes|))
    ensures InputsIn(e, Listed(es))
  {
    assert forall i :: 0 <= i < |e.mInputs| ==> e.mInputs[i].from in es by {
      assert Unlock(0);
      CollectAmong(m.byIndex, net[|es|].inputIndexes, |net[|es|].inputIndexes|, Listed(es));
    }
    assert AllLoaded(net, es + [e]) by {
      assert Unlock(0);
      AllLoadedNext(net, es, e);
    }
    assert InOrder(es + [e]) by {
      assert Unlock(0);
      InOrderNext(es, e);
    }
    assert NoFlags(Listed(es + [e])) by {
      assert Unlock(0);
    }
    VarsNext(net, es, m, e);
  }

  lemma VarsNext(net: seq<OpT>, es: seq<Expr>, m: Known, e: Expr)
    requires |es| < |net| && Unlinked(net, es, m)
    ensures var r := AddTo(m, e, net[|es|].outputIndexes, |net[|es|].outputIndexes|);
      r == VarsOf(net, es + [e], |es| + 1) && VarsAmong(r.byIndex, Listed(es + [e]))
  {
    assert Unlock(0);
    VarsAmongNext(net, es, e);
  }

  method LoadOne(net: seq<OpT>, es: seq<Expr>, m: Known) returns (e: Expr, variables: Known)
    requires |es| < |net| && Unlinked(net, es, m)
    ensures fresh(e) && Unlinked(net, es + [e], variables) && e.mTo == [] && InputsIn(e, Listed(es))
  {
    e := MakeExpr(net[|es|], m.byIndex, |es|);
    UnlinkedNext(net, es, m, e);
    variables := EnterOutputs(m, e, net[|es|].outputIndexes);
  }

  lemma ListedNext(es: seq<Expr>, e: Expr)
    ensures Listed(es + [e]) == Listed(es) + {e}
  {}

  method LinkLoaded(ghost net: seq<OpT>, ghost es: seq<Expr>, e: Expr, ghost variables: Known)
    requires Unlinked(net, es + [e], variables) && Joined(Listed(es)) && e !in Listed(es) && e.mTo == []
      && InputsIn(e, Listed(es))
    modifies Listed(es)`mTo
    ensures Unlinked(net, es + [e], variables) && Joined(Listed(es + [e]))
  {
    LinkNew(e, Listed(es));
    ListedNext(es, e);
  }

  method LoadNext(net: seq<OpT>, es: seq<Expr>, m: Known) returns (e: Expr, variables: Known)
    requires |es| < |net| && Unlinked(net, es, m) && Joined(Listed(es))
    modifies Listed(es)`mTo
    ensures fresh(e) && Unlinked(net, es + [e], variables) && Joined(Listed(es + [e]))
  {
    e, variables := LoadOne(net, es, m);
    LinkLoaded(net, es, e, variables);
  }

  /** Creates the expressions of a net in its order.  An index that no variable has cuts off the
      inputs there. */
  method Load(net: seq<OpT>) returns (es: seq<Expr>, variables: Known)
    ensures |es| == |net| && Unlinked(net, es, variables) && Linked(Listed(es)) && forall e :: e in es ==> fresh(e)
  {
    es, variables := [], Known(map[], []);
    NothingLoaded(net);
    while |es| < |net|
      invariant |es| <= |net| && Unlinked(net, es, variables) && Joined(Listed(es)) && forall e :: e in es ==> fresh(e)
      decreases |net| - |es|
    {
      var e;
      e, variables := LoadNext(net, es, variables);
      es := es + [e];
    }
    assert Unlock(0);
  }
}
