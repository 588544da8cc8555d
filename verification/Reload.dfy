/** Saving and loading undo each other. */
module Reload {
  import opened Wrappers
  import opened Exprs
  import opened ExprInfo
  import opened InformDirty
  import opened MakeCaches
  import opened ExecuteOrder
  import opened SaveLoad

  /** Each input names an output that its expression has. */
  ghost predicate PortsExist(order: seq<Expr>) {
    forall k, i ::
      0 <= k < |order| && 0 <= i < |order[k].mInputs| ==> order[k].mInputs[i].index < Outputs(order[k].mInputs[i].from)
  }

  /** b was loaded from what was saved of a. */
  ghost predicate Twin(order: seq<Expr>, es: seq<Expr>, a: Expr, b: Expr) {
    exists j :: 0 <= j < |order| && j < |es| && order[j] == a && es[j] == b
  }

  ghost predicate SamePort(order: seq<Expr>, es: seq<Expr>, p: Port, q: Port) {
    p.index == q.index && Twin(order, es, p.from, q.from)
  }

  /** The same operators and leaves, wired in the same way. */
  ghost predicate Isomorphic(order: seq<Expr>, es: seq<Expr>)
    reads order`info, order`content, es`info, es`content, es`mContentDirty
  {
    |es| == |order| && Distinct(es) && forall k :: 0 <= k < |order| ==>
      && Made(es[k], PayloadOf(order[k])) && |es[k].mInputs| == |order[k].mInputs|
      && forall i :: 0 <= i < |order[k].mInputs| ==> SamePort(order, es, order[k].mInputs[i], es[k].mInputs[i])
  }

  ghost predicate Distinct(es: seq<Expr>) {
    forall j, k :: 0 <= j < k < |es| ==> es[j] != es[k]
  }

  lemma OrderedDistinct(order: seq<Expr>)
    requires Ordered(order)
    ensures Distinct(order)
  {
    forall j, k | 0 <= j < k < |order| ensures order[j] != order[k] {
      assert order[j] in order[..k];
    }
  }

  // ----- the variables of a saved net -----

  ghost predicate OutputAt(order: seq<Expr>, j: nat, t: nat) {
    j < |order| && Start(order, j) <= t < Start(order, j) + Outputs(order[j])
  }

  /** Exactly the outputs of the first k expressions are known. */
  ghost predicate Knows(order: seq<Expr>, es: seq<Expr>, k: nat, m: map<nat, Port>)
    requires k <= |order| && k <= |es|
  {
    && (forall t :: t in m ==> t < Start(order, k))
    && forall j: nat, t: nat :: j < k && OutputAt(order, j, t) ==> t in m && m[t] == Port(es[j], t - Start(order, j))
  }

  ghost function Ports(e: Expr, n: nat): seq<Port> {
    if n == 0 then [] else Ports(e, n - 1) + [Port(e, n - 1)]
  }

  lemma {:induction false} AddRange(m: Known, e: Expr, start: nat, count: nat, n: nat)
    requires n <= count && forall t :: t in m.byIndex ==> t < start
    ensures var r := AddTo(m, e, Range(start, count), n);
      && (forall t :: t in r.byIndex <==> t in m.byIndex || start <= t < start + n)
      && (forall t :: t in m.byIndex ==> r.byIndex[t] == m.byIndex[t])
      && (forall t: nat :: start <= t < start + n ==> r.byIndex[t] == Port(e, t - start))
      && r.list == m.list + Ports(e, n)
  {
    if n > 0 { AddRange(m, e, start, count, n - 1); }
  }

  ghost function AllPorts(order: seq<Expr>, es: seq<Expr>, k: nat): seq<Port>
    requires k <= |order| && k <= |es|
  {
    if k == 0 then [] else AllPorts(order, es, k - 1) + Ports(es[k - 1], Outputs(order[k - 1]))
  }

  lemma {:induction false} VarsOfSaved(order: seq<Expr>, net: seq<OpT>, es: seq<Expr>, k: nat)
    requires Saved(order, net) && k <= |order| && k <= |es|
    ensures Knows(order, es, k, VarsOf(net, es, k).byIndex) && VarsOf(net, es, k).list == AllPorts(order, es, k)
  {
    if k > 0 {
      VarsOfSaved(order, net, es, k - 1);
      StartNext(order, k - 1);
      assert net[k - 1].outputIndexes == Range(Start(order, k - 1), Outputs(order[k - 1])) by {
        assert SavedAs(order, k - 1, net[k - 1]);
      }
      AddRange(VarsOf(net, es, k - 1), es[k - 1], Start(order, k - 1), Outputs(order[k - 1]), Outputs(order[k - 1]));
    }
  }

  // ----- the wiring -----

  lemma InputKnown(order: seq<Expr>, net: seq<OpT>, es: seq<Expr>, k: nat, i: nat)
    requires Ordered(order) && PortsExist(order) && Saved(order, net) && k < |order| <= |es| && i < |order[k].mInputs|
    ensures var m, t := VarsOf(net, es, k).byIndex, net[k].inputIndexes[i];
      t in m && SamePort(order, es, order[k].mInputs[i], m[t])
  {
    VarsOfSaved(order, net, es, k);
    var p, t := order[k].mInputs[i], net[k].inputIndexes[i];
    assert SavedAs(order, k, net[k]);
    var j :| 0 <= j < |order| && order[j] == p.from && t == Start(order, j) + p.index;
    assert p.from in order[..k];
    OrderedDistinct(order);
    assert OutputAt(order, j, t);
  }

  lemma {:induction false} InputsFound(order: seq<Expr>, net: seq<OpT>, es: seq<Expr>, k: nat, n: nat)
    requires Ordered(order) && PortsExist(order) && Saved(order, net) && k < |order| <= |es| && n <= |order[k].mInputs|
    ensures |net[k].inputIndexes| == |order[k].mInputs|
    ensures var r := CollectTo(VarsOf(net, es, k).byIndex, net[k].inputIndexes, n);
      |r| == n && forall i :: 0 <= i < n ==> SamePort(order, es, order[k].mInputs[i], r[i])
  {
    assert |net[k].inputIndexes| == |order[k].mInputs| by {
      assert SavedAs(order, k, net[k]);
    }
    if n > 0 {
      InputsFound(order, net, es, k, n - 1);
      InputKnown(order, net, es, k, n - 1);
    }
  }

  /** Loading what was saved gives the same graph, and all its outputs. */
  lemma LoadedIsIsomorphic(order: seq<Expr>, net: seq<OpT>, es: seq<Expr>, variables: Known)
    requires Ordered(order) && PortsExist(order) && Saved(order, net) && |es| == |net| && Unlinked(net, es, variables)
    requires forall e :: e in order && e.mOp.None? ==> e.mInputs == []
    ensures Isomorphic(order, es) && variables.list == AllPorts(order, es, |es|)
  {
    VarsOfSaved(order, net, es, |es|);
    assert Unlock(0);
    forall k | 0 <= k < |order|
      ensures Made(es[k], PayloadOf(order[k])) && |es[k].mInputs| == |order[k].mInputs|
      ensures forall i :: 0 <= i < |order[k].mInputs| ==> SamePort(order, es, order[k].mInputs[i], es[k].mInputs[i])
    {
      assert SavedAs(order, k, net[k]) && LoadedAs(net, es, k);
      InputsFound(order, net, es, k, |order[k].mInputs|);
    }
    forall j, k | 0 <= j < k < |es| ensures es[j] != es[k] {
      assert es[j] in es[..k];
    }
  }

  // ----- the order is found again -----

  ghost predicate Paired(order: seq<Expr>, es: seq<Expr>, s: seq<Expr>, s': seq<Expr>) {
    |s| == |s'| && forall i :: 0 <= i < |s| ==> Twin(order, es, s[i], s'[i])
  }

  lemma InPaired(order: seq<Expr>, es: seq<Expr>, s: seq<Expr>, s': seq<Expr>, a: Expr, b: Expr)
    requires Distinct(order) && Distinct(es) && Paired(order, es, s, s') && Twin(order, es, a, b)
    ensures a in s <==> b in s'
  {
  }

  /** Two graphs, the first one listed in order, the second one made of twins. */
  ghost predicate Twins(all: set<Expr>, height: nat, all': set<Expr>, height': nat, order: seq<Expr>, es: seq<Expr>) {
    && Acyclic(all, height) && Acyclic(all', height') && Distinct(order) && Distinct(es) && |es| == |order|
    && (forall e :: e in order ==> e in all) && (forall e :: e in es ==> e in all')
    && forall k :: 0 <= k < |order| ==>
      && |es[k].mInputs| == |order[k].mInputs|
      && forall i :: 0 <= i < |order[k].mInputs| ==> SamePort(order, es, order[k].mInputs[i], es[k].mInputs[i])
  }

  lemma {:induction false} VisitTwins(all: set<Expr>, height: nat, all': set<Expr>, height': nat, order: seq<Expr>,
      es: seq<Expr>,
      e: Expr, e': Expr, done: seq<Expr>, done': seq<Expr>)
    requires Twins(all, height, all', height', order, es) && Twin(order, es, e, e') && Paired(order, es, done, done')
    ensures Paired(order, es, Visit(all, height, e, done), Visit(all', height', e', done'))
    decreases e.rank, |e.mInputs| + 1
  {
    InPaired(order, es, done, done', e, e');
    if e !in done { VisitInputsTwins(all, height, all', height', order, es, e, e', |e.mInputs|, done, done'); }
  }

  lemma {:induction false} VisitInputsTwins(all: set<Expr>, height: nat, all': set<Expr>, height': nat,
      order: seq<Expr>, es: seq<Expr>,
      e: Expr, e': Expr, n: nat, done: seq<Expr>, done': seq<Expr>)
    requires Twins(all, height, all', height', order, es) && Twin(order, es, e, e') && Paired(order, es, done, done')
    requires n <= |e.mInputs|
    ensures |e'.mInputs| == |e.mInputs|
    ensures Paired(order, es, VisitInputs(all, height, e, n, done), VisitInputs(all', height', e', n, done'))
    decreases e.rank, n
  {
    if n > 0 {
      VisitInputsTwins(all, height, all', height', order, es, e, e', n - 1, done, done');
      VisitTwins(all, height, all', height', order, es, e.mInputs[n - 1].from, e'.mInputs[n - 1].from,
        VisitInputs(all, height, e, n - 1, done), VisitInputs(all', height', e', n - 1, done'));
    }
  }

  lemma {:induction false} VisitAllTwins(all: set<Expr>, height: nat, all': set<Expr>, height': nat,
      order: seq<Expr>, es: seq<Expr>,
      stack: seq<Expr>, stack': seq<Expr>, done: seq<Expr>, done': seq<Expr>)
    requires Twins(all, height, all', height', order, es) && Paired(order, es, stack, stack')
      && Paired(order, es, done, done')
    ensures Within(all, stack) && Within(all', stack')
    ensures Paired(order, es, VisitAll(all, height, stack, done), VisitAll(all', height', stack', done'))
    decreases |stack|
  {
    if stack != [] {
      var n := |stack| - 1;
      VisitTwins(all, height, all', height', order, es, stack[n], stack'[n], done, done');
      VisitAllTwins(all, height, all', height', order, es, stack[..n], stack'[..n],
        Visit(all, height, stack[n], done), Visit(all', height', stack'[n], done'));
    }
  }

  lemma LoadedFits(all: set<Expr>, height: nat, order: seq<Expr>, net: seq<OpT>, es: seq<Expr>, k: nat)
    requires Acyclic(all, height) && k < |order| && order[k] in all && k < |es| == |net| && AllLoaded(net, es)
      && InOrder(es)
    requires Made(es[k], PayloadOf(order[k])) && |es[k].mInputs| == |order[k].mInputs|
    ensures es[k].rank <= k && (es[k].mOp.None? ==> es[k].mInputs == [])
    ensures |es[k].contentNeedContent| == |es[k].shapeNeedContent| == |es[k].mInputs|
    ensures forall i :: 0 <= i < |es[k].mInputs| ==>
      es[k].mInputs[i].from in es && es[k].mInputs[i].from.rank < es[k].rank
  {
    forall i | 0 <= i < |es[k].mInputs| ensures es[k].mInputs[i].from in es && es[k].mInputs[i].from.rank < es[k].rank {
      assert es[k].mInputs[i].from in es[..k];
    }
  }

  /** The graph that is loaded is acyclic again. */
  lemma LoadedIsAcyclic(all: set<Expr>, height: nat, order: seq<Expr>, net: seq<OpT>, es: seq<Expr>, variables: Known)
    requires Acyclic(all, height) && Within(all, order) && |es| == |net| && Unlinked(net, es, variables)
      && Isomorphic(order, es)
    ensures Acyclic(Listed(es), |es| + 1)
  {
    assert Unlock(0);
    forall k | 0 <= k < |es|
      ensures es[k].rank <= k && (es[k].mOp.None? ==> es[k].mInputs == [])
      ensures |es[k].contentNeedContent| == |es[k].shapeNeedContent| == |es[k].mInputs|
      ensures forall i :: 0 <= i < |es[k].mInputs| ==>
        es[k].mInputs[i].from in es && es[k].mInputs[i].from.rank < es[k].rank
    {
      LoadedFits(all, height, order, net, es, k);
    }
  }

  lemma LoadedAreTwins(all: set<Expr>, height: nat, order: seq<Expr>, es: seq<Expr>)
    requires Acyclic(all, height) && Within(all, order) && Acyclic(Listed(es), |es| + 1) && Distinct(order)
      && Isomorphic(order, es)
    ensures Twins(all, height, Listed(es), |es| + 1, order, es)
  {
  }

  lemma TwinsOfAll(order: seq<Expr>, es: seq<Expr>, again: seq<Expr>)
    requires |es| == |order| && Distinct(order) && Paired(order, es, order, again)
    ensures again == es
  {
    forall i | 0 <= i < |again| ensures again[i] == es[i] {
      assert Twin(order, es, order[i], again[i]);
    }
  }

  lemma TwinsOfLoaded(order: seq<Expr>, es: seq<Expr>, first: seq<Expr>)
    requires |es| == |order| && Distinct(es) && Paired(order, es, first, es)
    ensures first == order
  {
    forall i | 0 <= i < |first| ensures first[i] == order[i] {
      assert Twin(order, es, first[i], es[i]);
    }
  }

  /** Listing the twins of what was listed gives what was loaded. */
  lemma SameOrder(all: set<Expr>, height: nat, order: seq<Expr>, net: seq<OpT>, es: seq<Expr>, variables: Known,
      outputs: seq<Expr>, outputs': seq<Expr>)
    requires Acyclic(all, height) && Within(all, order) && Within(all, outputs) && Distinct(order)
    requires order == VisitAll(all, height, outputs, [])
    requires |es| == |net| && Unlinked(net, es, variables) && Isomorphic(order, es)
      && Paired(order, es, outputs, outputs')
    ensures Acyclic(Listed(es), |es| + 1) && Within(Listed(es), outputs')
    ensures VisitAll(Listed(es), |es| + 1, outputs', []) == es
  {
    LoadedIsAcyclic(all, height, order, net, es, variables);
    LoadedAreTwins(all, height, order, es);
    VisitAllTwins(all, height, Listed(es), |es| + 1, order, es, outputs, outputs', [], []);
    TwinsOfAll(order, es, VisitAll(Listed(es), |es| + 1, outputs', []));
  }

  // ----- the net is the same -----

  /** What loading changes: an input with a leading dimension of -1. */
  ghost predicate OpensDims(p: Payload) {
    p.InputLeaf? && p.dims != [] && p.dims[0] == -1
  }

  lemma PayloadAgain(e: Expr, p: Payload)
    requires Made(e, p)
    ensures PayloadOf(e) == p <==> !OpensDims(p)
  {
  }

  lemma {:induction false} StartsAgree(order: seq<Expr>, es: seq<Expr>, j: nat)
    requires Isomorphic(order, es) && j <= |order|
    ensures Start(es, j) == Start(order, j)
  {
    if j > 0 {
      StartsAgree(order, es, j - 1);
      StartNext(order, j - 1);
      StartNext(es, j - 1);
      assert Made(es[j - 1], PayloadOf(order[j - 1]));
    }
  }

  lemma PortIndexAgrees(order: seq<Expr>, es: seq<Expr>, p: Port, q: Port, t: nat, u: nat)
    requires Isomorphic(order, es) && Distinct(order) && SamePort(order, es, p, q) && IndexOfPort(order, p, t)
      && IndexOfPort(es, q, u)
    ensures t == u
  {
    var j :| 0 <= j < |es| && es[j] == q.from && u == Start(es, j) + q.index;
    StartsAgree(order, es, j);
  }

  /** The first net that is saved and the next one differ at most in opened dimensions. */
  lemma SameOp(order: seq<Expr>, es: seq<Expr>, k: nat, t: OpT, u: OpT)
    requires Isomorphic(order, es) && Distinct(order) && k < |order| && SavedAs(order, k, t) && SavedAs(es, k, u)
    ensures u.inputIndexes == t.inputIndexes && u.outputIndexes == t.outputIndexes
    ensures u == t <==> !OpensDims(t.payload)
  {
    assert Made(es[k], PayloadOf(order[k]));
    StartsAgree(order, es, k);
    PayloadAgain(es[k], t.payload);
    forall i | 0 <= i < |order[k].mInputs| ensures u.inputIndexes[i] == t.inputIndexes[i] {
      PortIndexAgrees(order, es, order[k].mInputs[i], es[k].mInputs[i], t.inputIndexes[i], u.inputIndexes[i]);
    }
  }

  /** The indices come back; the whole net does if and only if no input has a leading dimension of -1. */
  lemma SameNet(order: seq<Expr>, es: seq<Expr>, net: seq<OpT>, again: seq<OpT>)
    requires Isomorphic(order, es) && Distinct(order) && Saved(order, net) && Saved(es, again)
    ensures |again| == |net| && forall k :: 0 <= k < |net| ==>
      again[k].inputIndexes == net[k].inputIndexes && again[k].outputIndexes == net[k].outputIndexes
    ensures again == net <==> forall k :: 0 <= k < |net| ==> !OpensDims(net[k].payload)
  {
    forall k | 0 <= k < |net|
      ensures again[k].inputIndexes == net[k].inputIndexes && again[k].outputIndexes == net[k].outputIndexes
      ensures again[k] == net[k] <==> !OpensDims(net[k].payload)
    {
      assert SavedAs(order, k, net[k]) && SavedAs(es, k, again[k]);
      SameOp(order, es, k, net[k], again[k]);
    }
  }

  // ----- saving all that was loaded -----

  ghost function Froms(list: seq<Port>): (r: seq<Expr>)
    ensures |r| == |list| && forall i :: 0 <= i < |r| ==> r[i] == list[i].from
  {
    seq(|list|, i requires 0 <= i < |list| => list[i].from)
  }

  lemma {:induction false} PortsOf(e: Expr, n: nat)
    ensures |Ports(e, n)| == n && forall i :: 0 <= i < n ==> Ports(e, n)[i] == Port(e, i)
  {
    if n > 0 { PortsOf(e, n - 1); }
  }

  lemma {:induction false} AllPortsFrom(order: seq<Expr>, es: seq<Expr>, k: nat)
    requires k <= |order| && k <= |es|
    ensures forall p :: p in AllPorts(order, es, k) ==> p.from in es
  {
    if k > 0 {
      AllPortsFrom(order, es, k - 1);
      PortsOf(es[k - 1], Outputs(order[k - 1]));
    }
  }

  lemma {:induction false} NothingMore(all: set<Expr>, height: nat, stack: seq<Expr>, done: seq<Expr>)
    requires Acyclic(all, height) && Within(all, stack) && forall e :: e in stack ==> e in done
    ensures VisitAll(all, height, stack, done) == done
    decreases |stack|
  {
    if stack != [] { NothingMore(all, height, stack[..|stack| - 1], done); }
  }

  lemma {:induction false} VisitAllAdds(all: set<Expr>, height: nat, stack: seq<Expr>, done: seq<Expr>)
    requires Acyclic(all, height) && Within(all, stack)
    ensures done <= VisitAll(all, height, stack, done)
    decreases |stack|
  {
    if stack != [] {
      var n := |stack| - 1;
      VisitAdds(all, height, stack[n], done);
      VisitAllAdds(all, height, stack[..n], Visit(all, height, stack[n], done));
    }
  }

  lemma UpToTheLast(part: seq<Expr>, es: seq<Expr>)
    requires Distinct(es) && part != [] && part <= es && part[|part| - 1] == es[|es| - 1]
    ensures part == es
  {
    assert part[|part| - 1] == es[|part| - 1];
  }

  /** Listing all of es from its last one on gives es if the last one depends on all, in that order,
      and only then. */
  lemma FromTheLast(all: set<Expr>, height: nat, es: seq<Expr>, stack: seq<Expr>)
    requires Acyclic(all, height) && Within(all, stack) && Distinct(es) && forall e :: e in stack ==> e in es
    requires es != [] && stack != [] && stack[|stack| - 1] == es[|es| - 1]
    ensures VisitAll(all, height, stack, []) == es <==> Visit(all, height, es[|es| - 1], []) == es
  {
    var rest, first := stack[..|stack| - 1], Visit(all, height, es[|es| - 1], []);
    VisitAllAdds(all, height, rest, first);
    if first == es { NothingMore(all, height, rest, es); }
    if VisitAll(all, height, stack, []) == es { UpToTheLast(first, es); }
  }

  /** Saving all the variables that loading returns gives the same order if and only if the saved order
      is that of its last expression alone. */
  lemma ReloadAll(all: set<Expr>, height: nat, order: seq<Expr>, net: seq<OpT>, es: seq<Expr>, variables: Known)
    requires Acyclic(all, height) && Within(all, order) && Ordered(order) && PortsExist(order) && Saved(order, net)
    requires |es| == |net| && Unlinked(net, es, variables) && order != [] && Outputs(order[|order| - 1]) > 0
    ensures Acyclic(Listed(es), |es| + 1) && Within(Listed(es), Froms(variables.list))
    ensures VisitAll(Listed(es), |es| + 1, Froms(variables.list), []) == es <==>
      Visit(all, height, order[|order| - 1], []) == order
  {
    var n := |order| - 1;
    OrderedDistinct(order);
    LoadedIsIsomorphic(order, net, es, variables);
    LoadedIsAcyclic(all, height, order, net, es, variables);
    AllPortsFrom(order, es, |es|);
    PortsOf(es[n], Outputs(order[n]));
    FromTheLast(Listed(es), |es| + 1, es, Froms(variables.list));
    SameListing(all, height, order, es, n);
  }

  lemma SameListing(all: set<Expr>, height: nat, order: seq<Expr>, es: seq<Expr>, n: nat)
    requires Acyclic(all, height) && Within(all, order) && Acyclic(Listed(es), |es| + 1) && Distinct(order)
      && Isomorphic(order, es)
    requires n < |order|
    ensures Visit(all, height, order[n], []) == order <==> Visit(Listed(es), |es| + 1, es[n], []) == es
  {
    var a, b := Visit(all, height, order[n], []), Visit(Listed(es), |es| + 1, es[n], []);
    assert Distinct(es) && Paired(order, es, a, b) by {
      LoadedAreTwins(all, height, order, es);
      VisitTwins(all, height, Listed(es), |es| + 1, order, es, order[n], es[n], [], []);
    }
    if a == order { TwinsOfAll(order, es, b); }
    if b == es { TwinsOfLoaded(order, es, a); }
  }

  /** One variable is always enough for that; two leaves come back turned round. */
  lemma OneOrTwo(all: set<Expr>, height: nat, r: Expr, s: Expr)
    requires Acyclic(all, height) && r in all && s in all && r != s
    ensures Visit(all, height, r, []) == VisitAll(all, height, [r], [])
    ensures r.mOp.None? && s.mOp.None? ==> VisitAll(all, height, [r, s], []) == [s, r]
  {
    assert [r, s][..1] == [r];
    if r.mOp.None? && s.mOp.None? {
      assert Visit(all, height, s, []) == VisitInputs(all, height, s, 0, []) + [s] == [s];
      assert Visit(all, height, r, [s]) == VisitInputs(all, height, r, 0, [s]) + [r] == [s, r];
      assert VisitAll(all, height, [r], [s]) == VisitAll(all, height, [], [s, r]);
    }
  }
}
