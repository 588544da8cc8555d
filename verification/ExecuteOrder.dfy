/** Listing the expressions that outputs depend on, inputs first. */
module ExecuteOrder {
  import opened Wrappers
  import opened DepthFirst
  import opened Exprs
  import opened ExprInfo
  import opened ExprDirty
  import opened InformDirty
  import opened MakeCaches

  /** An output, or something that an output depends on. */
  ghost predicate Below(all: set<Expr>, height: nat, targets: seq<Expr>, e: Expr)
    requires Acyclic(all, height)
  {
    exists t :: t in targets && t in all && (t == e || DependsOn(all, height, t, e))
  }

  lemma InputBelow(all: set<Expr>, height: nat, targets: seq<Expr>, e: Expr, i: nat)
    requires Acyclic(all, height) && e in all && Below(all, height, targets, e) && i < |e.mInputs|
    ensures Below(all, height, targets, e.mInputs[i].from)
  {
    var t :| t in targets && t in all && (t == e || DependsOn(all, height, t, e));
    DependsOnInput(all, height, t, e, i);
  }

  lemma {:induction false} DependsOnInput(all: set<Expr>, height: nat, t: Expr, e: Expr, i: nat)
    requires Acyclic(all, height) && t in all && e in all && i < |e.mInputs| && (t == e || DependsOn(all, height, t, e))
    ensures DependsOn(all, height, t, e.mInputs[i].from)
    decreases t.rank
  {
    if t != e {
      var k :| 0 <= k < |t.mInputs| && (t.mInputs[k].from == e || DependsOn(all, height, t.mInputs[k].from, e));
      DependsOnInput(all, height, t.mInputs[k].from, e, i);
    }
  }

  /** Each expression once, and all its inputs before it. */
  ghost predicate Ordered(order: seq<Expr>) {
    && (forall k :: 0 <= k < |order| ==> order[k] !in order[..k])
    && forall k, i :: 0 <= k < |order| && 0 <= i < |order[k].mInputs| ==> order[k].mInputs[i].from in order[..k]
  }

  lemma OrderedNext(order: seq<Expr>, e: Expr)
    requires Ordered(order) && e !in order && forall i :: 0 <= i < |e.mInputs| ==> e.mInputs[i].from in order
    ensures Ordered(order + [e])
  {
    var more := order + [e];
    assert forall k :: 0 <= k < |order| ==> more[..k] == order[..k];
    assert more[..|order|] == order;
  }

  /** The stack holds what the outputs depend on; every output is on it or listed. */
  ghost predicate Listing(all: set<Expr>, height: nat, outputs: seq<Expr>, stack: seq<Expr>, order: seq<Expr>)
    requires Acyclic(all, height)
  {
    && Ordered(order) && (forall e :: e in stack + order ==> e in all && Below(all, height, outputs, e))
    && forall o :: o in outputs ==> o in stack || o in order
  }

  // ----- the order as a function of the graph -----

  /** Depth first: e after its inputs in turn, unless it is done. */
  ghost function Visit(all: set<Expr>, height: nat, e: Expr, done: seq<Expr>): seq<Expr>
    requires Acyclic(all, height) && e in all
    decreases e.rank, |e.mInputs| + 1
  {
    if e in done then done else VisitInputs(all, height, e, |e.mInputs|, done) + [e]
  }

  ghost function VisitInputs(all: set<Expr>, height: nat, e: Expr, n: nat, done: seq<Expr>): seq<Expr>
    requires Acyclic(all, height) && e in all && n <= |e.mInputs|
    decreases e.rank, n
  {
    if n == 0 then done else Visit(all, height, e.mInputs[n - 1].from, VisitInputs(all, height, e, n - 1, done))
  }

  ghost predicate Within(all: set<Expr>, stack: seq<Expr>) {
    forall e :: e in stack ==> e in all
  }

  /** The outputs in turn, the last one first. */
  ghost function VisitAll(all: set<Expr>, height: nat, stack: seq<Expr>, done: seq<Expr>): seq<Expr>
    requires Acyclic(all, height) && Within(all, stack)
    decreases |stack|
  {
    if stack == [] then done
    else VisitAll(all, height, stack[..|stack| - 1], Visit(all, height, stack[|stack| - 1], done))
  }

  function Sources(ports: seq<Port>): (r: seq<Expr>)
    ensures |r| == |ports| && forall i :: 0 <= i < |r| ==> r[i] == ports[i].from
  {
    seq(|ports|, i requires 0 <= i < |ports| => ports[i].from)
  }

  lemma {:induction false} LeavesFirst(all: set<Expr>, height: nat, e: Expr, n: nat)
    requires Acyclic(all, height) && e in all && n <= |e.mInputs|
    requires forall i :: 0 <= i < |e.mInputs| ==> e.mInputs[i].from.mOp.None?
    requires forall i, j :: 0 <= i < j < |e.mInputs| ==> e.mInputs[i].from != e.mInputs[j].from
    ensures VisitInputs(all, height, e, n, []) == Sources(e.mInputs[..n])
  {
    if n > 0 {
      var done, x := VisitInputs(all, height, e, n - 1, []), e.mInputs[n - 1].from;
      LeavesFirst(all, height, e, n - 1);
      assert x !in done;
      assert VisitInputs(all, height, x, 0, done) == done;
      assert Sources(e.mInputs[..n]) == Sources(e.mInputs[..n - 1]) + [x];
    }
  }

  /** An operator over different leaves comes after them, and they are in the order of its inputs. */
  lemma InputsInOrder(all: set<Expr>, height: nat, e: Expr)
    requires Acyclic(all, height) && e in all
    requires forall i :: 0 <= i < |e.mInputs| ==> e.mInputs[i].from.mOp.None?
    requires forall i, j :: 0 <= i < j < |e.mInputs| ==> e.mInputs[i].from != e.mInputs[j].from
    ensures Visit(all, height, e, []) == Sources(e.mInputs) + [e]
  {
    LeavesFirst(all, height, e, |e.mInputs|);
    assert e.mInputs[..|e.mInputs|] == e.mInputs;
  }

  lemma {:induction false} VisitAdds(all: set<Expr>, height: nat, e: Expr, done: seq<Expr>)
    requires Acyclic(all, height) && e in all
    ensures done <= Visit(all, height, e, done) && e in Visit(all, height, e, done)
    ensures forall d :: d in Visit(all, height, e, done) && d !in done ==> d in all && d.rank <= e.rank
    decreases e.rank, |e.mInputs| + 1
  {
    if e !in done { VisitInputsAdds(all, height, e, |e.mInputs|, done); }
  }

  lemma {:induction false} VisitInputsAdds(all: set<Expr>, height: nat, e: Expr, n: nat, done: seq<Expr>)
    requires Acyclic(all, height) && e in all && n <= |e.mInputs|
    ensures done <= VisitInputs(all, height, e, n, done)
    ensures forall i :: 0 <= i < n ==> e.mInputs[i].from in VisitInputs(all, height, e, n, done)
    ensures forall d :: d in VisitInputs(all, height, e, n, done) && d !in done ==> d in all && d.rank < e.rank
    decreases e.rank, n
  {
    if n > 0 {
      VisitInputsAdds(all, height, e, n - 1, done);
      VisitAdds(all, height, e.mInputs[n - 1].from, VisitInputs(all, height, e, n - 1, done));
    }
  }

  lemma {:induction false} InputsDone(all: set<Expr>, height: nat, e: Expr, n: nat, done: seq<Expr>)
    requires Acyclic(all, height) && e in all && n <= |e.mInputs|
      && forall i :: 0 <= i < n ==> e.mInputs[i].from in done
    ensures VisitInputs(all, height, e, n, done) == done
  {
    if n > 0 { InputsDone(all, height, e, n - 1, done); }
  }

  /** Visiting the first input that is not done ahead of e makes no difference. */
  lemma VisitAhead(all: set<Expr>, height: nat, e: Expr, i: nat, done: seq<Expr>)
    requires Acyclic(all, height) && e in all && e !in done && i < |e.mInputs|
    requires forall k :: 0 <= k < i ==> e.mInputs[k].from in done
    ensures Visit(all, height, e, Visit(all, height, e.mInputs[i].from, done)) == Visit(all, height, e, done)
  {
    VisitAdds(all, height, e.mInputs[i].from, done);
    InputsAhead(all, height, e, i, |e.mInputs|, done);
  }

  lemma {:induction false} InputsAhead(all: set<Expr>, height: nat, e: Expr, i: nat, n: nat, done: seq<Expr>)
    requires Acyclic(all, height) && e in all && i < n <= |e.mInputs|
    requires forall k :: 0 <= k < i ==> e.mInputs[k].from in done
    ensures VisitInputs(all, height, e, n, Visit(all, height, e.mInputs[i].from, done)) ==
      VisitInputs(all, height, e, n, done)
    decreases n
  {
    var d := e.mInputs[i].from;
    if n == i + 1 {
      VisitAdds(all, height, d, done);
      InputsDone(all, height, e, i, done);
      InputsDone(all, height, e, i, Visit(all, height, d, done));
    } else {
      InputsAhead(all, height, e, i, n - 1, done);
    }
  }

  // ----- the explicit stack -----

  /** The first input that has not been listed. */
  method FirstUnvisited(e: Expr, ghost all: set<Expr>, ghost order: seq<Expr>) returns (r: Option<nat>)
    requires Flagged(all, order) && forall i :: 0 <= i < |e.mInputs| ==> e.mInputs[i].from in all
    ensures r.Some? ==> r.value < |e.mInputs| && e.mInputs[r.value].from !in order
    ensures r.Some? ==> forall i :: 0 <= i < r.value ==> e.mInputs[i].from in order
    ensures r.None? ==> forall i :: 0 <= i < |e.mInputs| ==> e.mInputs[i].from in order
  {
    for i := 0 to |e.mInputs|
      invariant forall k :: 0 <= k < i ==> e.mInputs[k].from in order
    {
      if !e.mInputs[i].from.mVisited {
        return Some(i);
      }
    }
    return None;
  }

  ghost function NonNull(vars: seq<Expr?>): (r: seq<Expr>)
    ensures (forall e :: e in r ==> e in vars) && forall e :: e in vars && e != null ==> e in r
  {
    if vars == [] then []
    else
      var before, last := NonNull(vars[..|vars| - 1]), vars[|vars| - 1];
      assert vars == vars[..|vars| - 1] + [last];
      if last == null then before else before + [last]
  }

  method NotNull(vars: seq<Expr?>) returns (stack: seq<Expr>)
    ensures stack == NonNull(vars)
  {
    stack := [];
    for i := 0 to |vars|
      invariant stack == NonNull(vars[..i])
    {
      assert vars[..i + 1][..i] == vars[..i];
      if vars[i] != null {
        stack := stack + [vars[i]];
      }
    }
    assert vars[..|vars|] == vars;
  }

  ghost function Listed(order: seq<Expr>): set<Expr> {
    set e | e in order
  }

  /** Each step leaves the final order what it was going to be. */
  lemma SameEnd(all: set<Expr>, height: nat, stack: seq<Expr>, order: seq<Expr>)
    requires Acyclic(all, height) && Within(all, stack) && stack != []
    ensures var e, rest := stack[|stack| - 1], stack[..|stack| - 1];
      && (e in order ==> VisitAll(all, height, rest, order) == VisitAll(all, height, stack, order))
      && (e !in order && (forall i :: 0 <= i < |e.mInputs| ==> e.mInputs[i].from in order) ==>
            VisitAll(all, height, rest, order + [e]) == VisitAll(all, height, stack, order))
  {
    var e := stack[|stack| - 1];
    if e !in order && forall i :: 0 <= i < |e.mInputs| ==> e.mInputs[i].from in order {
      InputsDone(all, height, e, |e.mInputs|, order);
    }
  }

  lemma SameEndPush(all: set<Expr>, height: nat, stack: seq<Expr>, order: seq<Expr>, e: Expr, i: nat)
    requires Acyclic(all, height) && stack != [] && e == stack[|stack| - 1] && Within(all, stack)
    requires e !in order && i < |e.mInputs| && forall k :: 0 <= k < i ==> e.mInputs[k].from in order
    ensures var more := stack + [e.mInputs[i].from];
      Within(all, more) && VisitAll(all, height, more, order) == VisitAll(all, height, stack, order)
  {
    var more := stack + [e.mInputs[i].from];
    assert more[..|more| - 1] == stack;
    VisitAhead(all, height, e, i, order);
  }

  lemma ListingPop(all: set<Expr>, height: nat, outputs: seq<Expr>, stack: seq<Expr>, order: seq<Expr>)
    requires Acyclic(all, height) && Listing(all, height, outputs, stack, order) && stack != []
    ensures var e := stack[|stack| - 1]; e in order ==> Listing(all, height, outputs, stack[..|stack| - 1], order)
    ensures var e := stack[|stack| - 1];
      (e !in order && forall i :: 0 <= i < |e.mInputs| ==> e.mInputs[i].from in order) ==>
        Listing(all, height, outputs, stack[..|stack| - 1], order + [e])
  {
    var e := stack[|stack| - 1];
    assert stack == stack[..|stack| - 1] + [e];
    if e !in order && forall i :: 0 <= i < |e.mInputs| ==> e.mInputs[i].from in order { OrderedNext(order, e); }
  }

  lemma ListingPush(all: set<Expr>, height: nat, outputs: seq<Expr>, stack: seq<Expr>, order: seq<Expr>, i: nat)
    requires Acyclic(all, height) && Listing(all, height, outputs, stack, order) && stack != []
    requires i < |stack[|stack| - 1].mInputs|
    ensures Listing(all, height, outputs, stack + [stack[|stack| - 1].mInputs[i].from], order)
  {
    InputBelow(all, height, outputs, stack[|stack| - 1], i);
  }

  method SetVisited(e: Expr, ghost order: seq<Expr>, ghost all: set<Expr>)
    requires Flagged(all, order) && e in all
    modifies e`mVisited
    ensures Flagged(all, order + [e])
  {
    e.mVisited := true;
  }

  /** A step that keeps what is to come. */
  ghost predicate Progress(all: set<Expr>, height: nat, outputs: seq<Expr>,
      stack: seq<Expr>, order: seq<Expr>, stack': seq<Expr>, order': seq<Expr>)
    requires Acyclic(all, height) && Within(all, stack)
  {
    && Listing(all, height, outputs, stack', order') && Closer(all, stack, Listed(order), stack', Listed(order'))
    && Within(all, stack') && VisitAll(all, height, stack', order') == VisitAll(all, height, stack, order)
  }

  lemma StepPop(all: set<Expr>, height: nat, outputs: seq<Expr>, stack: seq<Expr>, order: seq<Expr>, e: Expr)
    requires Acyclic(all, height) && Listing(all, height, outputs, stack, order) && Within(all, stack)
    requires stack != [] && e == stack[|stack| - 1]
    ensures e in order ==> Progress(all, height, outputs, stack, order, stack[..|stack| - 1], order)
    ensures e !in order && (forall i :: 0 <= i < |e.mInputs| ==> e.mInputs[i].from in order) ==>
      Progress(all, height, outputs, stack, order, stack[..|stack| - 1], order + [e])
  {
    SameEnd(all, height, stack, order);
    ListingPop(all, height, outputs, stack, order);
    PopDecreases(ExprRank(), all, stack, Listed(order));
    assert Listed(order + [e]) == Listed(order) + {e};
  }

  lemma StepPush(all: set<Expr>, height: nat, outputs: seq<Expr>, stack: seq<Expr>, order: seq<Expr>, e: Expr, i: nat)
    requires Acyclic(all, height) && Listing(all, height, outputs, stack, order) && Within(all, stack)
    requires stack != [] && e == stack[|stack| - 1] && e !in order && i < |e.mInputs| && e.mInputs[i].from !in order
    requires forall k :: 0 <= k < i ==> e.mInputs[k].from in order
    ensures Progress(all, height, outputs, stack, order, stack + [e.mInputs[i].from], order)
  {
    SameEndPush(all, height, stack, order, e, i);
    ListingPush(all, height, outputs, stack, order, i);
    PushLower(ExprRank(), stack, [e.mInputs[i].from], Listed(order), e.rank, 0);
  }

  /** Deals with the topmost expression: drops it, puts an input on top of it, or lists it. */
  method Advance(stack: seq<Expr>, order0: seq<Expr>, ghost outputs: seq<Expr>, ghost all: set<Expr>, ghost height: nat)
    returns (stack': seq<Expr>, order: seq<Expr>)
    requires Acyclic(all, height) && Listing(all, height, outputs, stack, order0) && Within(all, stack)
    requires Flagged(all, order0) && stack != []
    modifies all`mVisited
    ensures Progress(all, height, outputs, stack, order0, stack', order) && Flagged(all, order)
  {
    var e := stack[|stack| - 1];
    stack', order := stack[..|stack| - 1], order0;
    StepPop(all, height, outputs, stack, order, e);
    if !e.mVisited {
      var next := FirstUnvisited(e, all, order);
      if next.Some? {
        StepPush(all, height, outputs, stack, order, e, next.value);
        stack' := stack + [e.mInputs[next.value].from];
      } else {
        SetVisited(e, order, all);
        order := order + [e];
      }
    }
  }

  lemma AllListed(all: set<Expr>, height: nat, outputs: seq<Expr>, order: seq<Expr>)
    requires Acyclic(all, height) && Listing(all, height, outputs, [], order)
    ensures (forall e :: e in all ==> (e in order <==> Below(all, height, outputs, e))) && Within(all, order)
  {
    forall e | e in all && Below(all, height, outputs, e) ensures e in order {
      var t :| t in outputs && t in all && (t == e || DependsOn(all, height, t, e));
      if t != e { ListedBelow(all, height, order, t, e); }
    }
    forall e | e in order ensures e in all && Below(all, height, outputs, e) {
      assert e in [] + order;
    }
  }

  /** What holds while the stack is worked off, under a lock. */
  ghost predicate Underway(all: set<Expr>, height: nat, outputs: seq<Expr>, stack: seq<Expr>, order: seq<Expr>) {
    forall key: nat {:trigger Unlock(key)} :: Unlock(key) ==>
      && Acyclic(all, height) && Listing(all, height, outputs, stack, order) && Within(all, stack)
         && Within(all, outputs)
      && VisitAll(all, height, stack, order) == VisitAll(all, height, outputs, [])
  }

  lemma SetOut(all: set<Expr>, height: nat, outputs: seq<Expr>)
    requires Acyclic(all, height) && Within(all, outputs)
    ensures Underway(all, height, outputs, outputs, [])
  {
  }

  method Onward(stack: seq<Expr>, order0: seq<Expr>, ghost outputs: seq<Expr>, ghost all: set<Expr>, ghost height: nat)
    returns (stack': seq<Expr>, order: seq<Expr>)
    requires Underway(all, height, outputs, stack, order0) && Flagged(all, order0) && stack != []
    modifies all`mVisited
    ensures Underway(all, height, outputs, stack', order) && Flagged(all, order)
    ensures Closer(all, stack, Listed(order0), stack', Listed(order))
  {
    assert Unlock(0);
    stack', order := Advance(stack, order0, outputs, all, height);
  }

  /** Works the stack off. */
  method Drain(stack: seq<Expr>, ghost all: set<Expr>, ghost height: nat) returns (order: seq<Expr>)
    requires Acyclic(all, height) && NoFlags(all) && Within(all, stack)
    modifies all`mVisited
    ensures Underway(all, height, stack, [], order) && Flagged(all, order)
  {
    var workStack := stack;
    order := [];
    SetOut(all, height, stack);
    while workStack != []
      invariant Underway(all, height, stack, workStack, order) && Flagged(all, order)
      decreases |all - Listed(order)|, Height(ExprRank(), workStack, Listed(order)), Above(workStack, Listed(order))
    {
      workStack, order := Onward(workStack, order, stack, all, height);
    }
  }

  /** Lists everything the variables depend on, and takes all flags back. */
  method GetExecuteOrder(vars: seq<Expr?>, ghost all: set<Expr>, ghost height: nat) returns (order: seq<Expr>)
    requires Acyclic(all, height) && NoFlags(all) && Within(all, NonNull(vars))
    modifies all`mVisited
    ensures NoFlags(all) && Ordered(order) && order == VisitAll(all, height, NonNull(vars), [])
    ensures (forall e :: e in all ==> (e in order <==> Below(all, height, NonNull(vars), e))) && Within(all, order)
  {
    var workStack := NotNull(vars);
    order := Drain(workStack, all, height);
    assert Unlock(0);
    AllListed(all, height, workStack, order);
    ClearFlags(order, all);
  }

  lemma {:induction false} ListedBelow(all: set<Expr>, height: nat, order: seq<Expr>, t: Expr, e: Expr)
    requires Acyclic(all, height) && Ordered(order) && t in order && t in all && DependsOn(all, height, t, e)
    ensures e in order
    decreases t.rank
  {
    var i :| 0 <= i < |t.mInputs| && (t.mInputs[i].from == e || DependsOn(all, height, t.mInputs[i].from, e));
    var k :| 0 <= k < |order| && order[k] == t;
    assert t.mInputs[i].from in order[..k];
    if t.mInputs[i].from != e { ListedBelow(all, height, order, t.mInputs[i].from, e); }
  }
}
