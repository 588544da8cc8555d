/** The kernel builder: sorts the nodes of a fuse set, then emits loads, computations and stores. */
module SourceModule {
  import opened Commands
  import opened KernelSpec
  import opened FuseGraph

  /** Hands out variable and parameter numbers and remembers which tensor each one is for. */
  class VarScope {
    var mVarIdx: nat
    var mInputIdx: nat
    var mVarMap: map<Tensor, nat>
    var mUsed: set<Tensor>
    var mInputs: seq<Tensor>
    var mOutputs: seq<Tensor>

    constructor ()
      ensures Shown(EMPTY)
    {
      mVarIdx, mInputIdx, mVarMap, mUsed, mInputs, mOutputs := 0, 0, map[], {}, [], [];
    }

    ghost predicate Shown(s: Scope)
      reads this
    {
      mVarIdx == s.next && mInputIdx == |s.inputs| && mVarMap == s.vars && mUsed == s.used && mInputs == s.inputs
    }

    /** Takes the next variable number for t; a tensor that already has one keeps it. */
    method AddVar(t: Tensor) returns (name: nat)
      modifies this`mVarIdx, this`mVarMap
      ensures name == old(mVarIdx) && mVarIdx == old(mVarIdx) + 1
      ensures mVarMap == if t in old(mVarMap) then old(mVarMap) else old(mVarMap)[t := name]
    {
      name := mVarIdx;
      mVarIdx := mVarIdx + 1;
      if t !in mVarMap {
        mVarMap := mVarMap[t := name];
      }
    }

    method AddInput(t: Tensor) returns (slot: nat)
      modifies this`mInputIdx, this`mInputs
      ensures slot == old(mInputIdx) && mInputIdx == old(mInputIdx) + 1 && mInputs == old(mInputs) + [t]
    {
      slot := mInputIdx;
      mInputIdx := mInputIdx + 1;
      mInputs := mInputs + [t];
    }

    /** Collects, in no particular order, the tensors in scope that nothing has read. */
    method ComputeOutput()
      modifies this`mOutputs
      ensures forall t :: t in mOutputs <==> t in mVarMap && t !in mUsed
      ensures forall a, b :: 0 <= a < b < |mOutputs| ==> mOutputs[a] != mOutputs[b]
    {
      mOutputs := [];
      var rest := mVarMap.Keys;
      while rest != {}
        invariant rest <= mVarMap.Keys
        invariant forall t :: t in mOutputs <==> t in mVarMap.Keys - rest && t !in mUsed
        invariant forall a, b :: 0 <= a < b < |mOutputs| ==> mOutputs[a] != mOutputs[b]
        decreases rest
      {
        var t :| t in rest;
        rest := rest - {t};
        if t !in mUsed {
          mOutputs := mOutputs + [t];
        }
      }
    }

    /** The variable that holds t, with the line that loads it if it was not in scope. */
    method Operand(d: Device, t: Tensor, body0: seq<Instr>, ghost s: Scope) returns (name: nat, body: seq<Instr>)
      requires Shown(s) && body0 == s.body
      modifies this
      ensures Shown(ReadTensor(d, s, t)) && body == ReadTensor(d, s, t).body
      ensures t in mVarMap && name == mVarMap[t]
    {
      body := body0;
      if t in mVarMap {
        name := mVarMap[t];
      } else {
        name := AddVar(t);
        if d.size(t) == 1 && d.constant(t) {
          body := body + [Number(name, d.host(t))];
        } else {
          var slot := AddInput(t);
          body := body + [if d.size(t) == 1 then LoadScalar(name, slot) else Load(name, slot)];
        }
      }
      mUsed := mUsed + {t};
    }

    method Operands(d: Device, ts: seq<Tensor>, body0: seq<Instr>, ghost s: Scope)
      returns (names: seq<nat>, body: seq<Instr>)
      requires Shown(s) && body0 == s.body
      modifies this
      ensures Shown(ReadTensors(d, s, ts)) && body == ReadTensors(d, s, ts).body
      ensures |names| == |ts| && forall k :: 0 <= k < |ts| ==> names[k] == ReadTensors(d, s, ts).vars[ts[k]]
    {
      names, body := [], body0;
      for i := 0 to |ts|
        invariant Shown(ReadTensors(d, s, ts[..i])) && body == ReadTensors(d, s, ts[..i]).body
        invariant |names| == i && forall k :: 0 <= k < i ==>
          ts[k] in ReadTensors(d, s, ts[..i]).vars && names[k] == ReadTensors(d, s, ts[..i]).vars[ts[k]]
      {
        assert ts[..i + 1][..i] == ts[..i];
        var name;
        name, body := Operand(d, ts[i], body, ReadTensors(d, s, ts[..i]));
        names := names + [name];
      }
      assert ts[..|ts|] == ts;
    }

    /** Emits the loads and the computation of one command. */
    method Emit(d: Device, c: Cmd, body0: seq<Instr>, ghost s: Scope) returns (body: seq<Instr>)
      requires Shown(s) && body0 == s.body && c.op.Prim? && |c.outputs| == 1
      modifies this
      ensures Shown(AddCommand(d, s, c)) && body == AddCommand(d, s, c).body
    {
      var names;
      names, body := Operands(d, c.inputs, body0, s);
      var tmp := AddVar(c.outputs[0]);
      ghost var r := ReadTensors(d, s, c.inputs);
      assert names == seq(|c.inputs|, k requires 0 <= k < |c.inputs| => r.vars[c.inputs[k]]);
      body := body + [Compute(tmp, c.op.id, names)];
    }
  }

  ghost predicate Ascending(ids: seq<nat>) {
    forall a, b :: 0 <= a < b < |ids| ==> ids[a] < ids[b]
  }

  lemma InsertAscending(ids: seq<nat>, j: nat, v: nat)
    requires Ascending(ids) && j <= |ids|
    requires forall k :: 0 <= k < j ==> ids[k] < v
    requires j < |ids| ==> v < ids[j]
    ensures var r := ids[..j] + [v] + ids[j..]; Ascending(r) && forall x :: x in r <==> x in ids || x == v
  {
    assert ids == ids[..j] + ids[j..];
  }

  lemma PickInserted(graph: seq<Node>, ids: seq<nat>, j: nat, v: nat, more: seq<nat>)
    requires Below(ids, |graph|) && j <= |ids| && v < |graph| && more == ids[..j] + [v] + ids[j..]
      && Below(more, |graph|)
    ensures Pick(graph, more) == Pick(graph, ids)[..j] + [graph[v]] + Pick(graph, ids)[j..]
  {}

  ghost predicate AllMarked(marks: seq<bool>, ids: seq<nat>) {
    forall x :: x in ids ==> x < |marks| && marks[x]
  }

  /** Puts a node where its index belongs. */
  method Insert(sorted: seq<Node>, node: Node, ghost graph: seq<Node>, ghost marks: seq<bool>, ghost sids: seq<nat>,
      ghost v: nat)
    returns (r: seq<Node>, ghost rids: seq<nat>)
    requires StrictOn(graph, marks) && AllMarked(marks, sids + [v])
    requires Below(sids, |graph|) && sorted == Pick(graph, sids) && Ascending(sids)
    requires v < |graph| && node == graph[v] && v !in sids
    ensures Below(rids, |graph|) && r == Pick(graph, rids) && Ascending(rids)
    ensures forall x :: x in rids <==> x in sids || x == v
  {
    var j := 0;
    while j < |sorted| && sorted[j].topoIndex < node.topoIndex
      invariant 0 <= j <= |sorted| && forall k :: 0 <= k < j ==> sids[k] < v
    {
      j := j + 1;
    }
    if j < |sids| {
      assert (sids + [v])[j] == sids[j] && (sids + [v])[|sids|] == v;
      assert sids[j] in sids && graph[sids[j]].topoIndex >= graph[v].topoIndex;
    }
    InsertAscending(sids, j, v);
    r, rids := sorted[..j] + [node] + sorted[j..], sids[..j] + [v] + sids[j..];
    PickInserted(graph, sids, j, v, rids);
  }

  /** Sorts nodes without ties by topoIndex. */
  method SortByTopo(nodes: seq<Node>, ghost graph: seq<Node>, ghost marks: seq<bool>, ghost ids: seq<nat>)
    returns (sorted: seq<Node>, ghost sids: seq<nat>)
    requires StrictOn(graph, marks) && AllMarked(marks, ids)
    requires Below(ids, |graph|) && nodes == Pick(graph, ids) && NoRepeats(ids)
    ensures Below(sids, |graph|) && sorted == Pick(graph, sids) && Ascending(sids)
    ensures forall x :: x in sids <==> x in ids
  {
    sorted, sids := [], [];
    for i := 0 to |nodes|
      invariant Below(sids, |graph|) && sorted == Pick(graph, sids) && Ascending(sids)
      invariant forall x :: x in sids <==> x in ids[..i]
    {
      assert ids[i] !in ids[..i];
      sorted, sids := Insert(sorted, nodes[i], graph, marks, sids, ids[i]);
    }
    assert ids[..|ids|] == ids;
  }

  lemma Inhabited(a: seq<nat>, b: seq<nat>)
    requires forall x :: x in b ==> x in a
    ensures b != [] ==> a != []
  {
    if b != [] { assert b[0] in a; }
  }

  /** Only one ascending list has a given set of entries. */
  lemma {:induction false} AscendingUnique(a: seq<nat>, b: seq<nat>)
    requires Ascending(a) && Ascending(b) && forall x :: x in a <==> x in b
    ensures a == b
  {
    Inhabited(a, b);
    Inhabited(b, a);
    if a != [] && b != [] {
      var m, n := |a| - 1, |b| - 1;
      assert a[m] in b && b[n] in a;
      assert a[m] == b[n];
      forall x | x in a[..m] ensures x in b[..n] { assert x in b && x != b[n]; }
      forall x | x in b[..n] ensures x in a[..m] { assert x in a && x != a[m]; }
      AscendingUnique(a[..m], b[..n]);
      assert a == a[..m] + [a[m]] && b == b[..n] + [b[n]];
    }
  }

  /** The commands behind a list of nodes. */
  ghost predicate CommandsShown(nodes: seq<Node>, cs: seq<Cmd>)
    reads set n | n in nodes :: n.cmd
  {
    |cs| == |nodes| && forall k :: 0 <= k < |nodes| ==> nodes[k].cmd.op.Some? && nodes[k].cmd.Value() == cs[k]
  }

  lemma OneEntry(ts: seq<Tensor>, t: Tensor)
    requires forall x :: x in ts <==> x == t
    requires forall a, b :: 0 <= a < b < |ts| ==> ts[a] != ts[b]
    ensures ts == [t]
  {
    assert t in ts;
    forall k | 0 <= k < |ts| ensures ts[k] == t { assert ts[k] in ts; }
    assert ts[0] == t && ts[|ts| - 1] == t;
  }

  /** Builds the kernel of the sorted nodes, whose commands are cs and whose only unread output
      is `out`; the result is the fused command. */
  method BuildKernel(d: Device, nodes: seq<Node>, ghost cs: seq<Cmd>, ghost out: Tensor)
    returns (kernel: Kernel, inputs: seq<Tensor>, outputs: seq<Tensor>)
    requires CommandsShown(nodes, cs) && Fusable(cs)
    requires forall t :: Written(cs, t) && !Reads(cs, t) <==> t == out
    ensures Cmd(Extra(kernel), inputs, outputs) == Fuse(d, cs, out)
  {
    var scope := new VarScope();
    var body: seq<Instr> := [];
    for k := 0 to |nodes|
      invariant scope.Shown(Build(d, cs[..k])) && body == Build(d, cs[..k]).body
    {
      assert cs[..k + 1][..k] == cs[..k];
      body := scope.Emit(d, nodes[k].cmd.Value(), body, Build(d, cs[..k]));
    }
    assert cs[..|cs|] == cs;
    BuildScope(d, cs);
    scope.ComputeOutput();
    OneEntry(scope.mOutputs, out);
    var stores := [];
    for k := 0 to |scope.mOutputs|
      invariant stores == if k == 0 then [] else [scope.mVarMap[out]]
    {
      stores := stores + [scope.mVarMap[scope.mOutputs[k]]];
    }
    kernel, inputs, outputs := Kernel(body, stores), scope.mInputs, scope.mOutputs;
  }
}
