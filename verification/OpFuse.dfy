/** The fusion pass as a whole: graph building, tree, search, code generation and erasure. */
module OpFuse {
  import opened Wrappers
  import opened PostDominance
  import opened FuseSets
  import opened Commands
  import opened KernelSpec
  import opened FusionPlan
  import opened FuseGraph
  import opened FuseSearch
  import opened SourceModule

  class OpCacheInfo {
    var executeBuffer: seq<Command>

    constructor (cs: seq<Command>)
      ensures executeBuffer == cs
    {
      executeBuffer := cs;
    }
  }

  ghost function Buffers(infos: seq<OpCacheInfo>): (b: seq<seq<Command>>)
    reads infos
    ensures |b| == |infos| && forall k :: 0 <= k < |infos| ==> b[k] == infos[k].executeBuffer
  {
    seq(|infos|, k requires 0 <= k < |infos| reads infos => infos[k].executeBuffer)
  }

  ghost function Joined(parts: seq<seq<Command>>): seq<Command> {
    if parts == [] then [] else Joined(parts[..|parts| - 1]) + parts[|parts| - 1]
  }

  /** All commands, info after info. */
  ghost function Flat(infos: seq<OpCacheInfo>): seq<Command>
    reads infos
  {
    Joined(Buffers(infos))
  }

  ghost predicate Apart(all: seq<Command>) {
    forall a, b :: 0 <= a < b < |all| ==> all[a] != all[b]
  }

  ghost predicate Live(all: seq<Command>, cs: seq<Cmd>)
    reads all`op, all`inputs, all`outputs
  {
    |cs| == |all| && forall k :: 0 <= k < |all| ==> all[k].op.Some? && all[k].Value() == cs[k]
  }

  // ----- building the graph -----

  /** outputTensor maps every tensor written so far to the node that writes it. */
  ghost predicate Producers(graph: seq<Node>, cs: seq<Cmd>, outputTensor: map<Tensor, Node>) {
    && |graph| <= |cs|
    && (forall t :: t in outputTensor ==> exists k :: 0 <= k < |graph| && t in cs[k].outputs)
    && (forall k, t :: 0 <= k < |graph| && t in cs[k].outputs ==> t in outputTensor && outputTensor[t] == graph[k])
  }

  ghost function AddEdge(g: Graph, a: nat, b: nat): Graph {
    if a < |g| then g[a := g[a] + [b]] else g
  }

  /** Links the new node, at position b, to the producer at position a. */
  method InsertEdge(preNode: Node, succNode: Node, ghost graph: seq<Node>, ghost g: Graph, ghost a: nat, ghost b: nat)
    requires Wired(graph, g) && a < b < |graph| && preNode == graph[a] && succNode == graph[b]
    modifies preNode`succ, succNode`pred
    ensures Wired(graph, AddEdge(g, a, b))
    ensures succNode.pred == old(succNode.pred) + [preNode] && preNode.succ == old(preNode.succ) + [succNode]
  {
    succNode.pred := succNode.pred + [preNode];
    preNode.succ := preNode.succ + [succNode];
  }

  /** Edges into position b: exactly from the producers of the first j inputs. */
  ghost predicate LinkedUpTo(g: Graph, g0: Graph, cs: seq<Cmd>, b: nat, j: nat) {
    && |g| == |g0| == b + 1 && b < |cs| && j <= |cs[b].inputs|
    && forall a, x: nat :: 0 <= a <= b ==>
         (x in g[a] <==> x in g0[a] || (x == b && a < b && exists k :: 0 <= k < j && cs[b].inputs[k] in cs[a].outputs))
  }

  lemma LinkStep(g: Graph, g0: Graph, cs: seq<Cmd>, b: nat, j: nat, a: nat, produced: bool)
    requires SingleAssignment(cs) && LinkedUpTo(g, g0, cs, b, j) && j < |cs[b].inputs|
    requires produced ==> a < b && cs[b].inputs[j] in cs[a].outputs
    requires !produced ==> forall k :: 0 <= k < b ==> cs[b].inputs[j] !in cs[k].outputs
    ensures LinkedUpTo(if produced then AddEdge(g, a, b) else g, g0, cs, b, j + 1)
  {
    var g' := if produced then AddEdge(g, a, b) else g;
    forall c, x: nat | 0 <= c <= b
      ensures x in g'[c] <==>
        x in g0[c] || (x == b && c < b && exists k :: 0 <= k < j + 1 && cs[b].inputs[k] in cs[c].outputs)
    {
      assert x in g'[c] <==> x in g[c] || (produced && c == a && x == b);
    }
  }

  /** Links a new node to the producers of its inputs. */
  method LinkInputs(node: Node, inputs: seq<Tensor>, outputTensor: map<Tensor, Node>, ghost graph: seq<Node>,
      ghost g0: Graph, ghost cs: seq<Cmd>)
    returns (ghost g: Graph)
    requires graph != [] && node == graph[|graph| - 1] && Wired(graph, g0) && SingleAssignment(cs)
    requires Producers(graph[..|graph| - 1], cs, outputTensor) && |graph| <= |cs| && inputs == cs[|graph| - 1].inputs
    modifies graph`succ, graph`pred
    ensures Wired(graph, g) && LinkedUpTo(g, g0, cs, |graph| - 1, |inputs|)
  {
    g := g0;
    ghost var b := |graph| - 1;
    var j := 0;
    while j < |inputs|
      invariant 0 <= j <= |inputs| && Wired(graph, g) && LinkedUpTo(g, g0, cs, b, j)
    {
      ghost var a := 0;
      var t := inputs[j];
      var produced := t in outputTensor;
      if produced {
        a :| 0 <= a < b && t in cs[a].outputs;
        InsertEdge(outputTensor[t], node, graph, g, a, b);
      }
      LinkStep(g, g0, cs, b, j, a, produced);
      g := if produced then AddEdge(g, a, b) else g;
      j := j + 1;
    }
  }

  /** The edges among the first n commands. */
  ghost predicate GraphUpTo(g: Graph, cs: seq<Cmd>, n: nat) {
    && |g| == n <= |cs|
    && forall a, x: nat :: 0 <= a < n ==> (x in g[a] <==> x < n && Edge(cs, a, x))
  }

  lemma FeedsByIndex(a: Cmd, b: Cmd)
    ensures Feeds(a, b) <==> exists k :: 0 <= k < |b.inputs| && b.inputs[k] in a.outputs
  {
    if Feeds(a, b) {
      var t :| t in a.outputs && t in b.inputs;
      var k :| 0 <= k < |b.inputs| && b.inputs[k] == t;
    }
    if k :| 0 <= k < |b.inputs| && b.inputs[k] in a.outputs {
      assert b.inputs[k] in b.inputs;
    }
  }

  lemma LinkedIsGraph(g0: Graph, g: Graph, cs: seq<Cmd>, b: nat)
    requires GraphUpTo(g0, cs, b) && b < |cs| && LinkedUpTo(g, g0 + [[]], cs, b, |cs[b].inputs|)
    ensures GraphUpTo(g, cs, b + 1)
  {
    var both := g0 + [[]];
    forall a: nat, x: nat | a < b + 1 ensures x in g[a] <==> x < b + 1 && Edge(cs, a, x) {
      if a < b {
        assert both[a] == g0[a];
        FeedsByIndex(cs[a], cs[b]);
      } else {
        assert both[a] == [];
      }
    }
  }

  /** One node for each of the first commands, in order, with nothing known about dominance. */
  ghost predicate Bare(graph: seq<Node>, all: seq<Command>)
    reads graph`domainatePred, graph`domainateSucc
  {
    && |graph| <= |all|
    && forall k :: 0 <= k < |graph| ==>
         graph[k].cmd == all[k] && graph[k].domainatePred == null && graph[k].domainateSucc == []
  }

  lemma BareSnoc(graph: seq<Node>, node: Node, all: seq<Command>)
    requires Bare(graph, all) && |graph| < |all| && node.cmd == all[|graph|]
    requires node.domainatePred == null && node.domainateSucc == []
    ensures Bare(graph + [node], all)
  {}

  /** The nodes built so far and the edges among them. */
  ghost predicate Nodes(graph: seq<Node>, all: seq<Command>, g: Graph, cs: seq<Cmd>)
    reads graph`succ, graph`domainatePred, graph`domainateSucc
  {
    && |cs| == |all| && Wired(graph, g) && Bare(graph, all) && GraphUpTo(g, cs, |graph|)
  }

  lemma WiredSnoc(graph: seq<Node>, node: Node, g: Graph)
    requires Wired(graph, g) && node !in graph && node.succ == []
    ensures Wired(graph + [node], g + [[]])
  {
    var graph', g' := graph + [node], g + [[]];
    forall i | 0 <= i < |graph'| ensures Below(g'[i], |graph'|) && graph'[i].succ == Pick(graph', g'[i]) {
      if i < |graph| { assert Pick(graph', g'[i]) == Pick(graph, g[i]); }
    }
  }

  method RecordOutputs(outputTensor0: map<Tensor, Node>, outputs: seq<Tensor>, node: Node)
    returns (outputTensor: map<Tensor, Node>)
    ensures forall t :: t in outputTensor <==> t in outputTensor0 || t in outputs
    ensures forall t :: t in outputTensor ==> outputTensor[t] == if t in outputs then node else outputTensor0[t]
  {
    outputTensor := outputTensor0;
    for k := 0 to |outputs|
      invariant forall t :: t in outputTensor <==> t in outputTensor0 || t in outputs[..k]
      invariant forall t :: t in outputTensor ==>
        outputTensor[t] == if t in outputs[..k] then node else outputTensor0[t]
    {
      outputTensor := outputTensor[outputs[k] := node];
    }
    assert outputs[..|outputs|] == outputs;
  }

  /** Makes the node of the next command and links it into the graph. */
  method AddNode(cmd: Command, i: int, graph0: seq<Node>, outputTensor: map<Tensor, Node>, ghost all: seq<Command>,
      ghost g0: Graph, ghost cs: seq<Cmd>)
    returns (graph: seq<Node>, node: Node, ghost g: Graph)
    requires Nodes(graph0, all, g0, cs) && Producers(graph0, cs, outputTensor) && SingleAssignment(cs)
    requires |graph0| < |all| && cmd == all[|graph0|] && cmd.inputs == cs[|graph0|].inputs
    modifies graph0`succ, graph0`pred
    ensures fresh(node) && node.topoIndex == i && graph == graph0 + [node]
    ensures Nodes(graph, all, g, cs)
  {
    node := new Node(cmd, i);
    graph := graph0 + [node];
    WiredSnoc(graph0, node, g0);
    BareSnoc(graph0, node, all);
    assert graph[..|graph| - 1] == graph0;
    g := LinkInputs(node, cmd.inputs, outputTensor, graph, g0 + [[]], cs);
    LinkedIsGraph(g0, g, cs, |graph0|);
  }

  lemma ProducersSnoc(graph: seq<Node>, node: Node, cs: seq<Cmd>, m: map<Tensor, Node>, m': map<Tensor, Node>)
    requires Producers(graph, cs, m) && |graph| < |cs| && SingleAssignment(cs)
    requires forall t :: t in m' <==> t in m || t in cs[|graph|].outputs
    requires forall t :: t in m' ==> m'[t] == if t in cs[|graph|].outputs then node else m[t]
    ensures Producers(graph + [node], cs, m')
  {
    var graph' := graph + [node];
    forall t | t in m' ensures exists k :: 0 <= k < |graph'| && t in cs[k].outputs {
      if t in m {
        var k :| 0 <= k < |graph| && t in cs[k].outputs;
      }
    }
  }

  ghost predicate OnePerInfo(infos: seq<OpCacheInfo>)
    reads infos
  {
    forall i :: 0 <= i < |infos| ==> |infos[i].executeBuffer| <= 1
  }

  /** The position in the joined list where part i starts. */
  ghost function Offset(parts: seq<seq<Command>>, i: nat): nat
    requires i <= |parts|
  {
    |Joined(parts[..i])|
  }

  /** Of the commands from `low` to `high`, at most one can be fused; locked. */
  ghost predicate OneLegal(d: Device, cs: seq<Cmd>, low: nat, high: nat) {
    forall key: nat {:trigger Unlock(key)} :: Unlock(key) ==>
      forall a, b :: low <= a < b < high && b < |cs| ==> !(d.legal(cs[a]) && d.legal(cs[b]))
  }

  /** Of each info's commands, at most one can be fused. */
  ghost predicate OneLegalPerInfo(d: Device, parts: seq<seq<Command>>, cs: seq<Cmd>) {
    forall i :: 0 <= i < |parts| ==> OneLegal(d, cs, Offset(parts, i), Offset(parts, i + 1))
  }

  lemma {:induction false} JoinedSegment(parts: seq<seq<Command>>, i: nat)
    requires i < |parts|
    ensures var n := Offset(parts, i);
      && Offset(parts, i + 1) == n + |parts[i]| <= |Joined(parts)|
      && Joined(parts)[n..n + |parts[i]|] == parts[i]
    decreases |parts|
  {
    var last := |parts| - 1;
    assert parts[..i + 1][..i] == parts[..i];
    if i == last {
      assert parts[..last + 1] == parts;
    } else {
      JoinedSegment(parts[..last], i);
      assert parts[..last][..i] == parts[..i] && parts[..last][..i + 1] == parts[..i + 1];
    }
  }

  ghost predicate IndexedBelow(graph: seq<Node>, i: int) {
    forall k :: 0 <= k < |graph| ==> graph[k].topoIndex < i
  }

  ghost predicate Built(graph: seq<Node>, all: seq<Command>, g: Graph, cs: seq<Cmd>, outputTensor: map<Tensor, Node>)
    reads graph`succ, graph`domainatePred, graph`domainateSucc
  {
    Nodes(graph, all, g, cs) && Producers(graph, cs, outputTensor)
  }

  /** Adds the nodes of one info's commands. */
  method AddNodes(commands: seq<Command>, i: int, graph0: seq<Node>, outputTensor0: map<Tensor, Node>,
      ghost all: seq<Command>, ghost g0: Graph, ghost cs: seq<Cmd>)
    returns (graph: seq<Node>, outputTensor: map<Tensor, Node>, ghost g: Graph)
    requires Built(graph0, all, g0, cs, outputTensor0) && SingleAssignment(cs) && Live(all, cs)
    requires |graph0| + |commands| <= |all| && all[|graph0|..|graph0| + |commands|] == commands
    modifies graph0`succ, graph0`pred
    ensures |graph| == |graph0| + |commands| && graph0 <= graph
    ensures forall k :: |graph0| <= k < |graph| ==> fresh(graph[k]) && graph[k].topoIndex == i
    ensures Built(graph, all, g, cs, outputTensor)
  {
    graph, outputTensor, g := graph0, outputTensor0, g0;
    var j := 0;
    while j < |commands|
      invariant 0 <= j <= |commands| && |graph| == |graph0| + j && graph0 <= graph
      invariant forall k :: |graph0| <= k < |graph| ==> fresh(graph[k]) && graph[k].topoIndex == i
      invariant Built(graph, all, g, cs, outputTensor) && Live(all, cs)
    {
      ghost var before := graph;
      var node;
      graph, node, g := AddNode(commands[j], i, graph, outputTensor, all, g, cs);
      ghost var m := outputTensor;
      outputTensor := RecordOutputs(outputTensor, commands[j].outputs, node);
      ProducersSnoc(before, node, cs, m, outputTensor);
      j := j + 1;
    }
  }

  lemma StrictAppend(graph0: seq<Node>, graph: seq<Node>, i: int)
    requires Strict(graph0) && IndexedBelow(graph0, i) && graph0 <= graph && |graph| <= |graph0| + 1
    requires forall k :: |graph0| <= k < |graph| ==> graph[k].topoIndex == i
    ensures Strict(graph)
  {
    assert forall k :: 0 <= k < |graph0| ==> graph[k] == graph0[k];
  }

  /** The nodes of the first i infos: the fusable ones are in strict order, and so are all of them when
      `one` tells that no info has two commands; locked. */
  ghost predicate InOrder(d: Device, graph: seq<Node>, cs: seq<Cmd>, i: int, one: bool) {
    forall key: nat {:trigger Unlock(key)} :: Unlock(key) ==>
      IndexedBelow(graph, i) && StrictOn(graph, LegalTable(d, cs)) && (one ==> Strict(graph))
  }

  lemma InOrderAppend(d: Device, cs: seq<Cmd>, graph0: seq<Node>, graph: seq<Node>, i: int, one: bool)
    requires InOrder(d, graph0, cs, i, one) && graph0 <= graph && |graph| <= |cs|
    requires forall k :: |graph0| <= k < |graph| ==> graph[k].topoIndex == i
    requires OneLegal(d, cs, |graph0|, |graph|) && (one ==> |graph| <= |graph0| + 1)
    ensures InOrder(d, graph, cs, i + 1, one)
  {
    assert Unlock(0);
    assert forall k :: 0 <= k < |graph0| ==> graph[k] == graph0[k];
    if one { StrictAppend(graph0, graph, i); }
  }

  lemma InfoAt(d: Device, infos: seq<OpCacheInfo>, parts: seq<seq<Command>>, cs: seq<Cmd>, i: nat)
    requires parts == Buffers(infos) && OneLegalPerInfo(d, parts, cs) && i < |infos|
    ensures OneLegal(d, cs, Offset(parts, i), Offset(parts, i + 1))
    ensures OnePerInfo(infos) ==> |infos[i].executeBuffer| <= 1
  {}

  /** Builds one node per command, with the index of its info, and all edges. */
  method BuildGraph(ghost d: Device, infos: seq<OpCacheInfo>, ghost parts: seq<seq<Command>>,
      ghost all: seq<Command>, ghost cs: seq<Cmd>)
    returns (graph: seq<Node>, ghost g: Graph)
    requires parts == Buffers(infos) && all == Joined(parts) && Live(all, cs) && SingleAssignment(cs)
    requires OneLegalPerInfo(d, parts, cs)
    ensures forall k :: 0 <= k < |graph| ==> fresh(graph[k])
    ensures Nodes(graph, all, g, cs) && |graph| == |cs| && StrictOn(graph, LegalTable(d, cs))
    ensures OnePerInfo(infos) ==> Strict(graph)
  {
    graph, g := [], [];
    var outputTensor: map<Tensor, Node> := map[];
    ghost var one := OnePerInfo(infos);
    var i := 0;
    while i < |infos|
      invariant 0 <= i <= |infos| && |graph| == Offset(parts, i)
      invariant forall k :: 0 <= k < |graph| ==> fresh(graph[k])
      invariant Built(graph, all, g, cs, outputTensor) && Live(all, cs)
      invariant InOrder(d, graph, cs, i, one)
    {
      JoinedSegment(parts, i);
      InfoAt(d, infos, parts, cs, i);
      ghost var graph0 := graph;
      graph, outputTensor, g := AddNodes(infos[i].executeBuffer, i, graph, outputTensor, all, g, cs);
      InOrderAppend(d, cs, graph0, graph, i, one);
      i := i + 1;
    }
    assert parts[..|parts|] == parts;
    assert Unlock(0);
  }

  // ----- rewriting the commands -----

  /** A command object that holds what is left of a command: nothing, or a single command. */
  ghost predicate Holds(c: Command, left: seq<Cmd>)
    reads c
  {
    if c.op.None? then left == [] else left == [c.Value()]
  }

  ghost predicate Listed(sets: seq<seq<nat>>, n: nat, i: nat)
    requires n <= |sets|
  {
    exists k :: 0 <= k < n && i in sets[k]
  }

  /** The first n sets have been rewritten; every other command is as it was. */
  ghost predicate RewrittenSets(d: Device, all: seq<Command>, cs: seq<Cmd>, owner: seq<nat>, sets: seq<seq<nat>>,
      n: nat)
    requires |owner| == |cs| && n <= |sets|
    reads all
  {
    && |all| == |cs|
    && forall i :: 0 <= i < |cs| ==>
         Holds(all[i], if Listed(sets, n, i) then Rewritten(d, cs, owner, i) else [cs[i]])
  }

  /** Puts the fused command into the root and erases the other members. */
  method ReplaceSet(compSet: seq<Node>, kernel: Kernel, inputs: seq<Tensor>, outputs: seq<Tensor>,
                    ghost graph: seq<Node>, ghost all: seq<Command>, ghost ids: seq<nat>)
    requires |graph| == |all| && (forall k :: 0 <= k < |graph| ==> graph[k].cmd == all[k]) && Apart(all)
    requires Below(ids, |graph|) && compSet == Pick(graph, ids) && NoRepeats(ids) && |ids| > 0
    modifies all
    ensures forall k :: 0 <= k < |all| && k !in ids ==>
      all[k].op == old(all[k].op) && all[k].inputs == old(all[k].inputs) && all[k].outputs == old(all[k].outputs)
    ensures forall k :: 0 <= k < |ids| - 1 ==> all[ids[k]].op.None?
    ensures var root := all[ids[|ids| - 1]]; root.op.Some? && root.Value() == Cmd(Extra(kernel), inputs, outputs)
  {
    var j := 0;
    while j < |compSet|
      invariant 0 <= j <= |compSet|
      invariant forall k :: 0 <= k < |all| && k !in ids ==>
        all[k].op == old(all[k].op) && all[k].inputs == old(all[k].inputs) && all[k].outputs == old(all[k].outputs)
      invariant forall k :: 0 <= k < j && k < |ids| - 1 ==> all[ids[k]].op.None?
      invariant j == |ids| ==>
        var root := all[ids[|ids| - 1]]; root.op.Some? && root.Value() == Cmd(Extra(kernel), inputs, outputs)
    {
      var cmd := compSet[j].cmd;
      if j == |compSet| - 1 {
        cmd.op := Some(Extra(kernel));
        cmd.inputs := inputs;
        cmd.outputs := outputs;
      } else {
        cmd.op := None;
      }
      j := j + 1;
    }
  }

  /** The graph's nodes stand for the commands of a planned list, the fusable ones in strict
      order; locked. */
  ghost predicate Staged(d: Device, graph: seq<Node>, all: seq<Command>, cs: seq<Cmd>, g: Graph, dp: seq<nat>,
      owner: seq<nat>) {
    |graph| == |all| == |cs| == |owner| && forall key: nat {:trigger Unlock(key)} :: Unlock(key) ==>
      && Planned(d, cs, g, dp, owner) && StrictOn(graph, LegalTable(d, cs)) && Apart(all)
      && forall k :: 0 <= k < |graph| ==> graph[k].cmd == all[k]
  }

  lemma StagedOpened(d: Device, graph: seq<Node>, all: seq<Command>, cs: seq<Cmd>, g: Graph, dp: seq<nat>,
      owner: seq<nat>)
    requires Staged(d, graph, all, cs, g, dp, owner)
    ensures Planned(d, cs, g, dp, owner) && |graph| == |all| == |cs| && StrictOn(graph, LegalTable(d, cs)) && Apart(all)
    ensures forall k :: 0 <= k < |graph| ==> graph[k].cmd == all[k]
  {
    assert Unlock(0);
  }

  lemma SetIsMembers(owner: seq<nat>, ids: seq<nat>, sids: seq<nat>)
    requires BigSet(owner, ids) && Ascending(sids) && forall x :: x in sids <==> x in ids
    ensures sids == Members(owner, RootOf(ids)) && FusedRoot(owner, RootOf(ids))
  {
    var r := RootOf(ids);
    var ms := Members(owner, r);
    assert r in ids && ids[0] in ids && ids[0] != r;
    forall x: int | x in sids ensures x in ms { assert x in ids; }
    forall x: int | x in ms ensures x in sids { assert x in ids; }
    AscendingUnique(sids, ms);
    assert ids[0] in ms && r in ms;
  }

  /** The members of a set can be fused. */
  lemma SetIsLegal(d: Device, cs: seq<Cmd>, g: Graph, dp: seq<nat>, owner: seq<nat>, ids: seq<nat>)
    requires Planned(d, cs, g, dp, owner) && BigSet(owner, ids)
    ensures AllMarked(LegalTable(d, cs), ids)
  {
    ClassFacts(d, cs, g, dp, owner, ids[0]);
    forall x | x in ids ensures x < |cs| && d.legal(cs[x]) { MemberSize(d, cs, g, dp, owner, x); }
  }

  /** The commands of a set that has not been rewritten are still the original ones. */
  lemma UntouchedSet(d: Device, graph: seq<Node>, all: seq<Command>, cs: seq<Cmd>, owner: seq<nat>,
      sets: seq<seq<nat>>, n: nat, sorted: seq<Node>)
    requires |owner| == |cs| == |graph| == |all| && (forall k :: 0 <= k < |graph| ==> graph[k].cmd == all[k])
    requires AllSetsListed(owner, sets) && n < |sets| && RewrittenSets(d, all, cs, owner, sets, n)
    requires Below(Members(owner, RootOf(sets[n])), |graph|) && sorted == Pick(graph, Members(owner, RootOf(sets[n])))
    ensures CommandsShown(sorted, Part(cs, owner, RootOf(sets[n])))
  {
    assert Unlock(0);
    var ms := Members(owner, RootOf(sets[n]));
    forall k, l | 0 <= k < |ms| && 0 <= l < n ensures ms[k] !in sets[l] {
      assert BigSet(owner, sets[l]) && RootOf(sets[l]) != RootOf(sets[n]);
    }
  }

  ghost predicate FusedBy(d: Device, cs: seq<Cmd>, owner: seq<nat>, r: nat, fused: Cmd) {
    && |owner| == |cs| && r < |cs| && FusedRoot(owner, r) && Fusable(Part(cs, owner, r))
    && cs[r].outputs != [] && fused == Fuse(d, Part(cs, owner, r), cs[r].outputs[0])
  }

  /** After the objects of set n have been replaced, n + 1 sets are rewritten. */
  lemma SetRewritten(d: Device, cs: seq<Cmd>, owner: seq<nat>, sets: seq<seq<nat>>, n: nat, i: nat, fused: Cmd)
    requires |owner| == |cs| && AllSetsListed(owner, sets) && n < |sets| && i < |cs|
    requires FusedBy(d, cs, owner, RootOf(sets[n]), fused)
    ensures i !in sets[n] ==> (Listed(sets, n + 1, i) <==> Listed(sets, n, i))
    ensures i in sets[n] ==>
      Listed(sets, n + 1, i) && Rewritten(d, cs, owner, i) == if i == RootOf(sets[n]) then [fused] else []
  {
    assert Unlock(0);
    assert BigSet(owner, sets[n]);
  }

  /** Builds the kernel of one set. */
  method KernelOfSet(d: Device, compSet: seq<Node>, ghost graph: seq<Node>, ghost all: seq<Command>,
      ghost cs: seq<Cmd>, ghost g: Graph,
                     ghost dp: seq<nat>, ghost owner: seq<nat>, ghost sets: seq<seq<nat>>, ghost n: nat)
    returns (kernel: Kernel, inputs: seq<Tensor>, outputs: seq<Tensor>)
    requires Staged(d, graph, all, cs, g, dp, owner) && AllSetsListed(owner, sets) && n < |sets|
    requires Below(sets[n], |graph|) && compSet == Pick(graph, sets[n])
    requires RewrittenSets(d, all, cs, owner, sets, n)
    ensures FusedBy(d, cs, owner, RootOf(sets[n]), Cmd(Extra(kernel), inputs, outputs))
  {
    StagedOpened(d, graph, all, cs, g, dp, owner);
    SetAt(owner, sets, n);
    ghost var r := RootOf(sets[n]);
    SetIsLegal(d, cs, g, dp, owner, sets[n]);
    var sorted, sids := SortByTopo(compSet, graph, LegalTable(d, cs), sets[n]);
    SetIsMembers(owner, sets[n], sids);
    UntouchedSet(d, graph, all, cs, owner, sets, n, sorted);
    PartOfPlan(d, cs, g, dp, owner, r);
    forall t ensures Written(Part(cs, owner, r), t) && !Reads(Part(cs, owner, r), t) <==> t == cs[r].outputs[0] {
      OnlyRootUnread(d, cs, g, dp, owner, r, t);
    }
    kernel, inputs, outputs := BuildKernel(d, sorted, Part(cs, owner, r), cs[r].outputs[0]);
  }

  /** Puts the fused command in place of one set. */
  method ReplaceListed(d: Device, compSet: seq<Node>, kernel: Kernel, inputs: seq<Tensor>, outputs: seq<Tensor>,
      ghost graph: seq<Node>,
                       ghost all: seq<Command>, ghost cs: seq<Cmd>, ghost owner: seq<nat>, ghost sets: seq<seq<nat>>,
                         ghost n: nat)
    requires |graph| == |all| == |cs| && (forall k :: 0 <= k < |graph| ==> graph[k].cmd == all[k]) && Apart(all)
    requires AllSetsListed(owner, sets) && n < |sets| && BigSet(owner, sets[n])
    requires Below(sets[n], |graph|) && compSet == Pick(graph, sets[n])
    requires FusedBy(d, cs, owner, RootOf(sets[n]), Cmd(Extra(kernel), inputs, outputs))
    requires RewrittenSets(d, all, cs, owner, sets, n)
    modifies all
    ensures RewrittenSets(d, all, cs, owner, sets, n + 1)
  {
    ReplaceSet(compSet, kernel, inputs, outputs, graph, all, sets[n]);
    forall i: nat | i < |cs|
      ensures Holds(all[i], if Listed(sets, n + 1, i) then Rewritten(d, cs, owner, i) else [cs[i]]) {
      SetRewritten(d, cs, owner, sets, n, i, Cmd(Extra(kernel), inputs, outputs));
      if i in sets[n] && i != RootOf(sets[n]) {
        ghost var k :| 0 <= k < |sets[n]| && sets[n][k] == i;
      }
    }
  }

  /** Builds the kernel of one set and rewrites its commands. */
  method FuseOneSet(d: Device, compSet: seq<Node>, ghost graph: seq<Node>, ghost all: seq<Command>,
      ghost cs: seq<Cmd>, ghost g: Graph,
                    ghost dp: seq<nat>, ghost owner: seq<nat>, ghost sets: seq<seq<nat>>, ghost n: nat)
    requires Staged(d, graph, all, cs, g, dp, owner) && AllSetsListed(owner, sets) && n < |sets|
    requires Below(sets[n], |graph|) && compSet == Pick(graph, sets[n])
    requires RewrittenSets(d, all, cs, owner, sets, n)
    modifies all
    ensures RewrittenSets(d, all, cs, owner, sets, n + 1)
  {
    var kernel, inputs, outputs := KernelOfSet(d, compSet, graph, all, cs, g, dp, owner, sets, n);
    StagedOpened(d, graph, all, cs, g, dp, owner);
    SetAt(owner, sets, n);
    ReplaceListed(d, compSet, kernel, inputs, outputs, graph, all, cs, owner, sets, n);
  }

  /** After all sets: every object holds what the rewriting leaves of its command. */
  ghost predicate AllRewritten(d: Device, all: seq<Command>, cs: seq<Cmd>, owner: seq<nat>)
    reads all
  {
    |all| == |cs| == |owner| && forall i :: 0 <= i < |cs| ==> Holds(all[i], Rewritten(d, cs, owner, i))
  }

  /** A command in no set is its own root without members, and is left as it is. */
  lemma UnlistedIsKept(d: Device, cs: seq<Cmd>, g: Graph, dp: seq<nat>, owner: seq<nat>, sets: seq<seq<nat>>, i: nat)
    requires Planned(d, cs, g, dp, owner) && AllSetsListed(owner, sets) && i < |cs| && !Listed(sets, |sets|, i)
    ensures Rewritten(d, cs, owner, i) == [cs[i]]
  {
    assert Unlock(0);
    ClassFacts(d, cs, g, dp, owner, i);
    forall k | 0 <= k < |sets| ensures RootOf(sets[k]) != owner[i] {
      assert i !in sets[k] && BigSet(owner, sets[k]);
    }
    MembersMeansMembers(owner, owner[i]);
  }

  lemma MembersMeansMembers(owner: seq<nat>, r: nat)
    ensures |Members(owner, r)| > 1 ==> HasMembers(owner, r)
    ensures forall v: nat :: v < |owner| && v != r && owner[v] == r ==> HasMembers(owner, r)
  {
    var ms := Members(owner, r);
    if |ms| > 1 {
      assert ms[0] != ms[1];
      assert owner[if ms[0] == r then ms[1] else ms[0]] == r;
    }
  }

  method FuseSetsOf(d: Device, fuseSets: seq<seq<Node>>, ghost graph: seq<Node>, ghost all: seq<Command>,
      ghost cs: seq<Cmd>, ghost g: Graph,
                    ghost dp: seq<nat>, ghost owner: seq<nat>, ghost sets: seq<seq<nat>>)
    requires Staged(d, graph, all, cs, g, dp, owner) && AllSetsListed(owner, sets) && SetsShown(graph, fuseSets, sets)
    requires Live(all, cs)
    modifies all
    ensures AllRewritten(d, all, cs, owner)
  {
    StagedOpened(d, graph, all, cs, g, dp, owner);
    var k := 0;
    while k < |fuseSets|
      invariant 0 <= k <= |fuseSets| && RewrittenSets(d, all, cs, owner, sets, k)
    {
      FuseOneSet(d, fuseSets[k], graph, all, cs, g, dp, owner, sets, k);
      k := k + 1;
    }
    forall i: nat | i < |cs| ensures Holds(all[i], Rewritten(d, cs, owner, i)) {
      if !Listed(sets, |sets|, i) { UnlistedIsKept(d, cs, g, dp, owner, sets, i); }
    }
  }

  // ----- erasing -----

  ghost function Survivors(all: seq<Command>): (r: seq<Command>)
    reads all`op
    ensures forall c :: c in r ==> c in all
  {
    if all == [] then []
    else Survivors(all[..|all| - 1]) + if all[|all| - 1].op.None? then [] else [all[|all| - 1]]
  }

  ghost function Values(all: seq<Command>): seq<Cmd>
    reads all`op, all`inputs, all`outputs
  {
    if all == [] then []
    else
      var c := all[|all| - 1];
      Values(all[..|all| - 1]) + [if c.op.Some? then c.Value() else Cmd(Prim(0), [], [])]
  }

  lemma {:induction false} SurvivorsConcat(a: seq<Command>, b: seq<Command>)
    ensures Survivors(a + b) == Survivors(a) + Survivors(b)
  {
    if b == [] {
      assert a + b == a;
    } else {
      SurvivorsConcat(a, b[..|b| - 1]);
      assert (a + b)[..|a + b| - 1] == a + b[..|b| - 1];
    }
  }

  lemma SurvivorsSnoc(all: seq<Command>, c: Command, left: seq<Cmd>)
    requires Holds(c, left)
    ensures Values(Survivors(all + [c])) == Values(Survivors(all)) + left
  {
    assert (all + [c])[..|all + [c]| - 1] == all;
    var s := Survivors(all);
    assert (s + [c])[..|s + [c]| - 1] == s;
    assert s + [] == s && Values(s) + [] == Values(s);
  }

  lemma RewriteSnoc(d: Device, cs: seq<Cmd>, owner: seq<nat>, n: nat)
    requires n < |cs| == |owner|
    ensures Rewrite(d, cs, owner, n) + Rewritten(d, cs, owner, n) == Rewrite(d, cs, owner, n + 1)
  {}

  lemma {:induction false} SurvivorsAreRewrite(d: Device, done: seq<Command>, cs: seq<Cmd>, owner: seq<nat>)
    requires |done| <= |cs| == |owner| && forall i :: 0 <= i < |done| ==> Holds(done[i], Rewritten(d, cs, owner, i))
    ensures Values(Survivors(done)) == Rewrite(d, cs, owner, |done|)
  {
    if done != [] {
      var n := |done| - 1;
      var init, last := done[..n], done[n];
      assert done == init + [last];
      SurvivorsAreRewrite(d, init, cs, owner);
      SurvivorsSnoc(init, last, Rewritten(d, cs, owner, n));
      RewriteSnoc(d, cs, owner, n);
    }
  }

  /** Drops the commands whose op has been erased. */
  method EraseNull(info: OpCacheInfo)
    modifies info`executeBuffer
    ensures info.executeBuffer == Survivors(old(info.executeBuffer))
  {
    var kept := [];
    var iter := 0;
    var command := info.executeBuffer;
    while iter < |command|
      invariant 0 <= iter <= |command| && kept == Survivors(command[..iter])
    {
      assert command[..iter + 1][..iter] == command[..iter];
      if command[iter].op.Some? {
        kept := kept + [command[iter]];
      }
      iter := iter + 1;
    }
    assert command[..|command|] == command;
    info.executeBuffer := kept;
  }

  lemma {:induction false} JoinedSurvivors(before: seq<seq<Command>>, after: seq<seq<Command>>)
    requires |before| == |after| && forall k :: 0 <= k < |before| ==> after[k] == Survivors(before[k])
    ensures Joined(after) == Survivors(Joined(before))
  {
    if before != [] {
      var n := |before| - 1;
      JoinedSurvivors(before[..n], after[..n]);
      SurvivorsConcat(Joined(before[..n]), before[n]);
    }
  }

  method EraseAll(infos: seq<OpCacheInfo>, ghost before: seq<seq<Command>>)
    requires before == Buffers(infos) && forall a, b :: 0 <= a < b < |infos| ==> infos[a] != infos[b]
    modifies infos`executeBuffer
    ensures Flat(infos) == Survivors(Joined(before))
  {
    var i := 0;
    while i < |infos|
      invariant 0 <= i <= |infos|
      invariant forall k :: i <= k < |infos| ==> infos[k].executeBuffer == before[k]
      invariant forall k :: 0 <= k < i ==> infos[k].executeBuffer == Survivors(before[k])
    {
      EraseNull(infos[i]);
      i := i + 1;
    }
    JoinedSurvivors(before, Buffers(infos));
  }

  twostate lemma {:induction false} ValuesUnchanged(s: seq<Command>)
    requires forall c :: c in s ==> c.op == old(c.op) && c.inputs == old(c.inputs) && c.outputs == old(c.outputs)
    ensures Values(s) == old(Values(s))
  {
    if s != [] {
      assert s[|s| - 1] in s;
      ValuesUnchanged(s[..|s| - 1]);
    }
  }

  method EraseTo(infos: seq<OpCacheInfo>, ghost all: seq<Command>, ghost s: seq<Command>, ghost left: seq<Cmd>)
    requires all == Flat(infos) && forall a, b :: 0 <= a < b < |infos| ==> infos[a] != infos[b]
    requires Survivors(all) == s && Values(s) == left
    modifies infos`executeBuffer
    ensures Values(Flat(infos)) == left
  {
    EraseAll(infos, Buffers(infos));
    ValuesUnchanged(s);
  }

  /** Rewrites the commands of every fuse set. */
  method RewriteCommands(d: Device, fuseSets: seq<seq<Node>>, ghost graph: seq<Node>, ghost all: seq<Command>,
      ghost cs: seq<Cmd>,
                         ghost g: Graph, ghost dp: seq<nat>, ghost owner: seq<nat>, ghost sets: seq<seq<nat>>)
    requires Staged(d, graph, all, cs, g, dp, owner) && AllSetsListed(owner, sets) && SetsShown(graph, fuseSets, sets)
    requires Live(all, cs)
    modifies all
    ensures Values(Survivors(all)) == Rewrite(d, cs, owner, |cs|)
  {
    FuseSetsOf(d, fuseSets, graph, all, cs, g, dp, owner, sets);
    SurvivorsAreRewrite(d, all, cs, owner);
  }

  /** Rewrites the commands of every fuse set, then drops the erased ones. */
  method Codegen(d: Device, infos: seq<OpCacheInfo>, fuseSets: seq<seq<Node>>, ghost graph: seq<Node>,
      ghost all: seq<Command>,
                 ghost cs: seq<Cmd>, ghost g: Graph, ghost dp: seq<nat>, ghost owner: seq<nat>,
                   ghost sets: seq<seq<nat>>)
    requires Staged(d, graph, all, cs, g, dp, owner) && AllSetsListed(owner, sets) && SetsShown(graph, fuseSets, sets)
    requires all == Flat(infos) && Live(all, cs)
    requires forall a, b :: 0 <= a < b < |infos| ==> infos[a] != infos[b]
    modifies infos`executeBuffer, all
    ensures Values(Flat(infos)) == Rewrite(d, cs, owner, |cs|)
  {
    RewriteCommands(d, fuseSets, graph, all, cs, g, dp, owner, sets);
    EraseTo(infos, all, Survivors(all), Rewrite(d, cs, owner, |cs|));
  }

  lemma AlwaysPreserved(d: Device, cs: seq<Cmd>, g: Graph, dp: seq<nat>, owner: seq<nat>)
    requires Planned(d, cs, g, dp, owner)
    ensures forall m, t :: Loaded(d, cs, m) && !ErasedOutput(cs, owner, t) ==>
      Run(d, Rewrite(d, cs, owner, |cs|), m)(t) == Run(d, cs, m)(t)
  {
    forall m, t | Loaded(d, cs, m) && !ErasedOutput(cs, owner, t)
      ensures Run(d, Rewrite(d, cs, owner, |cs|), m)(t) == Run(d, cs, m)(t)
    {
      FusionPreservesMeaning(d, cs, g, dp, owner, m, t);
    }
  }

  /** The graph, its dominator tree and the queued roots. */
  method PlanTree(ghost d: Device, infos: seq<OpCacheInfo>, ghost all: seq<Command>, ghost cs: seq<Cmd>)
    returns (graph: seq<Node>, queue: seq<Node>, ghost g: Graph, ghost tb: Tables)
    requires all == Flat(infos) && Live(all, cs) && SingleAssignment(cs) && OneLegalPerInfo(d, Buffers(infos), cs)
    ensures |graph| == |all| == |cs| && StrictOn(graph, LegalTable(d, cs))
      && forall k :: 0 <= k < |graph| ==> graph[k].cmd == all[k]
    ensures Shows(graph, g, tb, queue) && SweptDownTo(g, tb, 0, Strict(graph)) && GraphUpTo(g, cs, |cs|)
    ensures OnePerInfo(infos) ==> Strict(graph)
  {
    graph, g := BuildGraph(d, infos, Buffers(infos), all, cs);
    queue, tb := BuildDominatorTree(graph, g);
  }

  lemma PlanHolds(d: Device, cs: seq<Cmd>, g: Graph, tb: Tables, exact: bool)
    requires d.Valid() && SingleAssignment(cs) && GraphUpTo(g, cs, |cs|) && SweptDownTo(g, tb, 0, exact)
    ensures SweptTree(g, tb.dp, exact) && Planned(d, cs, g, tb.dp, Owners(d, cs, g, tb.dp))
    ensures IsOwners(g, tb.dp, LegalTable(d, cs), Owners(d, cs, g, tb.dp))
  {
    forall n | 0 <= n < |g| ensures Swept(g, tb.dp, n, false) { assert Swept(g, tb.dp, n, exact); }
  }

  /** Graph, tree and search: everything that happens before any command is touched. */
  method Plan(d: Device, infos: seq<OpCacheInfo>, ghost all: seq<Command>, ghost cs: seq<Cmd>)
    returns (fuseSets: seq<seq<Node>>, ghost graph: seq<Node>, ghost sets: seq<seq<nat>>, ghost g: Graph,
      ghost dp: seq<nat>, ghost owner: seq<nat>)
    requires d.Valid() && all == Flat(infos) && Live(all, cs) && Apart(all) && SingleAssignment(cs)
      && OneLegalPerInfo(d, Buffers(infos), cs)
    ensures Staged(d, graph, all, cs, g, dp, owner) && AllSetsListed(owner, sets) && SetsShown(graph, fuseSets, sets)
    ensures OnePerInfo(infos) ==> SweptTree(g, dp, true)
  {
    var nodes, queue;
    ghost var tb;
    nodes, queue, g, tb := PlanTree(d, infos, all, cs);
    PlanHolds(d, cs, g, tb, Strict(nodes));
    graph, dp, owner := nodes, tb.dp, Owners(d, cs, g, tb.dp);
    fuseSets, sets := FindFuseSets(d, queue, nodes, g, tb, LegalTable(d, cs), owner);
  }

  /** The whole pass.  When the target is supported, the commands left in the buffers are the
      rewritten list, and running them gives every tensor except the outputs of erased commands
      the value that the original commands give it.  Otherwise nothing changes.  The commands of
      one info share an index, so no more than one of them may be fusable; when no info has two
      commands, the dominator tree is exact. */
  method OpFuse(d: Device, infos: seq<OpCacheInfo>, supported: bool, ghost all: seq<Command>, ghost cs: seq<Cmd>)
    returns (ok: bool, ghost g: Graph, ghost dp: seq<nat>, ghost owner: seq<nat>)
    requires d.Valid() && all == Flat(infos) && Live(all, cs) && Apart(all) && SingleAssignment(cs)
      && OneLegalPerInfo(d, Buffers(infos), cs)
    requires forall a, b :: 0 <= a < b < |infos| ==> infos[a] != infos[b]
    modifies infos, all
    ensures ok == supported && Planned(d, cs, g, dp, owner)
    ensures old(OnePerInfo(infos)) ==> SweptTree(g, dp, true)
    ensures !ok ==> Flat(infos) == all && Live(all, cs)
    ensures ok ==> Values(Flat(infos)) == Rewrite(d, cs, owner, |cs|)
    ensures ok ==> forall m, t :: Loaded(d, cs, m) && !ErasedOutput(cs, owner, t) ==>
      Run(d, Values(Flat(infos)), m)(t) == Run(d, cs, m)(t)
  {
    var fuseSets;
    ghost var graph, sets;
    fuseSets, graph, sets, g, dp, owner := Plan(d, infos, all, cs);
    StagedOpened(d, graph, all, cs, g, dp, owner);
    ok := supported;
    if ok {
      Codegen(d, infos, fuseSets, graph, all, cs, g, dp, owner, sets);
      AlwaysPreserved(d, cs, g, dp, owner);
    }
  }
}
