/** The fusion pass's node graph: the pointer climb, the dominator tree sweep and the search
    for fuse sets, each proved against its specification on node positions. */
module FuseGraph {
  import opened Wrappers
  import opened PostDominance
  import opened FuseSets
  import opened Commands
  import opened FusionPlan

  class Command {
    var op: Option<Op>   // None once the command has been erased
    var inputs: seq<Tensor>
    var outputs: seq<Tensor>

    constructor (c: Cmd)
      ensures op == Some(c.op) && inputs == c.inputs && outputs == c.outputs
    {
      op, inputs, outputs := Some(c.op), c.inputs, c.outputs;
    }

    function Value(): Cmd
      reads `op, `inputs, `outputs
      requires op.Some?
    {
      Cmd(op.value, inputs, outputs)
    }
  }

  class Node {
    var pred: seq<Node>
    var succ: seq<Node>
    var domainateSucc: seq<Node>
    var domainatePred: Node?
    const cmd: Command
    const topoIndex: int

    constructor (cmd: Command, topoIndex: int)
      ensures this.cmd == cmd && this.topoIndex == topoIndex
      ensures pred == [] && succ == [] && domainateSucc == [] && domainatePred == null
    {
      this.cmd, this.topoIndex := cmd, topoIndex;
      pred, succ, domainateSucc, domainatePred := [], [], [], null;
    }
  }

  // ----- nodes and positions -----

  ghost predicate Distinct(graph: seq<Node>) {
    forall a, b :: 0 <= a < b < |graph| ==> graph[a] != graph[b]
  }

  ghost predicate Below(ids: seq<nat>, n: nat) {
    forall k :: 0 <= k < |ids| ==> ids[k] < n
  }

  ghost predicate NoRepeats(ids: seq<nat>) {
    forall a, b :: 0 <= a < b < |ids| ==> ids[a] != ids[b]
  }

  ghost function Pick(graph: seq<Node>, ids: seq<nat>): (r: seq<Node>)
    requires Below(ids, |graph|)
    ensures |r| == |ids| && forall k :: 0 <= k < |ids| ==> r[k] == graph[ids[k]]
  {
    seq(|ids|, k requires 0 <= k < |ids| => graph[ids[k]])
  }

  /** The node at a position; the length of the graph stands for null. */
  ghost function NodeAt(graph: seq<Node>, i: nat): Node?
    requires i <= |graph|
  {
    if i == |graph| then null else graph[i]
  }

  /** Consumer lists hold exactly the edges of g, in order. */
  ghost predicate Wired(graph: seq<Node>, g: Graph)
    reads graph`succ
  {
    && Distinct(graph) && |g| == |graph| && Forward(g)
    && forall i :: 0 <= i < |graph| ==> Below(g[i], |graph|) && graph[i].succ == Pick(graph, g[i])
  }

  ghost predicate Parented(graph: seq<Node>, dp: seq<nat>)
    reads graph`domainatePred
  {
    && |dp| == |graph| && Tree(dp)
    && forall i :: 0 <= i < |graph| ==> graph[i].domainatePred == NodeAt(graph, dp[i])
  }

  /** Without repeats, kids[p] lists the nodes from `low` on whose parent is p. */
  ghost predicate KidsOf(dp: seq<nat>, kids: seq<seq<nat>>, low: nat) {
    && |kids| == |dp|
    && forall p :: 0 <= p < |dp| ==>
         && Below(kids[p], |dp|) && NoRepeats(kids[p])
         && forall c: nat :: c in kids[p] <==> low <= c < |dp| && dp[c] == p
  }

  ghost predicate RootsOf(dp: seq<nat>, roots: seq<nat>, low: nat) {
    && Below(roots, |dp|) && NoRepeats(roots)
    && forall r: nat :: r in roots <==> low <= r < |dp| && dp[r] == |dp|
  }

  ghost predicate ChildrenListed(graph: seq<Node>, kids: seq<seq<nat>>)
    reads graph`domainateSucc
  {
    && |kids| == |graph|
    && forall p :: 0 <= p < |graph| ==>
         Below(kids[p], |graph|) && graph[p].domainateSucc == Pick(graph, kids[p])
  }

  ghost predicate Strict(graph: seq<Node>) {
    forall a, b :: 0 <= a < b < |graph| ==> graph[a].topoIndex < graph[b].topoIndex
  }

  /** The marked nodes are in strict order. */
  ghost predicate StrictOn(graph: seq<Node>, marks: seq<bool>) {
    |graph| <= |marks| && forall a, b :: 0 <= a < b < |graph| && marks[a] && marks[b] ==>
      graph[a].topoIndex < graph[b].topoIndex
  }

  // ----- the pointer climb -----

  /** Climbs from x and y until the two meet.  The positions ix and iy of the nodes and ir of
      the result are ghost. */
  method LCA(x: Node?, y: Node?, ghost graph: seq<Node>, ghost dp: seq<nat>, ghost ix: nat, ghost iy: nat)
    returns (r: Node?, ghost ir: nat)
    requires Distinct(graph) && Parented(graph, dp) && ix <= |graph| && iy <= |graph|
    requires x == NodeAt(graph, ix) && y == NodeAt(graph, iy)
    ensures ir <= |graph| && r == NodeAt(graph, ir)
    ensures Chain(dp, ir) <= Chain(dp, ix) * Chain(dp, iy)
    ensures Strict(graph) ==> Chain(dp, ir) == Chain(dp, ix) * Chain(dp, iy)
  {
    var a, b := x, y;
    ghost var ia: nat, ib: nat := ix, iy;
    while a != b
      invariant ia <= |graph| && ib <= |graph| && a == NodeAt(graph, ia) && b == NodeAt(graph, ib)
      invariant Chain(dp, ia) <= Chain(dp, ix) && Chain(dp, ib) <= Chain(dp, iy)
      invariant Strict(graph) ==> Chain(dp, ia) * Chain(dp, ib) == Chain(dp, ix) * Chain(dp, iy)
      decreases |graph| - ia + |graph| - ib
    {
      if a == null || b == null {
        return null, |graph|;
      }
      if a.topoIndex < b.topoIndex {
        a, ia := a.domainatePred, dp[ia];
      } else {
        b, ib := b.domainatePred, dp[ib];
      }
    }
    return a, ia;
  }

  // ----- the dominator tree -----

  lemma MeetExtends(dp: seq<nat>, ss: seq<nat>, j: nat, ip: nat, ir: nat, exact: bool)
    requires Tree(dp) && 0 < j < |ss| && forall k :: 0 <= k < |ss| ==> ss[k] <= |dp|
    requires ip <= |dp| && ir <= |dp|
    requires Meets(dp, ip, ss[..j], exact) && Chain(dp, ir) <= Chain(dp, ip) * Chain(dp, ss[j])
    requires exact ==> Chain(dp, ir) == Chain(dp, ip) * Chain(dp, ss[j])
    ensures Meets(dp, ir, ss[..j + 1], exact) && ip <= ir
  {
    assert ss[..j + 1][..j] == ss[..j];
    if ir < |dp| { assert ir in Chain(dp, ip); }
  }

  /** The meeting point of a node's consumers, whose positions are ss. */
  method MeetOfConsumers(succ: seq<Node>, ghost graph: seq<Node>, ghost dp: seq<nat>, ghost ss: seq<nat>,
      ghost low: nat)
    returns (parent: Node?, ghost ip: nat)
    requires Distinct(graph) && Parented(graph, dp)
    requires |ss| > 0 && Below(ss, |graph|) && succ == Pick(graph, ss) && forall k :: 0 <= k < |ss| ==> low <= ss[k]
    ensures low <= ip <= |graph| && parent == NodeAt(graph, ip)
    ensures Meets(dp, ip, ss, Strict(graph))
  {
    parent, ip := succ[0], ss[0];
    assert ss[..1] == [ss[0]];
    var j := 1;
    while j < |succ|
      invariant 1 <= j <= |ss|
      invariant low <= ip <= |graph| && parent == NodeAt(graph, ip)
      invariant Meets(dp, ip, ss[..j], Strict(graph))
    {
      ghost var ir;
      parent, ir := LCA(parent, succ[j], graph, dp, ip, ss[j]);
      MeetExtends(dp, ss, j, ip, ir, Strict(graph));
      ip, j := ir, j + 1;
    }
    assert ss[..j] == ss;
  }

  /** The parent table, the child lists and the queued roots, by position. */
  datatype Tables = Tables(dp: seq<nat>, kids: seq<seq<nat>>, roots: seq<nat>)

  /** Nodes from `low` on have their parents; those without one are roots; the rest wait. */
  ghost predicate SweptDownTo(g: Graph, tb: Tables, low: nat, exact: bool) {
    && Forward(g) && Tree(tb.dp) && |tb.dp| == |g|
    && KidsOf(tb.dp, tb.kids, low) && RootsOf(tb.dp, tb.roots, low)
    && (forall k :: 0 <= k < |g| && k < low ==> tb.dp[k] == |g|)
    && forall k :: low <= k < |g| ==> Swept(g, tb.dp, k, exact)
  }

  /** Node i gets the parent ip, or becomes a root. */
  ghost function Place(tb: Tables, i: nat, ip: nat): Tables
    requires i < |tb.dp|
  {
    Tables(tb.dp[i := ip],
           if ip < |tb.kids| then tb.kids[ip := tb.kids[ip] + [i]] else tb.kids,
           if ip < |tb.kids| then tb.roots else tb.roots + [i])
  }

  lemma PlaceListed(g: Graph, tb: Tables, i: nat, ip: nat, exact: bool)
    requires SweptDownTo(g, tb, i + 1, exact) && i < |g| && i < ip <= |g|
    ensures var tb' := Place(tb, i, ip); KidsOf(tb'.dp, tb'.kids, i) && RootsOf(tb'.dp, tb'.roots, i)
  {
    assert i !in tb.roots;
    forall p | 0 <= p < |g| ensures i !in tb.kids[p] {}
  }

  lemma PlaceSwept(g: Graph, tb: Tables, i: nat, ip: nat, exact: bool)
    requires SweptDownTo(g, tb, i + 1, exact) && i < |g| && i < ip <= |g|
    requires if g[i] == [] then ip == |g| else Meets(tb.dp, ip, g[i], exact)
    ensures SweptDownTo(g, Place(tb, i, ip), i, exact)
  {
    PlaceListed(g, tb, i, ip, exact);
    var dp' := Place(tb, i, ip).dp;
    forall k | i <= k < |g| ensures Swept(g, dp', k, exact) {
      if k > i {
        SweptUsesSuffix(g, tb.dp, dp', k, exact);
      } else if g[i] != [] {
        MeetUsesSuffix(tb.dp, dp', g[i], i + 1);
        ChainUsesSuffix(tb.dp, dp', ip, i + 1);
      }
    }
  }

  /** The nodes' fields and the queue show exactly the graph and the tables. */
  ghost predicate Shows(graph: seq<Node>, g: Graph, tb: Tables, queue: seq<Node>)
    reads graph`succ, graph`domainatePred, graph`domainateSucc
  {
    && Wired(graph, g) && Parented(graph, tb.dp) && ChildrenListed(graph, tb.kids)
    && Below(tb.roots, |graph|) && queue == Pick(graph, tb.roots)
  }

  method SetParent(graph: seq<Node>, node: Node, parent: Node?, ghost dp: seq<nat>, ghost i: nat, ghost ip: nat)
    requires Distinct(graph) && Parented(graph, dp)
    requires i < |graph| && node == graph[i] && i < ip <= |graph| && parent == NodeAt(graph, ip)
    modifies node`domainatePred
    ensures Parented(graph, dp[i := ip])
  {
    node.domainatePred := parent;
  }

  method AddChild(graph: seq<Node>, node: Node, parent: Node, ghost kids: seq<seq<nat>>, ghost i: nat, ghost ip: nat)
    requires Distinct(graph) && ChildrenListed(graph, kids)
    requires i < |graph| && node == graph[i] && ip < |graph| && parent == graph[ip]
    modifies parent`domainateSucc
    ensures ChildrenListed(graph, kids[ip := kids[ip] + [i]])
  {
    parent.domainateSucc := parent.domainateSucc + [node];
  }

  /** The parent of the node at position i: the meeting point of its consumers, if any. */
  method ParentOf(graph: seq<Node>, node: Node, ghost g: Graph, ghost dp: seq<nat>, ghost i: nat)
    returns (parent: Node?, ghost ip: nat)
    requires Wired(graph, g) && Parented(graph, dp) && i < |graph| && node == graph[i]
    ensures i < ip <= |graph| && parent == NodeAt(graph, ip)
    ensures if g[i] == [] then ip == |g| else Meets(dp, ip, g[i], Strict(graph))
  {
    if node.succ != [] {
      parent, ip := MeetOfConsumers(node.succ, graph, dp, g[i], i + 1);
    } else {
      parent, ip := null, |graph|;
    }
  }

  /** Hangs the node at position i under its parent, or queues it. */
  method Hang(graph: seq<Node>, node: Node, parent: Node?, queue0: seq<Node>, ghost g: Graph, ghost tb: Tables,
      ghost i: nat, ghost ip: nat)
    returns (queue: seq<Node>)
    requires Shows(graph, g, tb, queue0) && i < |graph| && node == graph[i]
    requires i < ip <= |graph| && parent == NodeAt(graph, ip)
    modifies graph`domainatePred, graph`domainateSucc
    ensures Shows(graph, g, Place(tb, i, ip), queue)
  {
    SetParent(graph, node, parent, tb.dp, i, ip);
    if parent != null {
      AddChild(graph, node, parent, tb.kids, i, ip);
      queue := queue0;
    } else {
      queue := queue0 + [node];
    }
  }

  /** The reverse sweep.  Afterwards the parents form a tree whose chains lie inside the
      post-dominator sets, and are the post-dominator sets when the order is strict. */
  method BuildDominatorTree(graph: seq<Node>, ghost g: Graph) returns (queue: seq<Node>, ghost tb: Tables)
    requires Wired(graph, g)
    requires forall i :: 0 <= i < |graph| ==> graph[i].domainatePred == null && graph[i].domainateSucc == []
    modifies graph`domainatePred, graph`domainateSucc
    ensures Shows(graph, g, tb, queue) && SweptDownTo(g, tb, 0, Strict(graph))
  {
    queue := [];
    ghost var n: nat := |graph|;
    tb := Tables(seq(n, _ => n), seq(n, _ => []), []);
    var i := |graph|;
    while i > 0
      invariant 0 <= i <= n
      invariant Shows(graph, g, tb, queue) && SweptDownTo(g, tb, i, Strict(graph))
    {
      i := i - 1;
      var parent, ip := ParentOf(graph, graph[i], g, tb.dp, i);
      queue := Hang(graph, graph[i], parent, queue, g, tb, i, ip);
      PlaceSwept(g, tb, i, ip, Strict(graph));
      tb := Place(tb, i, ip);
    }
  }
}
