/** The search that grows fuse sets over the dominator tree. */
module FuseSearch {
  import opened PostDominance
  import opened FuseSets
  import opened Commands
  import opened FuseGraph
  import opened Wrappers

  /** The commands behind the nodes are live, and `legal` says which of them may be fused. */
  ghost predicate LegalShown(d: Device, graph: seq<Node>, legal: seq<bool>)
    reads set n | n in graph :: n.cmd
  {
    && |legal| == |graph|
    && forall i :: 0 <= i < |graph| ==> graph[i].cmd.op.Some? && legal[i] == d.legal(graph[i].cmd.Value())
  }

  /** The positions in ss other than t, in order. */
  ghost function Others(ss: seq<nat>, t: nat): (r: seq<nat>)
    ensures forall k :: 0 <= k < |r| ==> r[k] in ss && r[k] != t
    ensures forall x :: x in ss && x != t ==> x in r
  {
    if ss == [] then []
    else if ss[|ss| - 1] == t then Others(ss[..|ss| - 1], t)
    else Others(ss[..|ss| - 1], t) + [ss[|ss| - 1]]
  }

  lemma QueueWorkSnoc(g: Graph, a: seq<nat>, x: nat, t: nat)
    requires Forward(g) && Below(a, |g|) && x < |g|
    ensures QueueWork(g, a + [x], t) == QueueWork(g, a, t) + if x == t then 0 else PathCount(g, x, t)
  {
    var b := a + [x];
    assert b[..|b| - 1] == a;
  }

  lemma OthersBelow(ss: seq<nat>, t: nat, n: nat)
    requires Below(ss, n)
    ensures Below(Others(ss, t), n)
  {}

  lemma {:induction false} OthersWork(g: Graph, ss: seq<nat>, t: nat)
    requires Forward(g) && Below(ss, |g|) && Below(Others(ss, t), |g|)
    ensures QueueWork(g, Others(ss, t), t) == QueueWork(g, ss, t)
  {
    if ss != [] {
      var init, x := ss[..|ss| - 1], ss[|ss| - 1];
      OthersBelow(init, t, |g|);
      OthersWork(g, init, t);
      QueueWorkSnoc(g, init, x, t);
      assert init + [x] == ss;
      if x != t { QueueWorkSnoc(g, Others(init, t), x, t); }
    }
  }

  /** Queues the consumers other than t. */
  method QueueOthers(q0: seq<Node>, succ: seq<Node>, t: Node, ghost graph: seq<Node>, ghost ss: seq<nat>, ghost kt: nat)
    returns (q: seq<Node>)
    requires Distinct(graph) && Below(ss, |graph|) && succ == Pick(graph, ss) && kt < |graph| && t == graph[kt]
    ensures Below(Others(ss, kt), |graph|) && q == q0 + Pick(graph, Others(ss, kt))
  {
    q := q0;
    for j := 0 to |succ|
      invariant Below(Others(ss[..j], kt), |graph|) && q == q0 + Pick(graph, Others(ss[..j], kt))
    {
      assert ss[..j + 1][..j] == ss[..j];
      if succ[j] != t {
        q := q + [succ[j]];
      }
    }
    assert ss[..|ss|] == ss;
  }

  ghost predicate AllLegalFrom(g: Graph, legal: seq<bool>, q: seq<nat>, t: nat)
    requires Forward(g) && |legal| == |g| && Below(q, |g|)
  {
    forall k :: 0 <= k < |q| ==> LegalFrom(g, legal, q[k], t)
  }

  /** Replacing the head of the queue by its consumers does not change what is left to check. */
  lemma AllLegalStep(g: Graph, legal: seq<bool>, q: seq<nat>, t: nat)
    requires Forward(g) && |legal| == |g| && Below(q, |g|) && q != [] && t !in q
    requires legal[q[0]]
    ensures Below(q[1..] + Others(g[q[0]], t), |g|) && t !in q[1..] + Others(g[q[0]], t)
    ensures AllLegalFrom(g, legal, q, t) <==> AllLegalFrom(g, legal, q[1..] + Others(g[q[0]], t), t)
    ensures QueueWork(g, q[1..] + Others(g[q[0]], t), t) < QueueWork(g, q, t)
  {
    var next := Others(g[q[0]], t);
    OthersBelow(g[q[0]], t, |g|);
    OthersWork(g, g[q[0]], t);
    QueueWorkDrops(g, q, t, next);
    var q' := q[1..] + next;
    if AllLegalFrom(g, legal, q', t) {
      forall k | 0 <= k < |q| ensures LegalFrom(g, legal, q[k], t) {
        if k == 0 {
          forall j | 0 <= j < |g[q[0]]| && g[q[0]][j] != t ensures LegalFrom(g, legal, g[q[0]][j], t) {
            assert g[q[0]][j] in next;
            var l :| 0 <= l < |next| && next[l] == g[q[0]][j];
            assert q'[|q| - 1 + l] == next[l];
          }
        } else {
          assert q'[k - 1] == q[k];
        }
      }
    }
  }

  lemma PickAdvance(graph: seq<Node>, q: seq<nat>, next: seq<nat>)
    requires Below(q, |graph|) && Below(next, |graph|) && q != []
    ensures Below(q[1..] + next, |graph|)
    ensures Pick(graph, q)[1..] + Pick(graph, next) == Pick(graph, q[1..] + next)
  {}

  /** True exactly when every node that s reaches without passing t is legal. */
  method AllPathLegal(d: Device, s: Node, t: Node, ghost graph: seq<Node>, ghost g: Graph, ghost legal: seq<bool>,
      ghost ks: nat, ghost kt: nat)
    returns (ok: bool)
    requires Wired(graph, g) && LegalShown(d, graph, legal)
    requires ks < |graph| && s == graph[ks] && kt < |graph| && t == graph[kt] && ks != kt
    ensures ok == AllPathsLegal(g, legal, ks, kt)
  {
    LegalFromIsAllPathsLegal(g, legal, ks, kt);
    ok := true;
    var q := [s];
    ghost var qi := [ks];
    while q != []
      invariant ok && Below(qi, |graph|) && q == Pick(graph, qi) && kt !in qi
      invariant LegalFrom(g, legal, ks, kt) <==> AllLegalFrom(g, legal, qi, kt)
      decreases QueueWork(g, qi, kt)
    {
      var node := q[0];
      ok := ok && d.legal(node.cmd.Value());
      if !ok {
        assert !LegalFrom(g, legal, qi[0], kt);
        return false;
      }
      AllLegalStep(g, legal, qi, kt);
      OthersBelow(g[qi[0]], kt, |graph|);
      PickAdvance(graph, qi, Others(g[qi[0]], kt));
      q := QueueOthers(q[1..], node.succ, t, graph, g[qi[0]], kt);
      qi := qi[1..] + Others(g[qi[0]], kt);
    }
  }

  // ----- growing one fuse set -----

  ghost predicate IsOwners(g: Graph, dp: seq<nat>, legal: seq<bool>, owner: seq<nat>) {
    && Tree(dp) && |dp| == |g| == |legal| == |owner|
    && forall v :: 0 <= v < |dp| ==> owner[v] == Owner(g, dp, legal, v)
  }

  /** A repeat-free list of numbers below n has at most n entries. */
  lemma {:induction false} Pigeonhole(ids: seq<nat>, n: nat)
    requires NoRepeats(ids) && Below(ids, n)
    ensures |ids| <= n
    decreases n
  {
    assert ids != [] ==> ids[0] < n;
    if k :| 0 <= k < |ids| && ids[k] == n - 1 {
      Pigeonhole(ids[..k] + ids[k + 1..], n - 1);
    } else if n > 0 {
      Pigeonhole(ids, n - 1);
    }
  }

  /** The entries of ks that root r collects (keep), or the other ones. */
  ghost function Collected(ks: seq<nat>, owner: seq<nat>, r: nat, keep: bool): (c: seq<nat>)
    requires Below(ks, |owner|)
    ensures forall v :: v in c <==> v in ks && (owner[v] == r <==> keep)
    ensures Below(c, |owner|)
    ensures NoRepeats(ks) ==> NoRepeats(c)
  {
    if ks == [] then []
    else
      var init, v := ks[..|ks| - 1], ks[|ks| - 1];
      assert v in ks;
      if (owner[v] == r) == keep then Collected(init, owner, r, keep) + [v] else Collected(init, owner, r, keep)
  }

  /** Whatever is collected or waiting belongs to r and hangs below something collected. */
  ghost predicate Gathered(dp: seq<nat>, owner: seq<nat>, r: nat, ids: seq<nat>, q: seq<nat>) {
    |dp| == |owner| && forall v :: v in ids + q ==> v < |dp| && owner[v] == r && (v == r || dp[v] in ids)
  }

  /** Every child of something collected is collected, waiting or turned away. */
  ghost predicate Sorted(dp: seq<nat>, owner: seq<nat>, r: nat, ids: seq<nat>, q: seq<nat>, edges: seq<nat>) {
    && |dp| == |owner|
    && (forall v: nat :: v < |dp| && dp[v] in ids ==> if owner[v] == r then v in ids + q else v in edges)
    && forall c :: c in edges ==> c < |dp| && owner[c] != r && dp[c] in ids
  }

  /** ids have been collected for root r, q is waiting, and edges were turned away. */
  ghost predicate Growing(dp: seq<nat>, owner: seq<nat>, r: nat, ids: seq<nat>, q: seq<nat>, edges: seq<nat>) {
    && Gathered(dp, owner, r, ids, q) && Sorted(dp, owner, r, ids, q, edges)
    && NoRepeats(ids + q) && NoRepeats(edges)
    && (if ids == [] then q == [r] else ids[|ids| - 1] == r)
  }

  lemma GrowGathered(dp: seq<nat>, owner: seq<nat>, r: nat, ids: seq<nat>, q: seq<nat>, ks: seq<nat>)
    requires Gathered(dp, owner, r, ids, q) && q != [] && Below(ks, |dp|) && forall c :: c in ks ==> dp[c] == q[0]
    ensures Gathered(dp, owner, r, [q[0]] + ids, q[1..] + Collected(ks, owner, r, true))
  {
    assert q[0] in ids + q;
    assert forall x :: x in ids + q <==> x == q[0] || x in ids || x in q[1..];
  }

  lemma GrowSorted(dp: seq<nat>, owner: seq<nat>, r: nat, ids: seq<nat>, q: seq<nat>, edges: seq<nat>, ks: seq<nat>)
    requires Sorted(dp, owner, r, ids, q, edges) && q != [] && Below(ks, |dp|)
    requires forall c: nat :: c in ks <==> c < |dp| && dp[c] == q[0]
    ensures Sorted(dp, owner, r, [q[0]] + ids, q[1..] + Collected(ks, owner, r, true),
      edges + Collected(ks, owner, r, false))
  {
    assert forall x :: x in ids + q <==> x == q[0] || x in ids || x in q[1..];
  }

  lemma GrowStep(dp: seq<nat>, kids: seq<seq<nat>>, owner: seq<nat>, r: nat, ids: seq<nat>, q: seq<nat>,
      edges: seq<nat>)
    requires Tree(dp) && KidsOf(dp, kids, 0) && Growing(dp, owner, r, ids, q, edges) && q != []
    requires forall v :: 0 <= v < |owner| ==> owner[v] >= v
    ensures q[0] < |dp| && owner[q[0]] == r && Below(kids[q[0]], |owner|)
    ensures forall k :: 0 <= k < |kids[q[0]]| ==> var c := kids[q[0]][k]; dp[c] == q[0] && c != r
    ensures var ks := kids[q[0]];
      Growing(dp, owner, r, [q[0]] + ids, q[1..] + Collected(ks, owner, r, true),
        edges + Collected(ks, owner, r, false))
  {
    var v := q[0];
    assert v in ids + q;
    var ks := kids[v];
    GrowGathered(dp, owner, r, ids, q, ks);
    GrowSorted(dp, owner, r, ids, q, edges, ks);
    var join, turn := Collected(ks, owner, r, true), Collected(ks, owner, r, false);
    forall k | 0 <= k < |ids| ensures ids[k] != v { assert (ids + q)[k] == ids[k] && (ids + q)[|ids|] == v; }
    forall c | c in ks ensures c !in ids + q && c !in edges { assert dp[c] == v && v !in ids; }
    GrowNoRepeats(ids, q, join);
    JoinNoRepeats(edges, turn);
  }

  lemma JoinNoRepeats(a: seq<nat>, b: seq<nat>)
    requires NoRepeats(a) && NoRepeats(b) && forall c :: c in b ==> c !in a
    ensures NoRepeats(a + b)
  {
    forall i, j | 0 <= i < j < |a + b| ensures (a + b)[i] != (a + b)[j] {
      if i < |a| <= j { assert (a + b)[j] == b[j - |a|] && b[j - |a|] in b && (a + b)[i] in a; }
    }
  }

  lemma GrowNoRepeats(ids: seq<nat>, q: seq<nat>, join: seq<nat>)
    requires NoRepeats(ids + q) && q != [] && NoRepeats(join) && forall c :: c in join ==> c !in ids + q
    ensures NoRepeats([q[0]] + ids + (q[1..] + join))
  {
    var all, r := ids + q, [q[0]] + ids + (q[1..] + join);
    forall a, b | 0 <= a < b < |r| ensures r[a] != r[b] {
      var pos := (k: int) => if k == 0 then |ids| else if k <= |ids| then k - 1 else k;
      if b < |all| {
        assert r[a] == all[pos(a)] && r[b] == all[pos(b)];
      } else if a < |all| {
        assert r[a] == all[pos(a)] && r[b] in join;
      } else {
        assert r[a] == join[a - |all|] && r[b] == join[b - |all|];
      }
    }
  }

  /** When nothing waits, the set is complete. */
  lemma {:induction false} GrownIsComplete(g: Graph, dp: seq<nat>, legal: seq<bool>, owner: seq<nat>, r: nat,
      ids: seq<nat>, edges: seq<nat>, v: nat)
    requires IsOwners(g, dp, legal, owner) && Growing(dp, owner, r, ids, [], edges) && v < |dp| && owner[v] == r
    ensures v in ids
    decreases |dp| - v
  {
    assert ids + [] == ids;
    if v != r {
      OwnerFacts(g, dp, legal, v);
      GrownIsComplete(g, dp, legal, owner, r, ids, edges, dp[v]);
    } else {
      assert ids[|ids| - 1] == r;
    }
  }

  /** A child joins its parent's set exactly when the root owns it. */
  method ChildJoins(d: Device, child: Node, root: Node, ghost graph: seq<Node>, ghost g: Graph, ghost dp: seq<nat>,
                    ghost legal: seq<bool>, ghost owner: seq<nat>, ghost c: nat, ghost r: nat)
    returns (joins: bool)
    requires Wired(graph, g) && LegalShown(d, graph, legal) && IsOwners(g, dp, legal, owner)
    requires c < |graph| && child == graph[c] && r < |graph| && root == graph[r] && legal[r]
    requires dp[c] < |graph| && owner[dp[c]] == r && c != r
    ensures joins <==> owner[c] == r
  {
    joins := d.legal(child.cmd.Value());
    if joins {
      joins := AllPathLegal(d, child, root, graph, g, legal, c, r);
    }
  }

  /** The nodes that `Collected` names, so far. */
  lemma PickCollected(graph: seq<Node>, ks: seq<nat>, j: nat, owner: seq<nat>, r: nat, keep: bool)
    requires Below(ks, |graph|) && |owner| == |graph| && j < |ks|
    requires Below(Collected(ks[..j], owner, r, keep), |graph|)
    ensures Below(Collected(ks[..j + 1], owner, r, keep), |graph|)
    ensures Pick(graph, Collected(ks[..j + 1], owner, r, keep)) ==
            if (owner[ks[j]] == r) == keep then Pick(graph, Collected(ks[..j], owner, r, keep)) + [graph[ks[j]]]
            else Pick(graph, Collected(ks[..j], owner, r, keep))
  {
    assert ks[..j + 1][..j] == ks[..j];
  }

  /** Sorts a node's children into those that join the root's set and those turned away. */
  method SplitChildren(d: Device, children: seq<Node>, root: Node, ghost graph: seq<Node>, ghost g: Graph,
                       ghost dp: seq<nat>, ghost legal: seq<bool>, ghost owner: seq<nat>, ghost ks: seq<nat>,
                         ghost r: nat)
    returns (join: seq<Node>, turn: seq<Node>)
    requires Wired(graph, g) && LegalShown(d, graph, legal) && IsOwners(g, dp, legal, owner)
    requires Below(ks, |graph|) && children == Pick(graph, ks) && r < |graph| && root == graph[r] && legal[r]
    requires forall k :: 0 <= k < |ks| ==> dp[ks[k]] < |graph| && owner[dp[ks[k]]] == r && ks[k] != r
    ensures Below(Collected(ks, owner, r, true), |graph|) && join == Pick(graph, Collected(ks, owner, r, true))
    ensures Below(Collected(ks, owner, r, false), |graph|) && turn == Pick(graph, Collected(ks, owner, r, false))
  {
    join, turn := [], [];
    var j := 0;
    while j < |children|
      invariant 0 <= j <= |children|
      invariant Below(Collected(ks[..j], owner, r, true), |graph|)
        && join == Pick(graph, Collected(ks[..j], owner, r, true))
      invariant Below(Collected(ks[..j], owner, r, false), |graph|)
        && turn == Pick(graph, Collected(ks[..j], owner, r, false))
    {
      PickCollected(graph, ks, j, owner, r, true);
      PickCollected(graph, ks, j, owner, r, false);
      var joins := ChildJoins(d, children[j], root, graph, g, dp, legal, owner, ks[j], r);
      if joins {
        join := join + [children[j]];
      } else {
        turn := turn + [children[j]];
      }
      j := j + 1;
    }
    assert ks[..|ks|] == ks;
  }

  /** A fuse set as a list: each member once, the root last. */
  ghost predicate FuseSetAt(owner: seq<nat>, r: nat, ids: seq<nat>) {
    && NoRepeats(ids) && Below(ids, |owner|) && |ids| > 0 && ids[|ids| - 1] == r
    && forall v: nat :: v in ids <==> v < |owner| && owner[v] == r
  }

  /** The growing set, the queue and the nodes turned away, as lists of nodes. */
  ghost predicate Collecting(graph: seq<Node>, dp: seq<nat>, owner: seq<nat>, r: nat, ids: seq<nat>, qi: seq<nat>,
      turned: seq<nat>,
                             fuseSet: seq<Node>, q: seq<Node>, edges: seq<Node>) {
    && |dp| == |graph| && Growing(dp, owner, r, ids, qi, turned)
    && Below(ids, |graph|) && Below(qi, |graph|) && Below(turned, |graph|)
    && fuseSet == Pick(graph, ids) && q == Pick(graph, qi) && edges == Pick(graph, turned)
  }

  lemma CollectStep(graph: seq<Node>, dp: seq<nat>, kids: seq<seq<nat>>, owner: seq<nat>, r: nat, ids: seq<nat>,
      qi: seq<nat>, turned: seq<nat>,
                    fuseSet: seq<Node>, q: seq<Node>, edges: seq<Node>)
    requires Tree(dp) && KidsOf(dp, kids, 0) && (forall v :: 0 <= v < |owner| ==> owner[v] >= v)
    requires Collecting(graph, dp, owner, r, ids, qi, turned, fuseSet, q, edges) && q != []
    ensures var ks := kids[qi[0]]; var join, turn := Collected(ks, owner, r, true), Collected(ks, owner, r, false);
      && Below(join, |graph|) && Below(turn, |graph|)
      && Collecting(graph, dp, owner, r, [qi[0]] + ids, qi[1..] + join, turned + turn,
                    [q[0]] + fuseSet, q[1..] + Pick(graph, join), edges + Pick(graph, turn))
      && |ids| < |graph|
  {
    GrowStep(dp, kids, owner, r, ids, qi, turned);
    PickAdvance(graph, qi, Collected(kids[qi[0]], owner, r, true));
    PickConcat(graph, turned, Collected(kids[qi[0]], owner, r, false));
    PickConcat(graph, [qi[0]], ids);
    Pigeonhole(ids + qi, |graph|);
  }

  lemma PickConcat(graph: seq<Node>, a: seq<nat>, b: seq<nat>)
    requires Below(a, |graph|) && Below(b, |graph|)
    ensures Below(a + b, |graph|) && Pick(graph, a + b) == Pick(graph, a) + Pick(graph, b)
  {}

  /** Collects the root's fuse set; `edges` are the nodes turned away, which become roots. */
  method FuseNode(d: Device, root: Node, ghost graph: seq<Node>, ghost g: Graph, ghost tb: Tables,
      ghost legal: seq<bool>, ghost owner: seq<nat>, ghost r: nat)
    returns (fuseSet: seq<Node>, edges: seq<Node>, ghost ids: seq<nat>, ghost turned: seq<nat>)
    requires Wired(graph, g) && ChildrenListed(graph, tb.kids) && KidsOf(tb.dp, tb.kids, 0)
    requires LegalShown(d, graph, legal) && IsOwners(g, tb.dp, legal, owner)
    requires r < |graph| && root == graph[r] && owner[r] == r && legal[r]
    ensures FuseSetAt(owner, r, ids) && fuseSet == Pick(graph, ids)
    ensures NoRepeats(turned) && Below(turned, |graph|) && edges == Pick(graph, turned)
    ensures forall c: nat :: c in turned <==> c < |owner| && tb.dp[c] < |graph| && owner[tb.dp[c]] == r && owner[c] != r
  {
    fuseSet, edges := [], [];
    ids, turned := [], [];
    var q := [root];
    ghost var qi := [r];
    while q != []
      invariant Collecting(graph, tb.dp, owner, r, ids, qi, turned, fuseSet, q, edges)
      decreases |graph| - |ids|
    {
      ghost var ks := tb.kids[qi[0]];
      GrowStep(tb.dp, tb.kids, owner, r, ids, qi, turned);
      CollectStep(graph, tb.dp, tb.kids, owner, r, ids, qi, turned, fuseSet, q, edges);
      var node := q[0];
      var join, turn := SplitChildren(d, node.domainateSucc, root, graph, g, tb.dp, legal, owner, ks, r);
      fuseSet, q, edges := [node] + fuseSet, q[1..] + join, edges + turn;
      ids, qi, turned := [qi[0]] + ids, qi[1..] + Collected(ks, owner, r, true),
        turned + Collected(ks, owner, r, false);
    }
    GrownSet(g, tb.dp, legal, owner, r, ids, turned);
  }

  lemma GrownSet(g: Graph, dp: seq<nat>, legal: seq<bool>, owner: seq<nat>, r: nat, ids: seq<nat>, turned: seq<nat>)
    requires IsOwners(g, dp, legal, owner) && Growing(dp, owner, r, ids, [], turned) && r < |owner| && owner[r] == r
    ensures FuseSetAt(owner, r, ids)
    ensures forall c: nat :: c in turned <==> c < |owner| && dp[c] < |owner| && owner[dp[c]] == r && owner[c] != r
  {
    assert ids + [] == ids;
    forall v: nat | v < |owner| && owner[v] == r ensures v in ids {
      GrownIsComplete(g, dp, legal, owner, r, ids, turned, v);
    }
    forall k | 0 <= k < |ids| ensures ids[k] < |owner| { assert ids[k] in ids; }
    forall c: nat | c in turned ensures owner[dp[c]] == r { assert dp[c] in ids; }
  }

  // ----- all fuse sets -----

  /** Some other node belongs to r. */
  ghost predicate HasMembers(owner: seq<nat>, r: nat) {
    exists v :: 0 <= v < |owner| && v != r && owner[v] == r
  }

  /** The roots right below r's set. */
  ghost predicate TurnedAway(dp: seq<nat>, owner: seq<nat>, r: nat, turned: seq<nat>) {
    && |dp| == |owner| && NoRepeats(turned) && Below(turned, |dp|)
    && forall c: nat :: c in turned <==> c < |owner| && dp[c] < |owner| && owner[dp[c]] == r && owner[c] != r
  }

  /** A root without legal children keeps to itself. */
  lemma {:induction false} LonelyRoot(g: Graph, dp: seq<nat>, legal: seq<bool>, owner: seq<nat>, r: nat, v: nat)
    requires IsOwners(g, dp, legal, owner) && r < |owner| && v < |owner| && owner[v] == r
    requires !legal[r] || forall c :: 0 <= c < |dp| ==> dp[c] != r
    ensures v == r
    decreases |owner| - v
  {
    if v != r {
      OwnerFacts(g, dp, legal, v);
      LonelyRoot(g, dp, legal, owner, r, dp[v]);
    }
  }

  lemma LonelyRootTurns(g: Graph, tb: Tables, legal: seq<bool>, owner: seq<nat>, r: nat)
    requires IsOwners(g, tb.dp, legal, owner) && KidsOf(tb.dp, tb.kids, 0) && r < |owner| && owner[r] == r
    requires !legal[r] || tb.kids[r] == []
    ensures TurnedAway(tb.dp, owner, r, tb.kids[r]) && !HasMembers(owner, r)
  {
    assert tb.kids[r] == [] ==> forall c: nat :: c < |tb.dp| ==> c !in tb.kids[r];
    forall v: nat | v < |owner| && owner[v] == r ensures v == r { LonelyRoot(g, tb.dp, legal, owner, r, v); }
    forall c: nat | c in tb.kids[r] ensures owner[c] != r { assert tb.dp[c] == r && c < r; }
  }

  /** Roots already examined, roots waiting, and the sets found. */
  ghost predicate Searching(dp: seq<nat>, owner: seq<nat>, done: seq<nat>, qi: seq<nat>, sets: seq<seq<nat>>) {
    && |dp| == |owner| && Tree(dp) && NoRepeats(done + qi)
    && (forall x: nat :: x in done + qi <==> x < |dp| && owner[x] == x && (dp[x] >= |owner| || owner[dp[x]] in done))
    && SetsListed(owner, done, sets)
  }

  /** A fuse set with more than one member, listed with its root last. */
  ghost predicate BigSet(owner: seq<nat>, ids: seq<nat>) {
    |ids| > 1 && FuseSetAt(owner, ids[|ids| - 1], ids)
  }

  ghost function RootOf(ids: seq<nat>): nat {
    if ids == [] then 0 else ids[|ids| - 1]
  }

  /** One set for every root among `done` that has members. */
  ghost predicate SetsListed(owner: seq<nat>, done: seq<nat>, sets: seq<seq<nat>>) {
    && (forall k :: 0 <= k < |sets| ==> BigSet(owner, sets[k]) && RootOf(sets[k]) in done)
    && (forall k, l :: 0 <= k < l < |sets| ==> RootOf(sets[k]) != RootOf(sets[l]))
    && (forall r :: r in done && HasMembers(owner, r) ==> exists k :: 0 <= k < |sets| && RootOf(sets[k]) == r)
  }

  /** One set for every root that has members; locked. */
  ghost predicate AllSetsListed(owner: seq<nat>, sets: seq<seq<nat>>) {
    forall key: nat {:trigger Unlock(key)} :: Unlock(key) ==>
      && (forall k :: 0 <= k < |sets| ==> BigSet(owner, sets[k]))
      && (forall k, l :: 0 <= k < l < |sets| ==> RootOf(sets[k]) != RootOf(sets[l]))
      && (forall r: nat ::
         r < |owner| && owner[r] == r && HasMembers(owner, r) ==> exists k :: 0 <= k < |sets| && RootOf(sets[k]) == r)
  }

  lemma SetAt(owner: seq<nat>, sets: seq<seq<nat>>, n: nat)
    requires AllSetsListed(owner, sets) && n < |sets|
    ensures BigSet(owner, sets[n])
  {
    assert Unlock(0);
  }

  lemma SearchStep(g: Graph, dp: seq<nat>, legal: seq<bool>, owner: seq<nat>, done: seq<nat>, qi: seq<nat>,
      sets: seq<seq<nat>>, turned: seq<nat>, sets': seq<seq<nat>>)
    requires IsOwners(g, dp, legal, owner) && Searching(dp, owner, done, qi, sets) && qi != []
    requires TurnedAway(dp, owner, qi[0], turned) && SetsListed(owner, done + [qi[0]], sets')
    ensures Searching(dp, owner, done + [qi[0]], qi[1..] + turned, sets')
  {
    var r := qi[0];
    var all, all' := done + qi, done + [r] + (qi[1..] + turned);
    assert all' == all + turned;
    assert r in all && (done + qi)[|done|] == r;
    forall c | c in turned ensures owner[c] == c && c !in all {
      OwnerFacts(g, dp, legal, c);
      assert r !in done by {
        forall k | 0 <= k < |done| ensures done[k] != r { assert all[k] == done[k] && all[|done|] == r; }
      }
    }
    JoinNoRepeats(all, turned);
    assert forall x :: x in all' <==> x in all || x in turned;
    assert forall x :: x in done + [r] <==> x in done || x == r;
    forall x: nat | x < |dp| && owner[x] == x && dp[x] < |dp| && owner[dp[x]] == r ensures x in turned {}
  }

  lemma {:induction false} AllRootsExamined(g: Graph, dp: seq<nat>, legal: seq<bool>, owner: seq<nat>,
      done: seq<nat>, sets: seq<seq<nat>>, x: nat)
    requires IsOwners(g, dp, legal, owner) && Searching(dp, owner, done, [], sets) && x < |dp| && owner[x] == x
    ensures x in done
    decreases |dp| - x
  {
    assert done + [] == done;
    if dp[x] < |dp| {
      OwnerFacts(g, dp, legal, dp[x]);
      AllRootsExamined(g, dp, legal, owner, done, sets, owner[dp[x]]);
    }
  }

  lemma SearchBounded(dp: seq<nat>, owner: seq<nat>, done: seq<nat>, qi: seq<nat>, sets: seq<seq<nat>>)
    requires Searching(dp, owner, done, qi, sets) && qi != []
    ensures Below(done + qi, |dp|) && |done| < |dp| && qi[0] < |owner| && owner[qi[0]] == qi[0] && qi[0] !in done
  {
    forall k | 0 <= k < |done + qi| ensures (done + qi)[k] < |dp| { assert (done + qi)[k] in done + qi; }
    Pigeonhole(done + qi, |dp|);
    assert (done + qi)[|done|] == qi[0] && qi[0] in done + qi;
    forall k | 0 <= k < |done| ensures done[k] != qi[0] { assert (done + qi)[k] == done[k]; }
  }

  lemma AddSet(owner: seq<nat>, done: seq<nat>, sets: seq<seq<nat>>, ids: seq<nat>)
    requires SetsListed(owner, done, sets) && BigSet(owner, ids) && RootOf(ids) !in done
    ensures SetsListed(owner, done + [RootOf(ids)], sets + [ids])
  {
    var sets' := sets + [ids];
    assert RootOf(sets'[|sets|]) == RootOf(ids);
    forall x | x in done + [RootOf(ids)] && HasMembers(owner, x)
      ensures exists k :: 0 <= k < |sets'| && RootOf(sets'[k]) == x
    {
      if x in done {
        var k :| 0 <= k < |sets| && RootOf(sets[k]) == x;
        assert sets'[k] == sets[k];
      }
    }
  }

  lemma ListSet(owner: seq<nat>, done: seq<nat>, sets: seq<seq<nat>>, r: nat, ids: seq<nat>)
    requires SetsListed(owner, done, sets) && r !in done && FuseSetAt(owner, r, ids)
    ensures SetsListed(owner, done + [r], if |ids| > 1 then sets + [ids] else sets)
  {
    if |ids| > 1 {
      AddSet(owner, done, sets, ids);
    } else {
      assert forall v: nat :: v < |owner| && owner[v] == r ==> v in ids;
      SkipSet(owner, done, sets, r);
    }
  }

  lemma SkipSet(owner: seq<nat>, done: seq<nat>, sets: seq<seq<nat>>, r: nat)
    requires SetsListed(owner, done, sets) && !HasMembers(owner, r)
    ensures SetsListed(owner, done + [r], sets)
  {}

  ghost predicate SetsShown(graph: seq<Node>, fuseSets: seq<seq<Node>>, sets: seq<seq<nat>>) {
    && |fuseSets| == |sets|
    && forall k :: 0 <= k < |sets| ==> Below(sets[k], |graph|) && fuseSets[k] == Pick(graph, sets[k])
  }

  /** Examines one root: adds its set if it has members, and tells which roots come next. */
  method ExamineRoot(d: Device, root: Node, fuseSets0: seq<seq<Node>>, ghost graph: seq<Node>, ghost g: Graph,
      ghost tb: Tables,
                     ghost legal: seq<bool>, ghost owner: seq<nat>, ghost r: nat, ghost done: seq<nat>,
                       ghost sets0: seq<seq<nat>>)
    returns (fuseSets: seq<seq<Node>>, childs: seq<Node>, ghost sets: seq<seq<nat>>, ghost turned: seq<nat>)
    requires Wired(graph, g) && ChildrenListed(graph, tb.kids) && KidsOf(tb.dp, tb.kids, 0)
    requires LegalShown(d, graph, legal) && IsOwners(g, tb.dp, legal, owner)
    requires r < |graph| && root == graph[r] && owner[r] == r && r !in done
    requires SetsListed(owner, done, sets0) && SetsShown(graph, fuseSets0, sets0)
    ensures SetsListed(owner, done + [r], sets) && SetsShown(graph, fuseSets, sets)
    ensures TurnedAway(tb.dp, owner, r, turned) && childs == Pick(graph, turned)
  {
    fuseSets, sets := fuseSets0, sets0;
    if root.domainateSucc == [] || !d.legal(root.cmd.Value()) {
      LonelyRootTurns(g, tb, legal, owner, r);
      SkipSet(owner, done, sets0, r);
      childs, turned := root.domainateSucc, tb.kids[r];
    } else {
      var fuseSet;
      ghost var ids;
      fuseSet, childs, ids, turned := FuseNode(d, root, graph, g, tb, legal, owner, r);
      ListSet(owner, done, sets0, r, ids);
      if |fuseSet| > 1 {
        fuseSets, sets := fuseSets + [fuseSet], sets + [ids];
      }
    }
  }

  /** The breadth-first search over roots finds every fuse set with more than one member. */
  method FindFuseSets(d: Device, queue: seq<Node>, ghost graph: seq<Node>, ghost g: Graph, ghost tb: Tables,
      ghost legal: seq<bool>, ghost owner: seq<nat>)
    returns (fuseSets: seq<seq<Node>>, ghost sets: seq<seq<nat>>)
    requires Shows(graph, g, tb, queue) && KidsOf(tb.dp, tb.kids, 0) && RootsOf(tb.dp, tb.roots, 0)
    requires LegalShown(d, graph, legal) && IsOwners(g, tb.dp, legal, owner)
    ensures SetsShown(graph, fuseSets, sets) && AllSetsListed(owner, sets)
  {
    fuseSets, sets := [], [];
    var q := queue;
    ghost var qi, done: seq<nat> := tb.roots, [];
    assert done + qi == qi;
    while q != []
      invariant Searching(tb.dp, owner, done, qi, sets) && SetsShown(graph, fuseSets, sets)
      invariant Below(qi, |graph|) && q == Pick(graph, qi)
      decreases |graph| - |done|
    {
      SearchBounded(tb.dp, owner, done, qi, sets);
      ghost var r := qi[0];
      var root := q[0];
      var childs;
      ghost var turned, sets';
      fuseSets, childs, sets', turned := ExamineRoot(d, root, fuseSets, graph, g, tb, legal, owner, r, done, sets);
      SearchStep(g, tb.dp, legal, owner, done, qi, sets, turned, sets');
      PickAdvance(graph, qi, turned);
      q, sets := q[1..] + childs, sets';
      done, qi := done + [r], qi[1..] + turned;
    }
    SearchComplete(g, tb.dp, legal, owner, done, sets);
  }

  lemma SearchComplete(g: Graph, dp: seq<nat>, legal: seq<bool>, owner: seq<nat>, done: seq<nat>, sets: seq<seq<nat>>)
    requires IsOwners(g, dp, legal, owner) && Searching(dp, owner, done, [], sets)
    ensures AllSetsListed(owner, sets)
  {
    forall r: nat | r < |owner| && owner[r] == r ensures r in done {
      AllRootsExamined(g, dp, legal, owner, done, sets, r);
    }
  }
}
