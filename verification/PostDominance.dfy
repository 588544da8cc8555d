/** Post-dominance over the command graph that the fusion pass builds.

    A node is named by its position in the graph.  Edges run from a producer to a later
    consumer.  A parent table gives each node's parent in the dominator tree, and the length
    of the table stands for "no parent". */
module PostDominance {
  type Graph = seq<seq<nat>>

  ghost predicate Forward(g: Graph) {
    forall i, j :: 0 <= i < |g| && 0 <= j < |g[i]| ==> i < g[i][j] < |g|
  }

  ghost predicate IsPath(g: Graph, p: seq<nat>) {
    && |p| > 0
    && (forall k :: 0 <= k < |p| ==> p[k] < |g|)
    && (forall k :: 0 <= k < |p| - 1 ==> p[k + 1] in g[p[k]])
  }

  /** A path that leaves its first node does so along an edge. */
  lemma FirstStep(g: Graph, p: seq<nat>)
    requires IsPath(g, p)
    ensures |p| > 1 ==> p[1] in g[p[0]]
  {
    if |p| > 1 { assert p[0 + 1] in g[p[0]]; }
  }

  ghost predicate ReachesSink(g: Graph, p: seq<nat>) {
    IsPath(g, p) && g[p[|p| - 1]] == []
  }

  /** d lies on every path from n to a sink. */
  ghost predicate PostDominates(g: Graph, d: nat, n: nat) {
    forall p {:trigger ReachesSink(g, p)} :: ReachesSink(g, p) && p[0] == n ==> d in p
  }

  lemma {:induction false} PathsAscend(g: Graph, p: seq<nat>, a: nat, b: nat)
    requires Forward(g) && IsPath(g, p) && a <= b < |p|
    ensures p[a] <= p[b]
    ensures a < b ==> p[a] < p[b]
    decreases b - a
  {
    if a < b {
      assert p[b] in g[p[b - 1]];
      PathsAscend(g, p, a, b - 1);
    }
  }

  lemma {:induction false} SomePathToSink(g: Graph, n: nat) returns (p: seq<nat>)
    requires Forward(g) && n < |g|
    ensures ReachesSink(g, p) && p[0] == n
    decreases |g| - n
  {
    if g[n] == [] {
      p := [n];
    } else {
      var q := SomePathToSink(g, g[n][0]);
      p := [n] + q;
    }
  }

  /** Post-dominance satisfies the data-flow equation that the reverse sweep solves. */
  lemma {:induction false} PostDominanceEquation(g: Graph, d: nat, n: nat)
    requires Forward(g) && n < |g|
    ensures g[n] == [] ==> (PostDominates(g, d, n) <==> d == n)
    ensures g[n] != [] ==>
      (PostDominates(g, d, n) <==> d == n || forall j :: 0 <= j < |g[n]| ==> PostDominates(g, d, g[n][j]))
  {
    if g[n] == [] {
      assert ReachesSink(g, [n]);
      forall p | ReachesSink(g, p) && p[0] == n ensures p == [n] {
        FirstStep(g, p);
      }
    } else {
      if d != n && PostDominates(g, d, n) {
        forall j | 0 <= j < |g[n]| ensures PostDominates(g, d, g[n][j]) {
          forall p | ReachesSink(g, p) && p[0] == g[n][j] ensures d in p {
            assert ReachesSink(g, [n] + p);
            assert d in [n] + p;
          }
        }
      }
      if forall j :: 0 <= j < |g[n]| ==> PostDominates(g, d, g[n][j]) {
        forall p | ReachesSink(g, p) && p[0] == n ensures d in p {
          assert p[1] in g[p[0]];
          assert ReachesSink(g, p[1..]);
          assert d in p[1..];
        }
      }
    }
  }

  // ----- the dominator tree -----

  ghost predicate Tree(dp: seq<nat>) {
    forall i :: 0 <= i < |dp| ==> i < dp[i] <= |dp|
  }

  /** n, its parent, its grandparent, and so on; empty when n stands for "no node". */
  ghost function Chain(dp: seq<nat>, n: nat): (c: set<nat>)
    requires Tree(dp) && n <= |dp|
    ensures forall v :: v in c ==> n <= v < |dp|
    ensures n < |dp| ==> n in c
    decreases |dp| - n
  {
    if n == |dp| then {} else {n} + Chain(dp, dp[n])
  }

  lemma {:induction false} ChainUsesSuffix(dp: seq<nat>, dp': seq<nat>, n: nat, m: nat)
    requires Tree(dp) && Tree(dp') && |dp| == |dp'| && m <= n <= |dp|
    requires forall i :: m <= i < |dp| ==> dp[i] == dp'[i]
    ensures Chain(dp, n) == Chain(dp', n)
    decreases |dp| - n
  {
    if n < |dp| { ChainUsesSuffix(dp, dp', dp[n], m); }
  }

  lemma {:induction false} ChainOfMember(dp: seq<nat>, n: nat, c: nat)
    requires Tree(dp) && n <= |dp| && c in Chain(dp, n)
    ensures Chain(dp, c) <= Chain(dp, n)
    ensures forall v :: v in Chain(dp, n) && c <= v ==> v in Chain(dp, c)
    decreases |dp| - n
  {
    if c != n {
      ChainOfMember(dp, dp[n], c);
    }
  }

  /** The nodes shared by the chains of all of a node's consumers. */
  ghost function Meet(dp: seq<nat>, ss: seq<nat>): set<nat>
    requires Tree(dp) && |ss| > 0 && forall j :: 0 <= j < |ss| ==> ss[j] <= |dp|
  {
    if |ss| == 1 then Chain(dp, ss[0]) else Meet(dp, ss[..|ss| - 1]) * Chain(dp, ss[|ss| - 1])
  }

  lemma {:induction false} MeetMembers(dp: seq<nat>, ss: seq<nat>, v: nat)
    requires Tree(dp) && |ss| > 0 && forall j :: 0 <= j < |ss| ==> ss[j] <= |dp|
    ensures v in Meet(dp, ss) <==> forall j :: 0 <= j < |ss| ==> v in Chain(dp, ss[j])
  {
    if |ss| > 1 {
      var init := ss[..|ss| - 1];
      MeetMembers(dp, init, v);
      assert forall j :: 0 <= j < |init| ==> init[j] == ss[j];
    }
  }

  /** m is a meeting point of the given nodes: its chain lies inside the meet of theirs, and
      fills it when `exact`. */
  ghost predicate Meets(dp: seq<nat>, m: nat, ss: seq<nat>, exact: bool)
    requires Tree(dp) && m <= |dp| && |ss| > 0 && forall j :: 0 <= j < |ss| ==> ss[j] <= |dp|
  {
    if exact then Chain(dp, m) == Meet(dp, ss) else Chain(dp, m) <= Meet(dp, ss)
  }

  /** What the sweep establishes for node n: its parent is a meeting point of its consumers. */
  ghost predicate Swept(g: Graph, dp: seq<nat>, n: nat, exact: bool)
    requires Forward(g) && Tree(dp) && |dp| == |g| && n < |g|
  {
    if g[n] == [] then dp[n] == |g| else Meets(dp, dp[n], g[n], exact)
  }

  ghost predicate SweptTree(g: Graph, dp: seq<nat>, exact: bool) {
    && Forward(g) && Tree(dp) && |dp| == |g|
    && forall n :: 0 <= n < |g| ==> Swept(g, dp, n, exact)
  }

  lemma {:induction false} SweptUsesSuffix(g: Graph, dp: seq<nat>, dp': seq<nat>, n: nat, exact: bool)
    requires Forward(g) && Tree(dp) && Tree(dp') && |dp| == |dp'| == |g| && n < |g|
    requires forall i :: n <= i < |dp| ==> dp[i] == dp'[i]
    requires Swept(g, dp, n, exact)
    ensures Swept(g, dp', n, exact)
  {
    if g[n] != [] {
      ChainUsesSuffix(dp, dp', dp[n], n);
      MeetUsesSuffix(dp, dp', g[n], n);
    }
  }

  lemma {:induction false} MeetUsesSuffix(dp: seq<nat>, dp': seq<nat>, ss: seq<nat>, m: nat)
    requires Tree(dp) && Tree(dp') && |dp| == |dp'|
    requires forall i :: m <= i < |dp| ==> dp[i] == dp'[i]
    requires |ss| > 0 && forall j :: 0 <= j < |ss| ==> m <= ss[j] <= |dp|
    ensures Meet(dp, ss) == Meet(dp', ss)
  {
    ChainUsesSuffix(dp, dp', ss[|ss| - 1], m);
    if |ss| > 1 { MeetUsesSuffix(dp, dp', ss[..|ss| - 1], m); }
  }

  /** Soundness, whatever order the pointer climb used: every node on a parent chain lies on
      every path to a sink. */
  lemma {:induction false} ChainPostDominates(g: Graph, dp: seq<nat>, exact: bool, n: nat, d: nat)
    requires SweptTree(g, dp, exact) && n < |g| && d in Chain(dp, n)
    ensures PostDominates(g, d, n)
    decreases |g| - n
  {
    PostDominanceEquation(g, d, n);
    if d != n {
      assert Swept(g, dp, n, exact);
      MeetMembers(dp, g[n], d);
      forall j | 0 <= j < |g[n]| ensures PostDominates(g, d, g[n][j]) {
        ChainPostDominates(g, dp, exact, g[n][j], d);
      }
    }
  }

  /** Exactness: the parent chain is precisely the set of post-dominators. */
  lemma {:induction false} ChainIsPostDominators(g: Graph, dp: seq<nat>, n: nat, d: nat)
    requires SweptTree(g, dp, true) && n < |g|
    ensures d in Chain(dp, n) <==> PostDominates(g, d, n)
    decreases |g| - n
  {
    assert Swept(g, dp, n, true);
    if d in Chain(dp, n) {
      ChainPostDominates(g, dp, true, n, d);
    } else if PostDominates(g, d, n) {
      PostDominanceEquation(g, d, n);
      forall j | 0 <= j < |g[n]| ensures d in Chain(dp, g[n][j]) {
        ChainIsPostDominators(g, dp, g[n][j], d);
      }
      MeetMembers(dp, g[n], d);
    }
  }

  /** The parent is the immediate post-dominator: a strict one that every other strict
      post-dominator also post-dominates; there is no parent exactly when there is no strict
      post-dominator. */
  lemma {:induction false} ParentIsImmediate(g: Graph, dp: seq<nat>, n: nat)
    requires SweptTree(g, dp, true) && n < |g|
    ensures dp[n] == |g| <==> forall d :: PostDominates(g, d, n) ==> d == n
    ensures dp[n] < |g| ==>
      && PostDominates(g, dp[n], n) && dp[n] != n
      && forall d :: PostDominates(g, d, n) && d != n ==> PostDominates(g, d, dp[n])
  {
    forall d ensures PostDominates(g, d, n) <==> d in Chain(dp, n) { ChainIsPostDominators(g, dp, n, d); }
    if dp[n] < |g| {
      assert dp[n] in Chain(dp, n);
      forall d | PostDominates(g, d, n) && d != n ensures PostDominates(g, d, dp[n]) {
        assert d in Chain(dp, n) && d in Chain(dp, dp[n]);
        ChainIsPostDominators(g, dp, dp[n], d);
      }
    }
  }
}
