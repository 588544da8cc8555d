/** Which nodes the fusion pass puts together, and why no consumer is left behind. */
module FuseSets {
  import opened PostDominance

  /** A path from s that does not come to t after its start. */
  ghost predicate Avoids(g: Graph, p: seq<nat>, s: nat, t: nat) {
    IsPath(g, p) && p[0] == s && t !in p[1..]
  }

  /** Every node that s reaches without passing t is legal.  (s itself counts as reached.) */
  ghost predicate AllPathsLegal(g: Graph, legal: seq<bool>, s: nat, t: nat)
    requires |legal| == |g|
  {
    forall p {:trigger Avoids(g, p, s, t)} :: Avoids(g, p, s, t) ==> legal[p[|p| - 1]]
  }

  /** The same, by following edges one at a time, as the search does. */
  ghost predicate LegalFrom(g: Graph, legal: seq<bool>, s: nat, t: nat)
    requires Forward(g) && |legal| == |g| && s < |g|
    decreases |g| - s
  {
    legal[s] && forall j :: 0 <= j < |g[s]| && g[s][j] != t ==> LegalFrom(g, legal, g[s][j], t)
  }

  lemma {:induction false} LegalFromOnPath(g: Graph, legal: seq<bool>, p: seq<nat>, t: nat)
    requires Forward(g) && |legal| == |g| && IsPath(g, p) && t !in p[1..]
    requires LegalFrom(g, legal, p[0], t)
    ensures legal[p[|p| - 1]]
  {
    if |p| > 1 {
      FirstStep(g, p);
      assert p[1] in p[1..];
      LegalFromOnPath(g, legal, p[1..], t);
    }
  }

  lemma {:induction false} LegalFromIsAllPathsLegal(g: Graph, legal: seq<bool>, s: nat, t: nat)
    requires Forward(g) && |legal| == |g| && s < |g|
    ensures LegalFrom(g, legal, s, t) <==> AllPathsLegal(g, legal, s, t)
    decreases |g| - s
  {
    if LegalFrom(g, legal, s, t) {
      forall p | Avoids(g, p, s, t) ensures legal[p[|p| - 1]] {
        LegalFromOnPath(g, legal, p, t);
      }
    }
    if AllPathsLegal(g, legal, s, t) {
      assert Avoids(g, [s], s, t) && legal[[s][0]];
      forall j | 0 <= j < |g[s]| && g[s][j] != t ensures LegalFrom(g, legal, g[s][j], t) {
        var u := g[s][j];
        forall p | Avoids(g, p, u, t) ensures legal[p[|p| - 1]] {
          var q := [s] + p;
          assert Avoids(g, q, s, t);
          assert legal[q[|q| - 1]];
        }
        LegalFromIsAllPathsLegal(g, legal, u, t);
      }
    }
  }

  /** The number of paths that leave v and stop before t.  The search has no visited set, so
      this is what its queue uses up. */
  ghost function PathCount(g: Graph, v: nat, t: nat): (n: nat)
    requires Forward(g) && v < |g|
    ensures n > 0
    decreases |g| - v, 1, 0
  {
    1 + PathCounts(g, g[v], t, v + 1)
  }

  ghost function PathCounts(g: Graph, ss: seq<nat>, t: nat, low: nat): nat
    requires Forward(g) && forall j :: 0 <= j < |ss| ==> low <= ss[j] < |g|
    decreases |g| - low + 1, 0, |ss|
  {
    if ss == [] then 0
    else PathCounts(g, ss[..|ss| - 1], t, low) +
         (if ss[|ss| - 1] == t then 0 else PathCount(g, ss[|ss| - 1], t))
  }

  /** The total work waiting in a queue. */
  ghost function QueueWork(g: Graph, q: seq<nat>, t: nat): nat
    requires Forward(g) && forall k :: 0 <= k < |q| ==> q[k] < |g|
  {
    PathCounts(g, q, t, 0)
  }

  lemma {:induction false} PathCountsIgnoresLow(g: Graph, ss: seq<nat>, t: nat, low: nat, low': nat)
    requires Forward(g) && forall j :: 0 <= j < |ss| ==> low <= ss[j] < |g| && low' <= ss[j]
    ensures PathCounts(g, ss, t, low) == PathCounts(g, ss, t, low')
  {
    if ss != [] { PathCountsIgnoresLow(g, ss[..|ss| - 1], t, low, low'); }
  }

  lemma {:induction false} QueueWorkConcat(g: Graph, a: seq<nat>, b: seq<nat>, t: nat)
    requires Forward(g) && forall k :: 0 <= k < |a| ==> a[k] < |g|
    requires forall k :: 0 <= k < |b| ==> b[k] < |g|
    ensures QueueWork(g, a + b, t) == QueueWork(g, a, t) + QueueWork(g, b, t)
  {
    if b == [] {
      assert a + b == a;
    } else {
      QueueWorkConcat(g, a, b[..|b| - 1], t);
      assert (a + b)[..|a + b| - 1] == a + b[..|b| - 1];
    }
  }

  /** Taking v out of the queue and putting its consumers other than t in uses up work. */
  lemma {:induction false} QueueWorkDrops(g: Graph, q: seq<nat>, t: nat, next: seq<nat>)
    requires Forward(g) && q != [] && q[0] != t && forall k :: 0 <= k < |q| ==> q[k] < |g|
    requires forall k :: 0 <= k < |next| ==> next[k] < |g|
    requires QueueWork(g, next, t) == QueueWork(g, g[q[0]], t)
    ensures QueueWork(g, q[1..] + next, t) < QueueWork(g, q, t)
  {
    var v := q[0];
    QueueWorkConcat(g, [v], q[1..], t);
    assert [v] + q[1..] == q;
    QueueWorkConcat(g, q[1..], next, t);
    PathCountsIgnoresLow(g, g[v], t, 0, v + 1);
    var one := [v];
    assert one[..|one| - 1] == [] && one[|one| - 1] == v;
    assert PathCounts(g, one, t, 0) == PathCounts(g, one[..|one| - 1], t, 0) + PathCount(g, v, t);
  }

  // ----- the partition into fuse sets -----

  /** The root whose search collects v.  A node joins its parent's root when root and node are
      legal and so is everything in between; otherwise it becomes a root itself. */
  ghost function Owner(g: Graph, dp: seq<nat>, legal: seq<bool>, v: nat): (r: nat)
    requires Tree(dp) && |dp| == |g| == |legal| && v < |g|
    ensures v <= r < |g|
    decreases |g| - v
  {
    if dp[v] == |g| then v
    else
      var r := Owner(g, dp, legal, dp[v]);
      if legal[r] && legal[v] && AllPathsLegal(g, legal, v, r) then r else v
  }

  lemma {:induction false} OwnerFacts(g: Graph, dp: seq<nat>, legal: seq<bool>, v: nat)
    requires Tree(dp) && |dp| == |g| == |legal| && v < |g|
    ensures var r := Owner(g, dp, legal, v);
      && r in Chain(dp, v) && Owner(g, dp, legal, r) == r
      && (r != v ==> dp[v] < |g| && Owner(g, dp, legal, dp[v]) == r)
      && (r != v ==> legal[r] && legal[v] && AllPathsLegal(g, legal, v, r))
    decreases |g| - v
  {
    if dp[v] < |g| { OwnerFacts(g, dp, legal, dp[v]); }
  }

  /** The root of a fuse set post-dominates every member. */
  lemma {:induction false} RootPostDominatesMembers(g: Graph, dp: seq<nat>, legal: seq<bool>, exact: bool, v: nat)
    requires SweptTree(g, dp, exact) && |legal| == |g| && v < |g|
    ensures PostDominates(g, Owner(g, dp, legal, v), v)
  {
    OwnerFacts(g, dp, legal, v);
    ChainPostDominates(g, dp, exact, v, Owner(g, dp, legal, v));
  }

  /** Splits a path to a sink where it meets w. */
  lemma PathUpTo(g: Graph, u: nat, w: nat) returns (q: seq<nat>)
    requires Forward(g) && u < |g| && PostDominates(g, w, u)
    ensures IsPath(g, q) && q[0] == u && q[|q| - 1] == w
  {
    var p := SomePathToSink(g, u);
    var k :| 0 <= k < |p| && p[k] == w;
    q := p[..k + 1];
  }

  lemma JoinPaths(g: Graph, p: seq<nat>, q: seq<nat>)
    requires IsPath(g, p) && IsPath(g, q) && p[|p| - 1] == q[0]
    ensures IsPath(g, p + q[1..]) && (p + q[1..])[|p + q[1..]| - 1] == q[|q| - 1]
  {
    var r := p + q[1..];
    forall k | 0 <= k < |r| - 1 ensures r[k + 1] in g[r[k]] {
      if k >= |p| - 1 {
        var i := k - |p| + 1;
        assert r[k] == q[i] && r[k + 1] == q[i + 1];
      }
    }
  }

  lemma LegalAfter(g: Graph, legal: seq<bool>, p: seq<nat>, q: seq<nat>, r: nat)
    requires |legal| == |g| && IsPath(g, p) && r !in p[1..] && AllPathsLegal(g, legal, p[0], r)
    requires Avoids(g, q, p[|p| - 1], r)
    ensures legal[q[|q| - 1]]
  {
    JoinPaths(g, p, q);
    var j := p + q[1..];
    assert j[1..] == p[1..] + q[1..];
    assert Avoids(g, j, p[0], r);
  }

  lemma LegalBeyond(g: Graph, legal: seq<bool>, p: seq<nat>, r: nat)
    requires |legal| == |g| && IsPath(g, p) && r !in p[1..]
    requires AllPathsLegal(g, legal, p[0], r)
    ensures legal[p[|p| - 1]] && AllPathsLegal(g, legal, p[|p| - 1], r)
  {
    assert Avoids(g, p, p[0], r);
    forall q | Avoids(g, q, p[|p| - 1], r) ensures legal[q[|q| - 1]] {
      LegalAfter(g, legal, p, q, r);
    }
  }

  /** What a node's parent chain holds above it, each of its consumers' chains holds too. */
  lemma ChainOfConsumer(g: Graph, dp: seq<nat>, exact: bool, v: nat, s: nat, r: nat)
    requires SweptTree(g, dp, exact) && v < |g| && s in g[v] && r in Chain(dp, v) && r != v
    ensures r in Chain(dp, s)
  {
    assert Swept(g, dp, v, exact);
    MeetMembers(dp, g[v], r);
  }

  /** A node joins a root above it when no path between them meets an illegal node. */
  lemma {:induction false} LegalNodeIsOwned(g: Graph, dp: seq<nat>, legal: seq<bool>, exact: bool, u: nat, r: nat)
    requires SweptTree(g, dp, exact) && |legal| == |g| && u < |g| && r in Chain(dp, u)
    requires Owner(g, dp, legal, r) == r && legal[r] && (u != r ==> legal[u] && AllPathsLegal(g, legal, u, r))
    ensures Owner(g, dp, legal, u) == r
    decreases |g| - u
  {
    if u != r {
      var w := dp[u];
      ChainPostDominates(g, dp, exact, u, w);
      var q := PathUpTo(g, u, w);
      if w != r {
        if r in q[1..] {
          var k :| 0 <= k < |q| && q[k] == r;
          PathsAscend(g, q, k, |q| - 1);
        }
        LegalBeyond(g, legal, q, r);
      }
      LegalNodeIsOwned(g, dp, legal, exact, w, r);
    }
  }

  /** Fuse sets are closed, also when the order had ties: every consumer of a member other than
      the root is a member. */
  lemma FuseSetsAreClosed(g: Graph, dp: seq<nat>, legal: seq<bool>, exact: bool, v: nat, s: nat)
    requires SweptTree(g, dp, exact) && |legal| == |g| && v < |g| && s in g[v]
    requires Owner(g, dp, legal, v) != v
    ensures Owner(g, dp, legal, s) == Owner(g, dp, legal, v)
  {
    var r := Owner(g, dp, legal, v);
    OwnerFacts(g, dp, legal, v);
    ChainOfConsumer(g, dp, exact, v, s, r);
    if s != r {
      var p := [v, s];
      assert p[1..] == [s];
      LegalBeyond(g, legal, p, r);
    }
    LegalNodeIsOwned(g, dp, legal, exact, s, r);
  }
}
