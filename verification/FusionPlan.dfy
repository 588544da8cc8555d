/** The rewritten command list and the proof that it means the same as the original. */
module FusionPlan {
  import opened PostDominance
  import opened FuseSets
  import opened Commands
  import opened KernelSpec

  ghost predicate Feeds(a: Cmd, b: Cmd) {
    exists t :: t in a.outputs && t in b.inputs
  }

  ghost predicate Edge(cs: seq<Cmd>, i: nat, j: nat) {
    i < j < |cs| && Feeds(cs[i], cs[j])
  }

  /** Edges run from each command to the later commands that read what it writes. */
  ghost predicate GraphOf(g: Graph, cs: seq<Cmd>) {
    && |g| == |cs|
    && forall i, j: nat :: 0 <= i < |cs| ==> (j in g[i] <==> Edge(cs, i, j))
  }

  function LegalTable(d: Device, cs: seq<Cmd>): (l: seq<bool>)
    ensures |l| == |cs| && forall i :: 0 <= i < |cs| ==> l[i] == d.legal(cs[i])
  {
    seq(|cs|, i requires 0 <= i < |cs| => d.legal(cs[i]))
  }

  ghost function Owners(d: Device, cs: seq<Cmd>, g: Graph, dp: seq<nat>): (o: seq<nat>)
    requires Tree(dp) && |dp| == |g| == |cs|
    ensures |o| == |cs| && forall i :: 0 <= i < |cs| ==> o[i] == Owner(g, dp, LegalTable(d, cs), i)
  {
    seq(|cs|, i requires 0 <= i < |cs| => Owner(g, dp, LegalTable(d, cs), i))
  }

  /** A command list together with a swept dominator tree of its graph and the fuse sets. */
  ghost predicate Planned(d: Device, cs: seq<Cmd>, g: Graph, dp: seq<nat>, owner: seq<nat>) {
    && d.Valid() && SingleAssignment(cs) && GraphOf(g, cs) && SweptTree(g, dp, false)
    && owner == Owners(d, cs, g, dp)
  }

  /** The nodes collected by root r, in list order. */
  function MembersBelow(owner: seq<nat>, r: nat, n: nat): (ms: seq<nat>)
    requires n <= |owner|
    ensures forall i: nat :: i in ms <==> i < n && owner[i] == r
    ensures forall k :: 0 <= k < |ms| ==> ms[k] < n && owner[ms[k]] == r
    ensures forall a, b :: 0 <= a < b < |ms| ==> ms[a] < ms[b]
  {
    if n == 0 then []
    else
      var ms := MembersBelow(owner, r, n - 1);
      if owner[n - 1] == r then ms + [n - 1] else ms
  }

  function Members(owner: seq<nat>, r: nat): (ms: seq<nat>)
    ensures forall i: nat :: i in ms <==> i < |owner| && owner[i] == r
    ensures forall k :: 0 <= k < |ms| ==> ms[k] < |owner| && owner[ms[k]] == r
    ensures forall a, b :: 0 <= a < b < |ms| ==> ms[a] < ms[b]
  {
    MembersBelow(owner, r, |owner|)
  }

  /** The commands of a fuse set, in list order. */
  function Part(cs: seq<Cmd>, owner: seq<nat>, r: nat): (p: seq<Cmd>)
    requires |owner| == |cs|
    ensures var ms := Members(owner, r); |p| == |ms| && forall k :: 0 <= k < |ms| ==> p[k] == cs[ms[k]]
  {
    var ms := Members(owner, r);
    seq(|ms|, k requires 0 <= k < |ms| => cs[ms[k]])
  }

  ghost predicate Erased(owner: seq<nat>, i: nat)
    requires i < |owner|
  {
    owner[i] != i
  }

  ghost predicate ErasedOutput(cs: seq<Cmd>, owner: seq<nat>, t: Tensor)
    requires |owner| == |cs|
  {
    exists i :: 0 <= i < |cs| && Erased(owner, i) && t in cs[i].outputs
  }

  /** What is left of command i: nothing, the fused command, or the command itself. */
  ghost function Rewritten(d: Device, cs: seq<Cmd>, owner: seq<nat>, i: nat): seq<Cmd>
    requires |owner| == |cs| && i < |cs|
  {
    if Erased(owner, i) then []
    else
      var part := Part(cs, owner, i);
      if |part| > 1 && Fusable(part) && cs[i].outputs != [] then [Fuse(d, part, cs[i].outputs[0])] else [cs[i]]
  }

  ghost function Rewrite(d: Device, cs: seq<Cmd>, owner: seq<nat>, n: nat): seq<Cmd>
    requires |owner| == |cs| && n <= |cs|
  {
    if n == 0 then [] else Rewrite(d, cs, owner, n - 1) + Rewritten(d, cs, owner, n - 1)
  }

  // ----- facts about one fuse set -----

  lemma ClassFacts(d: Device, cs: seq<Cmd>, g: Graph, dp: seq<nat>, owner: seq<nat>, v: nat)
    requires Planned(d, cs, g, dp, owner) && v < |cs|
    ensures v <= owner[v] < |cs| && owner[owner[v]] == owner[v]
    ensures Erased(owner, v) ==> d.legal(cs[v]) && d.legal(cs[owner[v]]) && g[v] != []
    ensures Erased(owner, v) ==> forall s :: s in g[v] ==> v < s < |cs| && owner[s] == owner[v]
  {
    var legal := LegalTable(d, cs);
    OwnerFacts(g, dp, legal, v);
    if Erased(owner, v) {
      assert Swept(g, dp, v, false);
      forall s | s in g[v] ensures owner[s] == owner[v] { FuseSetsAreClosed(g, dp, legal, false, v, s); }
    }
  }

  /** Closure in terms of tensors: whoever reads the output of an erased command is in its set. */
  lemma ReaderInSameSet(d: Device, cs: seq<Cmd>, g: Graph, dp: seq<nat>, owner: seq<nat>, i: nat, j: nat, t: Tensor)
    requires Planned(d, cs, g, dp, owner) && i < |cs| && j < |cs|
    requires t in cs[i].outputs && t in cs[j].inputs
    ensures i < j && (Erased(owner, i) ==> owner[j] == owner[i])
  {
    assert Feeds(cs[i], cs[j]) && i < j && Edge(cs, i, j);
    ClassFacts(d, cs, g, dp, owner, i);
  }

  /** Every member of a nontrivial set is legal, and its output has one element or as many as
      the root's. */
  lemma {:induction false} MemberSize(d: Device, cs: seq<Cmd>, g: Graph, dp: seq<nat>, owner: seq<nat>, v: nat)
    requires Planned(d, cs, g, dp, owner) && v < |cs| && d.legal(cs[owner[v]])
    ensures d.legal(cs[v]) && d.size(cs[v].outputs[0]) in {1, d.size(cs[owner[v]].outputs[0])}
    decreases |cs| - v
  {
    ClassFacts(d, cs, g, dp, owner, v);
    if Erased(owner, v) {
      var s := g[v][0];
      assert s in g[v] && Edge(cs, v, s);
      MemberSize(d, cs, g, dp, owner, s);
      assert d.size(cs[v].outputs[0]) in {1, d.size(cs[s].outputs[0])} by {
        var t :| t in cs[v].outputs && t in cs[s].inputs;
        assert t == cs[v].outputs[0];
      }
    }
  }

  ghost predicate FusedRoot(owner: seq<nat>, r: nat)
    requires r < |owner|
  {
    owner[r] == r && |Members(owner, r)| > 1
  }

  lemma PartSingleAssignment(cs: seq<Cmd>, owner: seq<nat>, r: nat)
    requires |owner| == |cs| && SingleAssignment(cs)
    ensures SingleAssignment(Part(cs, owner, r))
  {
    var ms, part := Members(owner, r), Part(cs, owner, r);
    forall i, t | 0 <= i < |part| && t in part[i].outputs
      ensures (forall j :: 0 <= j < |part| && j != i ==> t !in part[j].outputs)
      ensures forall j :: 0 <= j <= i ==> t !in part[j].inputs
    {
      assert t in cs[ms[i]].outputs;
    }
  }

  /** The commands of a fuse set are legal, and its root's output is one of those written. */
  lemma PartOfPlan(d: Device, cs: seq<Cmd>, g: Graph, dp: seq<nat>, owner: seq<nat>, r: nat)
    requires Planned(d, cs, g, dp, owner) && r < |cs| && FusedRoot(owner, r)
    ensures d.legal(cs[r])
    ensures var part := Part(cs, owner, r);
      && Fusable(part) && SingleAssignment(part) && Written(part, cs[r].outputs[0])
      && forall k :: 0 <= k < |part| ==>
           d.legal(part[k]) && d.size(part[k].outputs[0]) in {1, d.size(cs[r].outputs[0])}
  {
    var ms := Members(owner, r);
    ClassFacts(d, cs, g, dp, owner, if ms[0] == r then ms[1] else ms[0]);
    var part := Part(cs, owner, r);
    PartSingleAssignment(cs, owner, r);
    forall k | 0 <= k < |part|
      ensures d.legal(part[k]) && part[k].op.Prim? && |part[k].outputs| == 1
      ensures d.size(part[k].outputs[0]) in {1, d.size(cs[r].outputs[0])}
    {
      MemberSize(d, cs, g, dp, owner, ms[k]);
    }
    assert r in ms;
    var k :| 0 <= k < |ms| && ms[k] == r;
    assert cs[r].outputs[0] in part[k].outputs;
  }

  /** Loads: a parameter of the fused kernel is produced outside the set, before the root, by
      a command that is kept. */
  lemma ParametersSurvive(d: Device, cs: seq<Cmd>, g: Graph, dp: seq<nat>, owner: seq<nat>, r: nat, i: nat, t: Tensor)
    requires Planned(d, cs, g, dp, owner) && r < |cs| && FusedRoot(owner, r)
    requires Fusable(Part(cs, owner, r))
    requires t in Build(d, Part(cs, owner, r)).inputs && i < |cs| && t in cs[i].outputs
    ensures i < r && !Erased(owner, i) && owner[i] != r
  {
    var ms := Members(owner, r);
    var part := Part(cs, owner, r);
    PartOfPlan(d, cs, g, dp, owner, r);
    BuildParameters(d, part, t);
    var k :| 0 <= k < |part| && t in part[k].inputs;
    assert ms[k] in ms;
    ReaderInSameSet(d, cs, g, dp, owner, i, ms[k], t);
    ClassFacts(d, cs, g, dp, owner, ms[k]);
    assert forall l :: 0 <= l < |ms| ==> t !in part[l].outputs;
  }

  /** Inside its set the output of an erased member is read. */
  lemma ErasedIsRead(d: Device, cs: seq<Cmd>, g: Graph, dp: seq<nat>, owner: seq<nat>, v: nat, t: Tensor)
    requires Planned(d, cs, g, dp, owner) && v < |cs| && Erased(owner, v) && t in cs[v].outputs
    ensures Reads(Part(cs, owner, owner[v]), t)
  {
    ClassFacts(d, cs, g, dp, owner, v);
    var s := g[v][0];
    assert s in g[v] && Edge(cs, v, s);
    var u :| u in cs[v].outputs && u in cs[s].inputs;
    assert |cs[v].outputs| == 1 && u == t;
    var ms := Members(owner, owner[v]);
    assert s in ms;
    var l :| 0 <= l < |ms| && ms[l] == s;
    assert t in Part(cs, owner, owner[v])[l].inputs;
  }

  /** Inside its set the root's output is not read. */
  lemma RootIsUnread(d: Device, cs: seq<Cmd>, g: Graph, dp: seq<nat>, owner: seq<nat>, r: nat, t: Tensor)
    requires Planned(d, cs, g, dp, owner) && r < |cs| && owner[r] == r && t in cs[r].outputs
    ensures !Reads(Part(cs, owner, r), t)
  {
    var ms, part := Members(owner, r), Part(cs, owner, r);
    if Reads(part, t) {
      var k :| 0 <= k < |part| && t in part[k].inputs;
      ClassFacts(d, cs, g, dp, owner, ms[k]);
    }
  }

  /** Stores: within its set, the root's output is the only one that nobody reads. */
  lemma OnlyRootUnread(d: Device, cs: seq<Cmd>, g: Graph, dp: seq<nat>, owner: seq<nat>, r: nat, t: Tensor)
    requires Planned(d, cs, g, dp, owner) && r < |cs| && FusedRoot(owner, r) && |cs[r].outputs| == 1
    ensures var part := Part(cs, owner, r);
      Written(part, t) && !Reads(part, t) <==> t == cs[r].outputs[0]
  {
    var ms, part := Members(owner, r), Part(cs, owner, r);
    if t == cs[r].outputs[0] {
      PartOfPlan(d, cs, g, dp, owner, r);
      RootIsUnread(d, cs, g, dp, owner, r, t);
    } else if Written(part, t) {
      var k :| 0 <= k < |part| && t in part[k].outputs;
      ErasedIsRead(d, cs, g, dp, owner, ms[k], t);
    }
  }

  // ----- meaning preservation -----

  /** What the rewritten prefix has settled: every tensor that no command from n on writes and
      that was not erased already has its final value. */
  ghost predicate Settled(d: Device, cs: seq<Cmd>, owner: seq<nat>, m: Memory, n: nat)
    requires |owner| == |cs| && n <= |cs|
  {
    forall t :: !Written(cs[n..], t) && !ErasedOutput(cs, owner, t) ==>
      Run(d, Rewrite(d, cs, owner, n), m)(t) == Run(d, cs, m)(t)
  }

  lemma RunAppend(d: Device, a: seq<Cmd>, c: Cmd, m: Memory)
    ensures Run(d, a + [c], m) == Step(d, c, Run(d, a, m))
  {
    assert (a + [c])[..|a + [c]| - 1] == a;
  }

  /** The command left at position i. */
  ghost function Kept(d: Device, cs: seq<Cmd>, owner: seq<nat>, i: nat): (c: Cmd)
    requires |owner| == |cs| && i < |cs| && !Erased(owner, i)
    ensures Rewritten(d, cs, owner, i) == [c]
  {
    Rewritten(d, cs, owner, i)[0]
  }

  /** It computes what the original computed there. */
  lemma KeptResult(d: Device, cs: seq<Cmd>, g: Graph, dp: seq<nat>, owner: seq<nat>, e: Memory, i: nat, t: Tensor)
    requires Planned(d, cs, g, dp, owner) && Solves(d, cs, e) && i < |cs| && !Erased(owner, i)
    ensures Kept(d, cs, owner, i).outputs == cs[i].outputs
    ensures var c := Kept(d, cs, owner, i); t in c.outputs ==> Result(d, c, Args(e, c.inputs), t) == e(t)
  {
    if FusedRoot(owner, i) {
      PartOfPlan(d, cs, g, dp, owner, i);
      PartSolves(d, cs, owner, e, i);
      FusedResult(d, Part(cs, owner, i), e, cs[i].outputs[0]);
    }
  }

  lemma PartSolves(d: Device, cs: seq<Cmd>, owner: seq<nat>, e: Memory, r: nat)
    requires |owner| == |cs| && Solves(d, cs, e)
    ensures Solves(d, Part(cs, owner, r), e)
  {
    var ms, part := Members(owner, r), Part(cs, owner, r);
    forall k, t | 0 <= k < |part| && t in part[k].outputs
      ensures e(t) == Result(d, part[k], Args(e, part[k].inputs), t)
    {
      assert t in cs[ms[k]].outputs;
    }
  }

  /** It reads only tensors whose writers are kept and come earlier. */
  lemma KeptReads(d: Device, cs: seq<Cmd>, g: Graph, dp: seq<nat>, owner: seq<nat>, i: nat, j: nat, t: Tensor)
    requires Planned(d, cs, g, dp, owner) && i < |cs| && !Erased(owner, i) && j < |cs|
    requires t in Kept(d, cs, owner, i).inputs && t in cs[j].outputs
    ensures j < i && !Erased(owner, j)
  {
    if FusedRoot(owner, i) {
      PartOfPlan(d, cs, g, dp, owner, i);
      ParametersSurvive(d, cs, g, dp, owner, i, j, t);
    } else {
      ReaderInSameSet(d, cs, g, dp, owner, j, i, t);
      var ms := Members(owner, i);
      assert i in ms && (owner[j] == i ==> j in ms);
    }
  }

  lemma KeptReadsSettled(d: Device, cs: seq<Cmd>, g: Graph, dp: seq<nat>, owner: seq<nat>, i: nat, t: Tensor)
    requires Planned(d, cs, g, dp, owner) && i < |cs| && !Erased(owner, i) && t in Kept(d, cs, owner, i).inputs
    ensures !ErasedOutput(cs, owner, t) && !Written(cs[i..], t)
  {
    forall j | 0 <= j < |cs| && t in cs[j].outputs ensures j < i && !Erased(owner, j) {
      KeptReads(d, cs, g, dp, owner, i, j, t);
    }
  }

  lemma KeptStep(d: Device, cs: seq<Cmd>, g: Graph, dp: seq<nat>, owner: seq<nat>, m: Memory, i: nat)
    requires Planned(d, cs, g, dp, owner) && Loaded(d, cs, m) && i < |cs| && !Erased(owner, i)
    requires Settled(d, cs, owner, m, i)
    ensures var r, c := Run(d, Rewrite(d, cs, owner, i), m), Kept(d, cs, owner, i);
      forall t :: t in c.outputs ==> Result(d, c, Args(r, c.inputs), t) == Run(d, cs, m)(t)
    ensures Kept(d, cs, owner, i).outputs == cs[i].outputs
  {
    var e, r, c := Run(d, cs, m), Run(d, Rewrite(d, cs, owner, i), m), Kept(d, cs, owner, i);
    RunSolves(d, cs, m);
    forall u | u in c.inputs ensures r(u) == e(u) {
      KeptReadsSettled(d, cs, g, dp, owner, i, u);
    }
    ArgsAgree(r, e, c.inputs);
    forall t ensures c.outputs == cs[i].outputs && (t in c.outputs ==> Result(d, c, Args(e, c.inputs), t) == e(t)) {
      KeptResult(d, cs, g, dp, owner, e, i, t);
    }
  }

  lemma WrittenFrom(cs: seq<Cmd>, i: nat, t: Tensor)
    requires i < |cs|
    ensures Written(cs[i..], t) <==> t in cs[i].outputs || Written(cs[i + 1..], t)
  {
    var a, b := cs[i..], cs[i + 1..];
    assert a == [cs[i]] + b;
    if Written(b, t) {
      var k :| 0 <= k < |b| && t in b[k].outputs;
      assert a[k + 1] == b[k];
    }
    assert t in cs[i].outputs ==> t in a[0].outputs;
  }

  lemma {:induction false} PrefixSettles(d: Device, cs: seq<Cmd>, g: Graph, dp: seq<nat>, owner: seq<nat>, m: Memory,
      n: nat)
    requires Planned(d, cs, g, dp, owner) && Loaded(d, cs, m) && n <= |cs|
    ensures Settled(d, cs, owner, m, n)
  {
    if n == 0 {
      assert cs[0..] == cs;
      forall t | !Written(cs, t) ensures m(t) == Run(d, cs, m)(t) { RunKeepsUnwritten(d, cs, m, t); }
    } else {
      PrefixSettles(d, cs, g, dp, owner, m, n - 1);
      SettleNext(d, cs, g, dp, owner, m, n - 1);
    }
  }

  lemma SettleNext(d: Device, cs: seq<Cmd>, g: Graph, dp: seq<nat>, owner: seq<nat>, m: Memory, i: nat)
    requires Planned(d, cs, g, dp, owner) && Loaded(d, cs, m) && i < |cs| && Settled(d, cs, owner, m, i)
    ensures Settled(d, cs, owner, m, i + 1)
  {
    if !Erased(owner, i) { KeptStep(d, cs, g, dp, owner, m, i); }
    SettledStep(d, cs, owner, m, i);
  }

  lemma SettledStep(d: Device, cs: seq<Cmd>, owner: seq<nat>, m: Memory, i: nat)
    requires |owner| == |cs| && i < |cs| && Settled(d, cs, owner, m, i)
    requires !Erased(owner, i) ==>
      var r, c := Run(d, Rewrite(d, cs, owner, i), m), Kept(d, cs, owner, i);
      && c.outputs == cs[i].outputs
      && forall t :: t in c.outputs ==> Result(d, c, Args(r, c.inputs), t) == Run(d, cs, m)(t)
    ensures Settled(d, cs, owner, m, i + 1)
  {
    forall t | !Written(cs[i + 1..], t) && !ErasedOutput(cs, owner, t)
      ensures Run(d, Rewrite(d, cs, owner, i + 1), m)(t) == Run(d, cs, m)(t)
    {
      WrittenFrom(cs, i, t);
      if Erased(owner, i) {
        assert Rewrite(d, cs, owner, i + 1) == Rewrite(d, cs, owner, i);
      } else {
        RunAppend(d, Rewrite(d, cs, owner, i), Kept(d, cs, owner, i), m);
      }
    }
  }

  /** Fusion preserves meaning: every tensor except the outputs of erased commands ends up with
      the value the original list gives it. */
  lemma FusionPreservesMeaning(d: Device, cs: seq<Cmd>, g: Graph, dp: seq<nat>, owner: seq<nat>, m: Memory, t: Tensor)
    requires Planned(d, cs, g, dp, owner) && Loaded(d, cs, m) && !ErasedOutput(cs, owner, t)
    ensures Run(d, Rewrite(d, cs, owner, |cs|), m)(t) == Run(d, cs, m)(t)
  {
    PrefixSettles(d, cs, g, dp, owner, m, |cs|);
    assert !Written(cs[|cs|..], t);
  }

  // ----- what is left -----

  /** How many of the first n commands are roots. */
  ghost function Roots(owner: seq<nat>, n: nat): nat
    requires n <= |owner|
  {
    if n == 0 then 0 else Roots(owner, n - 1) + if owner[n - 1] == n - 1 then 1 else 0
  }

  function Flat(ps: seq<seq<Cmd>>, n: nat): seq<Cmd>
    requires n <= |ps|
  {
    if n == 0 then [] else Flat(ps, n - 1) + ps[n - 1]
  }

  /** One command for each root, and none for the others. */
  ghost predicate OneEach(ps: seq<seq<Cmd>>, owner: seq<nat>) {
    |ps| == |owner| && forall i :: 0 <= i < |ps| ==> |ps[i]| == if owner[i] == i then 1 else 0
  }

  lemma {:induction false} FlatLength(ps: seq<seq<Cmd>>, owner: seq<nat>, n: nat)
    requires OneEach(ps, owner) && n <= |ps|
    ensures |Flat(ps, n)| == Roots(owner, n)
  {
    if n > 0 { FlatLength(ps, owner, n - 1); }
  }

  lemma {:induction false} FlatAt(ps: seq<seq<Cmd>>, owner: seq<nat>, n: nat, i: nat)
    requires OneEach(ps, owner) && i < n <= |ps| && owner[i] == i
    ensures Roots(owner, i) < |Flat(ps, n)| && Flat(ps, n)[Roots(owner, i)] == ps[i][0]
  {
    FlatLength(ps, owner, n - 1);
    if i < n - 1 { FlatAt(ps, owner, n - 1, i); }
  }

  lemma {:induction false} FlatFrom(ps: seq<seq<Cmd>>, owner: seq<nat>, n: nat, k: nat) returns (i: nat)
    requires OneEach(ps, owner) && n <= |ps| && k < |Flat(ps, n)|
    ensures i < n && owner[i] == i && Flat(ps, n)[k] == ps[i][0]
  {
    if k < |Flat(ps, n - 1)| { i := FlatFrom(ps, owner, n - 1, k); } else { i := n - 1; }
  }

  lemma {:induction false} RewriteIsFlat(d: Device, cs: seq<Cmd>, owner: seq<nat>, ps: seq<seq<Cmd>>, n: nat)
    requires |owner| == |cs| == |ps| && n <= |cs|
    requires forall i :: 0 <= i < |cs| ==> ps[i] == Rewritten(d, cs, owner, i)
    ensures Rewrite(d, cs, owner, n) == Flat(ps, n)
  {
    if n > 0 { RewriteIsFlat(d, cs, owner, ps, n - 1); }
  }

  lemma PieceIs(d: Device, cs: seq<Cmd>, g: Graph, dp: seq<nat>, owner: seq<nat>, i: nat)
    requires Planned(d, cs, g, dp, owner) && i < |cs|
    ensures |Rewritten(d, cs, owner, i)| == if owner[i] == i then 1 else 0
    ensures owner[i] == i ==>
      var c := Rewritten(d, cs, owner, i)[0];
      c.outputs == cs[i].outputs && if FusedRoot(owner, i) then c.op.Extra? else c == cs[i]
  {
    if owner[i] == i && FusedRoot(owner, i) { PartOfPlan(d, cs, g, dp, owner, i); }
  }

  lemma PiecesOf(d: Device, cs: seq<Cmd>, g: Graph, dp: seq<nat>, owner: seq<nat>) returns (ps: seq<seq<Cmd>>)
    requires Planned(d, cs, g, dp, owner)
    ensures OneEach(ps, owner) && |ps| == |cs| && Rewrite(d, cs, owner, |cs|) == Flat(ps, |cs|)
    ensures forall i: nat :: i < |cs| && owner[i] == i ==>
      ps[i][0].outputs == cs[i].outputs && if FusedRoot(owner, i) then ps[i][0].op.Extra? else ps[i][0] == cs[i]
  {
    ps := seq(|cs|, i requires 0 <= i < |cs| => Rewritten(d, cs, owner, i));
    RewriteIsFlat(d, cs, owner, ps, |cs|);
    forall i: nat | i < |cs|
      ensures |ps[i]| == if owner[i] == i then 1 else 0
      ensures owner[i] == i ==>
        ps[i][0].outputs == cs[i].outputs && if FusedRoot(owner, i) then ps[i][0].op.Extra? else ps[i][0] == cs[i]
    {
      PieceIs(d, cs, g, dp, owner, i);
    }
  }

  /** Of each fuse set one command is left, in the place of its root and with its output: the root itself if it
      is alone, and else a kernel.  So there are as many commands left as there are sets. */
  lemma RootsAreLeft(d: Device, cs: seq<Cmd>, g: Graph, dp: seq<nat>, owner: seq<nat>, i: nat)
    requires Planned(d, cs, g, dp, owner) && i < |cs| && owner[i] == i
    ensures var left := Rewrite(d, cs, owner, |cs|);
      && |left| == Roots(owner, |cs|) && Roots(owner, i) < |left|
      && var c := left[Roots(owner, i)];
         c.outputs == cs[i].outputs && if FusedRoot(owner, i) then c.op.Extra? else c == cs[i]
  {
    var ps := PiecesOf(d, cs, g, dp, owner);
    FlatLength(ps, owner, |cs|);
    FlatAt(ps, owner, |cs|, i);
  }

  /** Nothing writes the output of an erased command any more. */
  lemma ErasedIsGone(d: Device, cs: seq<Cmd>, g: Graph, dp: seq<nat>, owner: seq<nat>, v: nat, t: Tensor)
    requires Planned(d, cs, g, dp, owner) && v < |cs| && owner[v] != v && t in cs[v].outputs
    ensures !Written(Rewrite(d, cs, owner, |cs|), t)
  {
    var left := Rewrite(d, cs, owner, |cs|);
    if Written(left, t) {
      var k :| 0 <= k < |left| && t in left[k].outputs;
      var ps := PiecesOf(d, cs, g, dp, owner);
      var i := FlatFrom(ps, owner, |cs|, k);
    }
  }

  /** Which commands are erased: those for which some root further on post-dominates them, both are legal, and so is
      everything between them. */
  lemma ErasedExactly(d: Device, cs: seq<Cmd>, g: Graph, dp: seq<nat>, owner: seq<nat>, v: nat)
    requires Planned(d, cs, g, dp, owner) && v < |cs|
    ensures owner[v] != v <==>
      exists r :: r in Chain(dp, v) && r != v && r < |cs| && owner[r] == r && d.legal(cs[r]) && d.legal(cs[v])
        && AllPathsLegal(g, LegalTable(d, cs), v, r)
  {
    var legal := LegalTable(d, cs);
    OwnerFacts(g, dp, legal, v);
    forall r | r in Chain(dp, v) && r != v && r < |cs| && owner[r] == r && d.legal(cs[r]) && d.legal(cs[v])
        && AllPathsLegal(g, legal, v, r)
      ensures owner[v] == r
    {
      LegalNodeIsOwned(g, dp, legal, false, v, r);
    }
  }
}
