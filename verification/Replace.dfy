/** Putting one expression in the place of another.

    Replacing is the one operation that changes what an expression is, so here its operator, its
    inputs and its record of outputs are fields.  Afterwards the two expressions share a record. */
module Replace {
  import opened Wrappers
  import opened Exprs

  class Inside {
    var mInfoDirty: bool
    var mCache: ComputeCache?
    var mCacheOffset: nat

    constructor ()
      ensures mInfoDirty && mCache == null && mCacheOffset == 0
    {
      mInfoDirty, mCache, mCacheOffset := true, null, 0;
    }
  }

  datatype Input = Input(from: Slot?, index: nat)

  /** A place in the graph, filled by an expression. */
  class Slot {
    var mOp: Option<Op>
    var mInputs: seq<Input>
    var mTo: seq<Slot?>
    var mValid: bool
    var mVisited: bool
    var mInside: Inside

    constructor (op: Option<Op>, inputs: seq<Input>, inside: Inside)
      ensures mOp == op && mInputs == inputs && mInside == inside && mTo == [] && mValid && !mVisited
    {
      mOp, mInputs, mInside, mTo, mValid, mVisited := op, inputs, inside, [], true, false;
    }
  }

  // ----- the graph -----

  /** The expressions that each one takes input from. */
  type Graph = map<Slot, set<Slot>>

  /** The ranks rule out a cycle. */
  ghost predicate Ranked(g: Graph, rank: map<Slot, nat>) {
    g.Keys == rank.Keys && forall e, d :: e in g && d in g[e] ==> d in g && rank[d] < rank[e]
  }

  /** e depends on x by a way of at most n + 1 steps. */
  ghost predicate DependsIn(g: Graph, e: Slot, x: Slot, n: nat) {
    e in g && exists d :: d in g[e] && (d == x || (n > 0 && DependsIn(g, d, x, n - 1)))
  }

  ghost predicate DependsOn(g: Graph, e: Slot, x: Slot) {
    exists n: nat :: DependsIn(g, e, x, n)
  }

  ghost function Replaced(g: Graph, gone: Slot, from: Slot): Graph
    requires from in g
  {
    g[gone := g[from]]
  }

  lemma DependsStep(g: Graph, e: Slot, d: Slot, x: Slot)
    requires e in g && d in g[e] && (d == x || DependsOn(g, d, x))
    ensures DependsOn(g, e, x)
  {
    if d == x {
      assert DependsIn(g, e, x, 0);
    } else {
      var n: nat :| DependsIn(g, d, x, n);
      assert DependsIn(g, e, x, n + 1);
    }
  }

  lemma {:induction false} DependsLower(g: Graph, rank: map<Slot, nat>, e: Slot, x: Slot, n: nat)
    requires Ranked(g, rank) && DependsIn(g, e, x, n)
    ensures x in g && rank[x] < rank[e]
  {
    var d :| d in g[e] && (d == x || (n > 0 && DependsIn(g, d, x, n - 1)));
    if d != x { DependsLower(g, rank, d, x, n - 1); }
  }

  /** Higher ranks for what depends on the replaced expression. */
  ghost function Raised(g: Graph, rank: map<Slot, nat>, gone: Slot, from: Slot): map<Slot, nat>
    requires g.Keys <= rank.Keys && from in g
  {
    map e | e in g :: if e == gone || DependsOn(g, e, gone) then rank[e] + rank[from] else rank[e]
  }

  lemma StaysAcyclic(g: Graph, rank: map<Slot, nat>, gone: Slot, from: Slot)
    requires Ranked(g, rank) && gone in g && from in g && from != gone && !DependsOn(g, from, gone)
    ensures Ranked(Replaced(g, gone, from), Raised(g, rank, gone, from))
  {
    var h, up := Replaced(g, gone, from), Raised(g, rank, gone, from);
    forall e, d | e in h && d in h[e] ensures d in h && up[d] < up[e] {
      if e == gone {
        if d == gone || DependsOn(g, d, gone) { DependsStep(g, from, d, gone); }
      } else if d == gone || DependsOn(g, d, gone) {
        DependsStep(g, e, d, gone);
      }
    }
  }

  /** A way to the replaced expression is still there. */
  lemma {:induction false} StillDepends(g: Graph, h: Graph, e: Slot, x: Slot, n: nat)
    requires DependsIn(g, e, x, n) && e != x && h.Keys == g.Keys && forall d :: d in g && d != x ==> h[d] == g[d]
    ensures DependsOn(h, e, x)
  {
    var d :| d in g[e] && (d == x || (n > 0 && DependsIn(g, d, x, n - 1)));
    if d != x { StillDepends(g, h, d, x, n - 1); }
    DependsStep(h, e, d, x);
  }

  /** The graph stays acyclic if and only if what is put in does not depend on what it replaces. */
  lemma AcyclicAfter(g: Graph, rank: map<Slot, nat>, gone: Slot, from: Slot)
    requires Ranked(g, rank) && gone in g && from in g && from != gone
    ensures (exists up :: Ranked(Replaced(g, gone, from), up)) <==> !DependsOn(g, from, gone)
  {
    var h := Replaced(g, gone, from);
    if !DependsOn(g, from, gone) {
      StaysAcyclic(g, rank, gone, from);
    } else {
      var n: nat :| DependsIn(g, from, gone, n);
      StillDepends(g, h, from, gone, n);
      forall up ensures !Ranked(h, up) {
        RanksClash(h, up, gone, from);
      }
    }
  }

  lemma RanksClash(h: Graph, up: map<Slot, nat>, gone: Slot, from: Slot)
    requires gone in h && from in h && h[gone] == h[from] && DependsOn(h, from, gone)
    ensures !Ranked(h, up)
  {
    var n: nat :| DependsIn(h, from, gone, n);
    var d :| d in h[from] && (d == gone || (n > 0 && DependsIn(h, d, gone, n - 1)));
    if d != gone && Ranked(h, up) { DependsLower(h, up, d, gone, n - 1); }
  }

  /** What depends on the replaced expression does so before and after. */
  lemma SameDependents(g: Graph, rank: map<Slot, nat>, gone: Slot, from: Slot, e: Slot)
    requires Ranked(g, rank) && gone in g && from in g && from != gone && !DependsOn(g, from, gone)
    ensures DependsOn(Replaced(g, gone, from), e, gone) <==> DependsOn(g, e, gone)
  {
    var h, up := Replaced(g, gone, from), Raised(g, rank, gone, from);
    StaysAcyclic(g, rank, gone, from);
    if DependsOn(h, e, gone) {
      var n: nat :| DependsIn(h, e, gone, n);
      DependsLower(h, up, e, gone, n);
      StillDepends(h, g, e, gone, n);
    }
    if DependsOn(g, e, gone) {
      var n: nat :| DependsIn(g, e, gone, n);
      DependsLower(g, rank, e, gone, n);
      StillDepends(g, h, e, gone, n);
    }
  }

  // ----- links -----

  ghost function Sources(inputs: seq<Input>): (r: set<Slot>)
    ensures forall i :: 0 <= i < |inputs| && inputs[i].from != null ==> inputs[i].from in r
    ensures forall x :: x in r ==> exists i :: 0 <= i < |inputs| && inputs[i].from == x
  {
    if inputs == [] then {}
    else
      var x := inputs[|inputs| - 1].from;
      assert inputs == inputs[..|inputs| - 1] + [inputs[|inputs| - 1]];
      var before := Sources(inputs[..|inputs| - 1]);
      if x == null then before else var y: Slot := x; before + {y}
  }

  lemma SourcesNext(inputs: seq<Input>, i: nat)
    requires i < |inputs|
    ensures inputs[i].from == null ==> Sources(inputs[..i + 1]) == Sources(inputs[..i])
    ensures inputs[i].from != null ==>
      var x: Slot := inputs[i].from; Sources(inputs[..i + 1]) == Sources(inputs[..i]) + {x}
  {
    assert inputs[..i + 1][..i] == inputs[..i];
  }

  ghost predicate Wired(all: set<Slot>, g: Graph)
    reads all`mInputs
  {
    g.Keys == all && forall e :: e in all ==> g[e] == Sources(e.mInputs) && g[e] <= all
  }

  /** The links say exactly what feeds what, besides those that have expired.  Under a lock. */
  ghost predicate Linked(all: set<Slot>, g: Graph)
    reads all`mTo
  {
    forall key: nat {:trigger Unlock(key)} :: Unlock(key) ==>
      && g.Keys == all
      && (forall x, e :: x in all && e in all ==> (e in x.mTo <==> x in g[e]))
      && forall x, e :: x in all && e in x.mTo && e != null ==> e in all
  }

  /** Lets every link to `gone` expire. */
  method Expire(x: Slot, gone: Slot)
    modifies x`mTo
    ensures gone !in x.mTo && forall d: Slot :: d != gone ==> (d in x.mTo <==> d in old(x.mTo))
  {
    ghost var links := x.mTo;
    for j := 0 to |x.mTo|
      invariant |x.mTo| == |links| && forall k :: j <= k < |links| ==> x.mTo[k] == links[k]
      invariant forall k :: 0 <= k < j ==> x.mTo[k] == if links[k] == gone then null else links[k]
    {
      if x.mTo[j] == gone {
        x.mTo := x.mTo[j := null];
      }
    }
    forall d: Slot | d in links && d != gone ensures d in x.mTo {
      var k :| 0 <= k < |links| && links[k] == d;
      assert x.mTo[k] == d;
    }
  }

  /** There is a link to e: the one there was, or else a new one in the place of the first expired one, or else at
      the end. */
  ghost predicate Entered(links: seq<Slot?>, links': seq<Slot?>, e: Slot) {
    if e in links then links' == links
    else if null !in links then links' == links + [e]
    else exists j :: 0 <= j < |links| && links[j] == null && null !in links[..j] && links' == links[j := e]
  }

  /** A link to e, in the place of an expired one if there is one. */
  method Enter(x: Slot, e: Slot)
    modifies x`mTo
    ensures e in x.mTo && forall d: Slot :: d != e ==> (d in x.mTo <==> d in old(x.mTo))
    ensures Entered(old(x.mTo), x.mTo, e)
  {
    for j := 0 to |x.mTo|
      invariant x.mTo == old(x.mTo) && e !in x.mTo[..j]
    {
      if x.mTo[j] == e {
        return;
      }
    }
    for j := 0 to |x.mTo|
      invariant x.mTo == old(x.mTo) && null !in x.mTo[..j]
    {
      if x.mTo[j] == null {
        x.mTo := x.mTo[j := e];
        assert x.mTo[j] == e;
        assert forall k :: 0 <= k < |x.mTo| && k != j ==> x.mTo[k] == old(x.mTo)[k];
        return;
      }
    }
    x.mTo := x.mTo + [e];
  }

  method ExpireLink(x: Slot, gone: Slot, ghost all: set<Slot>, ghost h: Graph)
    requires Linked(all, h) && h.Keys == all && gone in all && x in all
    modifies x`mTo
    ensures Linked(all, h[gone := h[gone] - {x}])
  {
    assert Unlock(0);
    Expire(x, gone);
  }

  method EnterLink(x: Slot, e: Slot, ghost all: set<Slot>, ghost h: Graph)
    requires Linked(all, h) && h.Keys == all && e in all && x in all
    modifies x`mTo
    ensures Linked(all, h[e := h[e] + {x}])
  {
    assert Unlock(0);
    Enter(x, e);
  }

  method Unlink(gone: Slot, inputs: seq<Input>, ghost all: set<Slot>, ghost g: Graph)
    requires Linked(all, g) && g.Keys == all && gone in all && Sources(inputs) == g[gone] && Sources(inputs) <= all
    modifies all`mTo
    ensures Linked(all, g[gone := {}])
  {
    ghost var h: Graph := g;
    assert inputs[..0] == [];
    assert g[gone] - {} == g[gone];
    for i := 0 to |inputs|
      invariant Linked(all, h) && h == g[gone := g[gone] - Sources(inputs[..i])]
    {
      SourcesNext(inputs, i);
      if inputs[i].from != null {
        var x: Slot := inputs[i].from;
        assert g[gone] - Sources(inputs[..i]) - {x} == g[gone] - Sources(inputs[..i + 1]);
        ExpireLink(x, gone, all, h);
        h := h[gone := h[gone] - {x}];
      }
    }
    assert inputs[..|inputs|] == inputs;
  }

  method Relink(gone: Slot, inputs: seq<Input>, ghost all: set<Slot>, ghost g: Graph)
    requires Linked(all, g[gone := {}]) && g.Keys == all && gone in all && Sources(inputs) <= all
    modifies all`mTo
    ensures Linked(all, g[gone := Sources(inputs)])
  {
    ghost var h: Graph := g[gone := {}];
    for i := 0 to |inputs|
      invariant Linked(all, h) && h == g[gone := Sources(inputs[..i])]
    {
      SourcesNext(inputs, i);
      if inputs[i].from != null {
        var x: Slot := inputs[i].from;
        EnterLink(x, gone, all, h);
        h := h[gone := h[gone] + {x}];
      }
    }
    assert inputs[..|inputs|] == inputs;
  }

  // ----- the walk -----

  /** What a record says, and what the expressions and their records said at some time. */
  datatype Record = Record(infoDirty: bool, cache: ComputeCache?, cacheOffset: nat)
  datatype Facts = Facts(valid: map<Slot, bool>, records: map<Inside, Record>)

  ghost function RecordOf(b: Inside): Record
    reads b`mInfoDirty, b`mCache, b`mCacheOffset
  {
    Record(b.mInfoDirty, b.mCache, b.mCacheOffset)
  }

  ghost predicate NoFlags(all: set<Slot>)
    reads all`mVisited
  {
    forall e :: e in all ==> !e.mVisited
  }

  ghost function Records(visited: seq<Slot>): set<Inside>
    reads visited`mInside
  {
    set e | e in visited :: e.mInside
  }

  /** The records in `blank` say nothing, and the others what they said. */
  ghost predicate Blanked(records: set<Inside>, was: map<Inside, Record>, blank: set<Inside>)
    requires was.Keys == records
    reads records`mInfoDirty, records`mCache, records`mCacheOffset
  {
    forall b :: b in records ==> RecordOf(b) == if b in blank then Record(true, null, 0) else was[b]
  }

  /** The visited expressions are flagged, and are not known to have no shape; nothing else has changed. */
  ghost predicate Flagged(all: set<Slot>, was: map<Slot, bool>, visited: seq<Slot>)
    requires was.Keys == all
    reads all`mVisited, all`mValid
  {
    && (forall e :: e in visited ==> e in all)
    && forall e :: e in all ==> e.mVisited == (e in visited) && e.mValid == (e in visited || was[e])
  }

  /** What the walk has done, under a lock. */
  ghost predicate Walked(all: set<Slot>, records: set<Inside>, was: Facts, visited: seq<Slot>)
    reads all`mVisited, all`mValid, all`mInside, records`mInfoDirty, records`mCache, records`mCacheOffset
  {
    forall key: nat {:trigger Unlock(key)} :: Unlock(key) ==>
      && was.valid.Keys == all && was.records.Keys == records && (forall e :: e in all ==> e.mInside in records)
      && Flagged(all, was.valid, visited) && Blanked(records, was.records, Records(visited))
  }

  /** Below what the walk has come to and is done with, it has come to everything. */
  ghost predicate DoneBut(g: Graph, visited: seq<Slot>, open: set<Slot>) {
    forall e, f :: e in visited && e !in open && f in g && e in g[f] ==> f in visited
  }

  ghost predicate AllBelow(g: Graph, visited: seq<Slot>, root: Slot) {
    forall e :: e in visited ==> DependsOn(g, e, root)
  }

  /** The walk has come only to what depends on the root, under a lock. */
  ghost predicate Reached(g: Graph, visited: seq<Slot>, root: Slot, open: set<Slot>) {
    forall key: nat {:trigger Unlock(key)} :: Unlock(key) ==> DoneBut(g, visited, open) && AllBelow(g, visited, root)
  }

  lemma ReachNext(g: Graph, visited: seq<Slot>, root: Slot, open: set<Slot>, x: Slot, e: Slot)
    requires Reached(g, visited, root, open) && e in g && x in g[e] && (x == root || DependsOn(g, x, root))
    ensures Reached(g, visited + [e], root, open + {e}) && DependsOn(g, e, root)
  {
    assert Unlock(0);
    DependsStep(g, e, x, root);
  }

  lemma ReachDone(g: Graph, visited: seq<Slot>, root: Slot, open: set<Slot>, e: Slot)
    requires Reached(g, visited, root, open + {e}) && forall f :: f in g && e in g[f] ==> f in visited
    ensures Reached(g, visited, root, open)
  {
    assert Unlock(0);
  }

  /** The consumers of x that are still in a list of links. */
  ghost function Ahead(g: Graph, x: Slot, links: seq<Slot?>): set<Slot> {
    set e | e in g && x in g[e] && e in links
  }

  lemma LinksAhead(x: Slot, all: set<Slot>, g: Graph)
    requires Linked(all, g) && x in all
    ensures (forall e :: e in g && x in g[e] ==> e in Ahead(g, x, x.mTo))
      && forall e :: e in x.mTo && e != null ==> e in all
    ensures x.mTo[0..] == x.mTo
  {
    assert Unlock(0);
  }

  method DropLink(x: Slot, i: nat, ghost all: set<Slot>, ghost g: Graph)
    requires Linked(all, g) && x in all && i < |x.mTo| && x.mTo[i] == null
    modifies x`mTo
    ensures Linked(all, g) && |x.mTo| == old(|x.mTo|) - 1 && x.mTo[i..] == old(x.mTo[i + 1..])
    ensures Ahead(g, x, x.mTo[i..]) == old(Ahead(g, x, x.mTo[i..]))
  {
    assert Unlock(0);
    ghost var links := x.mTo;
    assert links == links[..i] + [links[i]] + links[i + 1..];
    assert links[i..] == [links[i]] + links[i + 1..];
    x.mTo := x.mTo[..i] + x.mTo[i + 1..];
    assert x.mTo[i..] == links[i + 1..];
  }

  method Blank(b: Inside, ghost records: set<Inside>, ghost was: map<Inside, Record>, ghost blank: set<Inside>)
    requires was.Keys == records && b in records && Blanked(records, was, blank)
    modifies b`mInfoDirty, b`mCache, b`mCacheOffset
    ensures Blanked(records, was, blank + {b})
  {
    b.mCache := null;
    b.mCacheOffset := 0;
    b.mInfoDirty := true;
  }

  method Flag(e: Slot, ghost all: set<Slot>, ghost was: map<Slot, bool>, ghost visited: seq<Slot>)
    requires was.Keys == all && e in all && Flagged(all, was, visited)
    modifies e`mVisited, e`mValid
    ensures Flagged(all, was, visited + [e])
  {
    e.mVisited := true;
    e.mValid := true;
  }

  method Forget(e: Slot, ghost all: set<Slot>, ghost records: set<Inside>, ghost was: Facts, ghost visited: seq<Slot>)
    requires Walked(all, records, was, visited) && e in all
    modifies all`mVisited, all`mValid, records`mInfoDirty, records`mCache, records`mCacheOffset
    ensures Walked(all, records, was, visited + [e])
  {
    assert Unlock(0);
    assert Records(visited + [e]) == Records(visited) + {e.mInside};
    Flag(e, all, was.valid, visited);
    Blank(e.mInside, records, was.records, Records(visited));
  }

  method Visited(e: Slot, ghost all: set<Slot>, ghost records: set<Inside>, ghost was: Facts,
      ghost visited: seq<Slot>) returns (r: bool)
    requires Walked(all, records, was, visited) && e in all
    ensures r == (e in visited)
  {
    assert Unlock(0);
    return e.mVisited;
  }

  /** Comes to e from x, unless the walk has been there. */
  method VisitConsumer(x: Slot, e: Slot, ghost all: set<Slot>, ghost records: set<Inside>, ghost was: Facts,
      visited0: seq<Slot>)
    returns (recurse: bool, visited: seq<Slot>)
    requires Walked(all, records, was, visited0) && e in all
    modifies all`mVisited, all`mValid, records`mInfoDirty, records`mCache, records`mCacheOffset
    ensures recurse == (x in Sources(e.mInputs) && e !in visited0)
      && visited == if recurse then visited0 + [e] else visited0
    ensures Walked(all, records, was, visited)
  {
    var inputs := e.mInputs;
    recurse, visited := false, visited0;
    for i := 0 to |inputs|
      invariant recurse == (x in Sources(inputs[..i]) && e !in visited0)
        && visited == if recurse then visited0 + [e] else visited0
      invariant Walked(all, records, was, visited)
    {
      SourcesNext(inputs, i);
      if inputs[i].from == x && !recurse {
        var before := Visited(e, all, records, was, visited);
        if !before {
          Forget(e, all, records, was, visited);
          visited := visited + [e];
          recurse := true;
        }
      }
    }
    assert inputs[..|inputs|] == inputs;
  }

  /** A graph without a cycle, and the inputs that go with it, under a lock. */
  ghost predicate Acyclic(all: set<Slot>, g: Graph, rank: map<Slot, nat>, height: nat)
    reads all`mInputs
  {
    forall key: nat {:trigger Unlock(key)} :: Unlock(key) ==>
      Wired(all, g) && Ranked(g, rank) && forall e :: e in all ==> rank[e] < height
  }

  /** The graph and the ranks are of these expressions. */
  ghost predicate Covers(all: set<Slot>, g: Graph, rank: map<Slot, nat>) {
    g.Keys == all && rank.Keys == all
  }

  lemma Edge(all: set<Slot>, g: Graph, rank: map<Slot, nat>, height: nat, x: Slot, e: Slot)
    requires Covers(all, g, rank) && Acyclic(all, g, rank, height) && e in all
    ensures g[e] == Sources(e.mInputs) && rank[e] < height && (x in g[e] ==> x in all && rank[x] < rank[e])
  {
    assert Unlock(0);
  }

  method VisitLink(x: Slot, e: Slot, visited0: seq<Slot>, ghost all: set<Slot>, ghost g: Graph,
      ghost rank: map<Slot, nat>,
      ghost height: nat, ghost records: set<Inside>, ghost was: Facts, ghost root: Slot, ghost open: set<Slot>)
        returns (visited: seq<Slot>)
    requires Covers(all, g, rank) && Acyclic(all, g, rank, height) && Linked(all, g)
      && Walked(all, records, was, visited0) && x in all && e in all
    requires Reached(g, visited0, root, open) && (x == root || DependsOn(g, x, root))
    modifies all`mVisited, all`mTo, all`mValid, records`mInfoDirty, records`mCache, records`mCacheOffset
    ensures Linked(all, g) && Walked(all, records, was, visited) && Reached(g, visited, root, open)
    ensures visited0 <= visited && (x in g[e] ==> e in visited)
    ensures forall d :: d in all && rank[d] <= rank[x] ==> d.mTo == old(d.mTo)
    decreases height - rank[x], 0
  {
    var recurse;
    Edge(all, g, rank, height, x, e);
    recurse, visited := VisitConsumer(x, e, all, records, was, visited0);
    if recurse {
      ReachNext(g, visited0, root, open, x, e);
      visited := VisitOutputs(e, visited, all, g, rank, height, records, was, root, open + {e});
      ReachDone(g, visited, root, open, e);
      assert visited[|visited0|] == e;
    }
  }

  /** Follows the links of x. */
  method VisitOutputs(x: Slot, visited0: seq<Slot>, ghost all: set<Slot>, ghost g: Graph, ghost rank: map<Slot, nat>,
      ghost height: nat, ghost records: set<Inside>, ghost was: Facts, ghost root: Slot, ghost open: set<Slot>)
        returns (visited: seq<Slot>)
    requires Covers(all, g, rank) && Acyclic(all, g, rank, height) && Linked(all, g)
      && Walked(all, records, was, visited0) && x in all
    requires Reached(g, visited0, root, open) && (x == root || DependsOn(g, x, root))
    modifies all`mVisited, all`mTo, all`mValid, records`mInfoDirty, records`mCache, records`mCacheOffset
    ensures Linked(all, g) && Walked(all, records, was, visited) && Reached(g, visited, root, open)
    ensures visited0 <= visited && forall e :: e in all && x in g[e] ==> e in visited
    ensures forall d :: d in all && rank[d] < rank[x] ==> d.mTo == old(d.mTo)
    decreases height - rank[x], 1
  {
    var i := 0;
    visited := visited0;
    LinksAhead(x, all, g);
    while i < |x.mTo|
      invariant i <= |x.mTo| && Linked(all, g) && Walked(all, records, was, visited)
      invariant Reached(g, visited, root, open) && visited0 <= visited
      invariant forall e :: e in all && x in g[e] ==> e in visited || e in Ahead(g, x, x.mTo[i..])
      invariant forall d :: d in all && rank[d] < rank[x] ==> d.mTo == old(d.mTo)
      decreases |x.mTo| - i
    {
      if x.mTo[i] == null {
        DropLink(x, i, all, g);
      } else {
        ghost var links := x.mTo;
        assert links[i..] == [links[i]] + links[i + 1..];
        LinksAhead(x, all, g);
        visited := VisitLink(x, x.mTo[i], visited, all, g, rank, height, records, was, root, open);
        i := i + 1;
      }
    }
  }

  lemma {:induction false} ComesToAll(g: Graph, visited: seq<Slot>, x: Slot, e: Slot, n: nat)
    requires DependsIn(g, e, x, n) && DoneBut(g, visited, {x}) && forall f :: f in g && x in g[f] ==> f in visited
    ensures e in visited
    decreases n
  {
    var d :| d in g[e] && (d == x || (n > 0 && DependsIn(g, d, x, n - 1)));
    if d != x { ComesToAll(g, visited, x, d, n - 1); }
  }

  method ClearFlags(visited: seq<Slot>, ghost all: set<Slot>, ghost was: map<Slot, bool>)
    requires was.Keys == all && Flagged(all, was, visited)
    modifies visited`mVisited
    ensures NoFlags(all)
  {
    for i := 0 to |visited|
      invariant forall e :: e in all && e !in visited ==> !e.mVisited
      invariant forall k :: 0 <= k < i ==> !visited[k].mVisited
    {
      visited[i].mVisited := false;
    }
  }

  /** Of everything that depends on x nothing is known any more; all else is as it was.  Under a lock. */
  ghost predicate ForgottenBelow(all: set<Slot>, g: Graph, x: Slot, records: set<Inside>, was: Facts)
    requires was.valid.Keys == all && was.records.Keys == records
    reads all`mValid, all`mInside, records`mInfoDirty, records`mCache, records`mCacheOffset
  {
    forall key: nat {:trigger Unlock(key)} :: Unlock(key) ==>
      && (forall e :: e in all ==> e.mValid == (DependsOn(g, e, x) || was.valid[e]))
      && forall b :: b in records ==>
           RecordOf(b) == if exists e ::
             e in all && DependsOn(g, e, x) && e.mInside == b then Record(true, null, 0) else was.records[b]
  }

  method ForgetBelow(x: Slot, ghost all: set<Slot>, ghost g: Graph, ghost rank: map<Slot, nat>, ghost height: nat,
      ghost records: set<Inside>, ghost was: Facts)
    requires Covers(all, g, rank) && Acyclic(all, g, rank, height) && Linked(all, g) && x in all
    requires was.valid.Keys == all && was.records.Keys == records && Walked(all, records, was, [])
    modifies all`mVisited, all`mTo, all`mValid, records`mInfoDirty, records`mCache, records`mCacheOffset
    ensures Linked(all, g) && NoFlags(all) && ForgottenBelow(all, g, x, records, was)
  {
    var visited := VisitOutputs(x, [], all, g, rank, height, records, was, x, {x});
    AllReached(g, visited, x);
    WalkedBelow(x, all, g, records, was, visited);
    assert Flagged(all, was.valid, visited) by {
      assert Unlock(0);
    }
    ClearFlags(visited, all, was.valid);
  }

  lemma AllReached(g: Graph, visited: seq<Slot>, x: Slot)
    requires Reached(g, visited, x, {x}) && forall f :: f in g && x in g[f] ==> f in visited
    ensures forall e :: e in g ==> (e in visited <==> DependsOn(g, e, x))
  {
    assert Unlock(0);
    forall e | e in g && DependsOn(g, e, x) ensures e in visited {
      var n: nat :| DependsIn(g, e, x, n);
      ComesToAll(g, visited, x, e, n);
    }
  }

  lemma WalkedBelow(x: Slot, all: set<Slot>, g: Graph, records: set<Inside>, was: Facts, visited: seq<Slot>)
    requires was.valid.Keys == all == g.Keys && was.records.Keys == records && Walked(all, records, was, visited)
    requires forall e :: e in g ==> (e in visited <==> DependsOn(g, e, x))
    ensures ForgottenBelow(all, g, x, records, was)
  {
    assert Unlock(0);
  }

  // ----- the operation -----

  lemma AcyclicReplaced(all: set<Slot>, g: Graph, rank: map<Slot, nat>, height: nat, gone: Slot, from: Slot)
    requires g.Keys == all && rank.Keys == all && (forall e :: e in all ==> rank[e] < height) && Ranked(g, rank)
    requires gone in all && from in all && from != gone && !DependsOn(g, from, gone)
      && Wired(all, Replaced(g, gone, from))
    ensures Covers(all, Replaced(g, gone, from), Raised(g, rank, gone, from))
    ensures Acyclic(all, Replaced(g, gone, from), Raised(g, rank, gone, from), 2 * height)
  {
    StaysAcyclic(g, rank, gone, from);
  }

  /** Moves the links of `gone` from its own inputs to those of `from`. */
  method MoveLinks(gone: Slot, from: Slot, ghost all: set<Slot>, ghost g: Graph)
    requires Wired(all, g) && Linked(all, g) && gone in all && from in all
    modifies all`mTo
    ensures Linked(all, Replaced(g, gone, from))
  {
    Unlink(gone, gone.mInputs, all, g);
    Relink(gone, from.mInputs, all, g);
  }

  /** The facts with from's in the place of gone's. */
  ghost function Moved(was: Facts, gone: Slot, from: Slot): Facts
    requires from in was.valid
  {
    was.(valid := was.valid[gone := was.valid[from]])
  }

  /** What holds before the walk, without the lock. */
  ghost predicate AtRest(all: set<Slot>, records: set<Inside>, was: Facts)
    requires was.valid.Keys == all && was.records.Keys == records
    reads all`mVisited, all`mValid, all`mInside, records`mInfoDirty, records`mCache, records`mCacheOffset
  {
    && (forall e :: e in all ==> e.mInside in records && !e.mVisited && e.mValid == was.valid[e])
    && forall b :: b in records ==> RecordOf(b) == was.records[b]
  }

  lemma Unlocked(all: set<Slot>, records: set<Inside>, was: Facts)
    requires was.valid.Keys == all && was.records.Keys == records && Walked(all, records, was, [])
    ensures AtRest(all, records, was)
  {
    assert Unlock(0);
  }

  lemma Locked(all: set<Slot>, records: set<Inside>, was: Facts)
    requires was.valid.Keys == all && was.records.Keys == records && AtRest(all, records, was)
    ensures Walked(all, records, was, [])
  {
  }

  method FillRecord(gone: Slot, from: Slot, ghost all: set<Slot>, ghost records: set<Inside>, ghost was: Facts)
    requires gone in all && from in all && was.valid.Keys == all && was.records.Keys == records
      && Walked(all, records, was, [])
    modifies gone`mOp, gone`mValid, gone`mInside
    ensures gone.mOp == from.mOp && gone.mInside == from.mInside && Walked(all, records, Moved(was, gone, from), [])
  {
    Unlocked(all, records, was);
    gone.mOp := from.mOp;
    gone.mValid := from.mValid;
    gone.mInside := from.mInside;
    Locked(all, records, Moved(was, gone, from));
  }

  method FillRest(gone: Slot, from: Slot, ghost all: set<Slot>, ghost records: set<Inside>, ghost was: Facts,
      ghost h: Graph, ghost up: map<Slot, nat>, ghost height: nat)
    requires Acyclic(all, h, up, height) && Linked(all, h)
    requires gone in all && from in all && was.valid.Keys == all && was.records.Keys == records
      && Walked(all, records, was, [])
    modifies gone`mOp, gone`mValid, gone`mInside
    ensures gone.mOp == from.mOp && gone.mInside == from.mInside && Walked(all, records, Moved(was, gone, from), [])
    ensures Acyclic(all, h, up, height) && Linked(all, h)
  {
    FillRecord(gone, from, all, records, was);
  }

  method FillInputs(gone: Slot, from: Slot, ghost all: set<Slot>, ghost g: Graph)
    requires Wired(all, g) && gone in all && from in all
    modifies gone`mInputs
    ensures gone.mInputs == from.mInputs && Wired(all, Replaced(g, gone, from))
  {
    gone.mInputs := from.mInputs;
  }

  /** Gives `gone` the inputs of `from`; there is no cycle yet. */
  method Rewire(gone: Slot, from: Slot, ghost all: set<Slot>, ghost g: Graph, ghost rank: map<Slot, nat>,
      ghost height: nat)
    returns (ghost h: Graph, ghost up: map<Slot, nat>)
    requires Covers(all, g, rank) && Acyclic(all, g, rank, height) && Linked(all, g) && gone in all && from in all
      && gone != from && !DependsOn(g, from, gone)
    modifies all`mTo, gone`mInputs
    ensures h == Replaced(g, gone, from) && gone.mInputs == from.mInputs && Linked(all, h) && Covers(all, h, up)
      && Acyclic(all, h, up, 2 * height)
  {
    assert Unlock(0);
    MoveLinks(gone, from, all, g);
    FillInputs(gone, from, all, g);
    AcyclicReplaced(all, g, rank, height, gone, from);
    h, up := Replaced(g, gone, from), Raised(g, rank, gone, from);
  }

  /** Makes `gone` what `from` is; what depends on it has not been told. */
  method PutIn(gone: Slot, from: Slot, ghost all: set<Slot>, ghost g: Graph, ghost rank: map<Slot, nat>,
      ghost height: nat,
      ghost records: set<Inside>, ghost was: Facts) returns (ghost h: Graph, ghost up: map<Slot, nat>)
    requires Covers(all, g, rank) && Acyclic(all, g, rank, height) && Linked(all, g) && gone in all && from in all
      && gone != from && !DependsOn(g, from, gone)
    requires was.valid.Keys == all && was.records.Keys == records && Walked(all, records, was, [])
    modifies all`mTo, gone`mOp, gone`mValid, gone`mInside, gone`mInputs
    ensures h == Replaced(g, gone, from) && Linked(all, h) && Covers(all, h, up) && Acyclic(all, h, up, 2 * height)
    ensures gone.mOp == from.mOp && gone.mInputs == from.mInputs && gone.mInside == from.mInside
    ensures Walked(all, records, Moved(was, gone, from), [])
  {
    h, up := Rewire(gone, from, all, g, rank, height);
    FillRest(gone, from, all, records, was, h, up, 2 * height);
  }

  /** Puts in the place of `gone` what `from` is, when `from` does not depend on it: the links are
      complete, there is no cycle, and what is known of all that depends on the place is forgotten. */
  method ReplaceOther(gone: Slot, from: Slot, ghost all: set<Slot>, ghost g: Graph, ghost rank: map<Slot, nat>,
      ghost height: nat,
      ghost records: set<Inside>, ghost was: Facts) returns (ghost h: Graph, ghost up: map<Slot, nat>)
    requires Covers(all, g, rank) && Acyclic(all, g, rank, height) && Linked(all, g) && gone in all && from in all
      && gone != from && !DependsOn(g, from, gone)
    requires was.valid.Keys == all && was.records.Keys == records && Walked(all, records, was, [])
    modifies all`mVisited, all`mTo, all`mValid, records`mInfoDirty, records`mCache, records`mCacheOffset, gone`mOp,
      gone`mInside, gone`mInputs
    ensures h == Replaced(g, gone, from) && Linked(all, h) && Covers(all, h, up) && Acyclic(all, h, up, 2 * height)
      && NoFlags(all)
    ensures gone.mOp == from.mOp && gone.mInputs == from.mInputs && gone.mInside == from.mInside
    ensures ForgottenBelow(all, h, gone, records, Moved(was, gone, from))
  {
    ghost var twice, moved := 2 * height, Moved(was, gone, from);
    h, up := PutIn(gone, from, all, g, rank, height, records, was);
    ForgetBelow(gone, all, h, up, twice, records, moved);
  }

  /** An expression may be asked to take its own place. */
  method Replace(gone: Slot, from: Slot, ghost all: set<Slot>, ghost g: Graph, ghost rank: map<Slot, nat>,
      ghost height: nat,
      ghost records: set<Inside>, ghost was: Facts) returns (ghost h: Graph, ghost up: map<Slot, nat>)
    requires Covers(all, g, rank) && Acyclic(all, g, rank, height) && Linked(all, g) && gone in all && from in all
      && !DependsOn(g, from, gone)
    requires was.valid.Keys == all && was.records.Keys == records && Walked(all, records, was, [])
    modifies all`mVisited, all`mTo, all`mValid, records`mInfoDirty, records`mCache, records`mCacheOffset, gone`mOp,
      gone`mInside, gone`mInputs
    ensures h == Replaced(g, gone, from) && Linked(all, h) && Covers(all, h, up) && Acyclic(all, h, up, 2 * height)
    ensures gone.mOp == from.mOp && gone.mInputs == from.mInputs && gone.mInside == from.mInside
    ensures if gone == from then Walked(all, records, was, [])
      else NoFlags(all) && ForgottenBelow(all, h, gone, records, Moved(was, gone, from))
  {
    if gone == from {
      h, up := g, rank;
      assert Replaced(g, gone, from) == g;
      return;
    }
    h, up := ReplaceOther(gone, from, all, g, rank, height, records, was);
  }
}
