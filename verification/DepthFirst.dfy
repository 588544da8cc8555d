/** Why a depth-first search with an explicit stack comes to an end. */
module DepthFirst {
  /** One more than the rank of the topmost entry that has not been visited. */
  ghost function Height<T>(rank: T -> nat, stack: seq<T>, visited: set<T>): nat {
    if stack == [] then 0
    else if stack[|stack| - 1] !in visited then rank(stack[|stack| - 1]) + 1
    else Height(rank, stack[..|stack| - 1], visited)
  }

  /** How many visited entries lie above that one. */
  ghost function Above<T>(stack: seq<T>, visited: set<T>): nat {
    if stack == [] || stack[|stack| - 1] !in visited then 0 else 1 + Above(stack[..|stack| - 1], visited)
  }

  /** Pushing entries of lower rank, one of them not visited yet, lowers the topmost one. */
  lemma {:induction false} PushLower<T>(rank: T -> nat, stack: seq<T>, xs: seq<T>, visited: set<T>, r: nat, i: nat)
    requires forall k :: 0 <= k < |xs| ==> rank(xs[k]) < r
    requires i < |xs| && xs[i] !in visited
    ensures Height(rank, stack + xs, visited) <= r
    decreases |xs|
  {
    var n := |xs| - 1;
    assert (stack + xs)[..|stack + xs| - 1] == stack + xs[..n];
    if xs[n] in visited { PushLower(rank, stack, xs[..n], visited, r, i); }
  }

  lemma AddVisited<T>(all: set<T>, visited: set<T>, c: T)
    requires c in all && c !in visited
    ensures |all - (visited + {c})| < |all - visited|
  {
    assert all - (visited + {c}) == all - visited - {c};
  }

  /** Popping the topmost entry as visited. */
  lemma PopDecreases<T>(rank: T -> nat, all: set<T>, stack: seq<T>, visited: set<T>)
    requires stack != [] && stack[|stack| - 1] in all
    ensures var top, rest := stack[|stack| - 1], stack[..|stack| - 1];
      if top in visited then
        visited + {top} == visited && Height(rank, rest, visited) == Height(rank, stack, visited)
          && Above(rest, visited) < Above(stack, visited)
      else |all - (visited + {top})| < |all - visited|
  {
    var top := stack[|stack| - 1];
    if top in visited { assert visited + {top} == visited; } else { AddVisited(all, visited, top); }
  }
}

