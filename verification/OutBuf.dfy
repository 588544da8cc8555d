/** The growing output buffer of the inflate decoder. */
module OutBuf {
  import opened Wrappers
  import opened Deflate

  // ----- how large the buffer may get -----

  /** The size the buffer starts with, whether it may grow, and the size past which the allocator refuses. */
  datatype Limits = Limits(capacity: nat, expandable: bool, maxAlloc: nat)

  /** The capacity, doubled until there is enough. */
  function Doubled(capacity: nat, need: nat): (r: nat)
    requires capacity > 0
    ensures r >= need && r >= capacity
    decreases if need <= capacity then 0 else need - capacity
  {
    if need <= capacity then capacity else Doubled(2 * capacity, need)
  }

  /** Whether an output of this size can be held; under a lock. */
  ghost predicate Room(k: Limits, size: nat) {
    forall key: nat {:trigger Unlock(key)} :: Unlock(key) ==>
      size <= k.capacity || (k.expandable && k.capacity > 0 && Doubled(k.capacity, size) <= k.maxAlloc)
  }

  /** The capacity, doubled i times. */
  function DoubledBy(capacity: nat, i: nat): nat {
    if i == 0 then capacity else 2 * DoubledBy(capacity, i - 1)
  }

  lemma {:induction false} DoubledByMore(capacity: nat, i: nat)
    ensures DoubledBy(2 * capacity, i) == DoubledBy(capacity, i + 1)
  {
    if i > 0 { DoubledByMore(capacity, i - 1); }
  }

  lemma {:induction false} DoubledByGrows(capacity: nat, i: nat, j: nat)
    requires i <= j
    ensures DoubledBy(capacity, i) <= DoubledBy(capacity, j)
    decreases j
  {
    if i < j { DoubledByGrows(capacity, i, j - 1); }
  }

  /** The least number of times to double. */
  lemma {:induction false} LeastDoubling(capacity: nat, need: nat) returns (i: nat)
    requires capacity > 0
    ensures Doubled(capacity, need) == DoubledBy(capacity, i) && need <= DoubledBy(capacity, i)
    ensures i > 0 ==> DoubledBy(capacity, i - 1) < need
    decreases if need <= capacity then 0 else need - capacity
  {
    if need <= capacity {
      i := 0;
    } else {
      var j := LeastDoubling(2 * capacity, need);
      i := j + 1;
      DoubledByMore(capacity, j);
      if j > 0 { DoubledByMore(capacity, j - 1); }
    }
  }

  /** There is room for an output if it fits at first, or in the first buffer large enough that doubling makes, which
      has to be within what can be allocated; any such buffer will do for that. */
  lemma RoomExactly(k: Limits, size: nat)
    ensures Room(k, size) <==>
      || size <= k.capacity
      || (k.expandable && k.capacity > 0 && exists i :: size <= DoubledBy(k.capacity, i) <= k.maxAlloc)
  {
    assert Unlock(0);
    if k.capacity > 0 {
      var least := LeastDoubling(k.capacity, size);
      forall i | size <= DoubledBy(k.capacity, i) <= k.maxAlloc ensures Doubled(k.capacity, size) <= k.maxAlloc {
        if i < least {
          DoubledByGrows(k.capacity, i, least - 1);
        } else {
          DoubledByGrows(k.capacity, least, i);
        }
      }
    }
  }

  /** No output is larger than this. */
  function Most(k: Limits): nat {
    if k.capacity < k.maxAlloc then k.maxAlloc else k.capacity
  }

  lemma RoomIsBounded(k: Limits, size: nat)
    requires Room(k, size)
    ensures size <= Most(k)
  {
    assert Unlock(0);
  }

  /** Growing for one size and then for another is growing for the larger one. */
  lemma {:induction false} DoubledAgain(capacity: nat, need: nat, size: nat)
    requires capacity > 0
    ensures var c := Doubled(capacity, need);
      if size > c then Doubled(c, size) == Doubled(capacity, size) else Doubled(capacity, size) <= c
    decreases if need <= capacity then 0 else need - capacity
  {
    if need > capacity { DoubledAgain(2 * capacity, need, size); }
  }

  /** Less room is needed for less. */
  lemma RoomForLess(k: Limits, size: nat, more: nat)
    requires Room(k, more) && size <= more
    ensures Room(k, size)
  {
    assert Unlock(0);
    if more > k.capacity { DoubledAgain(k.capacity, more, size); }
  }

  /** What there was room for at first there is room for now, and nothing else. */
  ghost predicate SameRoom(k: Limits, k': Limits) {
    forall size :: Room(k', size) <==> Room(k, size)
  }

  /** There is room for what is written. */
  lemma RoomSoFar(out: OutBuf)
    requires out.Valid()
    ensures Room(out.limits, out.cur)
  {
    assert Unlock(0);
    assert Room(out.Now(), out.cur) <==> Room(out.limits, out.cur);
  }

  lemma GrownRoom(k: Limits, k': Limits, need: nat)
    requires k.capacity > 0 && k.expandable && Doubled(k.capacity, need) <= k.maxAlloc
    requires k' == k.(capacity := Doubled(k.capacity, need))
    ensures SameRoom(k, k')
  {
    assert Unlock(0);
    forall size ensures Room(k', size) <==> Room(k, size) {
      DoubledAgain(k.capacity, need, size);
    }
  }

  // ----- the buffer -----

  class OutBuf {
    var zout: array<nat>
    var cur: nat
    /** The limits at the start; growing does not change what there is room for. */
    const limits: Limits

    constructor (olen: nat, exp: bool, maxAlloc: nat)
      requires olen > 0 || !exp
      ensures Valid() && Out() == [] && fresh(zout) && limits == Limits(olen, exp, maxAlloc)
    {
      zout, cur, limits := new nat[olen], 0, Limits(olen, exp, maxAlloc);
    }

    ghost function Now(): Limits
      reads `zout
    {
      limits.(capacity := zout.Length)
    }

    ghost predicate Valid()
      reads `zout, `cur
    {
      cur <= zout.Length && (zout.Length > 0 || !limits.expandable) && SameRoom(limits, Now())
    }

    ghost function Out(): seq<nat>
      requires Valid()
      reads `zout, `cur, zout
    {
      zout[..cur]
    }

    /** Makes room for n bytes more by doubling the buffer, if it may grow. */
    method Expand(n: nat) returns (ok: bool)
      requires Valid() && cur + n > zout.Length
      modifies `zout
      ensures Valid() && Out() == old(Out()) && cur == old(cur) && ok == Room(limits, cur + n)
      ensures if ok then cur + n <= zout.Length && fresh(zout) else zout == old(zout)
    {
      assert Unlock(0);
      assert Room(Now(), cur + n) <==> Room(limits, cur + n);
      if !limits.expandable {
        return false;
      }
      var limit := zout.Length;
      while cur + n > limit
        invariant limit > 0 && Doubled(limit, cur + n) == Doubled(zout.Length, cur + n)
          && limit <= Doubled(limit, cur + n)
        decreases cur + n - limit
      {
        limit := limit * 2;
      }
      if limit > limits.maxAlloc {
        return false;
      }
      GrownRoom(Now(), Now().(capacity := limit), cur + n);
      ok := Move(limit);
    }

    /** Moves the bytes to a larger buffer. */
    method Move(limit: nat) returns (ok: bool)
      requires Valid() && zout.Length <= limit && SameRoom(Now(), Now().(capacity := limit))
      modifies `zout
      ensures Valid() && Out() == old(Out()) && fresh(zout) && zout.Length == limit && ok
    {
      var q := new nat[limit];
      forall i | 0 <= i < zout.Length {
        q[i] := zout[i];
      }
      assert q[..cur] == zout[..cur];
      zout := q;
      return true;
    }

    /** Room for n bytes, exactly if the limits allow it. */
    method Reserve(n: nat) returns (ok: bool)
      requires Valid()
      modifies `zout
      ensures Valid() && Out() == old(Out()) && cur == old(cur)
      ensures zout == old(zout) || fresh(zout)
      ensures ok == Room(limits, cur + n) && (ok ==> cur + n <= zout.Length)
    {
      ok := true;
      assert Unlock(0);
      assert Room(Now(), cur + n) <==> Room(limits, cur + n);
      if cur + n > zout.Length {
        ok := Expand(n);
      }
    }

    method Put(b: nat)
      requires Valid() && cur < zout.Length
      modifies `cur, zout
      ensures Valid() && zout == old(zout) && Writes(Literal(b), old(Out()), Out())
    {
      zout[cur] := b;
      cur := cur + 1;
    }

    /** Repeats len bytes from dist bytes back, one at a time. */
    method CopyBack(len: nat, dist: nat)
      requires Valid() && dist <= cur && cur + len <= zout.Length
      modifies `cur, zout
      ensures Valid() && zout == old(zout) && Writes(Copy(len, dist), old(Out()), Out())
    {
      ghost var start := cur;
      var end := cur + len;
      var p := cur - dist;
      if dist == 1 {
        var v := zout[p];
        while cur < end
          invariant start <= cur <= end <= zout.Length
          invariant zout[..start] == old(Out())
          invariant forall k :: start - 1 <= k < cur ==> zout[k] == v
        {
          zout[cur] := v;
          cur := cur + 1;
        }
      } else {
        while cur < end
          invariant start <= cur <= end <= zout.Length && p == cur - dist
          invariant zout[..start] == old(Out())
          invariant forall k :: start <= k < cur ==> zout[k] == zout[k - dist]
        {
          zout[cur] := zout[p];
          cur := cur + 1;
          p := p + 1;
        }
      }
    }

    /** Appends the bytes of a stored block. */
    method Append(bytes: seq<nat>)
      requires Valid() && cur + |bytes| <= zout.Length
      modifies `cur, zout
      ensures Valid() && Out() == old(Out()) + bytes
    {
      forall i | 0 <= i < |bytes| {
        zout[cur + i] := bytes[i];
      }
      cur := cur + |bytes|;
    }
  }
}
