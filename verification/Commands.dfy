/** Command lists and what running them computes.

    A tensor holds a sequence of elements.  An operator the fusion pass may fuse is
    element-wise: it applies one scalar function at every offset, and an operand with a single
    element is read at every offset.  Any other operator is an opaque function of whole
    tensors. */
module Commands {
  type Tensor = nat
  type Elem = int
  type Value = seq<Elem>
  type Memory = Tensor -> Value

  /** One line of a kernel body; dst and args number the kernel's local variables and slot
      numbers its input parameters. */
  datatype Instr =
    | Number(dst: nat, value: Elem)
    | LoadScalar(dst: nat, slot: nat)
    | Load(dst: nat, slot: nat)
    | Compute(dst: nat, op: nat, args: seq<nat>)

  datatype Kernel = Kernel(body: seq<Instr>, stores: seq<nat>)

  datatype Op = Prim(id: nat) | Extra(kernel: Kernel)

  datatype Cmd = Cmd(op: Op, inputs: seq<Tensor>, outputs: seq<Tensor>)

  /** What the surroundings supply: tensor sizes, which tensors are constants and their host
      value, which commands may be fused, and what operators compute. */
  datatype Device = Device(
    size: Tensor -> nat,
    constant: Tensor -> bool,
    host: Tensor -> Elem,
    legal: Cmd -> bool,
    scalar: (nat, seq<Elem>) -> Elem,
    whole: (nat, seq<Value>, Tensor) -> Value)
  {
    /** Opaque operators fill their output tensor, and only element-wise commands are legal. */
    ghost predicate Valid() {
      && (forall op, ins, t :: |whole(op, ins, t)| == size(t))
      && (forall c :: legal(c) ==>
           && c.op.Prim? && |c.outputs| == 1
           && forall k :: 0 <= k < |c.inputs| ==> size(c.inputs[k]) in {1, size(c.outputs[0])})
    }

    predicate Immediate(t: Tensor) { size(t) == 1 && constant(t) }
  }

  // ----- kernels -----

  type Registers = map<nat, Elem>

  function At(v: Value, p: nat): Elem {
    if p < |v| then v[p] else 0
  }

  function Register(r: Registers, x: nat): Elem {
    if x in r then r[x] else 0
  }

  function Slot(ins: seq<Value>, k: nat): Value {
    if k < |ins| then ins[k] else []
  }

  function ExecInstr(d: Device, i: Instr, ins: seq<Value>, p: nat, r: Registers): Registers {
    match i
    case Number(dst, v) => r[dst := v]
    case LoadScalar(dst, k) => r[dst := At(Slot(ins, k), 0)]
    case Load(dst, k) => r[dst := At(Slot(ins, k), p)]
    case Compute(dst, op, args) =>
      r[dst := d.scalar(op, seq(|args|, j requires 0 <= j < |args| => Register(r, args[j])))]
  }

  /** The local variables after the body has run at offset p. */
  function Exec(d: Device, body: seq<Instr>, ins: seq<Value>, p: nat): Registers {
    if body == [] then map[]
    else ExecInstr(d, body[|body| - 1], ins, p, Exec(d, body[..|body| - 1], ins, p))
  }

  // ----- commands -----

  function Args(m: Memory, ts: seq<Tensor>): seq<Value> {
    seq(|ts|, k requires 0 <= k < |ts| => m(ts[k]))
  }

  /** An operand as an element-wise operator sees it at offset p. */
  function Operand(v: Value, p: nat): Elem {
    if |v| == 1 then v[0] else At(v, p)
  }

  function Operands(ins: seq<Value>, p: nat): seq<Elem> {
    seq(|ins|, k requires 0 <= k < |ins| => Operand(ins[k], p))
  }

  function IndexOf(ts: seq<Tensor>, t: Tensor): (k: nat)
    requires t in ts
    ensures k < |ts| && ts[k] == t
  {
    if ts[0] == t then 0 else 1 + IndexOf(ts[1..], t)
  }

  /** The value a command gives its output t, from the values of its inputs. */
  function Result(d: Device, c: Cmd, ins: seq<Value>, t: Tensor): Value
    requires t in c.outputs
  {
    match c.op
    case Prim(id) =>
      if d.legal(c) then seq(d.size(t), p requires 0 <= p => d.scalar(id, Operands(ins, p)))
      else d.whole(id, ins, t)
    case Extra(k) =>
      var j := IndexOf(c.outputs, t);
      seq(d.size(t), p requires 0 <= p => Register(Exec(d, k.body, ins, p), if j < |k.stores| then k.stores[j] else 0))
  }

  function Step(d: Device, c: Cmd, m: Memory): Memory {
    (t: Tensor) => if t in c.outputs then Result(d, c, Args(m, c.inputs), t) else m(t)
  }

  function Run(d: Device, cs: seq<Cmd>, m: Memory): Memory {
    if cs == [] then m else Step(d, cs[|cs| - 1], Run(d, cs[..|cs| - 1], m))
  }

  // ----- single assignment -----

  /** Every tensor is written by at most one command, and read only after that. */
  ghost predicate SingleAssignment(cs: seq<Cmd>) {
    forall i, t :: 0 <= i < |cs| && t in cs[i].outputs ==>
      && (forall j :: 0 <= j < |cs| && j != i ==> t !in cs[j].outputs)
      && (forall j :: 0 <= j <= i ==> t !in cs[j].inputs)
  }

  ghost predicate Written(cs: seq<Cmd>, t: Tensor) {
    exists i :: 0 <= i < |cs| && t in cs[i].outputs
  }

  /** Tensors have their sizes, constants their host values, and constants are not written. */
  ghost predicate Loaded(d: Device, cs: seq<Cmd>, m: Memory) {
    && (forall t :: |m(t)| == d.size(t))
    && (forall t :: d.Immediate(t) ==> m(t) == [d.host(t)] && !Written(cs, t))
  }

  /** m is a fixed point of the commands: every output is what its command computes from m. */
  ghost predicate Solves(d: Device, cs: seq<Cmd>, m: Memory) {
    && (forall t :: |m(t)| == d.size(t))
    && (forall t :: d.Immediate(t) ==> m(t) == [d.host(t)])
    && (forall i, t :: 0 <= i < |cs| && t in cs[i].outputs ==>
         m(t) == Result(d, cs[i], Args(m, cs[i].inputs), t))
  }

  lemma ArgsAgree(m: Memory, m': Memory, ts: seq<Tensor>)
    requires forall t :: t in ts ==> m(t) == m'(t)
    ensures Args(m, ts) == Args(m', ts)
  {
    assert forall k :: 0 <= k < |ts| ==> ts[k] in ts;
  }

  lemma {:induction false} RunKeepsUnwritten(d: Device, cs: seq<Cmd>, m: Memory, t: Tensor)
    requires !Written(cs, t)
    ensures Run(d, cs, m)(t) == m(t)
  {
    if cs != [] {
      var init := cs[..|cs| - 1];
      assert forall i :: 0 <= i < |init| ==> init[i] == cs[i];
      RunKeepsUnwritten(d, init, m, t);
      assert t !in cs[|cs| - 1].outputs;
    }
  }

  /** A single-assignment list runs to a solution of its own equations. */
  lemma {:induction false} RunSolves(d: Device, cs: seq<Cmd>, m: Memory)
    requires d.Valid() && SingleAssignment(cs) && Loaded(d, cs, m)
    ensures Solves(d, cs, Run(d, cs, m))
  {
    if cs != [] {
      var n := |cs| - 1;
      var init, last := cs[..n], cs[n];
      assert forall i :: 0 <= i < n ==> init[i] == cs[i];
      assert forall t :: Written(init, t) ==> Written(cs, t);
      RunSolves(d, init, m);
      var before, after := Run(d, init, m), Run(d, cs, m);
      forall i, t | 0 <= i < |cs| && t in cs[i].outputs
        ensures after(t) == Result(d, cs[i], Args(after, cs[i].inputs), t)
      {
        ArgsAgree(before, after, cs[i].inputs);
        if i < n { assert t in init[i].outputs; }
      }
      forall t | d.Immediate(t) ensures after(t) == [d.host(t)] {
        RunKeepsUnwritten(d, cs, m, t);
      }
    }
  }
}
