/** The kernel that a list of element-wise commands is turned into, and why it is right. */
module KernelSpec {
  import opened Commands

  /** What the builder knows after some commands: the variable of each tensor in scope, the
      number of variables handed out, the tensors already read, the kernel's parameters and
      the lines emitted so far. */
  datatype Scope = Scope(
    vars: map<Tensor, nat>, next: nat, used: set<Tensor>, inputs: seq<Tensor>, body: seq<Instr>)

  const EMPTY := Scope(map[], 0, {}, [], [])

  /** A tensor that is not in scope is brought in: a one-element constant as a number, any
      other tensor as a new parameter. */
  function ReadTensor(d: Device, s: Scope, t: Tensor): Scope {
    if t in s.vars then s.(used := s.used + {t})
    else if d.Immediate(t) then
      Scope(s.vars[t := s.next], s.next + 1, s.used + {t}, s.inputs,
            s.body + [Number(s.next, d.host(t))])
    else
      var slot := |s.inputs|;
      Scope(s.vars[t := s.next], s.next + 1, s.used + {t}, s.inputs + [t],
            s.body + [if d.size(t) == 1 then LoadScalar(s.next, slot) else Load(s.next, slot)])
  }

  function ReadTensors(d: Device, s: Scope, ts: seq<Tensor>): (r: Scope)
    ensures forall t :: t in s.vars ==> t in r.vars && r.vars[t] == s.vars[t]
    ensures forall t :: t in ts ==> t in r.vars
  {
    if ts == [] then s
    else
      var r := ReadTensors(d, s, ts[..|ts| - 1]);
      assert forall t :: t in ts ==> t in ts[..|ts| - 1] || t == ts[|ts| - 1];
      ReadTensor(d, r, ts[|ts| - 1])
  }

  function AddCommand(d: Device, s: Scope, c: Cmd): Scope
    requires c.op.Prim? && |c.outputs| == 1
  {
    var r := ReadTensors(d, s, c.inputs);
    var out := c.outputs[0];
    var args := seq(|c.inputs|, k requires 0 <= k < |c.inputs| => r.vars[c.inputs[k]]);
    r.(vars := if out in r.vars then r.vars else r.vars[out := r.next],
       next := r.next + 1,
       body := r.body + [Compute(r.next, c.op.id, args)])
  }

  ghost predicate Fusable(cs: seq<Cmd>) {
    forall i :: 0 <= i < |cs| ==> cs[i].op.Prim? && |cs[i].outputs| == 1
  }

  function Build(d: Device, cs: seq<Cmd>): Scope
    requires Fusable(cs)
  {
    if cs == [] then EMPTY else AddCommand(d, Build(d, cs[..|cs| - 1]), cs[|cs| - 1])
  }

  // ----- which tensors end up where -----

  ghost predicate Reads(cs: seq<Cmd>, t: Tensor) {
    exists i :: 0 <= i < |cs| && t in cs[i].inputs
  }

  lemma {:induction false} ReadTensorsKeys(d: Device, s: Scope, ts: seq<Tensor>)
    ensures var r := ReadTensors(d, s, ts);
      && r.vars.Keys == s.vars.Keys + (set t | t in ts)
      && r.used == s.used + (set t | t in ts)
      && s.inputs <= r.inputs
      && (forall t :: t in r.inputs <==> t in s.inputs || (t in ts && t !in s.vars && !d.Immediate(t)))
  {
    if ts != [] {
      var n := |ts| - 1;
      ReadTensorsKeys(d, s, ts[..n]);
      assert forall t :: t in ts <==> t in ts[..n] || t == ts[n];
    }
  }

  /** Scope after a list: its keys are the tensors read or written, and `used` those read. */
  lemma {:induction false} BuildScope(d: Device, cs: seq<Cmd>)
    requires Fusable(cs)
    ensures var s := Build(d, cs);
      && (forall t :: t in s.vars <==> Reads(cs, t) || Written(cs, t))
      && (forall t :: t in s.used <==> Reads(cs, t))
  {
    if cs != [] {
      var n := |cs| - 1;
      var init, c := cs[..n], cs[n];
      BuildScope(d, init);
      ReadsOrWrittenLast(cs);
      AddCommandKeys(d, Build(d, init), c);
      forall t ensures t in Build(d, cs).vars <==> Reads(cs, t) || Written(cs, t) {}
      forall t ensures t in Build(d, cs).used <==> Reads(cs, t) {}
    }
  }

  lemma AddCommandKeys(d: Device, s: Scope, c: Cmd)
    requires c.op.Prim? && |c.outputs| == 1
    ensures var r := AddCommand(d, s, c);
      && (forall t :: t in r.vars <==> t in s.vars || t in c.inputs || t in c.outputs)
      && (forall t :: t in r.used <==> t in s.used || t in c.inputs)
      && r.inputs == ReadTensors(d, s, c.inputs).inputs
  {
    ReadTensorsKeys(d, s, c.inputs);
  }

  lemma ReadsOrWrittenLast(cs: seq<Cmd>)
    requires cs != []
    ensures forall t :: Written(cs, t) <==> Written(cs[..|cs| - 1], t) || t in cs[|cs| - 1].outputs
    ensures forall t :: Reads(cs, t) <==> Reads(cs[..|cs| - 1], t) || t in cs[|cs| - 1].inputs
  {
    var init := cs[..|cs| - 1];
    assert forall i :: 0 <= i < |init| ==> init[i] == cs[i];
  }

  lemma WrittenLater(cs: seq<Cmd>, t: Tensor)
    requires SingleAssignment(cs) && cs != [] && t in cs[|cs| - 1].outputs
    ensures !Reads(cs[..|cs| - 1], t)
  {
    var n := |cs| - 1;
    assert forall i :: 0 <= i < n ==> cs[..n][i] == cs[i];
  }

  lemma PrefixSingleAssignment(cs: seq<Cmd>, n: nat)
    requires SingleAssignment(cs) && n <= |cs|
    ensures SingleAssignment(cs[..n])
  {
    assert forall i :: 0 <= i < n ==> cs[..n][i] == cs[i];
  }

  /** The parameters are the tensors that the list reads and does not write, but for one-element constants. */
  lemma {:induction false} BuildParameters(d: Device, cs: seq<Cmd>, t: Tensor)
    requires Fusable(cs) && SingleAssignment(cs)
    ensures t in Build(d, cs).inputs <==> Reads(cs, t) && !Written(cs, t) && !d.Immediate(t)
  {
    if cs != [] {
      var n := |cs| - 1;
      var init, c := cs[..n], cs[n];
      PrefixSingleAssignment(cs, n);
      BuildScope(d, init);
      ReadTensorsKeys(d, Build(d, init), c.inputs);
      ReadsOrWrittenLast(cs);
      BuildParameters(d, init, t);
      if t in c.outputs { WrittenLater(cs, t); }
    }
  }

  ghost predicate Distinct(ts: seq<Tensor>) {
    forall i, j :: 0 <= i < j < |ts| ==> ts[i] != ts[j]
  }

  lemma {:induction false} ReadTensorsDistinct(d: Device, s: Scope, ts: seq<Tensor>)
    requires Distinct(s.inputs) && forall t :: t in s.inputs ==> t in s.vars
    ensures var r := ReadTensors(d, s, ts); Distinct(r.inputs) && forall t :: t in r.inputs ==> t in r.vars
  {
    if ts != [] { ReadTensorsDistinct(d, s, ts[..|ts| - 1]); }
  }

  /** No tensor is a parameter twice. */
  lemma {:induction false} ParametersDiffer(d: Device, cs: seq<Cmd>)
    requires Fusable(cs)
    ensures var s := Build(d, cs); Distinct(s.inputs) && forall t :: t in s.inputs ==> t in s.vars
  {
    if cs != [] {
      var n := |cs| - 1;
      ParametersDiffer(d, cs[..n]);
      ReadTensorsDistinct(d, Build(d, cs[..n]), cs[n].inputs);
    }
  }

  // ----- what the kernel computes -----

  /** Every tensor in scope is held, at this offset, by its variable. */
  ghost predicate Holds(d: Device, s: Scope, m: Memory, p: nat) {
    var regs := Exec(d, s.body, Args(m, s.inputs), p);
    && (forall x :: x in regs ==> x < s.next)
    && (forall i :: 0 <= i < |s.body| ==> SlotsBelow(s.body[i], |s.inputs|))
    && forall t :: t in s.vars ==> s.vars[t] in regs && regs[s.vars[t]] == Operand(m(t), p)
  }

  ghost predicate SlotsBelow(i: Instr, n: nat) {
    match i
    case Number(_, _) => true
    case LoadScalar(_, k) => k < n
    case Load(_, k) => k < n
    case Compute(_, _, _) => true
  }

  lemma {:induction false} MoreParameters(d: Device, body: seq<Instr>, ins: seq<Value>, more: seq<Value>, p: nat)
    requires forall i :: 0 <= i < |body| ==> SlotsBelow(body[i], |ins|)
    ensures Exec(d, body, ins + more, p) == Exec(d, body, ins, p)
  {
    if body != [] { MoreParameters(d, body[..|body| - 1], ins, more, p); }
  }

  lemma ReadTensorHolds(d: Device, s: Scope, t: Tensor, m: Memory, p: nat)
    requires Holds(d, s, m, p) && |m(t)| == d.size(t) && (d.Immediate(t) ==> m(t) == [d.host(t)])
    ensures Holds(d, ReadTensor(d, s, t), m, p)
  {
    if t !in s.vars {
      var r := ReadTensor(d, s, t);
      assert r.body[..|r.body| - 1] == s.body;
      if d.Immediate(t) {
      } else {
        assert Args(m, r.inputs) == Args(m, s.inputs) + [m(t)];
        MoreParameters(d, s.body, Args(m, s.inputs), [m(t)], p);
      }
    }
  }

  lemma {:induction false} ReadTensorsHolds(d: Device, s: Scope, ts: seq<Tensor>, m: Memory, p: nat)
    requires Holds(d, s, m, p)
    requires forall t :: |m(t)| == d.size(t)
    requires forall t :: d.Immediate(t) ==> m(t) == [d.host(t)]
    ensures Holds(d, ReadTensors(d, s, ts), m, p)
  {
    if ts != [] {
      ReadTensorsHolds(d, s, ts[..|ts| - 1], m, p);
      ReadTensorHolds(d, ReadTensors(d, s, ts[..|ts| - 1]), ts[|ts| - 1], m, p);
    }
  }

  /** An element-wise result, read as an operand, is the scalar function of the operands. */
  lemma ElementwiseOperand(d: Device, c: Cmd, m: Memory, p: nat, n: nat)
    requires d.Valid() && d.legal(c) && (forall t :: |m(t)| == d.size(t))
    requires m(c.outputs[0]) == Result(d, c, Args(m, c.inputs), c.outputs[0])
    requires d.size(c.outputs[0]) in {1, n} && p < n
    ensures Operand(m(c.outputs[0]), p) == d.scalar(c.op.id, Operands(Args(m, c.inputs), p))
  {
    var ins := Args(m, c.inputs);
    if d.size(c.outputs[0]) == 1 {
      assert Operands(ins, 0) == Operands(ins, p);
    }
  }

  lemma AddCommandHolds(d: Device, s: Scope, c: Cmd, m: Memory, p: nat)
    requires c.op.Prim? && |c.outputs| == 1 && Holds(d, s, m, p)
    requires forall t :: |m(t)| == d.size(t)
    requires forall t :: d.Immediate(t) ==> m(t) == [d.host(t)]
    requires Operand(m(c.outputs[0]), p) == d.scalar(c.op.id, Operands(Args(m, c.inputs), p))
    ensures Holds(d, AddCommand(d, s, c), m, p)
  {
    ReadTensorsHolds(d, s, c.inputs, m, p);
    var r, r' := ReadTensors(d, s, c.inputs), AddCommand(d, s, c);
    assert r'.body[..|r'.body| - 1] == r.body;
    var ins := Args(m, r.inputs);
    var regs, regs' := Exec(d, r.body, ins, p), Exec(d, r'.body, ins, p);
    var args := r'.body[|r'.body| - 1].args;
    assert seq(|args|, j requires 0 <= j < |args| => Register(regs, args[j])) == Operands(Args(m, c.inputs), p);
    assert regs' == regs[r.next := Operand(m(c.outputs[0]), p)];
  }

  /** At every offset of the iteration space each command's variable holds its value. */
  lemma {:induction false} BuildHolds(d: Device, cs: seq<Cmd>, m: Memory, p: nat, n: nat)
    requires d.Valid() && Solves(d, cs, m) && p < n
    requires forall i :: 0 <= i < |cs| ==> d.legal(cs[i]) && d.size(cs[i].outputs[0]) in {1, n}
    ensures Holds(d, Build(d, cs), m, p)
  {
    if cs != [] {
      var init := cs[..|cs| - 1];
      assert forall i :: 0 <= i < |init| ==> init[i] == cs[i];
      assert Solves(d, init, m);
      BuildHolds(d, init, m, p, n);
      assert cs[|cs| - 1].outputs[0] in cs[|cs| - 1].outputs;
      ElementwiseOperand(d, cs[|cs| - 1], m, p, n);
      AddCommandHolds(d, Build(d, init), cs[|cs| - 1], m, p);
    }
  }

  // ----- the fused command -----

  /** The command that replaces a list whose only unread output is `out`. */
  function Fuse(d: Device, cs: seq<Cmd>, out: Tensor): Cmd
    requires Fusable(cs)
  {
    var s := Build(d, cs);
    Cmd(Extra(Kernel(s.body, [if out in s.vars then s.vars[out] else 0])), s.inputs, [out])
  }

  lemma HeldTensor(d: Device, s: Scope, m: Memory, p: nat, t: Tensor)
    requires Holds(d, s, m, p) && t in s.vars
    ensures Register(Exec(d, s.body, Args(m, s.inputs), p), s.vars[t]) == Operand(m(t), p)
  {}

  lemma WrittenInScope(d: Device, cs: seq<Cmd>, t: Tensor)
    requires Fusable(cs) && Written(cs, t)
    ensures t in Build(d, cs).vars
  {
    BuildScope(d, cs);
  }

  lemma FusedAt(d: Device, cs: seq<Cmd>, m: Memory, out: Tensor, p: nat)
    requires d.Valid() && Solves(d, cs, m) && Written(cs, out) && p < |m(out)|
    requires forall i :: 0 <= i < |cs| ==> d.legal(cs[i]) && d.size(cs[i].outputs[0]) in {1, |m(out)|}
    ensures var s := Build(d, cs);
      out in s.vars && Register(Exec(d, s.body, Args(m, s.inputs), p), s.vars[out]) == m(out)[p]
  {
    WrittenInScope(d, cs, out);
    BuildHolds(d, cs, m, p, |m(out)|);
    HeldTensor(d, Build(d, cs), m, p, out);
    OperandInRange(m(out), p);
  }

  lemma OperandInRange(v: Value, p: nat)
    requires p < |v|
    ensures Operand(v, p) == v[p]
  {}

  /** The fused command gives its output the value the whole list gives it. */
  lemma FusedResult(d: Device, cs: seq<Cmd>, m: Memory, out: Tensor)
    requires d.Valid() && Solves(d, cs, m) && Written(cs, out)
    requires forall i :: 0 <= i < |cs| ==> d.legal(cs[i]) && d.size(cs[i].outputs[0]) in {1, d.size(out)}
    ensures var f := Fuse(d, cs, out); Result(d, f, Args(m, f.inputs), out) == m(out)
  {
    var f := Fuse(d, cs, out);
    var r := Result(d, f, Args(m, f.inputs), out);
    assert f.outputs == [out] && IndexOf(f.outputs, out) == 0;
    assert |r| == |m(out)|;
    forall p | 0 <= p < |r| ensures r[p] == m(out)[p] {
      FusedAt(d, cs, m, out, p);
    }
  }
}
