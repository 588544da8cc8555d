/** Bytes whose decoding is not determined: a literal, and then a copy from distance zero. */
module UnsetBytes {
  import opened Bits
  import opened CanonicalCode
  import opened ZBuf
  import opened Deflate
  import opened DeflateStream
  import opened DeflateEncode
  import opened DeflateBytes
  import opened InflateStream
  import opened InflateResults

  /** The byte b, and three bytes from nowhere. */
  function Tokens(b: nat): seq<Token> {
    [Literal(b), Copy(3, 0)]
  }

  /** The first length symbol means 3; the last two distance symbols mean 0. */
  lemma MeansCopy(lit: Sizes, dst: Sizes, r: nat, d: nat)
    requires lit == FixedLengths() && dst == FixedDistances() && r == 0 && 30 <= d < 32
    ensures Usable(lit, dst, Pair(r, 0, d, 0)) && TokenOf(Pair(r, 0, d, 0)) == Copy(3, 0)
  {}

  lemma BothAreUsable(lit: Sizes, dst: Sizes, x: Choice, y: Choice)
    requires Usable(lit, dst, x) && Usable(lit, dst, y)
    ensures AllUsable(lit, dst, [x, y]) && TokensOf([x, y]) == [TokenOf(x), TokenOf(y)]
  {
    assert [x, y][1..] == [y] && [y][1..] == [];
    assert TokensOf([y]) == [TokenOf(y)] + TokensOf([]);
  }

  lemma ByteAndCopy(b: nat, r: nat, d: nat) returns (xs: seq<Choice>)
    requires b < 256 && r == 0 && 30 <= d < 32
    ensures xs == [Byte(b), Pair(r, 0, d, 0)]
    ensures AllUsable(FixedLengths(), FixedDistances(), xs) && TokensOf(xs) == Tokens(b)
  {
    MeansCopy(FixedLengths(), FixedDistances(), r, d);
    BothAreUsable(FixedLengths(), FixedDistances(), Byte(b), Pair(r, 0, d, 0));
    xs := [Byte(b), Pair(r, 0, d, 0)];
  }

  lemma AnyThree(b: nat, v: seq<nat>)
    requires |v| == 3
    ensures Expands(Tokens(b), [], [b] + v)
  {
    assert Expands([], [], []) && [] + [Literal(b)] == [Literal(b)] && [] + [b] == [b];
    ExpandsNext([], Literal(b), [], [], [b]);
    AnyBytes([Literal(b)], 3, [], [b], v);
    assert [Literal(b)] + [Copy(3, 0)] == Tokens(b);
  }

  /** A fixed block with the byte b and then either of the last two distance symbols: the decoder may turn it into b
      and any three bytes. */
  lemma AnyOutput(b: nat, r: nat, d: nat, header: bool) returns (input: seq<nat>)
    requires b < 256 && r == 0 && 30 <= d < 32
    ensures AreBytes(input) && Holds(input, header, [Coded(FixedLengths(), FixedDistances(), Tokens(b))])
    ensures forall v: seq<nat> :: |v| == 3 ==> Possible(input, header, [b] + v)
  {
    var xs := ByteAndCopy(b, r, d);
    var p := FixedPlan(xs);
    BytesHold([p], header, 0);
    input := InputOf([p], header, 0);
    OneBlock(p, Tokens(b));
    forall v: seq<nat> | |v| == 3 ensures Possible(input, header, [b] + v) {
      AnyThree(b, v);
      PossibleIs(input, header, [Coded(FixedLengths(), FixedDistances(), Tokens(b))], [b] + v);
    }
  }

  /** Two outputs of the same input. */
  lemma TwoOutputs(b: nat, r: nat, d: nat, header: bool) returns (input: seq<nat>, o: seq<nat>, o': seq<nat>)
    requires b < 256 && r == 0 && 30 <= d < 32
    ensures AreBytes(input) && Possible(input, header, o) && Possible(input, header, o') && o != o'
  {
    input := AnyOutput(b, r, d, header);
    var v, v' := [0, 0, 0], [1, 1, 1];
    o, o' := [b] + v, [b] + v';
    assert o[1] == 0 && o'[1] == 1;
  }
}
