/** The bit operations on 32-bit event sets, and the laws the event object rests on. */
module EventBits {
  /** An rt_uint32_t set of flags. */
  datatype Bits = Bits(v: bv32)

  /** An rt_uint8_t receive option. */
  datatype Info = Info(v: bv8)

  const NONE: Bits := Bits(0)

  /** RT_EVENT_FLAG_AND, RT_EVENT_FLAG_OR and RT_EVENT_FLAG_CLEAR. */
  const AND: Info := Info(1)
  const OR: Info := Info(2)
  const CLEAR: Info := Info(4)

  predicate WantsAll(info: Info) { info.v & AND.v != 0 }
  predicate WantsAny(info: Info) { info.v & OR.v != 0 }
  predicate Consumes(info: Info) { info.v & CLEAR.v != 0 }

  function Common(a: Bits, b: Bits): Bits { Bits(a.v & b.v) }
  function Minus(a: Bits, b: Bits): Bits { Bits(a.v & !b.v) }
  function Union(a: Bits, b: Bits): Bits { Bits(a.v | b.v) }
  predicate Subset(a: Bits, b: Bits) { a.v & b.v == a.v }

  lemma SubsetSelf(a: Bits)
    ensures Subset(a, a)
  {
  }

  lemma SubsetTrans(a: Bits, b: Bits, c: Bits)
    requires Subset(a, b) && Subset(b, c)
    ensures Subset(a, c)
  {
  }

  lemma MinusSubset(a: Bits, b: Bits)
    ensures Subset(Minus(a, b), a)
  {
  }

  lemma CommonSwap(a: Bits, b: Bits)
    ensures Common(a, b) == Common(b, a)
  {
  }

  /** On the send path only the received flags are cleared, on the receive path all that were
      asked for; the event is left the same. */
  lemma ClearsAgree(want: Bits, flags: Bits)
    ensures Minus(flags, Common(want, flags)) == Minus(flags, want)
  {
  }

  lemma CommonGrows(want: Bits, fewer: Bits, more: Bits)
    requires Subset(fewer, more)
    ensures Common(want, fewer) == want ==> Common(want, more) == want
    ensures Common(want, fewer) != NONE ==> Common(want, more) != NONE
  {
  }

  /** What is left after removing g shares nothing with g. */
  lemma Disjoint(g: Bits, flags: Bits, later: Bits)
    requires Subset(later, Minus(flags, g))
    ensures Common(g, later) == NONE
  {
  }

  lemma DisjointPart(g: Bits, want: Bits, later: Bits)
    requires Common(g, later) == NONE
    ensures Common(g, Common(want, later)) == NONE
  {
  }

  /** What is taken out and what is left make up what was there. */
  lemma TakenAndLeft(flags: Bits, g: Bits)
    requires Subset(g, flags)
    ensures Union(Minus(flags, g), g) == flags
  {
  }

  lemma CommonPart(want: Bits, flags: Bits)
    ensures Subset(Common(want, flags), flags)
  {
  }

  lemma BothParts(f: Bits, a: Bits, b: Bits)
    requires f != NONE && Subset(f, a) && Subset(f, b)
    ensures Common(a, b) != NONE
  {
    assert f.v == f.v & (a.v & b.v);
  }

  lemma UnionSwap(a: Bits, b: Bits, c: Bits)
    ensures Union(a, Union(b, c)) == Union(Union(a, c), b)
    ensures Union(a, NONE) == a
  {
  }
}
