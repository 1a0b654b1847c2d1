/**
 The flags of a content header's property list: one bit each, the first property in the
 most significant bit.

 Masks are real bit vectors.  What the rest of the codec needs of them is one fact, that a
 mask built from a set of flags announces exactly that set; from there on flags are
 members of sets.
 */
module Flags {
  datatype Flag = ContentType | ContentEncoding | Headers | DeliveryMode | Priority |
    CorrelationId | ReplyTo | Expiration | MessageId |
    Timestamp | Type | UserId | AppId | Reserved1

  const BITS: seq<bv16> := [0x8000, 0x4000, 0x2000, 0x1000, 0x0800, 0x0400, 0x0200,
                            0x0100, 0x0080, 0x0040, 0x0020, 0x0010, 0x0008, 0x0004]

  function Index(f: Flag): (i: nat)
    ensures i < 14
  {
    match f
    case ContentType => 0
    case ContentEncoding => 1
    case Headers => 2
    case DeliveryMode => 3
    case Priority => 4
    case CorrelationId => 5
    case ReplyTo => 6
    case Expiration => 7
    case MessageId => 8
    case Timestamp => 9
    case Type => 10
    case UserId => 11
    case AppId => 12
    case Reserved1 => 13
  }

  function Bit(f: Flag): bv16 { BITS[Index(f)] }

  predicate HasBit(mask: bv16, b: bv16) { mask & b != 0 }

  predicate HasProperty(mask: bv16, f: Flag) { HasBit(mask, Bit(f)) }

  /** The properties a mask announces. */
  function FlagsIn(mask: bv16): set<Flag> { set f: Flag | HasProperty(mask, f) }

  const FLAGS: seq<Flag> := [ContentType, ContentEncoding, Headers, DeliveryMode, Priority,
                             CorrelationId, ReplyTo, Expiration, MessageId, Timestamp, Type, UserId, AppId, Reserved1]

  function AddFlag(mask: bv16, present: bool, f: Flag): bv16 {
    if present then mask | Bit(f) else mask
  }

  /** The mask after the first n tests of the first pass of headerFrame.write. */
  function MaskUpTo(present: set<Flag>, n: nat): bv16
    requires n <= 14
  {
    if n == 0 then 0 else AddFlag(MaskUpTo(present, n - 1), FLAGS[n - 1] in present, FLAGS[n - 1])
  }

  function MaskOf(present: set<Flag>): bv16 { MaskUpTo(present, 14) }

  lemma Distribute(a: bv16, b: bv16, c: bv16)
    ensures (a | b) & c == (a & c) | (b & c)
  {}

  lemma OrZero(x: bv16, y: bv16)
    ensures x | y == 0 <==> x == 0 && y == 0
  {}

  lemma OrThenAnd(a: bv16, b: bv16, c: bv16)
    ensures HasBit(a | b, c) <==> HasBit(a, c) || HasBit(b, c)
  {
    Distribute(a, b, c);
    OrZero(a & c, b & c);
  }

  lemma ShiftsDisjoint(i: bv16, j: bv16)
    requires i < 14 && j < 14
    ensures HasBit(0x8000 >> i, 0x8000 >> j) <==> i == j
  {}

  lemma BitIsShift(i: nat)
    requires i < 14
    ensures BITS[i] == 0x8000 >> (i as bv16)
  {}

  lemma BitsDisjoint(i: nat, j: nat)
    requires i < 14 && j < 14
    ensures HasBit(BITS[i], BITS[j]) <==> i == j
  {
    BitIsShift(i);
    BitIsShift(j);
    ShiftsDisjoint(i as bv16, j as bv16);
  }

  lemma SetFlag(mask: bv16, f: Flag, g: Flag)
    ensures HasProperty(mask | Bit(f), g) <==> f == g || HasProperty(mask, g)
  {
    OrThenAnd(mask, Bit(f), Bit(g));
    BitsDisjoint(Index(f), Index(g));
  }

  lemma AddFlagTells(mask: bv16, present: bool, f: Flag, g: Flag)
    ensures HasProperty(AddFlag(mask, present, f), g) <==> (present && f == g) || HasProperty(mask, g)
  {
    SetFlag(mask, f, g);
  }

  lemma NoFlags(g: Flag)
    ensures !HasProperty(0, g)
  {}

  lemma FlagIndex(g: Flag, i: nat)
    requires i < 14
    ensures FLAGS[i] == g <==> i == Index(g)
  {}

  lemma {:induction false} MaskUpToTells(present: set<Flag>, n: nat, g: Flag)
    requires n <= 14
    ensures HasProperty(MaskUpTo(present, n), g) <==> g in present && Index(g) < n
  {
    if n == 0 {
      NoFlags(g);
    } else {
      var f := FLAGS[n - 1];
      MaskUpToTells(present, n - 1, g);
      AddFlagTells(MaskUpTo(present, n - 1), f in present, f, g);
      FlagIndex(g, n - 1);
    }
  }

  /** The flags are disjoint bits, so a mask announces exactly what it was built from. */
  lemma MaskTells(present: set<Flag>)
    ensures FlagsIn(MaskOf(present)) == present
  {
    forall g: Flag ensures HasProperty(MaskOf(present), g) <==> g in present {
      MaskUpToTells(present, 14, g);
    }
  }
}
