/**
 The protocol methods of spec091.go.  Every generated write/read pair goes through the
 method's fields in one order, so a method is described by its schema: the kinds of its
 fields, with a run of booleans packed into one octet.
 */
module Methods {
  import opened Options
  import opened Sequences
  import opened Wire
  import opened Fields
  import opened FieldLimits

  datatype Kind = Num(width: nat) | ShortStr | LongStr | FieldTable | Bits(count: nat)

  datatype Arg =
    | N(n: nat)
    | S(s: bytes)
    | T(m: map<bytes, Field>)
    | B(bits: seq<bool>)

  datatype Method = Method(cls: nat, id: nat, args: seq<Arg>)

  function ConnectionSchema(id: nat): Option<seq<Kind>> {
    match id
    case 10 => Some([Num(1), Num(1), FieldTable, LongStr, LongStr]) // connectionStart
    case 11 => Some([FieldTable, ShortStr, LongStr, ShortStr]) // connectionStartOk
    case 20 => Some([LongStr]) // connectionSecure
    case 21 => Some([LongStr]) // connectionSecureOk
    case 30 => Some([Num(2), Num(4), Num(2)]) // connectionTune
    case 31 => Some([Num(2), Num(4), Num(2)]) // connectionTuneOk
    case 40 => Some([ShortStr, ShortStr, Bits(1)]) // connectionOpen
    case 41 => Some([ShortStr]) // connectionOpenOk
    case 50 => Some([Num(2), ShortStr, Num(2), Num(2)]) // connectionClose
    case 51 => Some([]) // connectionCloseOk
    case 60 => Some([ShortStr]) // connectionBlocked
    case 61 => Some([]) // connectionUnblocked
    case _ => None
  }

  function ChannelSchema(id: nat): Option<seq<Kind>> {
    match id
    case 10 => Some([ShortStr]) // channelOpen
    case 11 => Some([LongStr]) // channelOpenOk
    case 20 => Some([Bits(1)]) // channelFlow
    case 21 => Some([Bits(1)]) // channelFlowOk
    case 40 => Some([Num(2), ShortStr, Num(2), Num(2)]) // channelClose
    case 41 => Some([]) // channelCloseOk
    case _ => None
  }

  function ExchangeSchema(id: nat): Option<seq<Kind>> {
    match id
    case 10 => Some([Num(2), ShortStr, ShortStr, Bits(5), FieldTable]) // exchangeDeclare
    case 11 => Some([]) // exchangeDeclareOk
    case 20 => Some([Num(2), ShortStr, Bits(2)]) // exchangeDelete
    case 21 => Some([]) // exchangeDeleteOk
    case 30 => Some([Num(2), ShortStr, ShortStr, ShortStr, Bits(1), FieldTable]) // exchangeBind
    case 31 => Some([]) // exchangeBindOk
    case 40 => Some([Num(2), ShortStr, ShortStr, ShortStr, Bits(1), FieldTable]) // exchangeUnbind
    case 51 => Some([]) // exchangeUnbindOk
    case _ => None
  }

  function QueueSchema(id: nat): Option<seq<Kind>> {
    match id
    case 10 => Some([Num(2), ShortStr, Bits(5), FieldTable]) // queueDeclare
    case 11 => Some([ShortStr, Num(4), Num(4)]) // queueDeclareOk
    case 20 => Some([Num(2), ShortStr, ShortStr, ShortStr, Bits(1), FieldTable]) // queueBind
    case 21 => Some([]) // queueBindOk
    case 50 => Some([Num(2), ShortStr, ShortStr, ShortStr, FieldTable]) // queueUnbind
    case 51 => Some([]) // queueUnbindOk
    case 30 => Some([Num(2), ShortStr, Bits(1)]) // queuePurge
    case 31 => Some([Num(4)]) // queuePurgeOk
    case 40 => Some([Num(2), ShortStr, Bits(3)]) // queueDelete
    case 41 => Some([Num(4)]) // queueDeleteOk
    case _ => None
  }

  function BasicSchema(id: nat): Option<seq<Kind>> {
    match id
    case 10 => Some([Num(4), Num(2), Bits(1)]) // basicQos
    case 11 => Some([]) // basicQosOk
    case 20 => Some([Num(2), ShortStr, ShortStr, Bits(4), FieldTable]) // basicConsume
    case 21 => Some([ShortStr]) // basicConsumeOk
    case 30 => Some([ShortStr, Bits(1)]) // basicCancel
    case 31 => Some([ShortStr]) // basicCancelOk
    case 40 => Some([Num(2), ShortStr, ShortStr, Bits(2)]) // basicPublish
    case 50 => Some([Num(2), ShortStr, ShortStr, ShortStr]) // basicReturn
    case 60 => Some([ShortStr, Num(8), Bits(1), ShortStr, ShortStr]) // basicDeliver
    case 70 => Some([Num(2), ShortStr, Bits(1)]) // basicGet
    case 71 => Some([Num(8), Bits(1), ShortStr, ShortStr, Num(4)]) // basicGetOk
    case 72 => Some([ShortStr]) // basicGetEmpty
    case 80 => Some([Num(8), Bits(1)]) // basicAck
    case 90 => Some([Num(8), Bits(1)]) // basicReject
    case 100 => Some([Bits(1)]) // basicRecoverAsync
    case 110 => Some([Bits(1)]) // basicRecover
    case 111 => Some([]) // basicRecoverOk
    case 120 => Some([Num(8), Bits(2)]) // basicNack
    case _ => None
  }

  function TxSchema(id: nat): Option<seq<Kind>> {
    match id
    case 10 => Some([]) // txSelect
    case 11 => Some([]) // txSelectOk
    case 20 => Some([]) // txCommit
    case 21 => Some([]) // txCommitOk
    case 30 => Some([]) // txRollback
    case 31 => Some([]) // txRollbackOk
    case _ => None
  }

  function ConfirmSchema(id: nat): Option<seq<Kind>> {
    match id
    case 10 => Some([Bits(1)]) // confirmSelect
    case 11 => Some([]) // confirmSelectOk
    case _ => None
  }

  /** The switch of parseMethodFrame: the fields of each method, in the order in which
      its write and its read both go through them. */
  function Schema(cls: nat, id: nat): Option<seq<Kind>> {
    match cls
    case 10 => ConnectionSchema(id)
    case 20 => ChannelSchema(id)
    case 40 => ExchangeSchema(id)
    case 50 => QueueSchema(id)
    case 60 => BasicSchema(id)
    case 90 => TxSchema(id)
    case 85 => ConfirmSchema(id)
    case _ => None
  }

  /** Methods with getContent/setContent. */
  predicate CarriesContent(m: Method) {
    m.cls == 60 && (m.id == 40 || m.id == 50 || m.id == 60 || m.id == 71)
  }

  // ----- Tables, in whatever order they were visited -----

  ghost predicate TableBytes(m: map<bytes, Field>, s: bytes) {
    exists es :: VisitsTable(es, m) && s == EncodeTable(es)
  }

  ghost predicate TableFits(m: map<bytes, Field>) {
    exists es :: VisitsTable(es, m) && FitsTable(es)
  }

  lemma TableReadBack(m: map<bytes, Field>, s: bytes, tail: bytes)
    requires TableBytes(m, s) && TableFits(m)
    ensures ReadTable(s + tail) == Got(m, tail)
  {
    var es :| VisitsTable(es, m) && s == EncodeTable(es);
    var es' :| VisitsTable(es', m) && FitsTable(es');
    SameSizeTable(es, es', m);
    TableRoundTrip(es, m, tail);
  }

  // ----- Bits in an octet -----

  function Mask(i: nat): bv8
    requires i < 8
  {
    match i
    case 0 => 0x01 case 1 => 0x02 case 2 => 0x04 case 3 => 0x08
    case 4 => 0x10 case 5 => 0x20 case 6 => 0x40 case 7 => 0x80
  }

  predicate IsSet(b: bv8, i: nat)
    requires i < 8
  {
    b & Mask(i) > 0
  }

  function Pack(bits: seq<bool>): (b: bv8)
    requires |bits| <= 8
  {
    if bits == [] then 0
    else
      var n := |bits| - 1;
      if bits[n] then Pack(bits[..n]) | Mask(n) else Pack(bits[..n])
  }

  function Unpack(b: bv8, n: nat): (bits: seq<bool>)
    requires n <= 8
    ensures |bits| == n && forall i :: 0 <= i < n ==> bits[i] == IsSet(b, i)
  {
    if n == 0 then [] else Unpack(b, n - 1) + [IsSet(b, n - 1)]
  }

  lemma SetBit(b: bv8, i: nat, j: nat)
    requires i < 8 && j < 8
    ensures IsSet(b | Mask(i), j) <==> i == j || IsSet(b, j)
  {}

  lemma {:induction false} PackSets(bits: seq<bool>, j: nat)
    requires |bits| <= 8 && j < 8
    ensures IsSet(Pack(bits), j) <==> j < |bits| && bits[j]
  {
    if bits != [] {
      var n := |bits| - 1;
      PackSets(bits[..n], j);
      SetBit(Pack(bits[..n]), n, j);
    }
  }

  lemma UnpackPack(bits: seq<bool>)
    requires |bits| <= 8
    ensures Unpack(Pack(bits), |bits|) == bits
  {
    forall i | 0 <= i < |bits| ensures Unpack(Pack(bits), |bits|)[i] == bits[i] {
      PackSets(bits, i);
    }
  }

  // ----- Arguments -----

  ghost predicate ArgFits(k: Kind, a: Arg) {
    match k
    case Num(w) => a.N? && a.n < Pow256(w)
    case ShortStr => a.S? && |a.s| <= 255
    case LongStr => a.S? && |a.s| < TWO32
    case FieldTable => a.T? && TableFits(a.m)
    case Bits(n) => a.B? && |a.bits| == n <= 8
  }

  ghost predicate ArgsFit(ks: seq<Kind>, args: seq<Arg>) {
    if ks == [] then args == []
    else args != [] && ArgFits(ks[0], args[0]) && ArgsFit(ks[1..], args[1..])
  }

  /** s is what writing the argument can put out. */
  ghost predicate ArgBytes(k: Kind, a: Arg, s: bytes) {
    match k
    case Num(w) => a.N? && s == BigEndian(w, a.n)
    case ShortStr => a.S? && s == Shortstr(a.s)
    case LongStr => a.S? && s == Longstr(a.s)
    case FieldTable => a.T? && TableBytes(a.m, s)
    case Bits(_) => a.B? && |a.bits| <= 8 && s == [Pack(a.bits) as int]
  }

  ghost predicate ArgsBytes(ks: seq<Kind>, args: seq<Arg>, s: bytes) {
    if ks == [] then args == [] && s == []
    else
      && args != []
      && exists n :: 0 <= n <= |s| && ArgBytes(ks[0], args[0], s[..n]) && ArgsBytes(ks[1..], args[1..], s[n..])
  }

  function ReadArg(k: Kind, s: bytes): (r: Parsed<Arg>)
    ensures |r.rest| <= |s|
  {
    match k
    case Num(w) => var (n, rest) :- ReadUint(s, w); Got(N(n), rest)
    case ShortStr => var (str, rest) :- ReadShortstr(s); Got(S(str), rest)
    case LongStr => var (str, rest) :- ReadLongstr(s); Got(S(str), rest)
    case FieldTable => var (m, rest) :- ReadTable(s); Got(T(m), rest)
    case Bits(n) =>
      var (b, rest) :- ReadUint(s, 1);
      Widths();
      Got(B(Unpack(b as bv8, if n <= 8 then n else 8)), rest)
  }

  function ReadArgs(ks: seq<Kind>, s: bytes): (r: Parsed<seq<Arg>>)
    ensures |r.rest| <= |s|
  {
    if ks == [] then Got([], s)
    else
      var (a, s1) :- ReadArg(ks[0], s);
      var (more, rest) :- ReadArgs(ks[1..], s1);
      Got([a] + more, rest)
  }

  lemma ArgRoundTrip(k: Kind, a: Arg, s: bytes, tail: bytes)
    requires ArgFits(k, a) && ArgBytes(k, a, s)
    ensures ReadArg(k, s + tail) == Got(a, tail)
  {
    match k
    case Num(w) => ReadUintAppend(w, a.n, tail);
    case ShortStr => ShortstrRoundTrip(a.s, tail);
    case LongStr => LongstrRoundTrip(a.s, tail);
    case FieldTable => TableReadBack(a.m, s, tail);
    case Bits(n) => BitsRoundTrip(n, a.bits, tail);
  }

  lemma BitsRoundTrip(n: nat, bits: seq<bool>, tail: bytes)
    requires |bits| == n <= 8
    ensures ReadArg(Bits(n), [Pack(bits) as int] + tail) == Got(B(bits), tail)
  {
    Widths();
    var b: byte := Pack(bits) as int;
    assert [b] + tail == [b] + [] + tail && [] + tail == tail;
    ReadTypeLetter(b, [], tail);
    assert b as bv8 == Pack(bits);
    UnpackPack(bits);
  }

  lemma ReadArgsCons(ks: seq<Kind>, a: Arg, more: seq<Arg>, s0: bytes, s1: bytes, s2: bytes)
    requires ks != [] && ReadArg(ks[0], s0) == Got(a, s1) && ReadArgs(ks[1..], s1) == Got(more, s2)
    ensures ReadArgs(ks, s0) == Got([a] + more, s2)
  {}

  lemma ArgsBytesSplit(ks: seq<Kind>, args: seq<Arg>, s: bytes) returns (first: bytes, more: bytes)
    requires ks != [] && ArgsBytes(ks, args, s)
    ensures args != [] && first + more == s && ArgBytes(ks[0], args[0], first) && ArgsBytes(ks[1..], args[1..], more)
  {
    var n :| 0 <= n <= |s| && ArgBytes(ks[0], args[0], s[..n]) && ArgsBytes(ks[1..], args[1..], s[n..]);
    first, more := s[..n], s[n..];
    Rejoin(s, n);
  }

  lemma FirstArgRoundTrip(ks: seq<Kind>, args: seq<Arg>, s: bytes, tail: bytes) returns (more: bytes)
    requires ks != [] && ArgsFit(ks, args) && ArgsBytes(ks, args, s)
    ensures ReadArg(ks[0], s + tail) == Got(args[0], more + tail)
    ensures ArgsBytes(ks[1..], args[1..], more)
  {
    var first;
    first, more := ArgsBytesSplit(ks, args, s);
    Assoc(first, more, tail);
    ArgRoundTrip(ks[0], args[0], first, more + tail);
  }

  lemma {:induction false} ArgsRoundTrip(ks: seq<Kind>, args: seq<Arg>, s: bytes, tail: bytes)
    requires ArgsFit(ks, args) && ArgsBytes(ks, args, s)
    ensures ReadArgs(ks, s + tail) == Got(args, tail)
  {
    if ks == [] {
      Empty(tail);
    } else {
      var more := FirstArgRoundTrip(ks, args, s, tail);
      ArgsRoundTrip(ks[1..], args[1..], more, tail);
      ReadArgsCons(ks, args[0], args[1..], s + tail, more + tail, tail);
      assert [args[0]] + args[1..] == args;
    }
  }

  // ----- Method payloads -----

  ghost predicate MethodFits(m: Method) {
    Schema(m.cls, m.id).Some? && ArgsFit(Schema(m.cls, m.id).value, m.args)
  }

  function MethodId(m: Method): bytes { BigEndian(2, m.cls) + BigEndian(2, m.id) }

  ghost predicate MethodBytes(m: Method, s: bytes) {
    && Schema(m.cls, m.id).Some?
    && |s| >= 4 && s[..4] == MethodId(m)
    && ArgsBytes(Schema(m.cls, m.id).value, m.args, s[4..])
  }

  /** parseMethodFrame */
  function ReadMethod(s: bytes): (r: Parsed<Method>)
    ensures |r.rest| <= |s|
  {
    var (cls, s1) :- ReadUint(s, 2);
    var (id, s2) :- ReadUint(s1, 2);
    if Schema(cls, id).None? then Bad(UnknownMethod, s2)
    else
      var (args, rest) :- ReadArgs(Schema(cls, id).value, s2);
      Got(Method(cls, id, args), rest)
  }

  lemma IdsFit(cls: nat, id: nat)
    requires Schema(cls, id).Some?
    ensures cls < Pow256(2) && id < Pow256(2)
  {
    Widths();
  }

  /** A method's read takes exactly the octets its write produced. */
  lemma MethodRoundTrip(m: Method, s: bytes, tail: bytes)
    requires MethodFits(m) && MethodBytes(m, s)
    ensures ReadMethod(s + tail) == Got(m, tail)
  {
    var more := s[4..] + tail;
    assert s + tail == BigEndian(2, m.cls) + (BigEndian(2, m.id) + more);
    IdsFit(m.cls, m.id);
    ReadUintAppend(2, m.cls, BigEndian(2, m.id) + more);
    ReadUintAppend(2, m.id, more);
    ArgsRoundTrip(Schema(m.cls, m.id).value, m.args, s[4..], tail);
  }
}
