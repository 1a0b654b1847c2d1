/**
 The octets of each of the 62 methods of spec091.go, written out field by field and without
 the schemas, and what is read back from them.

 A method with a table has as many encodings as the table has; nine methods have one, and
 none has two.  Bits that follow one another share an octet, the first in its lowest bit.
 */
module MethodLayouts {
  import opened Options
  import opened Sequences
  import opened Wire
  import opened Fields
  import opened Methods

  type uint16 = x: int | 0 <= x < 0x1_0000

  function Flag(given: bool, bit: bv8): bv8 { if given then bit else 0 }

  /** Some encoding of the table stands between these octets. */
  ghost predicate WithTable(s: bytes, before: bytes, m: map<bytes, Field>, after: bytes) {
    exists tb :: TableBytes(m, tb) && s == before + tb + after
  }

  // ----- The arguments of a schema -----

  predicate Suits(k: Kind, a: Arg) {
    match k
    case Num(_) => a.N?
    case ShortStr => a.S?
    case LongStr => a.S?
    case FieldTable => a.T?
    case Bits(n) => a.B? && |a.bits| == n <= 8
  }

  function Piece(k: Kind, a: Arg, tb: bytes): bytes
    requires Suits(k, a)
  {
    match k
    case Num(w) => BigEndian(w, a.n)
    case ShortStr => Shortstr(a.s)
    case LongStr => Longstr(a.s)
    case FieldTable => tb
    case Bits(_) => [Pack(a.bits) as int]
  }

  predicate AllSuit(ks: seq<Kind>, args: seq<Arg>) {
    if ks == [] then args == [] else args != [] && Suits(ks[0], args[0]) && AllSuit(ks[1..], args[1..])
  }

  function Pieces(ks: seq<Kind>, args: seq<Arg>, tb: bytes): bytes
    requires AllSuit(ks, args)
  {
    if ks == [] then [] else Piece(ks[0], args[0], tb) + Pieces(ks[1..], args[1..], tb)
  }

  ghost predicate IsTable(a: Arg, tb: bytes) { a.T? ==> TableBytes(a.m, tb) }

  ghost predicate AreTables(args: seq<Arg>, tb: bytes) {
    args == [] || (IsTable(args[0], tb) && AreTables(args[1..], tb))
  }

  function TablesIn(ks: seq<Kind>): nat {
    if ks == [] then 0 else (if ks[0].FieldTable? then 1 else 0) + TablesIn(ks[1..])
  }

  lemma {:induction false} NoTable(ks: seq<Kind>, args: seq<Arg>, tb: bytes, tb': bytes)
    requires AllSuit(ks, args) && TablesIn(ks) == 0
    ensures Pieces(ks, args, tb) == Pieces(ks, args, tb') && AreTables(args, tb)
  {
    if ks != [] {
      NoTable(ks[1..], args[1..], tb, tb');
    }
  }

  lemma {:induction false} BytesArePieces(ks: seq<Kind>, args: seq<Arg>, s: bytes) returns (tb: bytes)
    requires AllSuit(ks, args) && TablesIn(ks) <= 1 && ArgsBytes(ks, args, s)
    ensures AreTables(args, tb) && s == Pieces(ks, args, tb)
  {
    tb := [];
    if ks != [] {
      var first, more := ArgsBytesSplit(ks, args, s);
      tb := BytesArePieces(ks[1..], args[1..], more);
      if ks[0].FieldTable? {
        NoTable(ks[1..], args[1..], tb, first);
        NoTable(ks[1..], args[1..], first, tb);
        tb := first;
      }
    }
  }

  lemma {:induction false} PiecesAreBytes(ks: seq<Kind>, args: seq<Arg>, tb: bytes)
    requires AllSuit(ks, args) && AreTables(args, tb)
    ensures ArgsBytes(ks, args, Pieces(ks, args, tb))
  {
    if ks != [] {
      PiecesAreBytes(ks[1..], args[1..], tb);
      var first, more := Piece(ks[0], args[0], tb), Pieces(ks[1..], args[1..], tb);
      assert (first + more)[..|first|] == first && (first + more)[|first|..] == more;
    }
  }

  // ----- Up to six arguments, one by one -----

  lemma Args0(h: bytes, tb: bytes)
    ensures h + Pieces([], [], tb) == h
  {
    Empty(h);
  }

  lemma Args1(h: bytes, k1: Kind, a1: Arg, tb: bytes)
    requires Suits(k1, a1)
    ensures AllSuit([k1], [a1])
    ensures h + Pieces([k1], [a1], tb) == h + Piece(k1, a1, tb)
    ensures AreTables([a1], tb) <==> IsTable(a1, tb)
    ensures TablesIn([k1]) == (if k1.FieldTable? then 1 else 0)
    ensures ArgsFit([k1], [a1]) <==> ArgFits(k1, a1)
  {
    assert [k1][1..] == [] && [a1][1..] == [];
    Empty(Piece(k1, a1, tb));
  }

  lemma Args2(h: bytes, k1: Kind, k2: Kind, a1: Arg, a2: Arg, tb: bytes)
    requires Suits(k1, a1) && Suits(k2, a2)
    ensures AllSuit([k1, k2], [a1, a2])
    ensures h + Pieces([k1, k2], [a1, a2], tb) == h + Piece(k1, a1, tb) + Piece(k2, a2, tb)
    ensures AreTables([a1, a2], tb) <==> IsTable(a1, tb) && IsTable(a2, tb)
    ensures TablesIn([k1, k2]) == (if k1.FieldTable? then 1 else 0) + (if k2.FieldTable? then 1 else 0)
    ensures ArgsFit([k1, k2], [a1, a2]) <==> ArgFits(k1, a1) && ArgFits(k2, a2)
  {
    assert [k1, k2][1..] == [k2] && [a1, a2][1..] == [a2];
    Args1(h + Piece(k1, a1, tb), k2, a2, tb);
    Assoc(h, Piece(k1, a1, tb), Pieces([k2], [a2], tb));
  }

  lemma Args3(h: bytes, k1: Kind, k2: Kind, k3: Kind, a1: Arg, a2: Arg, a3: Arg, tb: bytes)
    requires Suits(k1, a1) && Suits(k2, a2) && Suits(k3, a3)
    ensures AllSuit([k1, k2, k3], [a1, a2, a3])
    ensures h + Pieces([k1, k2, k3], [a1, a2, a3], tb) ==
            h + Piece(k1, a1, tb) + Piece(k2, a2, tb) + Piece(k3, a3, tb)
    ensures AreTables([a1, a2, a3], tb) <==> IsTable(a1, tb) && IsTable(a2, tb) && IsTable(a3, tb)
    ensures TablesIn([k1, k2, k3]) ==
            (if k1.FieldTable? then 1 else 0) + (if k2.FieldTable? then 1 else 0) + (if k3.FieldTable? then 1 else 0)
    ensures ArgsFit([k1, k2, k3], [a1, a2, a3]) <==> ArgFits(k1, a1) && ArgFits(k2, a2) && ArgFits(k3, a3)
  {
    assert [k1, k2, k3][1..] == [k2, k3] && [a1, a2, a3][1..] == [a2, a3];
    Args2(h + Piece(k1, a1, tb), k2, k3, a2, a3, tb);
    Assoc(h, Piece(k1, a1, tb), Pieces([k2, k3], [a2, a3], tb));
  }

  lemma Args4(h: bytes, k1: Kind, k2: Kind, k3: Kind, k4: Kind, a1: Arg, a2: Arg, a3: Arg, a4: Arg, tb: bytes)
    requires Suits(k1, a1) && Suits(k2, a2) && Suits(k3, a3) && Suits(k4, a4)
    ensures AllSuit([k1, k2, k3, k4], [a1, a2, a3, a4])
    ensures h + Pieces([k1, k2, k3, k4], [a1, a2, a3, a4], tb) ==
            h + Piece(k1, a1, tb) + Piece(k2, a2, tb) + Piece(k3, a3, tb) + Piece(k4, a4, tb)
    ensures AreTables([a1, a2, a3, a4], tb) <==>
            IsTable(a1, tb) && IsTable(a2, tb) && IsTable(a3, tb) && IsTable(a4, tb)
    ensures TablesIn([k1, k2, k3, k4]) ==
            (if k1.FieldTable? then 1 else 0) + (if k2.FieldTable? then 1 else 0) +
            (if k3.FieldTable? then 1 else 0) + (if k4.FieldTable? then 1 else 0)
    ensures ArgsFit([k1, k2, k3, k4], [a1, a2, a3, a4]) <==>
            ArgFits(k1, a1) && ArgFits(k2, a2) && ArgFits(k3, a3) && ArgFits(k4, a4)
  {
    assert [k1, k2, k3, k4][1..] == [k2, k3, k4] && [a1, a2, a3, a4][1..] == [a2, a3, a4];
    Args3(h + Piece(k1, a1, tb), k2, k3, k4, a2, a3, a4, tb);
    Assoc(h, Piece(k1, a1, tb), Pieces([k2, k3, k4], [a2, a3, a4], tb));
  }

  lemma Args5(h: bytes, k1: Kind, k2: Kind, k3: Kind, k4: Kind, k5: Kind, a1: Arg, a2: Arg, a3: Arg, a4: Arg,
        a5: Arg, tb: bytes)
    requires Suits(k1, a1) && Suits(k2, a2) && Suits(k3, a3) && Suits(k4, a4) && Suits(k5, a5)
    ensures AllSuit([k1, k2, k3, k4, k5], [a1, a2, a3, a4, a5])
    ensures h + Pieces([k1, k2, k3, k4, k5], [a1, a2, a3, a4, a5], tb) ==
            h + Piece(k1, a1, tb) + Piece(k2, a2, tb) + Piece(k3, a3, tb) + Piece(k4, a4, tb) + Piece(k5, a5, tb)
    ensures AreTables([a1, a2, a3, a4, a5], tb) <==>
            IsTable(a1, tb) && IsTable(a2, tb) && IsTable(a3, tb) && IsTable(a4, tb) && IsTable(a5, tb)
    ensures TablesIn([k1, k2, k3, k4, k5]) ==
            (if k1.FieldTable? then 1 else 0) + (if k2.FieldTable? then 1 else 0) +
            (if k3.FieldTable? then 1 else 0) + (if k4.FieldTable? then 1 else 0) + (if k5.FieldTable? then 1 else 0)
    ensures ArgsFit([k1, k2, k3, k4, k5], [a1, a2, a3, a4, a5]) <==>
            ArgFits(k1, a1) && ArgFits(k2, a2) && ArgFits(k3, a3) && ArgFits(k4, a4) && ArgFits(k5, a5)
  {
    assert [k1, k2, k3, k4, k5][1..] == [k2, k3, k4, k5] && [a1, a2, a3, a4, a5][1..] == [a2, a3, a4, a5];
    Args4(h + Piece(k1, a1, tb), k2, k3, k4, k5, a2, a3, a4, a5, tb);
    Assoc(h, Piece(k1, a1, tb), Pieces([k2, k3, k4, k5], [a2, a3, a4, a5], tb));
  }

  lemma Args6(h: bytes, k1: Kind, k2: Kind, k3: Kind, k4: Kind, k5: Kind, k6: Kind, a1: Arg, a2: Arg, a3: Arg,
        a4: Arg, a5: Arg, a6: Arg, tb: bytes)
    requires Suits(k1, a1) && Suits(k2, a2) && Suits(k3, a3) && Suits(k4, a4) && Suits(k5, a5) && Suits(k6, a6)
    ensures AllSuit([k1, k2, k3, k4, k5, k6], [a1, a2, a3, a4, a5, a6])
    ensures h + Pieces([k1, k2, k3, k4, k5, k6], [a1, a2, a3, a4, a5, a6], tb) ==
            h + Piece(k1, a1, tb) + Piece(k2, a2, tb) + Piece(k3, a3, tb) + Piece(k4, a4, tb) +
            Piece(k5, a5, tb) + Piece(k6, a6, tb)
    ensures AreTables([a1, a2, a3, a4, a5, a6], tb) <==>
            IsTable(a1, tb) && IsTable(a2, tb) && IsTable(a3, tb) && IsTable(a4, tb) && IsTable(a5, tb) &&
            IsTable(a6, tb)
    ensures TablesIn([k1, k2, k3, k4, k5, k6]) ==
            (if k1.FieldTable? then 1 else 0) + (if k2.FieldTable? then 1 else 0) +
            (if k3.FieldTable? then 1 else 0) + (if k4.FieldTable? then 1 else 0) +
            (if k5.FieldTable? then 1 else 0) + (if k6.FieldTable? then 1 else 0)
    ensures ArgsFit([k1, k2, k3, k4, k5, k6], [a1, a2, a3, a4, a5, a6]) <==>
            ArgFits(k1, a1) && ArgFits(k2, a2) && ArgFits(k3, a3) && ArgFits(k4, a4) && ArgFits(k5, a5) &&
            ArgFits(k6, a6)
  {
    assert [k1, k2, k3, k4, k5, k6][1..] == [k2, k3, k4, k5, k6] && [a1, a2, a3, a4, a5, a6][1..] == [a2, a3, a4,
          a5, a6];
    Args5(h + Piece(k1, a1, tb), k2, k3, k4, k5, k6, a2, a3, a4, a5, a6, tb);
    Assoc(h, Piece(k1, a1, tb), Pieces([k2, k3, k4, k5, k6], [a2, a3, a4, a5, a6], tb));
  }

  lemma Bits1(b1: bool)
    ensures Pack([b1]) == Flag(b1, 0x01)
    ensures Pack([b1]) as int == if b1 then 1 else 0
  {
    assert [b1][..0] == [];
  }

  lemma Bits2(b1: bool, b2: bool)
    ensures Pack([b1, b2]) == Flag(b1, 0x01) | Flag(b2, 0x02)
  {
    assert [b1, b2][..1] == [b1];
    Bits1(b1);
  }

  lemma Bits3(b1: bool, b2: bool, b3: bool)
    ensures Pack([b1, b2, b3]) == Flag(b1, 0x01) | Flag(b2, 0x02) | Flag(b3, 0x04)
  {
    assert [b1, b2, b3][..2] == [b1, b2];
    Bits2(b1, b2);
  }

  lemma Bits4(b1: bool, b2: bool, b3: bool, b4: bool)
    ensures Pack([b1, b2, b3, b4]) == Flag(b1, 0x01) | Flag(b2, 0x02) | Flag(b3, 0x04) | Flag(b4, 0x08)
  {
    assert [b1, b2, b3, b4][..3] == [b1, b2, b3];
    Bits3(b1, b2, b3);
  }

  lemma Bits5(b1: bool, b2: bool, b3: bool, b4: bool, b5: bool)
    ensures Pack([b1, b2, b3, b4, b5]) == Flag(b1, 0x01) | Flag(b2, 0x02) | Flag(b3, 0x04) | Flag(b4, 0x08) |
          Flag(b5, 0x10)
  {
    assert [b1, b2, b3, b4, b5][..4] == [b1, b2, b3, b4];
    Bits4(b1, b2, b3, b4);
  }

  lemma One(x: byte)
    ensures BigEndian(1, x) == [x]
  {
    assert BigEndian(0, x / 256) == [];
  }

  /** Class and method id, as they are written. */
  lemma Ids(m: Method)
    requires m.cls < 256 && m.id < 256
    ensures MethodId(m) == [0, m.cls, 0, m.id]
  {
    One(0);
    assert BigEndian(1, 0) == [0];
  }

  lemma Spelled(m: Method, ks: seq<Kind>, s: bytes, tail: bytes)
    requires Schema(m.cls, m.id) == Some(ks) && AllSuit(ks, m.args) && TablesIn(ks) == 0
    ensures var octets := [0, m.cls, 0, m.id] + Pieces(ks, m.args, []);
            && (MethodBytes(m, s) <==> s == octets)
            && (ArgsFit(ks, m.args) ==> ReadMethod(octets + tail) == Got(m, tail))
    ensures Pow256(1) == 0x100 && Pow256(2) == 0x1_0000 && Pow256(4) == TWO32 && Pow256(8) == TWO32 * TWO32
  {
    Ids(m);
    Widths();
    NoTable(ks, m.args, [], []);
    WrittenOne(m, ks, []);
    if MethodBytes(m, s) {
      var tb := BytesArePieces(ks, m.args, s[4..]);
      NoTable(ks, m.args, tb, []);
      Rejoin(s, 4);
    }
    if ArgsFit(ks, m.args) {
      MethodRoundTrip(m, MethodId(m) + Pieces(ks, m.args, []), tail);
    }
  }

  lemma WrittenOne(m: Method, ks: seq<Kind>, tb: bytes)
    requires Schema(m.cls, m.id) == Some(ks) && AllSuit(ks, m.args) && AreTables(m.args, tb)
    ensures MethodBytes(m, MethodId(m) + Pieces(ks, m.args, tb))
  {
    var id, rest := MethodId(m), Pieces(ks, m.args, tb);
    PiecesAreBytes(ks, m.args, tb);
    assert (id + rest)[..4] == id && (id + rest)[4..] == rest;
  }

  /** The table's place among the octets. */
  ghost predicate Around(m: Method, ks: seq<Kind>, before: bytes, t: map<bytes, Field>, after: bytes, tb: bytes)
    requires AllSuit(ks, m.args)
  {
    && MethodId(m) + Pieces(ks, m.args, tb) == before + tb + after
    && (AreTables(m.args, tb) <==> TableBytes(t, tb))
  }

  lemma SpelledWithTable(m: Method, ks: seq<Kind>, s: bytes, before: bytes, t: map<bytes, Field>, after: bytes,
        tail: bytes)
    requires Schema(m.cls, m.id) == Some(ks) && AllSuit(ks, m.args) && TablesIn(ks) == 1
    requires forall tb :: Around(m, ks, before, t, after, tb)
    ensures MethodBytes(m, s) <==> WithTable(s, before, t, after)
    ensures MethodBytes(m, s) && ArgsFit(ks, m.args) ==> ReadMethod(s + tail) == Got(m, tail)
    ensures Pow256(1) == 0x100 && Pow256(2) == 0x1_0000 && Pow256(4) == TWO32 && Pow256(8) == TWO32 * TWO32
  {
    Widths();
    if MethodBytes(m, s) {
      var tb := BytesArePieces(ks, m.args, s[4..]);
      assert Around(m, ks, before, t, after, tb);
      Rejoin(s, 4);
      if ArgsFit(ks, m.args) {
        MethodRoundTrip(m, s, tail);
      }
    }
    if WithTable(s, before, t, after) {
      var tb :| TableBytes(t, tb) && s == before + tb + after;
      assert Around(m, ks, before, t, after, tb);
      WrittenOne(m, ks, tb);
    }
  }

  // ----- Class 10 -----

  lemma ConnectionStart(versionMajor: byte, versionMinor: byte, serverProperties: map<bytes, Field>,
        mechanisms: bytes, locales: bytes, s: bytes, tail: bytes)
    ensures var m := Method(10, 10, [N(versionMajor), N(versionMinor), T(serverProperties), S(mechanisms),
                  S(locales)]);
            var before := [0, 10, 0, 10] + [versionMajor] + [versionMinor];
            var after := Longstr(mechanisms) + Longstr(locales);
            && (MethodBytes(m, s) <==> WithTable(s, before, serverProperties, after))
            && (MethodBytes(m, s) && TableFits(serverProperties) && |mechanisms| < TWO32 && |locales| < TWO32 ==>
                ReadMethod(s + tail) == Got(m, tail))
  {
    var m := Method(10, 10, [N(versionMajor), N(versionMinor), T(serverProperties), S(mechanisms), S(locales)]);
    var before := [0, 10, 0, 10] + [versionMajor] + [versionMinor];
    var after := Longstr(mechanisms) + Longstr(locales);
    ConnectionStartTable(versionMajor, versionMinor, serverProperties, mechanisms, locales, []);
    forall tb: bytes ensures Around(m, [Num(1), Num(1), FieldTable, LongStr, LongStr], before, serverProperties,
          after, tb) {
      ConnectionStartTable(versionMajor, versionMinor, serverProperties, mechanisms, locales, tb);
    }
    SpelledWithTable(m, [Num(1), Num(1), FieldTable, LongStr, LongStr], s, before, serverProperties, after, tail);
  }

  lemma ConnectionStartTable(versionMajor: byte, versionMinor: byte, serverProperties: map<bytes, Field>,
        mechanisms: bytes, locales: bytes, tb: bytes)
    ensures var m := Method(10, 10, [N(versionMajor), N(versionMinor), T(serverProperties), S(mechanisms),
                  S(locales)]);
            var ks := [Num(1), Num(1), FieldTable, LongStr, LongStr];
            var before := [0, 10, 0, 10] + [versionMajor] + [versionMinor];
            var after := Longstr(mechanisms) + Longstr(locales);
            && AllSuit(ks, m.args) && TablesIn(ks) == 1
            && Around(m, ks, before, serverProperties, after, tb)
            && (TableFits(serverProperties) && |mechanisms| < TWO32 && |locales| < TWO32 ==>
                ArgsFit(ks, m.args))
  {
    var m := Method(10, 10, [N(versionMajor), N(versionMinor), T(serverProperties), S(mechanisms), S(locales)]);
    One(versionMajor);
    One(versionMinor);
    var before := [0, 10, 0, 10] + [versionMajor] + [versionMinor];
    Widths();
    Ids(m);
    Args5([0, 10, 0, 10], Num(1), Num(1), FieldTable, LongStr, LongStr, N(versionMajor), N(versionMinor),
          T(serverProperties), S(mechanisms), S(locales), tb);
    Assoc(before + tb, Longstr(mechanisms), Longstr(locales));
  }

  lemma ConnectionStartOk(clientProperties: map<bytes, Field>, mechanism: bytes, response: bytes, locale: bytes,
        s: bytes, tail: bytes)
    ensures var m := Method(10, 11, [T(clientProperties), S(mechanism), S(response), S(locale)]);
            var before := [0, 10, 0, 11];
            var after := Shortstr(mechanism) + Longstr(response) + Shortstr(locale);
            && (MethodBytes(m, s) <==> WithTable(s, before, clientProperties, after))
            && (MethodBytes(m, s) && TableFits(clientProperties) && |mechanism| <= 255 && |response| < TWO32 &&
                |locale| <= 255 ==>
                ReadMethod(s + tail) == Got(m, tail))
  {
    var m := Method(10, 11, [T(clientProperties), S(mechanism), S(response), S(locale)]);
    var before := [0, 10, 0, 11];
    var after := Shortstr(mechanism) + Longstr(response) + Shortstr(locale);
    ConnectionStartOkTable(clientProperties, mechanism, response, locale, []);
    forall tb: bytes ensures Around(m, [FieldTable, ShortStr, LongStr, ShortStr], before, clientProperties, after,
          tb) {
      ConnectionStartOkTable(clientProperties, mechanism, response, locale, tb);
    }
    SpelledWithTable(m, [FieldTable, ShortStr, LongStr, ShortStr], s, before, clientProperties, after, tail);
  }

  lemma ConnectionStartOkTable(clientProperties: map<bytes, Field>, mechanism: bytes, response: bytes,
        locale: bytes, tb: bytes)
    ensures var m := Method(10, 11, [T(clientProperties), S(mechanism), S(response), S(locale)]);
            var ks := [FieldTable, ShortStr, LongStr, ShortStr];
            var before := [0, 10, 0, 11];
            var after := Shortstr(mechanism) + Longstr(response) + Shortstr(locale);
            && AllSuit(ks, m.args) && TablesIn(ks) == 1
            && Around(m, ks, before, clientProperties, after, tb)
            && (TableFits(clientProperties) && |mechanism| <= 255 && |response| < TWO32 && |locale| <= 255 ==>
                ArgsFit(ks, m.args))
  {
    var m := Method(10, 11, [T(clientProperties), S(mechanism), S(response), S(locale)]);
    var before := [0, 10, 0, 11];
    Widths();
    Ids(m);
    Args4([0, 10, 0, 11], FieldTable, ShortStr, LongStr, ShortStr, T(clientProperties), S(mechanism), S(response),
          S(locale), tb);
    Assoc(before + tb, Shortstr(mechanism) + Longstr(response), Shortstr(locale));
    Assoc(before + tb, Shortstr(mechanism), Longstr(response));
  }

  lemma ConnectionSecure(challenge: bytes, s: bytes, tail: bytes)
    ensures var m := Method(10, 20, [S(challenge)]);
            var octets := [0, 10, 0, 20] + Longstr(challenge);
            && (MethodBytes(m, s) <==> s == octets)
            && (|challenge| < TWO32 ==> ReadMethod(octets + tail) == Got(m, tail))
  {
    var m := Method(10, 20, [S(challenge)]);
    Args1([0, 10, 0, 20], LongStr, S(challenge), []);
    Spelled(m, [LongStr], s, tail);
  }

  lemma ConnectionSecureOk(response: bytes, s: bytes, tail: bytes)
    ensures var m := Method(10, 21, [S(response)]);
            var octets := [0, 10, 0, 21] + Longstr(response);
            && (MethodBytes(m, s) <==> s == octets)
            && (|response| < TWO32 ==> ReadMethod(octets + tail) == Got(m, tail))
  {
    var m := Method(10, 21, [S(response)]);
    Args1([0, 10, 0, 21], LongStr, S(response), []);
    Spelled(m, [LongStr], s, tail);
  }

  lemma ConnectionTune(channelMax: uint16, frameMax: uint32, heartbeat: uint16, s: bytes, tail: bytes)
    ensures var m := Method(10, 30, [N(channelMax), N(frameMax), N(heartbeat)]);
            var octets := [0, 10, 0, 30] + BigEndian(2, channelMax) + BigEndian(4, frameMax) +
                BigEndian(2, heartbeat);
            && (MethodBytes(m, s) <==> s == octets)
            && ReadMethod(octets + tail) == Got(m, tail)
  {
    var m := Method(10, 30, [N(channelMax), N(frameMax), N(heartbeat)]);
    Args3([0, 10, 0, 30], Num(2), Num(4), Num(2), N(channelMax), N(frameMax), N(heartbeat), []);
    Spelled(m, [Num(2), Num(4), Num(2)], s, tail);
  }

  lemma ConnectionTuneOk(channelMax: uint16, frameMax: uint32, heartbeat: uint16, s: bytes, tail: bytes)
    ensures var m := Method(10, 31, [N(channelMax), N(frameMax), N(heartbeat)]);
            var octets := [0, 10, 0, 31] + BigEndian(2, channelMax) + BigEndian(4, frameMax) +
                BigEndian(2, heartbeat);
            && (MethodBytes(m, s) <==> s == octets)
            && ReadMethod(octets + tail) == Got(m, tail)
  {
    var m := Method(10, 31, [N(channelMax), N(frameMax), N(heartbeat)]);
    Args3([0, 10, 0, 31], Num(2), Num(4), Num(2), N(channelMax), N(frameMax), N(heartbeat), []);
    Spelled(m, [Num(2), Num(4), Num(2)], s, tail);
  }

  lemma ConnectionOpen(virtualHost: bytes, reserved: bytes, reserved2: bool, s: bytes, tail: bytes)
    ensures var m := Method(10, 40, [S(virtualHost), S(reserved), B([reserved2])]);
            var octets := [0, 10, 0, 40] + Shortstr(virtualHost) + Shortstr(reserved) +
                [if reserved2 then 1 else 0];
            && (MethodBytes(m, s) <==> s == octets)
            && (|virtualHost| <= 255 && |reserved| <= 255 ==> ReadMethod(octets + tail) == Got(m, tail))
  {
    var m := Method(10, 40, [S(virtualHost), S(reserved), B([reserved2])]);
    Bits1(reserved2);
    Args3([0, 10, 0, 40], ShortStr, ShortStr, Bits(1), S(virtualHost), S(reserved), B([reserved2]), []);
    Spelled(m, [ShortStr, ShortStr, Bits(1)], s, tail);
  }

  lemma ConnectionOpenOk(reserved: bytes, s: bytes, tail: bytes)
    ensures var m := Method(10, 41, [S(reserved)]);
            var octets := [0, 10, 0, 41] + Shortstr(reserved);
            && (MethodBytes(m, s) <==> s == octets)
            && (|reserved| <= 255 ==> ReadMethod(octets + tail) == Got(m, tail))
  {
    var m := Method(10, 41, [S(reserved)]);
    Args1([0, 10, 0, 41], ShortStr, S(reserved), []);
    Spelled(m, [ShortStr], s, tail);
  }

  lemma ConnectionClose(replyCode: uint16, replyText: bytes, classId: uint16, methodId: uint16, s: bytes, tail: bytes)
    ensures var m := Method(10, 50, [N(replyCode), S(replyText), N(classId), N(methodId)]);
            var octets := [0, 10, 0, 50] + BigEndian(2, replyCode) + Shortstr(replyText) + BigEndian(2, classId) +
                BigEndian(2, methodId);
            && (MethodBytes(m, s) <==> s == octets)
            && (|replyText| <= 255 ==> ReadMethod(octets + tail) == Got(m, tail))
  {
    var m := Method(10, 50, [N(replyCode), S(replyText), N(classId), N(methodId)]);
    Args4([0, 10, 0, 50], Num(2), ShortStr, Num(2), Num(2), N(replyCode), S(replyText), N(classId), N(methodId),
          []);
    Spelled(m, [Num(2), ShortStr, Num(2), Num(2)], s, tail);
  }

  lemma ConnectionCloseOk(s: bytes, tail: bytes)
    ensures var m := Method(10, 51, []);
            var octets := [0, 10, 0, 51];
            && (MethodBytes(m, s) <==> s == octets)
            && ReadMethod(octets + tail) == Got(m, tail)
  {
    var m := Method(10, 51, []);
    Args0([0, 10, 0, 51], []);
    Spelled(m, [], s, tail);
  }

  lemma ConnectionBlocked(reason: bytes, s: bytes, tail: bytes)
    ensures var m := Method(10, 60, [S(reason)]);
            var octets := [0, 10, 0, 60] + Shortstr(reason);
            && (MethodBytes(m, s) <==> s == octets)
            && (|reason| <= 255 ==> ReadMethod(octets + tail) == Got(m, tail))
  {
    var m := Method(10, 60, [S(reason)]);
    Args1([0, 10, 0, 60], ShortStr, S(reason), []);
    Spelled(m, [ShortStr], s, tail);
  }

  lemma ConnectionUnblocked(s: bytes, tail: bytes)
    ensures var m := Method(10, 61, []);
            var octets := [0, 10, 0, 61];
            && (MethodBytes(m, s) <==> s == octets)
            && ReadMethod(octets + tail) == Got(m, tail)
  {
    var m := Method(10, 61, []);
    Args0([0, 10, 0, 61], []);
    Spelled(m, [], s, tail);
  }

  // ----- Class 20 -----

  lemma ChannelOpen(reserved: bytes, s: bytes, tail: bytes)
    ensures var m := Method(20, 10, [S(reserved)]);
            var octets := [0, 20, 0, 10] + Shortstr(reserved);
            && (MethodBytes(m, s) <==> s == octets)
            && (|reserved| <= 255 ==> ReadMethod(octets + tail) == Got(m, tail))
  {
    var m := Method(20, 10, [S(reserved)]);
    Args1([0, 20, 0, 10], ShortStr, S(reserved), []);
    Spelled(m, [ShortStr], s, tail);
  }

  lemma ChannelOpenOk(reserved: bytes, s: bytes, tail: bytes)
    ensures var m := Method(20, 11, [S(reserved)]);
            var octets := [0, 20, 0, 11] + Longstr(reserved);
            && (MethodBytes(m, s) <==> s == octets)
            && (|reserved| < TWO32 ==> ReadMethod(octets + tail) == Got(m, tail))
  {
    var m := Method(20, 11, [S(reserved)]);
    Args1([0, 20, 0, 11], LongStr, S(reserved), []);
    Spelled(m, [LongStr], s, tail);
  }

  lemma ChannelFlow(active: bool, s: bytes, tail: bytes)
    ensures var m := Method(20, 20, [B([active])]);
            var octets := [0, 20, 0, 20] + [if active then 1 else 0];
            && (MethodBytes(m, s) <==> s == octets)
            && ReadMethod(octets + tail) == Got(m, tail)
  {
    var m := Method(20, 20, [B([active])]);
    Bits1(active);
    Args1([0, 20, 0, 20], Bits(1), B([active]), []);
    Spelled(m, [Bits(1)], s, tail);
  }

  lemma ChannelFlowOk(active: bool, s: bytes, tail: bytes)
    ensures var m := Method(20, 21, [B([active])]);
            var octets := [0, 20, 0, 21] + [if active then 1 else 0];
            && (MethodBytes(m, s) <==> s == octets)
            && ReadMethod(octets + tail) == Got(m, tail)
  {
    var m := Method(20, 21, [B([active])]);
    Bits1(active);
    Args1([0, 20, 0, 21], Bits(1), B([active]), []);
    Spelled(m, [Bits(1)], s, tail);
  }

  lemma ChannelClose(replyCode: uint16, replyText: bytes, classId: uint16, methodId: uint16, s: bytes, tail: bytes)
    ensures var m := Method(20, 40, [N(replyCode), S(replyText), N(classId), N(methodId)]);
            var octets := [0, 20, 0, 40] + BigEndian(2, replyCode) + Shortstr(replyText) + BigEndian(2, classId) +
                BigEndian(2, methodId);
            && (MethodBytes(m, s) <==> s == octets)
            && (|replyText| <= 255 ==> ReadMethod(octets + tail) == Got(m, tail))
  {
    var m := Method(20, 40, [N(replyCode), S(replyText), N(classId), N(methodId)]);
    Args4([0, 20, 0, 40], Num(2), ShortStr, Num(2), Num(2), N(replyCode), S(replyText), N(classId), N(methodId),
          []);
    Spelled(m, [Num(2), ShortStr, Num(2), Num(2)], s, tail);
  }

  lemma ChannelCloseOk(s: bytes, tail: bytes)
    ensures var m := Method(20, 41, []);
            var octets := [0, 20, 0, 41];
            && (MethodBytes(m, s) <==> s == octets)
            && ReadMethod(octets + tail) == Got(m, tail)
  {
    var m := Method(20, 41, []);
    Args0([0, 20, 0, 41], []);
    Spelled(m, [], s, tail);
  }

  // ----- Class 40 -----

  lemma ExchangeDeclare(reserved1: uint16, exchange: bytes, typ: bytes, passive: bool, durable: bool,
        autoDelete: bool, internal: bool, noWait: bool, arguments: map<bytes, Field>, s: bytes, tail: bytes)
    ensures var m := Method(40, 10, [N(reserved1), S(exchange), S(typ), B([passive, durable, autoDelete, internal,
                  noWait]), T(arguments)]);
            var before := [0, 40, 0, 10] + BigEndian(2, reserved1) + Shortstr(exchange) + Shortstr(typ) +
                [(Flag(passive, 0x01) | Flag(durable, 0x02) | Flag(autoDelete, 0x04) | Flag(internal, 0x08) |
                      Flag(noWait, 0x10)) as int];
            && (MethodBytes(m, s) <==> WithTable(s, before, arguments, []))
            && (MethodBytes(m, s) && |exchange| <= 255 && |typ| <= 255 && TableFits(arguments) ==>
                ReadMethod(s + tail) == Got(m, tail))
  {
    var m := Method(40, 10, [N(reserved1), S(exchange), S(typ), B([passive, durable, autoDelete, internal,
          noWait]), T(arguments)]);
    var before := [0, 40, 0, 10] + BigEndian(2, reserved1) + Shortstr(exchange) + Shortstr(typ) +
        [(Flag(passive, 0x01) | Flag(durable, 0x02) | Flag(autoDelete, 0x04) | Flag(internal, 0x08) |
              Flag(noWait, 0x10)) as int];
    ExchangeDeclareTable(reserved1, exchange, typ, passive, durable, autoDelete, internal, noWait, arguments, []);
    forall tb: bytes ensures Around(m, [Num(2), ShortStr, ShortStr, Bits(5), FieldTable], before, arguments, [], tb) {
      ExchangeDeclareTable(reserved1, exchange, typ, passive, durable, autoDelete, internal, noWait, arguments, tb);
    }
    SpelledWithTable(m, [Num(2), ShortStr, ShortStr, Bits(5), FieldTable], s, before, arguments, [], tail);
  }

  lemma ExchangeDeclareTable(reserved1: uint16, exchange: bytes, typ: bytes, passive: bool, durable: bool,
        autoDelete: bool, internal: bool, noWait: bool, arguments: map<bytes, Field>, tb: bytes)
    ensures var m := Method(40, 10, [N(reserved1), S(exchange), S(typ), B([passive, durable, autoDelete, internal,
                  noWait]), T(arguments)]);
            var ks := [Num(2), ShortStr, ShortStr, Bits(5), FieldTable];
            var before := [0, 40, 0, 10] + BigEndian(2, reserved1) + Shortstr(exchange) + Shortstr(typ) +
                [(Flag(passive, 0x01) | Flag(durable, 0x02) | Flag(autoDelete, 0x04) | Flag(internal, 0x08) |
                      Flag(noWait, 0x10)) as int];
            && AllSuit(ks, m.args) && TablesIn(ks) == 1
            && Around(m, ks, before, arguments, [], tb)
            && (|exchange| <= 255 && |typ| <= 255 && TableFits(arguments) ==>
                ArgsFit(ks, m.args))
  {
    var m := Method(40, 10, [N(reserved1), S(exchange), S(typ), B([passive, durable, autoDelete, internal,
          noWait]), T(arguments)]);
    Bits5(passive, durable, autoDelete, internal, noWait);
    var before := [0, 40, 0, 10] + BigEndian(2, reserved1) + Shortstr(exchange) + Shortstr(typ) +
        [(Flag(passive, 0x01) | Flag(durable, 0x02) | Flag(autoDelete, 0x04) | Flag(internal, 0x08) |
              Flag(noWait, 0x10)) as int];
    Widths();
    Ids(m);
    Args5([0, 40, 0, 10], Num(2), ShortStr, ShortStr, Bits(5), FieldTable, N(reserved1), S(exchange), S(typ),
          B([passive, durable, autoDelete, internal, noWait]), T(arguments), tb);
    Empty(before + tb);
  }

  lemma ExchangeDeclareOk(s: bytes, tail: bytes)
    ensures var m := Method(40, 11, []);
            var octets := [0, 40, 0, 11];
            && (MethodBytes(m, s) <==> s == octets)
            && ReadMethod(octets + tail) == Got(m, tail)
  {
    var m := Method(40, 11, []);
    Args0([0, 40, 0, 11], []);
    Spelled(m, [], s, tail);
  }

  lemma ExchangeDelete(reserved1: uint16, exchange: bytes, ifUnused: bool, noWait: bool, s: bytes, tail: bytes)
    ensures var m := Method(40, 20, [N(reserved1), S(exchange), B([ifUnused, noWait])]);
            var octets := [0, 40, 0, 20] + BigEndian(2, reserved1) + Shortstr(exchange) +
                [(Flag(ifUnused, 0x01) | Flag(noWait, 0x02)) as int];
            && (MethodBytes(m, s) <==> s == octets)
            && (|exchange| <= 255 ==> ReadMethod(octets + tail) == Got(m, tail))
  {
    var m := Method(40, 20, [N(reserved1), S(exchange), B([ifUnused, noWait])]);
    Bits2(ifUnused, noWait);
    Args3([0, 40, 0, 20], Num(2), ShortStr, Bits(2), N(reserved1), S(exchange), B([ifUnused, noWait]), []);
    Spelled(m, [Num(2), ShortStr, Bits(2)], s, tail);
  }

  lemma ExchangeDeleteOk(s: bytes, tail: bytes)
    ensures var m := Method(40, 21, []);
            var octets := [0, 40, 0, 21];
            && (MethodBytes(m, s) <==> s == octets)
            && ReadMethod(octets + tail) == Got(m, tail)
  {
    var m := Method(40, 21, []);
    Args0([0, 40, 0, 21], []);
    Spelled(m, [], s, tail);
  }

  lemma ExchangeBind(reserved1: uint16, destination: bytes, source: bytes, routingKey: bytes, noWait: bool,
        arguments: map<bytes, Field>, s: bytes, tail: bytes)
    ensures var m := Method(40, 30, [N(reserved1), S(destination), S(source), S(routingKey), B([noWait]),
                  T(arguments)]);
            var before := [0, 40, 0, 30] + BigEndian(2, reserved1) + Shortstr(destination) + Shortstr(source) +
                Shortstr(routingKey) + [if noWait then 1 else 0];
            && (MethodBytes(m, s) <==> WithTable(s, before, arguments, []))
            && (MethodBytes(m, s) && |destination| <= 255 && |source| <= 255 && |routingKey| <= 255 &&
                TableFits(arguments) ==>
                ReadMethod(s + tail) == Got(m, tail))
  {
    var m := Method(40, 30, [N(reserved1), S(destination), S(source), S(routingKey), B([noWait]), T(arguments)]);
    var before := [0, 40, 0, 30] + BigEndian(2, reserved1) + Shortstr(destination) + Shortstr(source) +
        Shortstr(routingKey) + [if noWait then 1 else 0];
    ExchangeBindTable(reserved1, destination, source, routingKey, noWait, arguments, []);
    forall tb: bytes ensures Around(m, [Num(2), ShortStr, ShortStr, ShortStr, Bits(1), FieldTable], before,
          arguments, [], tb) {
      ExchangeBindTable(reserved1, destination, source, routingKey, noWait, arguments, tb);
    }
    SpelledWithTable(m, [Num(2), ShortStr, ShortStr, ShortStr, Bits(1), FieldTable], s, before, arguments, [], tail);
  }

  lemma ExchangeBindTable(reserved1: uint16, destination: bytes, source: bytes, routingKey: bytes, noWait: bool,
        arguments: map<bytes, Field>, tb: bytes)
    ensures var m := Method(40, 30, [N(reserved1), S(destination), S(source), S(routingKey), B([noWait]),
                  T(arguments)]);
            var ks := [Num(2), ShortStr, ShortStr, ShortStr, Bits(1), FieldTable];
            var before := [0, 40, 0, 30] + BigEndian(2, reserved1) + Shortstr(destination) + Shortstr(source) +
                Shortstr(routingKey) + [if noWait then 1 else 0];
            && AllSuit(ks, m.args) && TablesIn(ks) == 1
            && Around(m, ks, before, arguments, [], tb)
            && (|destination| <= 255 && |source| <= 255 && |routingKey| <= 255 && TableFits(arguments) ==>
                ArgsFit(ks, m.args))
  {
    var m := Method(40, 30, [N(reserved1), S(destination), S(source), S(routingKey), B([noWait]), T(arguments)]);
    Bits1(noWait);
    var before := [0, 40, 0, 30] + BigEndian(2, reserved1) + Shortstr(destination) + Shortstr(source) +
        Shortstr(routingKey) + [if noWait then 1 else 0];
    Widths();
    Ids(m);
    Args6([0, 40, 0, 30], Num(2), ShortStr, ShortStr, ShortStr, Bits(1), FieldTable, N(reserved1), S(destination),
          S(source), S(routingKey), B([noWait]), T(arguments), tb);
    Empty(before + tb);
  }

  lemma ExchangeBindOk(s: bytes, tail: bytes)
    ensures var m := Method(40, 31, []);
            var octets := [0, 40, 0, 31];
            && (MethodBytes(m, s) <==> s == octets)
            && ReadMethod(octets + tail) == Got(m, tail)
  {
    var m := Method(40, 31, []);
    Args0([0, 40, 0, 31], []);
    Spelled(m, [], s, tail);
  }

  lemma ExchangeUnbind(reserved1: uint16, destination: bytes, source: bytes, routingKey: bytes, noWait: bool,
        arguments: map<bytes, Field>, s: bytes, tail: bytes)
    ensures var m := Method(40, 40, [N(reserved1), S(destination), S(source), S(routingKey), B([noWait]),
                  T(arguments)]);
            var before := [0, 40, 0, 40] + BigEndian(2, reserved1) + Shortstr(destination) + Shortstr(source) +
                Shortstr(routingKey) + [if noWait then 1 else 0];
            && (MethodBytes(m, s) <==> WithTable(s, before, arguments, []))
            && (MethodBytes(m, s) && |destination| <= 255 && |source| <= 255 && |routingKey| <= 255 &&
                TableFits(arguments) ==>
                ReadMethod(s + tail) == Got(m, tail))
  {
    var m := Method(40, 40, [N(reserved1), S(destination), S(source), S(routingKey), B([noWait]), T(arguments)]);
    var before := [0, 40, 0, 40] + BigEndian(2, reserved1) + Shortstr(destination) + Shortstr(source) +
        Shortstr(routingKey) + [if noWait then 1 else 0];
    ExchangeUnbindTable(reserved1, destination, source, routingKey, noWait, arguments, []);
    forall tb: bytes ensures Around(m, [Num(2), ShortStr, ShortStr, ShortStr, Bits(1), FieldTable], before,
          arguments, [], tb) {
      ExchangeUnbindTable(reserved1, destination, source, routingKey, noWait, arguments, tb);
    }
    SpelledWithTable(m, [Num(2), ShortStr, ShortStr, ShortStr, Bits(1), FieldTable], s, before, arguments, [], tail);
  }

  lemma ExchangeUnbindTable(reserved1: uint16, destination: bytes, source: bytes, routingKey: bytes, noWait: bool,
        arguments: map<bytes, Field>, tb: bytes)
    ensures var m := Method(40, 40, [N(reserved1), S(destination), S(source), S(routingKey), B([noWait]),
                  T(arguments)]);
            var ks := [Num(2), ShortStr, ShortStr, ShortStr, Bits(1), FieldTable];
            var before := [0, 40, 0, 40] + BigEndian(2, reserved1) + Shortstr(destination) + Shortstr(source) +
                Shortstr(routingKey) + [if noWait then 1 else 0];
            && AllSuit(ks, m.args) && TablesIn(ks) == 1
            && Around(m, ks, before, arguments, [], tb)
            && (|destination| <= 255 && |source| <= 255 && |routingKey| <= 255 && TableFits(arguments) ==>
                ArgsFit(ks, m.args))
  {
    var m := Method(40, 40, [N(reserved1), S(destination), S(source), S(routingKey), B([noWait]), T(arguments)]);
    Bits1(noWait);
    var before := [0, 40, 0, 40] + BigEndian(2, reserved1) + Shortstr(destination) + Shortstr(source) +
        Shortstr(routingKey) + [if noWait then 1 else 0];
    Widths();
    Ids(m);
    Args6([0, 40, 0, 40], Num(2), ShortStr, ShortStr, ShortStr, Bits(1), FieldTable, N(reserved1), S(destination),
          S(source), S(routingKey), B([noWait]), T(arguments), tb);
    Empty(before + tb);
  }

  lemma ExchangeUnbindOk(s: bytes, tail: bytes)
    ensures var m := Method(40, 51, []);
            var octets := [0, 40, 0, 51];
            && (MethodBytes(m, s) <==> s == octets)
            && ReadMethod(octets + tail) == Got(m, tail)
  {
    var m := Method(40, 51, []);
    Args0([0, 40, 0, 51], []);
    Spelled(m, [], s, tail);
  }

  // ----- Class 50 -----

  lemma QueueDeclare(reserved1: uint16, queue: bytes, passive: bool, durable: bool, exclusive: bool,
        autoDelete: bool, noWait: bool, arguments: map<bytes, Field>, s: bytes, tail: bytes)
    ensures var m := Method(50, 10, [N(reserved1), S(queue), B([passive, durable, exclusive, autoDelete, noWait]),
                  T(arguments)]);
            var before := [0, 50, 0, 10] + BigEndian(2, reserved1) + Shortstr(queue) +
                [(Flag(passive, 0x01) | Flag(durable, 0x02) | Flag(exclusive, 0x04) | Flag(autoDelete, 0x08) |
                      Flag(noWait, 0x10)) as int];
            && (MethodBytes(m, s) <==> WithTable(s, before, arguments, []))
            && (MethodBytes(m, s) && |queue| <= 255 && TableFits(arguments) ==> ReadMethod(s + tail) == Got(m, tail))
  {
    var m := Method(50, 10, [N(reserved1), S(queue), B([passive, durable, exclusive, autoDelete, noWait]),
          T(arguments)]);
    var before := [0, 50, 0, 10] + BigEndian(2, reserved1) + Shortstr(queue) +
        [(Flag(passive, 0x01) | Flag(durable, 0x02) | Flag(exclusive, 0x04) | Flag(autoDelete, 0x08) |
              Flag(noWait, 0x10)) as int];
    QueueDeclareTable(reserved1, queue, passive, durable, exclusive, autoDelete, noWait, arguments, []);
    forall tb: bytes ensures Around(m, [Num(2), ShortStr, Bits(5), FieldTable], before, arguments, [], tb) {
      QueueDeclareTable(reserved1, queue, passive, durable, exclusive, autoDelete, noWait, arguments, tb);
    }
    SpelledWithTable(m, [Num(2), ShortStr, Bits(5), FieldTable], s, before, arguments, [], tail);
  }

  lemma QueueDeclareTable(reserved1: uint16, queue: bytes, passive: bool, durable: bool, exclusive: bool,
        autoDelete: bool, noWait: bool, arguments: map<bytes, Field>, tb: bytes)
    ensures var m := Method(50, 10, [N(reserved1), S(queue), B([passive, durable, exclusive, autoDelete, noWait]),
                  T(arguments)]);
            var ks := [Num(2), ShortStr, Bits(5), FieldTable];
            var before := [0, 50, 0, 10] + BigEndian(2, reserved1) + Shortstr(queue) +
                [(Flag(passive, 0x01) | Flag(durable, 0x02) | Flag(exclusive, 0x04) | Flag(autoDelete, 0x08) |
                      Flag(noWait, 0x10)) as int];
            && AllSuit(ks, m.args) && TablesIn(ks) == 1
            && Around(m, ks, before, arguments, [], tb)
            && (|queue| <= 255 && TableFits(arguments) ==>
                ArgsFit(ks, m.args))
  {
    var m := Method(50, 10, [N(reserved1), S(queue), B([passive, durable, exclusive, autoDelete, noWait]),
          T(arguments)]);
    Bits5(passive, durable, exclusive, autoDelete, noWait);
    var before := [0, 50, 0, 10] + BigEndian(2, reserved1) + Shortstr(queue) +
        [(Flag(passive, 0x01) | Flag(durable, 0x02) | Flag(exclusive, 0x04) | Flag(autoDelete, 0x08) |
              Flag(noWait, 0x10)) as int];
    Widths();
    Ids(m);
    Args4([0, 50, 0, 10], Num(2), ShortStr, Bits(5), FieldTable, N(reserved1), S(queue),
          B([passive, durable, exclusive, autoDelete, noWait]), T(arguments), tb);
    Empty(before + tb);
  }

  lemma QueueDeclareOk(queue: bytes, messageCount: uint32, consumerCount: uint32, s: bytes, tail: bytes)
    ensures var m := Method(50, 11, [S(queue), N(messageCount), N(consumerCount)]);
            var octets := [0, 50, 0, 11] + Shortstr(queue) + BigEndian(4, messageCount) +
                BigEndian(4, consumerCount);
            && (MethodBytes(m, s) <==> s == octets)
            && (|queue| <= 255 ==> ReadMethod(octets + tail) == Got(m, tail))
  {
    var m := Method(50, 11, [S(queue), N(messageCount), N(consumerCount)]);
    Args3([0, 50, 0, 11], ShortStr, Num(4), Num(4), S(queue), N(messageCount), N(consumerCount), []);
    Spelled(m, [ShortStr, Num(4), Num(4)], s, tail);
  }

  lemma QueueBind(reserved1: uint16, queue: bytes, exchange: bytes, routingKey: bytes, noWait: bool,
        arguments: map<bytes, Field>, s: bytes, tail: bytes)
    ensures var m := Method(50, 20, [N(reserved1), S(queue), S(exchange), S(routingKey), B([noWait]), T(arguments)]);
            var before := [0, 50, 0, 20] + BigEndian(2, reserved1) + Shortstr(queue) + Shortstr(exchange) +
                Shortstr(routingKey) + [if noWait then 1 else 0];
            && (MethodBytes(m, s) <==> WithTable(s, before, arguments, []))
            && (MethodBytes(m, s) && |queue| <= 255 && |exchange| <= 255 && |routingKey| <= 255 &&
                TableFits(arguments) ==>
                ReadMethod(s + tail) == Got(m, tail))
  {
    var m := Method(50, 20, [N(reserved1), S(queue), S(exchange), S(routingKey), B([noWait]), T(arguments)]);
    var before := [0, 50, 0, 20] + BigEndian(2, reserved1) + Shortstr(queue) + Shortstr(exchange) +
        Shortstr(routingKey) + [if noWait then 1 else 0];
    QueueBindTable(reserved1, queue, exchange, routingKey, noWait, arguments, []);
    forall tb: bytes ensures Around(m, [Num(2), ShortStr, ShortStr, ShortStr, Bits(1), FieldTable], before,
          arguments, [], tb) {
      QueueBindTable(reserved1, queue, exchange, routingKey, noWait, arguments, tb);
    }
    SpelledWithTable(m, [Num(2), ShortStr, ShortStr, ShortStr, Bits(1), FieldTable], s, before, arguments, [], tail);
  }

  lemma QueueBindTable(reserved1: uint16, queue: bytes, exchange: bytes, routingKey: bytes, noWait: bool,
        arguments: map<bytes, Field>, tb: bytes)
    ensures var m := Method(50, 20, [N(reserved1), S(queue), S(exchange), S(routingKey), B([noWait]), T(arguments)]);
            var ks := [Num(2), ShortStr, ShortStr, ShortStr, Bits(1), FieldTable];
            var before := [0, 50, 0, 20] + BigEndian(2, reserved1) + Shortstr(queue) + Shortstr(exchange) +
                Shortstr(routingKey) + [if noWait then 1 else 0];
            && AllSuit(ks, m.args) && TablesIn(ks) == 1
            && Around(m, ks, before, arguments, [], tb)
            && (|queue| <= 255 && |exchange| <= 255 && |routingKey| <= 255 && TableFits(arguments) ==>
                ArgsFit(ks, m.args))
  {
    var m := Method(50, 20, [N(reserved1), S(queue), S(exchange), S(routingKey), B([noWait]), T(arguments)]);
    Bits1(noWait);
    var before := [0, 50, 0, 20] + BigEndian(2, reserved1) + Shortstr(queue) + Shortstr(exchange) +
        Shortstr(routingKey) + [if noWait then 1 else 0];
    Widths();
    Ids(m);
    Args6([0, 50, 0, 20], Num(2), ShortStr, ShortStr, ShortStr, Bits(1), FieldTable, N(reserved1), S(queue),
          S(exchange), S(routingKey), B([noWait]), T(arguments), tb);
    Empty(before + tb);
  }

  lemma QueueBindOk(s: bytes, tail: bytes)
    ensures var m := Method(50, 21, []);
            var octets := [0, 50, 0, 21];
            && (MethodBytes(m, s) <==> s == octets)
            && ReadMethod(octets + tail) == Got(m, tail)
  {
    var m := Method(50, 21, []);
    Args0([0, 50, 0, 21], []);
    Spelled(m, [], s, tail);
  }

  lemma QueueUnbind(reserved1: uint16, queue: bytes, exchange: bytes, routingKey: bytes, arguments: map<bytes,
        Field>, s: bytes, tail: bytes)
    ensures var m := Method(50, 50, [N(reserved1), S(queue), S(exchange), S(routingKey), T(arguments)]);
            var before := [0, 50, 0, 50] + BigEndian(2, reserved1) + Shortstr(queue) + Shortstr(exchange) +
                Shortstr(routingKey);
            && (MethodBytes(m, s) <==> WithTable(s, before, arguments, []))
            && (MethodBytes(m, s) && |queue| <= 255 && |exchange| <= 255 && |routingKey| <= 255 &&
                TableFits(arguments) ==>
                ReadMethod(s + tail) == Got(m, tail))
  {
    var m := Method(50, 50, [N(reserved1), S(queue), S(exchange), S(routingKey), T(arguments)]);
    var before := [0, 50, 0, 50] + BigEndian(2, reserved1) + Shortstr(queue) + Shortstr(exchange) +
        Shortstr(routingKey);
    QueueUnbindTable(reserved1, queue, exchange, routingKey, arguments, []);
    forall tb: bytes ensures Around(m, [Num(2), ShortStr, ShortStr, ShortStr, FieldTable], before, arguments, [],
          tb) {
      QueueUnbindTable(reserved1, queue, exchange, routingKey, arguments, tb);
    }
    SpelledWithTable(m, [Num(2), ShortStr, ShortStr, ShortStr, FieldTable], s, before, arguments, [], tail);
  }

  lemma QueueUnbindTable(reserved1: uint16, queue: bytes, exchange: bytes, routingKey: bytes, arguments: map<bytes,
        Field>, tb: bytes)
    ensures var m := Method(50, 50, [N(reserved1), S(queue), S(exchange), S(routingKey), T(arguments)]);
            var ks := [Num(2), ShortStr, ShortStr, ShortStr, FieldTable];
            var before := [0, 50, 0, 50] + BigEndian(2, reserved1) + Shortstr(queue) + Shortstr(exchange) +
                Shortstr(routingKey);
            && AllSuit(ks, m.args) && TablesIn(ks) == 1
            && Around(m, ks, before, arguments, [], tb)
            && (|queue| <= 255 && |exchange| <= 255 && |routingKey| <= 255 && TableFits(arguments) ==>
                ArgsFit(ks, m.args))
  {
    var m := Method(50, 50, [N(reserved1), S(queue), S(exchange), S(routingKey), T(arguments)]);
    var before := [0, 50, 0, 50] + BigEndian(2, reserved1) + Shortstr(queue) + Shortstr(exchange) +
        Shortstr(routingKey);
    Widths();
    Ids(m);
    Args5([0, 50, 0, 50], Num(2), ShortStr, ShortStr, ShortStr, FieldTable, N(reserved1), S(queue), S(exchange),
          S(routingKey), T(arguments), tb);
    Empty(before + tb);
  }

  lemma QueueUnbindOk(s: bytes, tail: bytes)
    ensures var m := Method(50, 51, []);
            var octets := [0, 50, 0, 51];
            && (MethodBytes(m, s) <==> s == octets)
            && ReadMethod(octets + tail) == Got(m, tail)
  {
    var m := Method(50, 51, []);
    Args0([0, 50, 0, 51], []);
    Spelled(m, [], s, tail);
  }

  lemma QueuePurge(reserved1: uint16, queue: bytes, noWait: bool, s: bytes, tail: bytes)
    ensures var m := Method(50, 30, [N(reserved1), S(queue), B([noWait])]);
            var octets := [0, 50, 0, 30] + BigEndian(2, reserved1) + Shortstr(queue) + [if noWait then 1 else 0];
            && (MethodBytes(m, s) <==> s == octets)
            && (|queue| <= 255 ==> ReadMethod(octets + tail) == Got(m, tail))
  {
    var m := Method(50, 30, [N(reserved1), S(queue), B([noWait])]);
    Bits1(noWait);
    Args3([0, 50, 0, 30], Num(2), ShortStr, Bits(1), N(reserved1), S(queue), B([noWait]), []);
    Spelled(m, [Num(2), ShortStr, Bits(1)], s, tail);
  }

  lemma QueuePurgeOk(messageCount: uint32, s: bytes, tail: bytes)
    ensures var m := Method(50, 31, [N(messageCount)]);
            var octets := [0, 50, 0, 31] + BigEndian(4, messageCount);
            && (MethodBytes(m, s) <==> s == octets)
            && ReadMethod(octets + tail) == Got(m, tail)
  {
    var m := Method(50, 31, [N(messageCount)]);
    Args1([0, 50, 0, 31], Num(4), N(messageCount), []);
    Spelled(m, [Num(4)], s, tail);
  }

  lemma QueueDelete(reserved1: uint16, queue: bytes, ifUnused: bool, ifEmpty: bool, noWait: bool, s: bytes,
        tail: bytes)
    ensures var m := Method(50, 40, [N(reserved1), S(queue), B([ifUnused, ifEmpty, noWait])]);
            var octets := [0, 50, 0, 40] + BigEndian(2, reserved1) + Shortstr(queue) +
                [(Flag(ifUnused, 0x01) | Flag(ifEmpty, 0x02) | Flag(noWait, 0x04)) as int];
            && (MethodBytes(m, s) <==> s == octets)
            && (|queue| <= 255 ==> ReadMethod(octets + tail) == Got(m, tail))
  {
    var m := Method(50, 40, [N(reserved1), S(queue), B([ifUnused, ifEmpty, noWait])]);
    Bits3(ifUnused, ifEmpty, noWait);
    Args3([0, 50, 0, 40], Num(2), ShortStr, Bits(3), N(reserved1), S(queue), B([ifUnused, ifEmpty, noWait]), []);
    Spelled(m, [Num(2), ShortStr, Bits(3)], s, tail);
  }

  lemma QueueDeleteOk(messageCount: uint32, s: bytes, tail: bytes)
    ensures var m := Method(50, 41, [N(messageCount)]);
            var octets := [0, 50, 0, 41] + BigEndian(4, messageCount);
            && (MethodBytes(m, s) <==> s == octets)
            && ReadMethod(octets + tail) == Got(m, tail)
  {
    var m := Method(50, 41, [N(messageCount)]);
    Args1([0, 50, 0, 41], Num(4), N(messageCount), []);
    Spelled(m, [Num(4)], s, tail);
  }

  // ----- Class 60 -----

  lemma BasicQos(prefetchSize: uint32, prefetchCount: uint16, global_: bool, s: bytes, tail: bytes)
    ensures var m := Method(60, 10, [N(prefetchSize), N(prefetchCount), B([global_])]);
            var octets := [0, 60, 0, 10] + BigEndian(4, prefetchSize) + BigEndian(2, prefetchCount) +
                [if global_ then 1 else 0];
            && (MethodBytes(m, s) <==> s == octets)
            && ReadMethod(octets + tail) == Got(m, tail)
  {
    var m := Method(60, 10, [N(prefetchSize), N(prefetchCount), B([global_])]);
    Bits1(global_);
    Args3([0, 60, 0, 10], Num(4), Num(2), Bits(1), N(prefetchSize), N(prefetchCount), B([global_]), []);
    Spelled(m, [Num(4), Num(2), Bits(1)], s, tail);
  }

  lemma BasicQosOk(s: bytes, tail: bytes)
    ensures var m := Method(60, 11, []);
            var octets := [0, 60, 0, 11];
            && (MethodBytes(m, s) <==> s == octets)
            && ReadMethod(octets + tail) == Got(m, tail)
  {
    var m := Method(60, 11, []);
    Args0([0, 60, 0, 11], []);
    Spelled(m, [], s, tail);
  }

  lemma BasicConsume(reserved1: uint16, queue: bytes, consumerTag: bytes, noLocal: bool, noAck: bool,
        exclusive: bool, noWait: bool, arguments: map<bytes, Field>, s: bytes, tail: bytes)
    ensures var m := Method(60, 20, [N(reserved1), S(queue), S(consumerTag), B([noLocal, noAck, exclusive,
                  noWait]), T(arguments)]);
            var before := [0, 60, 0, 20] + BigEndian(2, reserved1) + Shortstr(queue) + Shortstr(consumerTag) +
                [(Flag(noLocal, 0x01) | Flag(noAck, 0x02) | Flag(exclusive, 0x04) | Flag(noWait, 0x08)) as int];
            && (MethodBytes(m, s) <==> WithTable(s, before, arguments, []))
            && (MethodBytes(m, s) && |queue| <= 255 && |consumerTag| <= 255 && TableFits(arguments) ==>
                ReadMethod(s + tail) == Got(m, tail))
  {
    var m := Method(60, 20, [N(reserved1), S(queue), S(consumerTag), B([noLocal, noAck, exclusive, noWait]),
          T(arguments)]);
    var before := [0, 60, 0, 20] + BigEndian(2, reserved1) + Shortstr(queue) + Shortstr(consumerTag) +
        [(Flag(noLocal, 0x01) | Flag(noAck, 0x02) | Flag(exclusive, 0x04) | Flag(noWait, 0x08)) as int];
    BasicConsumeTable(reserved1, queue, consumerTag, noLocal, noAck, exclusive, noWait, arguments, []);
    forall tb: bytes ensures Around(m, [Num(2), ShortStr, ShortStr, Bits(4), FieldTable], before, arguments, [], tb) {
      BasicConsumeTable(reserved1, queue, consumerTag, noLocal, noAck, exclusive, noWait, arguments, tb);
    }
    SpelledWithTable(m, [Num(2), ShortStr, ShortStr, Bits(4), FieldTable], s, before, arguments, [], tail);
  }

  lemma BasicConsumeTable(reserved1: uint16, queue: bytes, consumerTag: bytes, noLocal: bool, noAck: bool,
        exclusive: bool, noWait: bool, arguments: map<bytes, Field>, tb: bytes)
    ensures var m := Method(60, 20, [N(reserved1), S(queue), S(consumerTag), B([noLocal, noAck, exclusive,
                  noWait]), T(arguments)]);
            var ks := [Num(2), ShortStr, ShortStr, Bits(4), FieldTable];
            var before := [0, 60, 0, 20] + BigEndian(2, reserved1) + Shortstr(queue) + Shortstr(consumerTag) +
                [(Flag(noLocal, 0x01) | Flag(noAck, 0x02) | Flag(exclusive, 0x04) | Flag(noWait, 0x08)) as int];
            && AllSuit(ks, m.args) && TablesIn(ks) == 1
            && Around(m, ks, before, arguments, [], tb)
            && (|queue| <= 255 && |consumerTag| <= 255 && TableFits(arguments) ==>
                ArgsFit(ks, m.args))
  {
    var m := Method(60, 20, [N(reserved1), S(queue), S(consumerTag), B([noLocal, noAck, exclusive, noWait]),
          T(arguments)]);
    Bits4(noLocal, noAck, exclusive, noWait);
    var before := [0, 60, 0, 20] + BigEndian(2, reserved1) + Shortstr(queue) + Shortstr(consumerTag) +
        [(Flag(noLocal, 0x01) | Flag(noAck, 0x02) | Flag(exclusive, 0x04) | Flag(noWait, 0x08)) as int];
    Widths();
    Ids(m);
    Args5([0, 60, 0, 20], Num(2), ShortStr, ShortStr, Bits(4), FieldTable, N(reserved1), S(queue), S(consumerTag),
          B([noLocal, noAck, exclusive, noWait]), T(arguments), tb);
    Empty(before + tb);
  }

  lemma BasicConsumeOk(consumerTag: bytes, s: bytes, tail: bytes)
    ensures var m := Method(60, 21, [S(consumerTag)]);
            var octets := [0, 60, 0, 21] + Shortstr(consumerTag);
            && (MethodBytes(m, s) <==> s == octets)
            && (|consumerTag| <= 255 ==> ReadMethod(octets + tail) == Got(m, tail))
  {
    var m := Method(60, 21, [S(consumerTag)]);
    Args1([0, 60, 0, 21], ShortStr, S(consumerTag), []);
    Spelled(m, [ShortStr], s, tail);
  }

  lemma BasicCancel(consumerTag: bytes, noWait: bool, s: bytes, tail: bytes)
    ensures var m := Method(60, 30, [S(consumerTag), B([noWait])]);
            var octets := [0, 60, 0, 30] + Shortstr(consumerTag) + [if noWait then 1 else 0];
            && (MethodBytes(m, s) <==> s == octets)
            && (|consumerTag| <= 255 ==> ReadMethod(octets + tail) == Got(m, tail))
  {
    var m := Method(60, 30, [S(consumerTag), B([noWait])]);
    Bits1(noWait);
    Args2([0, 60, 0, 30], ShortStr, Bits(1), S(consumerTag), B([noWait]), []);
    Spelled(m, [ShortStr, Bits(1)], s, tail);
  }

  lemma BasicCancelOk(consumerTag: bytes, s: bytes, tail: bytes)
    ensures var m := Method(60, 31, [S(consumerTag)]);
            var octets := [0, 60, 0, 31] + Shortstr(consumerTag);
            && (MethodBytes(m, s) <==> s == octets)
            && (|consumerTag| <= 255 ==> ReadMethod(octets + tail) == Got(m, tail))
  {
    var m := Method(60, 31, [S(consumerTag)]);
    Args1([0, 60, 0, 31], ShortStr, S(consumerTag), []);
    Spelled(m, [ShortStr], s, tail);
  }

  lemma BasicPublish(reserved1: uint16, exchange: bytes, routingKey: bytes, mandatory: bool, immediate: bool,
        s: bytes, tail: bytes)
    ensures var m := Method(60, 40, [N(reserved1), S(exchange), S(routingKey), B([mandatory, immediate])]);
            var octets := [0, 60, 0, 40] + BigEndian(2, reserved1) + Shortstr(exchange) + Shortstr(routingKey) +
                [(Flag(mandatory, 0x01) | Flag(immediate, 0x02)) as int];
            && (MethodBytes(m, s) <==> s == octets)
            && (|exchange| <= 255 && |routingKey| <= 255 ==> ReadMethod(octets + tail) == Got(m, tail))
  {
    var m := Method(60, 40, [N(reserved1), S(exchange), S(routingKey), B([mandatory, immediate])]);
    Bits2(mandatory, immediate);
    Args4([0, 60, 0, 40], Num(2), ShortStr, ShortStr, Bits(2), N(reserved1), S(exchange), S(routingKey),
          B([mandatory, immediate]), []);
    Spelled(m, [Num(2), ShortStr, ShortStr, Bits(2)], s, tail);
  }

  lemma BasicReturn(replyCode: uint16, replyText: bytes, exchange: bytes, routingKey: bytes, s: bytes, tail: bytes)
    ensures var m := Method(60, 50, [N(replyCode), S(replyText), S(exchange), S(routingKey)]);
            var octets := [0, 60, 0, 50] + BigEndian(2, replyCode) + Shortstr(replyText) + Shortstr(exchange) +
                Shortstr(routingKey);
            && (MethodBytes(m, s) <==> s == octets)
            && (|replyText| <= 255 && |exchange| <= 255 && |routingKey| <= 255 ==>
                ReadMethod(octets + tail) == Got(m, tail))
  {
    var m := Method(60, 50, [N(replyCode), S(replyText), S(exchange), S(routingKey)]);
    Args4([0, 60, 0, 50], Num(2), ShortStr, ShortStr, ShortStr, N(replyCode), S(replyText), S(exchange),
          S(routingKey), []);
    Spelled(m, [Num(2), ShortStr, ShortStr, ShortStr], s, tail);
  }

  lemma BasicDeliver(consumerTag: bytes, deliveryTag: uint64, redelivered: bool, exchange: bytes,
        routingKey: bytes, s: bytes, tail: bytes)
    ensures var m := Method(60, 60, [S(consumerTag), N(deliveryTag), B([redelivered]), S(exchange), S(routingKey)]);
            var octets := [0, 60, 0, 60] + Shortstr(consumerTag) + BigEndian(8, deliveryTag) +
                [if redelivered then 1 else 0] + Shortstr(exchange) + Shortstr(routingKey);
            && (MethodBytes(m, s) <==> s == octets)
            && (|consumerTag| <= 255 && |exchange| <= 255 && |routingKey| <= 255 ==>
                ReadMethod(octets + tail) == Got(m, tail))
  {
    var m := Method(60, 60, [S(consumerTag), N(deliveryTag), B([redelivered]), S(exchange), S(routingKey)]);
    Bits1(redelivered);
    Args5([0, 60, 0, 60], ShortStr, Num(8), Bits(1), ShortStr, ShortStr, S(consumerTag), N(deliveryTag),
          B([redelivered]), S(exchange), S(routingKey), []);
    Spelled(m, [ShortStr, Num(8), Bits(1), ShortStr, ShortStr], s, tail);
  }

  lemma BasicGet(reserved1: uint16, queue: bytes, noAck: bool, s: bytes, tail: bytes)
    ensures var m := Method(60, 70, [N(reserved1), S(queue), B([noAck])]);
            var octets := [0, 60, 0, 70] + BigEndian(2, reserved1) + Shortstr(queue) + [if noAck then 1 else 0];
            && (MethodBytes(m, s) <==> s == octets)
            && (|queue| <= 255 ==> ReadMethod(octets + tail) == Got(m, tail))
  {
    var m := Method(60, 70, [N(reserved1), S(queue), B([noAck])]);
    Bits1(noAck);
    Args3([0, 60, 0, 70], Num(2), ShortStr, Bits(1), N(reserved1), S(queue), B([noAck]), []);
    Spelled(m, [Num(2), ShortStr, Bits(1)], s, tail);
  }

  lemma BasicGetOk(deliveryTag: uint64, redelivered: bool, exchange: bytes, routingKey: bytes,
        messageCount: uint32, s: bytes, tail: bytes)
    ensures var m := Method(60, 71, [N(deliveryTag), B([redelivered]), S(exchange), S(routingKey), N(messageCount)]);
            var octets := [0, 60, 0, 71] + BigEndian(8, deliveryTag) + [if redelivered then 1 else 0] +
                Shortstr(exchange) + Shortstr(routingKey) + BigEndian(4, messageCount);
            && (MethodBytes(m, s) <==> s == octets)
            && (|exchange| <= 255 && |routingKey| <= 255 ==> ReadMethod(octets + tail) == Got(m, tail))
  {
    var m := Method(60, 71, [N(deliveryTag), B([redelivered]), S(exchange), S(routingKey), N(messageCount)]);
    Bits1(redelivered);
    Args5([0, 60, 0, 71], Num(8), Bits(1), ShortStr, ShortStr, Num(4), N(deliveryTag), B([redelivered]),
          S(exchange), S(routingKey), N(messageCount), []);
    Spelled(m, [Num(8), Bits(1), ShortStr, ShortStr, Num(4)], s, tail);
  }

  lemma BasicGetEmpty(reserved: bytes, s: bytes, tail: bytes)
    ensures var m := Method(60, 72, [S(reserved)]);
            var octets := [0, 60, 0, 72] + Shortstr(reserved);
            && (MethodBytes(m, s) <==> s == octets)
            && (|reserved| <= 255 ==> ReadMethod(octets + tail) == Got(m, tail))
  {
    var m := Method(60, 72, [S(reserved)]);
    Args1([0, 60, 0, 72], ShortStr, S(reserved), []);
    Spelled(m, [ShortStr], s, tail);
  }

  lemma BasicAck(deliveryTag: uint64, multiple: bool, s: bytes, tail: bytes)
    ensures var m := Method(60, 80, [N(deliveryTag), B([multiple])]);
            var octets := [0, 60, 0, 80] + BigEndian(8, deliveryTag) + [if multiple then 1 else 0];
            && (MethodBytes(m, s) <==> s == octets)
            && ReadMethod(octets + tail) == Got(m, tail)
  {
    var m := Method(60, 80, [N(deliveryTag), B([multiple])]);
    Bits1(multiple);
    Args2([0, 60, 0, 80], Num(8), Bits(1), N(deliveryTag), B([multiple]), []);
    Spelled(m, [Num(8), Bits(1)], s, tail);
  }

  lemma BasicReject(deliveryTag: uint64, requeue: bool, s: bytes, tail: bytes)
    ensures var m := Method(60, 90, [N(deliveryTag), B([requeue])]);
            var octets := [0, 60, 0, 90] + BigEndian(8, deliveryTag) + [if requeue then 1 else 0];
            && (MethodBytes(m, s) <==> s == octets)
            && ReadMethod(octets + tail) == Got(m, tail)
  {
    var m := Method(60, 90, [N(deliveryTag), B([requeue])]);
    Bits1(requeue);
    Args2([0, 60, 0, 90], Num(8), Bits(1), N(deliveryTag), B([requeue]), []);
    Spelled(m, [Num(8), Bits(1)], s, tail);
  }

  lemma BasicRecoverAsync(requeue: bool, s: bytes, tail: bytes)
    ensures var m := Method(60, 100, [B([requeue])]);
            var octets := [0, 60, 0, 100] + [if requeue then 1 else 0];
            && (MethodBytes(m, s) <==> s == octets)
            && ReadMethod(octets + tail) == Got(m, tail)
  {
    var m := Method(60, 100, [B([requeue])]);
    Bits1(requeue);
    Args1([0, 60, 0, 100], Bits(1), B([requeue]), []);
    Spelled(m, [Bits(1)], s, tail);
  }

  lemma BasicRecover(requeue: bool, s: bytes, tail: bytes)
    ensures var m := Method(60, 110, [B([requeue])]);
            var octets := [0, 60, 0, 110] + [if requeue then 1 else 0];
            && (MethodBytes(m, s) <==> s == octets)
            && ReadMethod(octets + tail) == Got(m, tail)
  {
    var m := Method(60, 110, [B([requeue])]);
    Bits1(requeue);
    Args1([0, 60, 0, 110], Bits(1), B([requeue]), []);
    Spelled(m, [Bits(1)], s, tail);
  }

  lemma BasicRecoverOk(s: bytes, tail: bytes)
    ensures var m := Method(60, 111, []);
            var octets := [0, 60, 0, 111];
            && (MethodBytes(m, s) <==> s == octets)
            && ReadMethod(octets + tail) == Got(m, tail)
  {
    var m := Method(60, 111, []);
    Args0([0, 60, 0, 111], []);
    Spelled(m, [], s, tail);
  }

  lemma BasicNack(deliveryTag: uint64, multiple: bool, requeue: bool, s: bytes, tail: bytes)
    ensures var m := Method(60, 120, [N(deliveryTag), B([multiple, requeue])]);
            var octets := [0, 60, 0, 120] + BigEndian(8, deliveryTag) +
                [(Flag(multiple, 0x01) | Flag(requeue, 0x02)) as int];
            && (MethodBytes(m, s) <==> s == octets)
            && ReadMethod(octets + tail) == Got(m, tail)
  {
    var m := Method(60, 120, [N(deliveryTag), B([multiple, requeue])]);
    Bits2(multiple, requeue);
    Args2([0, 60, 0, 120], Num(8), Bits(2), N(deliveryTag), B([multiple, requeue]), []);
    Spelled(m, [Num(8), Bits(2)], s, tail);
  }

  // ----- Class 90 -----

  lemma TxSelect(s: bytes, tail: bytes)
    ensures var m := Method(90, 10, []);
            var octets := [0, 90, 0, 10];
            && (MethodBytes(m, s) <==> s == octets)
            && ReadMethod(octets + tail) == Got(m, tail)
  {
    var m := Method(90, 10, []);
    Args0([0, 90, 0, 10], []);
    Spelled(m, [], s, tail);
  }

  lemma TxSelectOk(s: bytes, tail: bytes)
    ensures var m := Method(90, 11, []);
            var octets := [0, 90, 0, 11];
            && (MethodBytes(m, s) <==> s == octets)
            && ReadMethod(octets + tail) == Got(m, tail)
  {
    var m := Method(90, 11, []);
    Args0([0, 90, 0, 11], []);
    Spelled(m, [], s, tail);
  }

  lemma TxCommit(s: bytes, tail: bytes)
    ensures var m := Method(90, 20, []);
            var octets := [0, 90, 0, 20];
            && (MethodBytes(m, s) <==> s == octets)
            && ReadMethod(octets + tail) == Got(m, tail)
  {
    var m := Method(90, 20, []);
    Args0([0, 90, 0, 20], []);
    Spelled(m, [], s, tail);
  }

  lemma TxCommitOk(s: bytes, tail: bytes)
    ensures var m := Method(90, 21, []);
            var octets := [0, 90, 0, 21];
            && (MethodBytes(m, s) <==> s == octets)
            && ReadMethod(octets + tail) == Got(m, tail)
  {
    var m := Method(90, 21, []);
    Args0([0, 90, 0, 21], []);
    Spelled(m, [], s, tail);
  }

  lemma TxRollback(s: bytes, tail: bytes)
    ensures var m := Method(90, 30, []);
            var octets := [0, 90, 0, 30];
            && (MethodBytes(m, s) <==> s == octets)
            && ReadMethod(octets + tail) == Got(m, tail)
  {
    var m := Method(90, 30, []);
    Args0([0, 90, 0, 30], []);
    Spelled(m, [], s, tail);
  }

  lemma TxRollbackOk(s: bytes, tail: bytes)
    ensures var m := Method(90, 31, []);
            var octets := [0, 90, 0, 31];
            && (MethodBytes(m, s) <==> s == octets)
            && ReadMethod(octets + tail) == Got(m, tail)
  {
    var m := Method(90, 31, []);
    Args0([0, 90, 0, 31], []);
    Spelled(m, [], s, tail);
  }

  // ----- Class 85 -----

  lemma ConfirmSelect(nowait: bool, s: bytes, tail: bytes)
    ensures var m := Method(85, 10, [B([nowait])]);
            var octets := [0, 85, 0, 10] + [if nowait then 1 else 0];
            && (MethodBytes(m, s) <==> s == octets)
            && ReadMethod(octets + tail) == Got(m, tail)
  {
    var m := Method(85, 10, [B([nowait])]);
    Bits1(nowait);
    Args1([0, 85, 0, 10], Bits(1), B([nowait]), []);
    Spelled(m, [Bits(1)], s, tail);
  }

  lemma ConfirmSelectOk(s: bytes, tail: bytes)
    ensures var m := Method(85, 11, []);
            var octets := [0, 85, 0, 11];
            && (MethodBytes(m, s) <==> s == octets)
            && ReadMethod(octets + tail) == Got(m, tail)
  {
    var m := Method(85, 11, []);
    Args0([0, 85, 0, 11], []);
    Spelled(m, [], s, tail);
  }

  // ----- Which methods there are -----

  /** There are no methods beside these 62: with any other ids the read fails right after
      them. */
  lemma NoOthers(cls: uint16, id: uint16, tail: bytes)
    requires !(|| (cls == 10 && id in {10, 11, 20, 21, 30, 31, 40, 41, 50, 51, 60, 61})
               || (cls == 20 && id in {10, 11, 20, 21, 40, 41})
               || (cls == 40 && id in {10, 11, 20, 21, 30, 31, 40, 51})
               || (cls == 50 && id in {10, 11, 20, 21, 30, 31, 40, 41, 50, 51})
               || (cls == 60 && id in {10, 11, 20, 21, 30, 31, 40, 50, 60, 70, 71, 72, 80, 90, 100, 110, 111, 120})
               || (cls == 90 && id in {10, 11, 20, 21, 30, 31})
               || (cls == 85 && id in {10, 11}))
    ensures ReadMethod(BigEndian(2, cls) + BigEndian(2, id) + tail) == Bad(UnknownMethod, tail)
  {
    Widths();
    Assoc(BigEndian(2, cls), BigEndian(2, id), tail);
    ReadUintAppend(2, cls, BigEndian(2, id) + tail);
    ReadUintAppend(2, id, tail);
  }
}
