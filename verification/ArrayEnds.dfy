/**
 Where readArray stops.  Its loop takes any EOF for the end of the array, so that what is
 left over by a field cut short is dropped without an error.
 */
module ArrayEnds {
  import opened Sequences
  import opened Wire
  import opened Fields

  /** The octets at which the loop stops: no field can be read from them. */
  function Stop(s: bytes): bytes
    decreases |s|
  {
    match ReadField(s)
    case Bad(_, _) => s
    case Got(_, left) => Stop(left)
  }

  /** Read one after the other, these octets are these fields and nothing else. */
  predicate MadeOf(s: bytes, fs: seq<Field>)
    decreases |fs|
  {
    if fs == [] then s == []
    else ReadField(s).Got? && ReadField(s).value == fs[0] && MadeOf(ReadField(s).rest, fs[1..])
  }

  predicate GivesEOF<T>(r: Parsed<T>) { r.Bad? && r.err == EOF }

  predicate ReportsEOF(s: bytes) { GivesEOF(ReadField(s)) }

  lemma {:induction false} StopFails(s: bytes)
    ensures ReadField(Stop(s)).Bad?
    ensures ReadElems(s).Got? <==> ReportsEOF(Stop(s))
    decreases |s|
  {
    if ReadField(s).Got? {
      StopFails(ReadField(s).rest);
    }
  }

  lemma {:induction false} MadeOfIff(s: bytes)
    requires ReadElems(s).Got?
    ensures MadeOf(s, ReadElems(s).value) <==> Stop(s) == []
    decreases |s|
  {
    if ReadField(s).Got? {
      var f, left := ReadField(s).value, ReadField(s).rest;
      MadeOfIff(left);
      assert ([f] + ReadElems(left).value)[1..] == ReadElems(left).value;
    }
  }

  // ----- The octets at which EOF is reported -----

  /** The length that the first four octets announce. */
  function Announced(s: bytes): nat
    requires |s| >= 4
  {
    FromBigEndian(s[..4])
  }

  /** The octets of a table's entries. */
  function EntriesOf(s: bytes): bytes
    requires |s| >= 4 && Announced(s) <= |s| - 4
  {
    s[4..][..Announced(s)]
  }

  /** The type letters that are followed by octets. */
  predicate HasBody(typ: byte) {
    typ in ['t' as int, 'b' as int, 's' as int, 'I' as int, 'l' as int, 'f' as int, 'd' as int,
            'D' as int, 'S' as int, 'T' as int, 'x' as int, 'A' as int, 'F' as int]
  }

  /** Octets that end where one of the reads for a field would begin: there is nothing, only
      the type letter, a decimal's scale, a positive length, or a table with a cut entry. */
  predicate CutField(s: bytes)
    decreases |s|, 1
  {
    s == [] || CutBody(s[0], s[1..])
  }

  /** The same after the type letter. */
  predicate CutBody(typ: byte, s: bytes)
    decreases |s| + 1, 0
  {
    || (s == [] && HasBody(typ))
    || (|s| == 1 && typ == 'D' as int)
    || (|s| == 4 && typ in ['S' as int, 'F' as int] && Announced(s) > 0)
    || (|s| == 4 && typ == 'x' as int && 0 < Announced(s) < TWO31)
    || (|s| > 4 && typ == 'F' as int && Announced(s) <= |s| - 4 && CutEntries(EntriesOf(s)))
  }

  /** Entries of which the last ends after the length of its key, or where its value or a
      read of that would begin. */
  predicate CutEntries(s: bytes)
    decreases |s|, 2
  {
    s != [] &&
    if |s| == 1 && s[0] > 0 then true
    else
      && 1 + s[0] <= |s|
      && var s1 := s[1 + s[0]..];
      CutField(s1) || (ReadField(s1).Got? && CutEntries(ReadField(s1).rest))
  }

  lemma OneOctet(s: bytes)
    requires s != []
    ensures ReadUint(s, 1) == Got(s[0], s[1..])
  {
    assert s[..1] == [s[0]] && FromBigEndian([s[0]]) == s[0];
  }

  lemma {:induction false} LimitedReadsNoEOF(s: bytes)
    ensures !GivesEOF(ReadElems(s))
    decreases |s|
  {
    if ReadField(s).Got? {
      LimitedReadsNoEOF(ReadField(s).rest);
    }
  }

  lemma UintEOF(s: bytes, n: nat)
    ensures GivesEOF(ReadUint(s, n)) <==> n > 0 && s == []
    ensures n <= |s| ==> ReadUint(s, n) == Got(FromBigEndian(s[..n]), s[n..])
  {
    assert n == 0 ==> s[..0] == [] && s[0..] == s;
  }

  lemma LongstrRead(s: bytes)
    ensures |s| < 4 ==> ReadLongstr(s).Bad? && (GivesEOF(ReadLongstr(s)) <==> s == [])
    ensures |s| >= 4 ==> ReadLongstr(s) == ReadFull(s[4..], Announced(s))
  {
    UintEOF(s, 4);
    Widths();
  }

  lemma LongstrEOF(s: bytes)
    ensures GivesEOF(ReadLongstr(s)) <==> s == [] || (|s| == 4 && Announced(s) > 0)
    ensures |s| >= 4 && Announced(s) <= |s| - 4 ==> ReadLongstr(s).Got? && ReadLongstr(s).value == s[4..][..Announced(s)]
    ensures |s| >= 4 && Announced(s) > |s| - 4 ==> ReadLongstr(s).Bad?
  {
    LongstrRead(s);
    if |s| >= 4 && Announced(s) == 0 {
      assert s[4..][..0] == [];
    }
  }

  lemma DecimalEOF(s: bytes)
    ensures GivesEOF(ReadScalar('D' as int, s)) <==> |s| <= 1
  {
    UintEOF(s, 1);
    if s != [] {
      UintEOF(s[1..], 4);
    }
  }

  lemma BlobEOF(s: bytes)
    ensures GivesEOF(ReadScalar('x' as int, s)) <==> s == [] || (|s| == 4 && 0 < Announced(s) < TWO31)
  {
    Widths();
    UintEOF(s, 4);
  }

  lemma IntegerEOF(typ: byte, s: bytes)
    requires typ != 'D' as int && typ != 'S' as int && typ != 'x' as int && typ != 'A' as int && typ != 'F' as int
    ensures GivesEOF(ReadScalar(typ, s)) <==> s == [] && HasBody(typ)
  {
    UintEOF(s, 1);
    UintEOF(s, 2);
    UintEOF(s, 4);
    UintEOF(s, 8);
  }

  lemma ScalarEOF(typ: byte, s: bytes)
    requires typ != 'A' as int && typ != 'F' as int
    ensures GivesEOF(ReadScalar(typ, s)) <==> CutBody(typ, s)
  {
    if typ == 'D' as int {
      DecimalEOF(s);
    } else if typ == 'S' as int {
      LongstrEOF(s);
    } else if typ == 'x' as int {
      BlobEOF(s);
    } else {
      IntegerEOF(typ, s);
    }
  }

  lemma ArrayEOF(s: bytes)
    ensures GivesEOF(ReadArray(s)) <==> s == []
  {
    UintEOF(s, 4);
    if ReadUint(s, 4).Got? {
      var size, s1 := ReadUint(s, 4).value, ReadUint(s, 4).rest;
      LimitedReadsNoEOF(s1[..Min(size, |s1|)]);
    }
  }

  lemma TableEOF(s: bytes)
    ensures GivesEOF(ReadTable(s)) <==>
      || s == [] || (|s| == 4 && Announced(s) > 0)
      || (|s| >= 4 && Announced(s) <= |s| - 4 && GivesEOF(ReadEntries(EntriesOf(s))))
  {
    LongstrEOF(s);
  }

  lemma CutTable(s: bytes)
    ensures CutBody('F' as int, s) <==>
      || s == [] || (|s| == 4 && Announced(s) > 0)
      || (|s| >= 4 && Announced(s) <= |s| - 4 && CutEntries(EntriesOf(s)))
  {
    if |s| == 4 && Announced(s) == 0 {
      assert EntriesOf(s) == [];
    }
  }

  lemma FieldBody(s: bytes)
    requires s != []
    ensures ReportsEOF(s) <==>
      if s[0] == 'A' as int then GivesEOF(ReadArray(s[1..]))
      else if s[0] == 'F' as int then GivesEOF(ReadTable(s[1..]))
      else GivesEOF(ReadScalar(s[0], s[1..]))
  {
    OneOctet(s);
  }

  /** A read of a field reports EOF on these octets and no others. */
  lemma {:induction false} EOFIff(s: bytes)
    ensures ReportsEOF(s) <==> CutField(s)
    decreases |s|
  {
    if s != [] {
      var s1 := s[1..];
      FieldBody(s);
      if s[0] == 'A' as int {
        ArrayEOF(s1);
      } else if s[0] == 'F' as int {
        if |s1| >= 4 && Announced(s1) <= |s1| - 4 {
          EntriesEOFIff(EntriesOf(s1));
        }
        TableEOF(s1);
        CutTable(s1);
      } else {
        ScalarEOF(s[0], s1);
      }
    }
  }

  lemma {:induction false} EntriesEOFIff(s: bytes)
    ensures GivesEOF(ReadEntries(s)) <==> CutEntries(s)
    decreases |s|
  {
    if s != [] {
      OneOctet(s);
      if 1 + s[0] <= |s| {
        var s1 := s[1 + s[0]..];
        assert s[1..][s[0]..] == s1;
        EOFIff(s1);
        if ReadField(s1).Got? {
          EntriesEOFIff(ReadField(s1).rest);
        }
      }
    }
  }

  /** The loop succeeds although octets were dropped if and only if it stopped at octets
      that end where one of the reads for a field would begin. */
  lemma DropsIff(s: bytes)
    ensures ReadElems(s).Got? && !MadeOf(s, ReadElems(s).value) <==> Stop(s) != [] && CutField(Stop(s))
  {
    StopFails(s);
    EOFIff(Stop(s));
    if ReadElems(s).Got? {
      MadeOfIff(s);
    }
  }

  /** An array as announced: so many octets, made of these fields. */
  predicate WholeArray(s: bytes, fs: seq<Field>) {
    var size := ReadUint(s, 4);
    size.Got? && size.value <= |size.rest| && MadeOf(size.rest[..size.value], fs)
  }

  /** What readArray returns is the whole array as announced if and only if the announced
      octets are there and the loop stopped at their end. */
  lemma ReadArrayWholeIff(s: bytes)
    requires ReadArray(s).Got?
    ensures var size := ReadUint(s, 4);
            && size.Got?
            && (WholeArray(s, ReadArray(s).value) <==>
                size.value <= |size.rest| && Stop(size.rest[..size.value]) == [])
  {
    var size := ReadUint(s, 4);
    MadeOfIff(size.rest[..Min(size.value, |size.rest|)]);
  }

  /** And a whole array is returned as it is. */
  lemma WholeArrayRead(s: bytes, fs: seq<Field>)
    requires WholeArray(s, fs)
    ensures var size := ReadUint(s, 4); ReadArray(s) == Got(fs, size.rest[size.value..])
  {
    var size := ReadUint(s, 4);
    var payload := size.rest[..size.value];
    MadeOfRead(payload, fs);
    Empty(size.rest[size.value..]);
  }

  lemma {:induction false} MadeOfRead(s: bytes, fs: seq<Field>)
    requires MadeOf(s, fs)
    ensures ReadElems(s) == Got(fs, [])
    decreases |fs|
  {
    if fs != [] {
      MadeOfRead(ReadField(s).rest, fs[1..]);
      assert [fs[0]] + fs[1..] == fs;
    }
  }

  /** A table whose only entry has a key and no value passes for an empty array. */
  lemma CutTableIsEmptyArray()
    ensures ReadElems(['F' as int, 0, 0, 0, 2, 1, 'k' as int]) == Got([], [])
    ensures !MadeOf(['F' as int, 0, 0, 0, 2, 1, 'k' as int], [])
  {
    var s: bytes := ['F' as int, 0, 0, 0, 2, 1, 'k' as int];
    Widths();
    assert s == BigEndian(1, 'F' as int) + [0, 0, 0, 2, 1, 'k' as int];
    ReadUintAppend(1, 'F' as int, [0, 0, 0, 2, 1, 'k' as int]);
    var entry: bytes := [1, 'k' as int];
    assert BigEndian(4, 2) == [0, 0, 0, 2];
    assert Longstr(entry) == [0, 0, 0, 2] + entry;
    LongstrRoundTrip(entry, []);
    assert Longstr(entry) + [] == [0, 0, 0, 2, 1, 'k' as int];
    var key: bytes := ['k' as int];
    ShortstrRoundTrip(key, []);
    assert Shortstr(key) + [] == entry;
    assert ReadEntries(entry) == Bad(EOF, []);
    assert ReadTable([0, 0, 0, 2, 1, 'k' as int]) == Bad(EOF, []);
  }
}
