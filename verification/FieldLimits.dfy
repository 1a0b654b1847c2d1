/**
 Exactly which values survive being written and read back.  Nothing the reader ever
 produces exceeds the length fields, so a value that does exceed them cannot come back;
 everything else does.
 */
module FieldLimits {
  import opened Wire
  import opened Fields

  lemma ReadScalarFits(typ: byte, s: bytes)
    requires ReadScalar(typ, s).Got?
    ensures var r := ReadScalar(typ, s);
            Fits(WLeaf(r.value)) && |ScalarBody(r.value)| <= |s| - |r.rest|
  {
    Widths();
    if typ == 'x' as int {
      assert Pow256(4) == TWO32 == 2 * TWO31;
    }
  }

  /** Any octets at all: what readField returns fits, and took at least as many
      octets as it would be written with. */
  lemma {:induction false} ReadFieldFits(s: bytes) returns (w: Walk)
    requires ReadField(s).Got?
    ensures Visits(w, ReadField(s).value) && Fits(w)
    ensures |Encode(w)| <= |s| - |ReadField(s).rest|
    decreases |s|, 0
  {
    var typ, s1 := ReadUint(s, 1).value, ReadUint(s, 1).rest;
    Widths();
    if typ == 'A' as int {
      var size, s2 := ReadUint(s1, 4).value, ReadUint(s1, 4).rest;
      var n := Min(size, |s2|);
      var ws := ReadElemsFits(s2[..n]);
      w := WArr(ws);
    } else if typ == 'F' as int {
      var es := ReadTableFits(s1);
      w := WTab(es);
    } else {
      ReadScalarFits(typ, s1);
      w := WLeaf(ReadField(s).value.v);
    }
  }

  lemma {:induction false} ReadElemsFits(s: bytes) returns (ws: seq<Walk>)
    requires ReadElems(s).Got?
    ensures VisitsAll(ws, ReadElems(s).value) && FitsAll(ws)
    ensures |EncodeAll(ws)| <= |s| - |ReadElems(s).rest|
    decreases |s|, 1
  {
    if ReadField(s).Bad? {
      ws := [];
    } else {
      var w := ReadFieldFits(s);
      var more := ReadElemsFits(ReadField(s).rest);
      ws := [w] + more;
      assert ws[1..] == more && ReadElems(s).value[1..] == ReadElems(ReadField(s).rest).value;
    }
  }

  lemma {:induction false} ReadTableFits(s: bytes) returns (es: seq<Entry>)
    requires ReadTable(s).Got?
    ensures VisitsTable(es, ReadTable(s).value) && FitsTable(es)
    ensures |EncodeTable(es)| <= |s| - |ReadTable(s).rest|
    decreases |s|, 2
  {
    var str := ReadLongstr(s).value;
    es := ReadEntriesFits(str);
    assert |EncodeEntries(es)| <= |str| < TWO32;
  }

  lemma {:induction false} ReadEntriesFits(s: bytes) returns (es: seq<Entry>)
    requires ReadEntries(s).Got?
    ensures VisitsTable(es, ReadEntries(s).value) && EntriesFit(es)
    ensures |EncodeEntries(es)| <= |s|
    decreases |s|, 1
  {
    if s == [] {
      es := [];
    } else {
      var key, s1 := ReadShortstr(s).value, ReadShortstr(s).rest;
      var f, s2 := ReadField(s1).value, ReadField(s1).rest;
      var w := ReadFieldFits(s1);
      var more := ReadEntriesFits(s2);
      var m := ReadEntries(s2).value;
      if key in m {
        es := more;
        assert map[key := f] + m == m;
      } else {
        es := [Entry(key, w)] + more;
        PrependVisits(Entry(key, w), f, more, m);
        assert es[1..] == more;
      }
    }
  }

  lemma PrependVisits(e: Entry, f: Field, es: seq<Entry>, m: map<bytes, Field>)
    requires e.key !in m && VisitsTable(es, m) && Visits(e.val, f)
    ensures VisitsTable([e] + es, map[e.key := f] + m)
  {
    assert (map[e.key := f] + m) - {e.key} == m;
    assert ([e] + es)[1..] == es;
  }

  // ----- The order of the visit changes neither the size nor what fits -----

  function EntrySize(e: Entry): nat { |Shortstr(e.key)| + |Encode(e.val)| }

  predicate EntryFits(e: Entry) { |e.key| <= 255 && Fits(e.val) }

  lemma {:induction false} EntriesSplit(es: seq<Entry>, j: nat)
    requires j < |es|
    ensures |EncodeEntries(es)| == |EncodeEntries(es[..j] + es[j + 1..])| + EntrySize(es[j])
    ensures EntriesFit(es) <==> EntryFits(es[j]) && EntriesFit(es[..j] + es[j + 1..])
  {
    var rest := es[..j] + es[j + 1..];
    if j == 0 {
      assert rest == es[1..];
    } else {
      EntriesSplit(es[1..], j - 1);
      assert rest[1..] == es[1..][..j - 1] + es[1..][j..];
    }
  }

  lemma {:induction false} SameSize(w: Walk, w': Walk, f: Field)
    requires Visits(w, f) && Visits(w', f)
    ensures |Encode(w)| == |Encode(w')|
    ensures Fits(w) <==> Fits(w')
    decreases w, 1
  {
    match w
    case WArr(ws) => SameSizeAll(ws, w'.elems, f.elems);
    case WTab(es) => SameSizeTable(es, w'.entries, f.entries);
    case _ =>
  }

  lemma {:induction false} SameSizeAll(ws: seq<Walk>, ws': seq<Walk>, fs: seq<Field>)
    requires VisitsAll(ws, fs) && VisitsAll(ws', fs)
    ensures |EncodeAll(ws)| == |EncodeAll(ws')|
    ensures FitsAll(ws) <==> FitsAll(ws')
    decreases ws, 0
  {
    if ws != [] {
      SameSize(ws[0], ws'[0], fs[0]);
      SameSizeAll(ws[1..], ws'[1..], fs[1..]);
    }
  }

  lemma {:induction false} SameSizeTable(es: seq<Entry>, es': seq<Entry>, m: map<bytes, Field>)
    requires VisitsTable(es, m) && VisitsTable(es', m)
    ensures |EncodeEntries(es)| == |EncodeEntries(es')|
    ensures EntriesFit(es) <==> EntriesFit(es')
    decreases es, 0
  {
    if es != [] {
      var key := es[0].key;
      var j := KeyIndex(es', m, key);
      WithoutVisits(es', m, j);
      SameSize(es[0].val, es'[j].val, m[key]);
      SameSizeTable(es[1..], es'[..j] + es'[j + 1..], m - {key});
      EntriesSplit(es', j);
    }
  }

  lemma {:induction false} WithoutVisits(es: seq<Entry>, m: map<bytes, Field>, j: nat)
    requires j < |es| && VisitsTable(es, m)
    ensures es[j].key in m && Visits(es[j].val, m[es[j].key])
    ensures VisitsTable(es[..j] + es[j + 1..], m - {es[j].key})
  {
    var rest, key, key0 := es[..j] + es[j + 1..], es[j].key, es[0].key;
    if j == 0 {
      assert rest == es[1..];
    } else {
      WithoutVisits(es[1..], m - {key0}, j - 1);
      assert rest[1..] == es[1..][..j - 1] + es[1..][j..];
      assert m - {key0} - {key} == m - {key} - {key0};
    }
  }

  /** A visit meets every key. */
  lemma {:induction false} KeyIndex(es: seq<Entry>, m: map<bytes, Field>, key: bytes) returns (j: nat)
    requires VisitsTable(es, m) && key in m
    ensures j < |es| && es[j].key == key
    decreases es
  {
    if es[0].key == key {
      j := 0;
    } else {
      j := KeyIndex(es[1..], m - {es[0].key}, key);
      j := j + 1;
    }
  }

  /** A value written in any visiting order reads back as itself if and only if
      its strings, keys and encoded parts fit their length fields. */
  lemma RoundTripIffFits(w: Walk, f: Field, tail: bytes)
    requires Visits(w, f)
    ensures ReadField(Encode(w) + tail) == Got(f, tail) <==> Fits(w)
  {
    var s := Encode(w) + tail;
    if Fits(w) {
      RoundTrip(w, f, tail);
    } else if ReadField(s) == Got(f, tail) {
      var w' := ReadFieldFits(s);
      SameSize(w, w', f);
    }
  }

  // ----- Every value can be visited -----

  lemma {:induction false} SomeVisit(f: Field) returns (w: Walk)
    ensures Visits(w, f)
    decreases f, 1, 0
  {
    match f
    case Leaf(v) => w := WLeaf(v);
    case Unsupported => w := WUnsupported;
    case Tab(m) =>
      var es := SomeTableVisit(f, m);
      w := WTab(es);
    case Arr(fs) =>
      var ws := SomeVisits(f, fs);
      w := WArr(ws);
  }

  lemma {:induction false} SomeVisits(f: Field, fs: seq<Field>) returns (ws: seq<Walk>)
    requires f.Arr? && forall i :: 0 <= i < |fs| ==> fs[i] in f.elems
    ensures VisitsAll(ws, fs)
    decreases f, 0, |fs|
  {
    if fs == [] {
      ws := [];
    } else {
      assert fs[0] in f.elems;
      var w := SomeVisit(fs[0]);
      var more := SomeVisits(f, fs[1..]);
      ws := [w] + more;
    }
  }

  lemma {:induction false} SomeTableVisit(f: Field, m: map<bytes, Field>) returns (es: seq<Entry>)
    requires f.Tab? && m.Keys <= f.entries.Keys && forall k :: k in m ==> m[k] == f.entries[k]
    ensures VisitsTable(es, m)
    decreases f, 0, |m|
  {
    if m == map[] {
      es := [];
    } else {
      var key :| key in m;
      assert m[key] == f.entries[key];
      var w := SomeVisit(m[key]);
      var m' := m - {key};
      assert m.Keys == m'.Keys + {key};
      assert |m'.Keys| == |m'| && |m.Keys| == |m|;
      var more := SomeTableVisit(f, m');
      es := [Entry(key, w)] + more;
      assert es[1..] == more;
    }
  }
}
