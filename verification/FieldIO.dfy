/**
 The reader and the writer of field values as they run: a reader that is consumed
 octet by octet, buffers that are appended to, a table filled entry by entry.  A failed
 read leaves the reader where the code leaves it, since arrays go on from there.

 Each method is proved to do what the functions of `Wire` and `Fields` say.
 */
module FieldIO {
  import opened Sequences
  import opened Wire
  import opened Fields

  datatype Outcome<+T> = Ok(value: T) | Failed(err: Err)

  function OutcomeOf<T>(p: Parsed<T>): Outcome<T> {
    match p
    case Got(v, _) => Ok(v)
    case Bad(e, _) => Failed(e)
  }

  /** An io.Reader over the octets still to come. */
  class Reader {
    var rest: bytes

    constructor (s: bytes)
      ensures rest == s
    {
      rest := s;
    }

    /** io.ReadFull */
    method Full(n: nat) returns (r: Outcome<bytes>)
      modifies this
      ensures r == OutcomeOf(ReadFull(old(rest), n)) && rest == ReadFull(old(rest), n).rest
    {
      if n <= |rest| {
        r, rest := Ok(rest[..n]), rest[n..];
      } else {
        r, rest := Failed(if rest == [] then EOF else UnexpectedEOF), [];
      }
    }

    method Uint(n: nat) returns (r: Outcome<nat>)
      modifies this
      ensures r == OutcomeOf(ReadUint(old(rest), n)) && rest == ReadUint(old(rest), n).rest
    {
      var b := Full(n);
      match b
      case Failed(e) => r := Failed(e);
      case Ok(s) => r := Ok(FromBigEndian(s));
    }

    method Signed(n: nat) returns (r: Outcome<int>)
      modifies this
      ensures r == OutcomeOf(ReadSigned(old(rest), n)) && rest == ReadSigned(old(rest), n).rest
    {
      var b := Uint(n);
      match b
      case Failed(e) => r := Failed(e);
      case Ok(u) => r := Ok(ToSigned(n, u));
    }

    method Shortstr() returns (r: Outcome<bytes>)
      modifies this
      ensures r == OutcomeOf(ReadShortstr(old(rest))) && rest == ReadShortstr(old(rest)).rest
    {
      var len := Uint(1);
      match len
      case Failed(e) => r := Failed(e);
      case Ok(n) => r := Full(n);
    }

    method Longstr() returns (r: Outcome<bytes>)
      modifies this
      ensures r == OutcomeOf(ReadLongstr(old(rest))) && rest == ReadLongstr(old(rest)).rest
    {
      var len := Uint(4);
      match len
      case Failed(e) => r := Failed(e);
      case Ok(n) => r := Full(n);
    }

    method Scalar(typ: byte) returns (r: Outcome<Scalar>)
      modifies this
      ensures r == OutcomeOf(ReadScalar(typ, old(rest))) && rest == ReadScalar(typ, old(rest)).rest
    {
      Widths();
      if typ == 't' as int {
        var u := Uint(1);
        r := if u.Ok? then Ok(Bool(u.value != 0)) else Failed(u.err);
      } else if typ == 'b' as int {
        var u := Uint(1);
        r := if u.Ok? then Ok(Octet(u.value)) else Failed(u.err);
      } else if typ == 's' as int {
        var i := Signed(2);
        r := if i.Ok? then Ok(Int16(i.value)) else Failed(i.err);
      } else if typ == 'I' as int {
        var i := Signed(4);
        r := if i.Ok? then Ok(Int32(i.value)) else Failed(i.err);
      } else if typ == 'l' as int {
        var i := Signed(8);
        r := if i.Ok? then Ok(Int64(i.value)) else Failed(i.err);
      } else if typ == 'f' as int {
        var u := Uint(4);
        r := if u.Ok? then Ok(Float32(u.value)) else Failed(u.err);
      } else if typ == 'd' as int {
        var u := Uint(8);
        r := if u.Ok? then Ok(Float64(u.value)) else Failed(u.err);
      } else if typ == 'D' as int {
        r := ReadDecimal();
      } else if typ == 'S' as int {
        var s := Longstr();
        r := if s.Ok? then Ok(Str(s.value)) else Failed(s.err);
      } else if typ == 'T' as int {
        var i := Signed(8);
        r := if i.Ok? then Ok(Time(i.value)) else Failed(i.err);
      } else if typ == 'x' as int {
        r := ReadBlob();
      } else if typ == 'V' as int {
        r := Ok(Nil);
      } else {
        r := Failed(SyntaxError);
      }
    }

    method ReadDecimal() returns (r: Outcome<Scalar>)
      modifies this
      ensures var p := ReadScalar('D' as int, old(rest)); r == OutcomeOf(p) && rest == p.rest
    {
      Widths();
      var scale := Uint(1);
      if scale.Failed? { return Failed(scale.err); }
      var i := Signed(4);
      r := if i.Ok? then Ok(Decimal(scale.value, i.value)) else Failed(i.err);
    }

    method ReadBlob() returns (r: Outcome<Scalar>)
      modifies this
      ensures var p := ReadScalar('x' as int, old(rest)); r == OutcomeOf(p) && rest == p.rest
    {
      Widths();
      var len := Signed(4);
      if len.Failed? { return Failed(len.err); }
      if len.value < 0 { return Failed(Panic); }
      var d := Full(len.value);
      r := if d.Ok? then Ok(Blob(d.value)) else Failed(d.err);
    }

    /** readField */
    method Field() returns (r: Outcome<Field>)
      modifies this
      ensures r == OutcomeOf(ReadField(old(rest))) && rest == ReadField(old(rest)).rest
      decreases |rest|, 0
    {
      Widths();
      var typ := Uint(1);
      if typ.Failed? { return Failed(typ.err); }
      if typ.value == 'A' as int {
        var fs := Array();
        r := if fs.Ok? then Ok(Arr(fs.value)) else Failed(fs.err);
      } else if typ.value == 'F' as int {
        var m := Table();
        r := if m.Ok? then Ok(Tab(m.value)) else Failed(m.err);
      } else {
        var v := Scalar(typ.value);
        r := if v.Ok? then Ok(Leaf(v.value)) else Failed(v.err);
      }
    }

    /** readArray: append fields until one of them reports EOF. */
    method Array() returns (r: Outcome<seq<Field>>)
      modifies this
      ensures r == OutcomeOf(ReadArray(old(rest))) && rest == ReadArray(old(rest)).rest
      decreases |rest|, 2
    {
      ghost var s := rest;
      var size := Uint(4);
      if size.Failed? { return Failed(size.err); }
      var n := Min(size.value, |rest|);
      var beyond := rest[n..];
      var lim := new Reader(rest[..n]);
      ghost var view := lim.rest;
      var arr: seq<Field> := [];
      var field := lim.Field();
      ghost var before := view;
      assert ReadElems(view) == Prefixed(arr, ReadElems(view)) by { PrefixedNil(ReadElems(view)); }
      while field.Ok?
        invariant fresh(lim) && |before| <= |view| < |s|
        invariant lim.rest == ReadField(before).rest && field == OutcomeOf(ReadField(before))
        invariant ReadElems(view) == Prefixed(arr, ReadElems(before))
        decreases |before|
      {
        PrefixedStep(arr, before);
        arr := arr + [field.value];
        before := lim.rest;
        field := lim.Field();
      }
      assert arr + [] == arr;
      rest := lim.rest + beyond;
      r := if field.err == EOF then Ok(arr) else Failed(field.err);
    }

    /** readTable: the nested buffer holds the entries, which are stored one by one. */
    method Table() returns (r: Outcome<map<bytes, Field>>)
      modifies this
      ensures r == OutcomeOf(ReadTable(old(rest))) && rest == ReadTable(old(rest)).rest
      decreases |rest|, 2
    {
      var str := Longstr();
      if str.Failed? { return Failed(str.err); }
      var nested := new Reader(str.value);
      var table: map<bytes, Field> := map[];
      assert ReadTable(old(rest)).Got? ==> map[] + ReadEntries(str.value).value == ReadEntries(str.value).value;
      while nested.rest != []
        invariant fresh(nested) && |nested.rest| < |old(rest)| && rest == ReadLongstr(old(rest)).rest
        invariant Filled(map[], str.value) == Filled(table, nested.rest)
        decreases |nested.rest|
      {
        FilledStep(table, nested.rest);
        var key := nested.Shortstr();
        if key.Failed? { return Failed(key.err); }
        var value := nested.Field();
        if value.Failed? { return Failed(value.err); }
        table := table[key.value := value.value];
      }
      assert table + map[] == table;
      r := Ok(table);
    }
  }

  /** What a loop that has already collected `fs` makes of the remaining elements. */
  ghost function Prefixed(fs: seq<Field>, p: Parsed<seq<Field>>): Parsed<seq<Field>> {
    match p
    case Got(more, rest) => Got(fs + more, rest)
    case Bad(e, rest) => Bad(e, rest)
  }

  lemma PrefixedNil(p: Parsed<seq<Field>>)
    ensures Prefixed([], p) == p
  {
    if p.Got? { assert [] + p.value == p.value; }
  }

  lemma PrefixedStep(fs: seq<Field>, s: bytes)
    requires ReadField(s).Got?
    ensures Prefixed(fs, ReadElems(s)) == Prefixed(fs + [ReadField(s).value], ReadElems(ReadField(s).rest))
  {
    var f, p := ReadField(s).value, ReadElems(ReadField(s).rest);
    if p.Got? { assert fs + ([f] + p.value) == (fs + [f]) + p.value; }
  }

  /** What a loop that has already filled `table` makes of the remaining entries. */
  ghost function Filled(table: map<bytes, Field>, s: bytes): Outcome<map<bytes, Field>> {
    match ReadEntries(s)
    case Got(m, _) => Ok(table + m)
    case Bad(e, _) => Failed(e)
  }

  lemma FilledStep(table: map<bytes, Field>, s: bytes)
    requires s != []
    ensures var key := ReadShortstr(s);
            if key.Bad? then Filled(table, s) == Failed(key.err)
            else var f := ReadField(key.rest);
                 if f.Bad? then Filled(table, s) == Failed(f.err)
                 else Filled(table, s) == Filled(table[key.value := f.value], f.rest)
  {
    var key := ReadShortstr(s);
    if key.Got? {
      var f := ReadField(key.rest);
      if f.Got? && ReadEntries(f.rest).Got? {
        var m := ReadEntries(f.rest).value;
        assert table + (map[key.value := f.value] + m) == table[key.value := f.value] + m;
      }
    }
  }

  // ----- Writing -----

  lemma {:induction false} AppendElem(ws: seq<Walk>, fs: seq<Field>, w: Walk, f: Field)
    requires VisitsAll(ws, fs) && Visits(w, f)
    ensures VisitsAll(ws + [w], fs + [f])
    ensures EncodeAll(ws + [w]) == EncodeAll(ws) + Encode(w)
  {
    if ws == [] {
      Empty([w]);
      Empty([f]);
      Empty(Encode(w));
      assert [w][1..] == [] && [f][1..] == [];
    } else {
      AppendElem(ws[1..], fs[1..], w, f);
      assert (ws + [w])[1..] == ws[1..] + [w] && (fs + [f])[1..] == fs[1..] + [f];
      Assoc(Encode(ws[0]), EncodeAll(ws[1..]), Encode(w));
    }
  }

  function EncodeEntry(e: Entry): bytes { Shortstr(e.key) + Encode(e.val) }

  lemma {:induction false} AppendEntry(es: seq<Entry>, m: map<bytes, Field>, e: Entry, f: Field)
    requires VisitsTable(es, m) && e.key !in m && Visits(e.val, f)
    ensures VisitsTable(es + [e], m[e.key := f])
    ensures EncodeEntries(es + [e]) == EncodeEntries(es) + EncodeEntry(e)
  {
    if es == [] {
      assert m[e.key := f] - {e.key} == map[];
      Empty([e]);
      Empty(EncodeEntry(e));
    } else {
      var m' := m - {es[0].key};
      AppendEntry(es[1..], m', e, f);
      assert m[e.key := f] - {es[0].key} == m'[e.key := f];
      assert (es + [e])[1..] == es[1..] + [e];
      Assoc(EncodeEntry(es[0]), EncodeEntries(es[1..]), EncodeEntry(e));
    }
  }

  /** A bytes.Buffer */
  class Buffer {
    var data: bytes

    constructor ()
      ensures data == []
    {
      data := [];
    }

    method Write(s: bytes)
      modifies this
      ensures data == old(data) + s
    {
      data := data + s;
    }

    /** writeField.  It succeeds on exactly the values Validate accepts, and what it
        appends is the encoding of some visit of the value. */
    method Field(f: Field) returns (ok: bool, ghost w: Walk)
      modifies this
      ensures ok <==> Valid(f)
      ensures ok ==> Visits(w, f) && data == old(data) + Encode(w)
      decreases f, 1
    {
      match f
      case Unsupported =>
        ok, w := false, WUnsupported;
      case Leaf(v) =>
        Write(EncodeScalar(v));
        ok, w := true, WLeaf(v);
      case Arr(v) =>
        var sec := new Buffer();
        ghost var ws: seq<Walk> := [];
        w := WUnsupported;
        for i := 0 to |v|
          invariant fresh(sec) && data == old(data)
          invariant VisitsAll(ws, v[..i]) && sec.data == EncodeAll(ws)
          invariant forall j :: 0 <= j < i ==> Valid(v[j])
        {
          ghost var wi;
          ok, wi := sec.Field(v[i]);
          if !ok { return; }
          AppendElem(ws, v[..i], wi, v[i]);
          assert v[..i] + [v[i]] == v[..i + 1];
          ws := ws + [wi];
        }
        assert v[..|v|] == v;
        Write(['A' as int] + BigEndian(4, Uint32(|sec.data|)));
        Write(sec.data);
        ok, w := true, WArr(ws);
      case Tab(m) =>
        Write(['F' as int]);
        ghost var es;
        ok, es := Table(m);
        w := WTab(es);
    }

    /** writeTable: the entries come up in an order of the runtime's choosing. */
    method Table(table: map<bytes, Field>) returns (ok: bool, ghost es: seq<Entry>)
      modifies this
      ensures ok <==> Valid(Tab(table))
      ensures ok ==> VisitsTable(es, table) && data == old(data) + EncodeTable(es)
      decreases Tab(table), 0
    {
      var buf := new Buffer();
      var left := table.Keys;
      ghost var seen: map<bytes, Field> := map[];
      es := [];
      while left != {}
        invariant fresh(buf) && data == old(data)
        invariant left <= table.Keys && seen == table - left
        invariant VisitsTable(es, seen) && buf.data == EncodeEntries(es)
        invariant forall k :: k in seen ==> Valid(table[k])
        decreases left
      {
        var key :| key in left;
        left := left - {key};
        buf.Write(Shortstr(key));
        ghost var w;
        ok, w := buf.Field(table[key]);
        if !ok { return; }
        AppendEntry(es, seen, Entry(key, w), table[key]);
        seen := seen[key := table[key]];
        es := es + [Entry(key, w)];
        assert seen == table - left;
      }
      assert seen == table;
      Write(Longstr(buf.data));
      ok := true;
    }
  }
}
