/** The byte buffer as the object it is: bytes appended in place and a 32-bit read cursor. Every method is
    tied to the pure writer and reader of `Codec` and `Message`. */
module Buffers {
  import opened Bytes
  import opened Codec
  import opened Message

  lemma {:induction false} EncodeItemsSnoc(s: Schema, items: seq<Value>, v: Value)
    requires s.Vec? && Fits(s, List(items)) && Fits(s.elem, v) && Fits(s, List(items + [v]))
    ensures EncodeItems(s, items + [v]) == EncodeItems(s, items) + Encode(s.elem, v)
  {
    if items == [] {
      assert [v][1..] == [];
    } else {
      assert (items + [v])[1..] == items[1..] + [v];
      EncodeItemsSnoc(s, items[1..], v);
    }
  }

  lemma {:induction false} EncodeEntriesSnoc(s: Schema, es: seq<Entry>, e: Entry)
    requires s.Map? && Fits(s, Dict(es)) && Fits(s.key, e.key) && Fits(s.val, e.val) && Fits(s, Dict(es + [e]))
    ensures EncodeEntries(s, es + [e]) == EncodeEntries(s, es) + (Encode(s.key, e.key) + Encode(s.val, e.val))
  {
    if es == [] {
      assert [e][1..] == [];
    } else {
      assert (es + [e])[1..] == es[1..] + [e];
      EncodeEntriesSnoc(s, es[1..], e);
    }
  }

  lemma {:induction false} InsertAllSnoc(less: Less, entries: seq<Entry>, more: seq<Entry>, e: Entry)
    ensures InsertAll(less, entries, more + [e]) == Insert(less, InsertAll(less, entries, more), e)
    decreases |more|
  {
    if more == [] {
      assert [e][1..] == [];
    } else {
      assert (more + [e])[1..] == more[1..] + [e];
      InsertAllSnoc(less, Insert(less, entries, more[0]), more[1..], e);
    }
  }

  /** The C string in an array is what comes before its first NUL. */
  lemma {:induction false} CPrefixUnique(t: Bytes, p: Bytes)
    requires |p| < |t| && p == t[..|p|] && 0 !in p && t[|p|] == 0
    ensures CPrefix(t) == p
  {
    if p != [] {
      assert t[0] == p[0];
      CPrefixUnique(t[1..], p[1..]);
      assert [t[0]] + p[1..] == p;
    }
  }

  /** strncpy of `text` and a NUL behind it. */
  method CopyCString(out: array<byte>, text: Bytes)
    requires |text| < out.Length
    modifies out
    ensures CPrefix(out[..]) == CPrefix(text)
    ensures forall k :: |text| < k < out.Length ==> out[k] == old(out[k])
  {
    hide CPrefix;
    var stopped := false;
    for i := 0 to |text|
      invariant stopped <==> |CPrefix(text)| < i
      invariant forall k :: 0 <= k < i ==> out[k] == if k < |CPrefix(text)| then text[k] else 0
      invariant forall k :: i <= k < out.Length ==> out[k] == old(out[k])
    {
      stopped := stopped || text[i] == 0;
      out[i] := if stopped then 0 else text[i];
    }
    out[|text|] := 0;
    CPrefixUnique(out[..], CPrefix(text));
  }

  /** What one turn of the map reader's loop reads. */
  lemma ReadPairsStep(less: Less, wrap: nat, s: Schema, n: int, buf: Bytes, pos: nat)
    requires wrap > 0 && s.Map? && n > 0 && ReadPairs(less, wrap, s, n, buf, pos).Some?
    ensures var k := Read(less, wrap, s.key, buf, pos);
            k.Some? &&
            var v := Read(less, wrap, s.val, buf, k.value.1);
            v.Some? &&
            var r := ReadPairs(less, wrap, s, n - 1, buf, v.value.1);
            && r.Some?
            && ReadPairs(less, wrap, s, n, buf, pos)
               == Some(([Entry(k.value.0, v.value.0)] + r.value.0, r.value.1))
  {
  }

  lemma ReadPairsNone(less: Less, wrap: nat, s: Schema, n: int, buf: Bytes, pos: nat)
    requires wrap > 0 && s.Map? && n <= 0
    ensures ReadPairs(less, wrap, s, n, buf, pos) == Some(([], pos))
  {
  }

  lemma InsertAllNone(less: Less, entries: seq<Entry>)
    ensures InsertAll(less, entries, []) == entries
  {
  }

  lemma EncodeVector(s: Schema, items: seq<Value>)
    requires s.Vec? && Fits(s, List(items))
    ensures EncodeItems(s, items[..0]) == []
    ensures Encode(s, List(items)) == EncodeInt(|items|) + EncodeItems(s, items[..Written(|items|)])
  {
  }

  lemma EncodeEntriesNone(s: Schema)
    requires s.Map?
    ensures EncodeEntries(s, []) == []
  {
  }

  /** What a buffer holds after being appended to itself. */
  function SelfAppend(b: Bytes): Bytes {
    b + EncodeInt(|b|) + (b + EncodeInt(|b|))
  }

  class ByteBuffer {
    var data: Bytes       // m_buffer
    var position: nat     // m_position, an unsigned int

    ghost predicate Valid()
      reads this
    {
      position < POW32
    }

    constructor ()
      ensures Valid() && data == [] && position == 0
    {
      data, position := [], 0;
    }

    constructor From(bytes: Bytes)
      ensures Valid() && data == bytes && position == 0
    {
      data, position := bytes, 0;
    }

    method Clear()
      modifies this
      ensures Valid() && data == [] && position == 0
    {
      data, position := [], 0;
    }

    method SetPosition(pos: nat)
      requires pos < POW32
      modifies this`position
      ensures Valid() && position == pos
    {
      position := pos;
    }

    // -------------------------------------------------------------- Append

    /** The template overload for types copied by their object representation. */
    method AppendRaw(bytes: Bytes)
      modifies this`data
      ensures data == old(data) + bytes
    {
      data := data + bytes;
    }

    method AppendSize(n: nat)
      modifies this`data
      ensures data == old(data) + Encode(SizeT, Size(n))
    {
      EncodeTruncated(n);
      AppendRaw(EncodeInt(ToInt32(n)));
    }

    method AppendString(text: Bytes)
      modifies this`data
      ensures data == old(data) + Encode(Str, Text(text))
    {
      AppendSize(|text|);
      data := data + text;
    }

    method AppendCString(text: Bytes)
      modifies this`data
      ensures data == old(data) + EncodeField(CString, Text(text))
    {
      var t := CPrefix(text);
      AppendSize(|t|);
      data := data + t;
    }

    /** `_data` is a reference into `other`. When that is this very buffer, the length just written is part
        of what is copied. */
    method AppendBuffer(other: ByteBuffer)
      modifies this`data
      ensures other != this ==> data == old(data) + EncodeField(Buffer, Text(old(other.data)))
      ensures other == this ==> data == SelfAppend(old(data))
    {
      AppendSize(|other.data|);
      data := data + other.data;
    }

    method AppendVector(s: Schema, items: seq<Value>)
      requires s.Vec? && Fits(s, List(items))
      modifies this`data
      ensures data == old(data) + Encode(s, List(items))
      decreases s, 0
    {
      hide EncodeInt, ToInt32, Encode, EncodeItems;
      EncodeTruncated(|items|);
      EncodeVector(s, items);
      var v := ToInt32(|items|);
      AppendRaw(EncodeInt(v));
      var i := 0;
      while i < v
        invariant 0 <= i <= Written(|items|)
        invariant data == old(data) + EncodeInt(|items|) + EncodeItems(s, items[..i])
      {
        AppendItem(s.elem, items[i]);
        EncodeItemsSnoc(s, items[..i], items[i]);
        assert items[..i] + [items[i]] == items[..i + 1];
        i := i + 1;
      }
    }

    method AppendEntry(s: Schema, e: Entry)
      requires s.Map? && Fits(s.key, e.key) && Fits(s.val, e.val)
      modifies this`data
      ensures data == old(data) + (Encode(s.key, e.key) + Encode(s.val, e.val))
      decreases s, 0, 0
    {
      hide Encode;
      AppendItem(s.key, e.key);
      AppendItem(s.val, e.val);
    }

    method AppendMap(s: Schema, entries: seq<Entry>)
      requires s.Map? && Fits(s, Dict(entries))
      modifies this`data
      ensures data == old(data) + Encode(s, Dict(entries))
      decreases s, 0, 1
    {
      hide EncodeInt, ToInt32, EncodeEntries;
      EncodeTruncated(|entries|);
      AppendRaw(EncodeInt(ToInt32(|entries|)));
      EncodeEntriesNone(s);
      for i := 0 to |entries|
        invariant data == old(data) + EncodeInt(|entries|) + EncodeEntries(s, entries[..i])
      {
        AppendEntry(s, entries[i]);
        EncodeEntriesSnoc(s, entries[..i], entries[i]);
        assert entries[..i] + [entries[i]] == entries[..i + 1];
      }
      assert entries[..|entries|] == entries;
    }

    /** The overload the static type selects. */
    method AppendItem(s: Schema, v: Value)
      requires Fits(s, v)
      modifies this`data
      ensures data == old(data) + Encode(s, v)
      decreases s, 1
    {
      match s
      case Prim(_) => AppendRaw(v.bytes);
      case SizeT => AppendSize(v.n);
      case Str => AppendString(v.bytes);
      case Vec(_) => AppendVector(s, v.items);
      case Map(_, _) => AppendMap(s, v.entries);
    }

    // -------------------------------------------------------------- Value

    method ValueRaw(n: nat) returns (bytes: Bytes)
      requires Valid() && position + n <= |data|
      modifies this`position
      ensures Valid() && bytes == data[old(position)..old(position) + n]
      ensures position == Advance(POW32, old(position), n)
    {
      bytes := data[position..position + n];
      position := Advance(POW32, position, n);
    }

    method ValueInt() returns (n: int)
      requires Valid() && ReadInt(POW32, data, position).Some?
      modifies this`position
      ensures Valid() && ReadInt(POW32, data, old(position)) == Some((n, position))
    {
      var b := ValueRaw(4);
      n := ToInt32(DecodeUnsigned(b));
    }

    method ValueText() returns (text: Bytes)
      requires Valid() && ReadText(POW32, data, position).Some?
      modifies this`position
      ensures Valid() && ReadText(POW32, data, old(position)) == Some((text, position))
    {
      var n := ValueInt();
      text := ValueRaw(n);
    }

    /** `Value(char *)`: strncpy into the caller's array, then a terminating NUL. */
    method ValueCString(ghost less: Less, out: array<byte>)
      requires Valid() && ReadText(POW32, data, position).Some?
      requires |ReadText(POW32, data, position).value.0| < out.Length
      modifies this`position, out
      ensures Valid()
      ensures ReadField(less, POW32, CString, data, old(position)) == Some((Text(CPrefix(out[..])), position))
      ensures forall k :: |ReadText(POW32, data, old(position)).value.0| < k < out.Length ==> out[k] == old(out[k])
    {
      var text := ValueText();
      CopyCString(out, text);
    }

    /** `Value(ByteBuffer &)`: the target is replaced by a fresh buffer with its cursor at 0. */
    method ValueBuffer(out: ByteBuffer)
      requires Valid() && ReadText(POW32, data, position).Some?
      modifies this`position, out
      ensures Valid() && out.Valid()
      ensures var r := ReadText(POW32, old(data), old(position)).value;
              && out.data == r.0
              && (out != this ==> out.position == 0 && position == r.1)
              && (out == this ==> position == |r.0|)
    {
      var n := ValueInt();
      var text := data[position..position + n];
      out.data, out.position := text, 0;
      position := Advance(POW32, position, n);
    }

    method ValueVector(less: Less, s: Schema, target: seq<Value>) returns (out: seq<Value>)
      requires Valid() && s.Vec? && ReadInto(less, POW32, s, List(target), data, position).Some?
      modifies this`position
      ensures Valid()
      ensures ReadInto(less, POW32, s, List(target), data, old(position)) == Some((List(out), position))
      decreases s, 0
    {
      hide ReadInt, Read, Insert;
      var n := ValueInt();
      ghost var all := ReadItems(less, POW32, s, n, data, position);
      ghost var got := [];
      assert got + all.value.0 == all.value.0;
      out := target;
      var i := 0;
      while i < n
        invariant Valid() && 0 <= i && out == target + got
        invariant ReadItems(less, POW32, s, n - i, data, position).Some?
        invariant all == var r := ReadItems(less, POW32, s, n - i, data, position).value; Some((got + r.0, r.1))
      {
        ghost var rest := ReadItems(less, POW32, s, n - i, data, position).value;
        var v := ValueItem(less, s.elem);
        assert got + rest.0 == (got + [v]) + rest.0[1..];
        assert target + (got + [v]) == target + got + [v];
        out, got := out + [v], got + [v];
        i := i + 1;
      }
      assert got + [] == got;
    }

    method ValueMap(less: Less, s: Schema, target: seq<Entry>) returns (out: seq<Entry>)
      requires Valid() && s.Map? && ReadInto(less, POW32, s, Dict(target), data, position).Some?
      modifies this`position
      ensures Valid()
      ensures ReadInto(less, POW32, s, Dict(target), data, old(position)) == Some((Dict(out), position))
      decreases s, 0
    {
      hide ReadInt, Read, Insert, InsertAll, ReadPairs;
      var n := ValueInt();
      ghost var all := ReadPairs(less, POW32, s, n, data, position);
      ghost var got := [];
      assert got + all.value.0 == all.value.0;
      InsertAllNone(less, target);
      out := target;
      var i := 0;
      while i < n
        invariant Valid() && 0 <= i && out == InsertAll(less, target, got)
        invariant ReadPairs(less, POW32, s, n - i, data, position).Some?
        invariant all == var r := ReadPairs(less, POW32, s, n - i, data, position).value; Some((got + r.0, r.1))
      {
        ReadPairsStep(less, POW32, s, n - i, data, position);
        ghost var rest := ReadPairs(less, POW32, s, n - i, data, position).value;
        var k := ValueItem(less, s.key);
        var v := ValueItem(less, s.val);
        InsertAllSnoc(less, target, got, Entry(k, v));
        assert got + rest.0 == (got + [Entry(k, v)]) + rest.0[1..];
        out, got := Insert(less, out, Entry(k, v)), got + [Entry(k, v)];
        i := i + 1;
      }
      ReadPairsNone(less, POW32, s, n - i, data, position);
      assert got + [] == got;
    }

    /** The overload the static type selects, into a default-constructed target. */
    method ValueItem(less: Less, s: Schema) returns (v: Value)
      requires Valid() && Read(less, POW32, s, data, position).Some?
      modifies this`position
      ensures Valid() && Read(less, POW32, s, data, old(position)) == Some((v, position))
      decreases s, 1
    {
      match s
      case Prim(w) => var b := ValueRaw(w); v := Raw(b);
      case SizeT => var n := ValueInt(); v := Size(SignExtend(n));
      case Str => var t := ValueText(); v := Text(t);
      case Vec(_) => var items := ValueVector(less, s, []); v := List(items);
      case Map(_, _) => var es := ValueMap(less, s, []); v := Dict(es);
    }
  }

  /** Appending a buffer to itself is not the nested-buffer encoding: read back where it was written, the
      old contents come out, but four bytes are left over, so the next field is read out of step. */
  lemma SelfAppendMisaligns(less: Less, b: Bytes)
    requires |b| < POW31 && 2 * |b| + 8 < POW32
    ensures SelfAppend(b) != b + EncodeField(Buffer, Text(b))
    ensures ReadField(less, POW32, Buffer, SelfAppend(b), |b|) == Some((Text(b), |SelfAppend(b)| - 4))
  {
    hide EncodeInt, DecodeUnsigned, ReadInt, ToInt32;
    var n := EncodeInt(|b|);
    var buf := SelfAppend(b);
    assert buf == b + (n + b) + n;
    assert buf[|b|..|b| + |n + b|] == n + b;
    assert Has(buf, |b|, n + b);
    ReadTextBack(POW32, b, buf, |b|);
  }
}
