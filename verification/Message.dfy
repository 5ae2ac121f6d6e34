/** A message is a sequence of Append calls, read back by the same sequence of Value calls. */
module Message {
  import opened Bytes
  import opened Codec

  /** The bytes of a C string held in `t`: everything before the first NUL. */
  function CPrefix(t: Bytes): (r: Bytes)
    ensures r <= t && 0 !in r
    ensures r != t ==> t[|r|] == 0
  {
    if t == [] || t[0] == 0 then [] else [t[0]] + CPrefix(t[1..])
  }

  predicate FieldFits(f: Field, v: Value) {
    if f.Item? then Fits(f.schema, v) else v.Text?
  }

  ghost predicate FieldType(less: Less, f: Field, v: Value): (b: bool)
    ensures b ==> FieldFits(f, v)
  {
    if f.Item? then HasType(less, f.schema, v) else v.Text?
  }

  ghost predicate FieldFaithful(f: Field, v: Value) {
    Faithful(v) && (f.CString? && v.Text? ==> 0 !in v.bytes)
  }

  function EncodeField(f: Field, v: Value): Bytes
    requires FieldFits(f, v)
  {
    match f
    case Item(s) => Encode(s, v)
    case CString => Encode(Str, Text(CPrefix(v.bytes)))
    case Buffer => Encode(Str, v)
  }

  function ReadField(less: Less, wrap: nat, f: Field, buf: Bytes, pos: nat): Option<(Value, nat)>
    requires wrap > 0
  {
    match f
    case Item(s) => Read(less, wrap, s, buf, pos)
    case CString =>
      (match ReadText(wrap, buf, pos)
       case None => None
       case Some((t, p)) => Some((Text(CPrefix(t)), p)))
    case Buffer => Read(less, wrap, Str, buf, pos)
  }

  ghost predicate MessageType(less: Less, fs: seq<Field>, vs: seq<Value>) {
    |fs| == |vs| && forall i :: 0 <= i < |fs| ==> FieldType(less, fs[i], vs[i])
  }

  ghost predicate MessageFaithful(fs: seq<Field>, vs: seq<Value>)
    requires |fs| == |vs|
  {
    forall i :: 0 <= i < |fs| ==> FieldFaithful(fs[i], vs[i])
  }

  function EncodeAll(fs: seq<Field>, vs: seq<Value>): Bytes
    requires |fs| == |vs| && forall i :: 0 <= i < |fs| ==> FieldFits(fs[i], vs[i])
  {
    if fs == [] then [] else EncodeField(fs[0], vs[0]) + EncodeAll(fs[1..], vs[1..])
  }

  function ReadAll(less: Less, wrap: nat, fs: seq<Field>, buf: Bytes, pos: nat): Option<(seq<Value>, nat)>
    requires wrap > 0
  {
    if fs == [] then Some(([], pos))
    else
      match ReadField(less, wrap, fs[0], buf, pos)
      case None => None
      case Some((v, p)) =>
        match ReadAll(less, wrap, fs[1..], buf, p)
        case None => None
        case Some((vs, q)) => Some(([v] + vs, q))
  }

  lemma CStringRoundTrip(less: Less, wrap: nat, t: Bytes, buf: Bytes, pos: nat)
    requires StrictOrder(less) && wrap > 0
    requires Has(buf, pos, EncodeField(CString, Text(t)))
    ensures ReadField(less, wrap, CString, buf, pos) == Some((Text(t), pos + |EncodeField(CString, Text(t))|))
            <==> FieldFaithful(CString, Text(t)) && pos + |EncodeField(CString, Text(t))| < wrap
  {
    hide StrictOrder, EncodeInt, DecodeUnsigned, ReadInt;
    var p := Text(CPrefix(t));
    RoundTrip(less, wrap, Str, p, buf, pos);
    ReadIsFaithful(less, wrap, Str, buf, pos);
    if 0 !in t {
      assert CPrefix(t) == t;
    }
  }

  /** A char * round trip also needs the text to be free of NULs; a nested ByteBuffer behaves like a
      std::string. */
  lemma FieldRoundTrip(less: Less, wrap: nat, f: Field, v: Value, buf: Bytes, pos: nat)
    requires StrictOrder(less) && wrap > 0 && FieldType(less, f, v)
    requires Has(buf, pos, EncodeField(f, v))
    ensures ReadField(less, wrap, f, buf, pos) == Some((v, pos + |EncodeField(f, v)|))
            <==> FieldFaithful(f, v) && pos + |EncodeField(f, v)| < wrap
  {
    hide StrictOrder, EncodeInt, DecodeUnsigned, Encode, Read, ReadText;
    match f
    case Item(s) => RoundTrip(less, wrap, s, v, buf, pos);
    case Buffer => RoundTrip(less, wrap, Str, v, buf, pos);
    case CString => CStringRoundTrip(less, wrap, v.bytes, buf, pos);
  }

  lemma FieldReadIsFaithful(less: Less, wrap: nat, f: Field, buf: Bytes, pos: nat)
    requires StrictOrder(less) && wrap > 0
    ensures var r := ReadField(less, wrap, f, buf, pos);
            r.Some? ==> FieldFaithful(f, r.value.0) && r.value.1 < wrap
  {
    if f.Item? { ReadIsFaithful(less, wrap, f.schema, buf, pos); }
  }

  lemma {:induction false} MessageReadIsFaithful(less: Less, wrap: nat, fs: seq<Field>, buf: Bytes, pos: nat)
    requires StrictOrder(less) && pos < wrap
    ensures var r := ReadAll(less, wrap, fs, buf, pos);
            r.Some? ==> |r.value.0| == |fs| && MessageFaithful(fs, r.value.0) && r.value.1 < wrap
  {
    hide StrictOrder, FieldFaithful, ReadField;
    if fs != [] && ReadField(less, wrap, fs[0], buf, pos).Some? {
      FieldReadIsFaithful(less, wrap, fs[0], buf, pos);
      MessageReadIsFaithful(less, wrap, fs[1..], buf, ReadField(less, wrap, fs[0], buf, pos).value.1);
    }
  }

  lemma {:induction false} MessageBack(less: Less, wrap: nat, fs: seq<Field>, vs: seq<Value>, buf: Bytes, pos: nat)
    requires StrictOrder(less) && MessageType(less, fs, vs) && MessageFaithful(fs, vs)
    requires Has(buf, pos, EncodeAll(fs, vs)) && pos + |EncodeAll(fs, vs)| < wrap
    ensures ReadAll(less, wrap, fs, buf, pos) == Some((vs, pos + |EncodeAll(fs, vs)|))
  {
    hide StrictOrder, FieldFaithful, FieldType, EncodeField, ReadField;
    if fs != [] {
      var first := EncodeField(fs[0], vs[0]);
      HasSplit(buf, pos, first, EncodeAll(fs[1..], vs[1..]));
      FieldRoundTrip(less, wrap, fs[0], vs[0], buf, pos);
      MessageBack(less, wrap, fs[1..], vs[1..], buf, pos + |first|);
      assert [vs[0]] + vs[1..] == vs;
    }
  }

  /** Values appended one after the other come back in the same order, and the cursor ends exactly where
      the appended bytes end, if and only if every value is faithful and the cursor does not wrap. */
  lemma MessageRoundTrip(less: Less, wrap: nat, fs: seq<Field>, vs: seq<Value>, buf: Bytes, pos: nat)
    requires StrictOrder(less) && pos < wrap && MessageType(less, fs, vs)
    requires Has(buf, pos, EncodeAll(fs, vs))
    ensures ReadAll(less, wrap, fs, buf, pos) == Some((vs, pos + |EncodeAll(fs, vs)|))
            <==> MessageFaithful(fs, vs) && pos + |EncodeAll(fs, vs)| < wrap
  {
    hide StrictOrder, FieldFaithful, FieldType;
    if MessageFaithful(fs, vs) && pos + |EncodeAll(fs, vs)| < wrap {
      MessageBack(less, wrap, fs, vs, buf, pos);
    } else {
      MessageReadIsFaithful(less, wrap, fs, buf, pos);
    }
  }

  /** For one message type the encoding is prefix-free, hence injective. */
  lemma UniqueDecoding(less: Less, fs: seq<Field>, vs: seq<Value>, ws: seq<Value>)
    requires StrictOrder(less) && MessageType(less, fs, vs) && MessageType(less, fs, ws)
    requires MessageFaithful(fs, vs) && MessageFaithful(fs, ws)
    requires EncodeAll(fs, vs) <= EncodeAll(fs, ws)
    ensures vs == ws
  {
    hide StrictOrder, FieldFaithful, FieldType, EncodeAll, ReadAll;
    var buf := EncodeAll(fs, ws);
    assert buf[0..|buf|] == buf;
    MessageBack(less, |buf| + 1, fs, ws, buf, 0);
    MessageBack(less, |buf| + 1, fs, vs, buf, 0);
  }
}
