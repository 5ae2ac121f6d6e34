/** The byte encoding that the overload set of `ByteBuffer::Append` and `ByteBuffer::Value` fixes.

    A `Schema` is the static C++ type that picks the overload; a `Value` is what is written or read.
    `Encode` is the writer, `Read` the reader with its cursor, both as pure functions.
*/
module Codec {
  import opened Bytes

  /** Types that may also be the elements of a vector or a map. */
  datatype Schema =
    | Prim(width: nat)                   // any type copied by its object representation
    | SizeT                              // written as a 32-bit int
    | Str                                // std::string
    | Vec(elem: Schema)
    | Map(key: Schema, val: Schema)

  /** What one top-level Append/Value call handles: the element types, `char *` and ByteBuffer. */
  datatype Field = Item(schema: Schema) | CString | Buffer

  datatype Value =
    | Raw(bytes: Bytes)
    | Size(n: nat)
    | Text(bytes: Bytes)
    | List(items: seq<Value>)
    | Dict(entries: seq<Entry>)

  datatype Entry = Entry(key: Value, val: Value)

  /** The comparison of a map's keys (std::less). */
  type Less = (Value, Value) -> bool

  ghost predicate StrictOrder(less: Less) {
    && (forall a :: !less(a, a))
    && (forall a, b :: a != b ==> less(a, b) || less(b, a))
    && (forall a, b, c :: less(a, b) && less(b, c) ==> less(a, c))
  }

  /** A std::map iterates its entries by strictly ascending key. */
  ghost predicate Ascending(less: Less, entries: seq<Entry>) {
    forall i, j :: 0 <= i < j < |entries| ==> less(entries[i].key, entries[j].key)
  }

  /** The shape the writer needs; unlike `HasType` it can be evaluated. */
  predicate Fits(s: Schema, v: Value) {
    match s
    case Prim(w) => v.Raw? && |v.bytes| == w
    case SizeT => v.Size?
    case Str => v.Text?
    case Vec(el) => v.List? && forall i :: 0 <= i < |v.items| ==> Fits(el, v.items[i])
    case Map(k, w) =>
      v.Dict? && forall i :: 0 <= i < |v.entries| ==> Fits(k, v.entries[i].key) && Fits(w, v.entries[i].val)
  }

  ghost predicate HasType(less: Less, s: Schema, v: Value): (b: bool)
    ensures b ==> Fits(s, v)
  {
    match s
    case Prim(w) => v.Raw? && |v.bytes| == w
    case SizeT => v.Size? && v.n < POW64
    case Str => v.Text?
    case Vec(el) => v.List? && forall i :: 0 <= i < |v.items| ==> HasType(less, el, v.items[i])
    case Map(k, w) =>
      && v.Dict?
      && Ascending(less, v.entries)
      && forall i :: 0 <= i < |v.entries| ==>
           HasType(less, k, v.entries[i].key) && HasType(less, w, v.entries[i].val)
  }

  /** The values the 32-bit lengths can carry: every length below 2^31, and every size_t either below
      2^31 or so close to 2^64 that sign extension restores it. */
  ghost predicate Faithful(v: Value) {
    match v
    case Raw(_) => true
    case Size(n) => n < POW31 || POW64 - POW31 <= n
    case Text(b) => |b| < POW31
    case List(items) => |items| < POW31 && forall i :: 0 <= i < |items| ==> Faithful(items[i])
    case Dict(entries) =>
      && |entries| < POW31
      && forall i :: 0 <= i < |entries| ==> Faithful(entries[i].key) && Faithful(entries[i].val)
  }

  // ---------------------------------------------------------------- writing

  /** How many elements the vector writer's `int` loop counter lets it write. */
  function Written(n: nat): (k: nat)
    ensures k <= n
  {
    var m := ToInt32(n);
    if m < 0 then 0 else m
  }

  function Encode(s: Schema, v: Value): Bytes
    requires Fits(s, v)
    decreases s, 2
  {
    match s
    case Prim(_) => v.bytes
    case SizeT => EncodeInt(v.n)
    case Str => EncodeInt(|v.bytes|) + v.bytes
    case Vec(_) => EncodeInt(|v.items|) + EncodeItems(s, v.items[..Written(|v.items|)])
    case Map(_, _) => EncodeInt(|v.entries|) + EncodeEntries(s, v.entries)
  }

  function EncodeItems(s: Schema, items: seq<Value>): Bytes
    requires s.Vec? && forall i :: 0 <= i < |items| ==> Fits(s.elem, items[i])
    decreases s, 1, |items|
  {
    if items == [] then [] else Encode(s.elem, items[0]) + EncodeItems(s, items[1..])
  }

  function EncodeEntries(s: Schema, entries: seq<Entry>): Bytes
    requires s.Map? && forall i :: 0 <= i < |entries| ==> Fits(s.key, entries[i].key) && Fits(s.val, entries[i].val)
    decreases s, 1, |entries|
  {
    if entries == [] then []
    else Encode(s.key, entries[0].key) + Encode(s.val, entries[0].val) + EncodeEntries(s, entries[1..])
  }

  // ---------------------------------------------------------------- std::map

  /** `std::map::insert`: keeps the entry of a key already present. */
  function Insert(less: Less, entries: seq<Entry>, e: Entry): (r: seq<Entry>)
    ensures |entries| <= |r| <= |entries| + 1
  {
    if entries == [] then [e]
    else if entries[0].key == e.key then entries
    else if less(e.key, entries[0].key) then [e] + entries
    else [entries[0]] + Insert(less, entries[1..], e)
  }

  function InsertAll(less: Less, entries: seq<Entry>, more: seq<Entry>): (r: seq<Entry>)
    ensures |entries| <= |r| <= |entries| + |more|
    decreases |more|
  {
    if more == [] then entries else InsertAll(less, Insert(less, entries, more[0]), more[1..])
  }

  /** The value the first entry with key `k` holds. */
  function Lookup(entries: seq<Entry>, k: Value): Option<Value> {
    if entries == [] then None
    else if entries[0].key == k then Some(entries[0].val)
    else Lookup(entries[1..], k)
  }

  // ---------------------------------------------------------------- reading

  /** The cursor after reading `n` bytes; `wrap` is one more than the largest cursor value. */
  function Advance(wrap: nat, pos: nat, n: nat): (p: nat)
    requires wrap > 0
    ensures p == (pos + n) % wrap
  {
    if pos + n < wrap then pos + n else (pos + n) % wrap
  }

  /** `None` stands for a read that leaves the buffer, on which the original is undefined. */
  function ReadInt(wrap: nat, buf: Bytes, pos: nat): (r: Option<(int, nat)>)
    requires wrap > 0
    ensures r.Some? ==> -POW31 <= r.value.0 < POW31 && r.value.1 < wrap
  {
    if pos + 4 <= |buf| then Some((ToInt32(DecodeUnsigned(buf[pos..pos + 4])), Advance(wrap, pos, 4)))
    else None
  }

  /** A length and that many bytes; a negative length is rejected by std::string. */
  function ReadText(wrap: nat, buf: Bytes, pos: nat): (r: Option<(Bytes, nat)>)
    requires wrap > 0
    ensures r.Some? ==> |r.value.0| < POW31 && r.value.1 < wrap
  {
    match ReadInt(wrap, buf, pos)
    case None => None
    case Some((n, p)) =>
      if 0 <= n && p + n <= |buf| then Some((buf[p..p + n], Advance(wrap, p, n))) else None
  }

  /** `_out = size` with `int size` and `size_t _out`. */
  function SignExtend(n: int): (u: nat)
    requires -POW31 <= n < POW31
  {
    if n < 0 then n + POW64 else n
  }

  function Read(less: Less, wrap: nat, s: Schema, buf: Bytes, pos: nat): Option<(Value, nat)>
    requires wrap > 0
    decreases s, 2
  {
    match s
    case Prim(w) =>
      if pos + w <= |buf| then Some((Raw(buf[pos..pos + w]), Advance(wrap, pos, w))) else None
    case SizeT =>
      (match ReadInt(wrap, buf, pos)
       case None => None
       case Some((n, p)) => Some((Size(SignExtend(n)), p)))
    case Str =>
      (match ReadText(wrap, buf, pos)
       case None => None
       case Some((t, p)) => Some((Text(t), p)))
    case Vec(_) => ReadInto(less, wrap, s, List([]), buf, pos)
    case Map(_, _) => ReadInto(less, wrap, s, Dict([]), buf, pos)
  }

  /** The container overloads add to what the caller's container already holds. */
  function ReadInto(less: Less, wrap: nat, s: Schema, target: Value, buf: Bytes, pos: nat): Option<(Value, nat)>
    requires wrap > 0
    requires (s.Vec? && target.List?) || (s.Map? && target.Dict?)
    decreases s, 1
  {
    match ReadInt(wrap, buf, pos)
    case None => None
    case Some((n, p)) =>
      if s.Vec? then
        match ReadItems(less, wrap, s, n, buf, p)
        case None => None
        case Some((items, q)) => Some((List(target.items + items), q))
      else
        match ReadPairs(less, wrap, s, n, buf, p)
        case None => None
        case Some((pairs, q)) => Some((Dict(InsertAll(less, target.entries, pairs)), q))
  }

  function ReadItems(less: Less, wrap: nat, s: Schema, n: int, buf: Bytes, pos: nat): Option<(seq<Value>, nat)>
    requires wrap > 0 && s.Vec?
    decreases s, 0, n
  {
    if n <= 0 then Some(([], pos))
    else
      match Read(less, wrap, s.elem, buf, pos)
      case None => None
      case Some((v, p)) =>
        match ReadItems(less, wrap, s, n - 1, buf, p)
        case None => None
        case Some((vs, q)) => Some(([v] + vs, q))
  }

  function ReadPairs(less: Less, wrap: nat, s: Schema, n: int, buf: Bytes, pos: nat): Option<(seq<Entry>, nat)>
    requires wrap > 0 && s.Map?
    decreases s, 0, n
  {
    if n <= 0 then Some(([], pos))
    else
      match Read(less, wrap, s.key, buf, pos)
      case None => None
      case Some((k, p)) =>
        match Read(less, wrap, s.val, buf, p)
        case None => None
        case Some((v, q)) =>
          match ReadPairs(less, wrap, s, n - 1, buf, q)
          case None => None
          case Some((es, r)) => Some(([Entry(k, v)] + es, r))
  }

  // ---------------------------------------------------------------- what insertion does

  lemma {:induction false} InsertKeys(less: Less, entries: seq<Entry>, e: Entry)
    ensures forall x :: x in Insert(less, entries, e) ==> x in entries || x == e
  {
    if entries != [] && entries[0].key != e.key && !less(e.key, entries[0].key) {
      InsertKeys(less, entries[1..], e);
    }
  }

  lemma {:induction false} InsertAscending(less: Less, entries: seq<Entry>, e: Entry)
    requires StrictOrder(less) && Ascending(less, entries)
    ensures Ascending(less, Insert(less, entries, e))
  {
    if entries != [] && entries[0].key != e.key {
      if less(e.key, entries[0].key) {
        forall i | 0 <= i < |entries| ensures less(e.key, entries[i].key) {}
      } else {
        InsertAscending(less, entries[1..], e);
        InsertKeys(less, entries[1..], e);
        var r := Insert(less, entries[1..], e);
        forall i | 0 <= i < |r| ensures less(entries[0].key, r[i].key) {
          assert r[i] in r;
        }
      }
    }
  }

  lemma NotBoth(less: Less, a: Value, b: Value)
    requires StrictOrder(less) && less(a, b)
    ensures !less(b, a) && a != b
  {
  }

  lemma AscendingTail(less: Less, entries: seq<Entry>, e: Entry)
    requires entries != [] && Ascending(less, entries + [e])
    ensures less(entries[0].key, e.key) && Ascending(less, entries[1..] + [e])
  {
    assert entries + [e] == [entries[0]] + (entries[1..] + [e]);
    assert (entries + [e])[0] == entries[0] && (entries + [e])[|entries|] == e;
    assert entries[1..] + [e] == (entries + [e])[1..];
  }

  /** Appending a key above all others is what the ascending stream of a written map does. */
  lemma {:induction false} InsertLast(less: Less, entries: seq<Entry>, e: Entry)
    requires StrictOrder(less) && Ascending(less, entries + [e])
    ensures Insert(less, entries, e) == entries + [e]
  {
    hide StrictOrder, Ascending;
    if entries != [] {
      AscendingTail(less, entries, e);
      NotBoth(less, entries[0].key, e.key);
      InsertLast(less, entries[1..], e);
    }
  }

  lemma {:induction false} InsertAllAscending(less: Less, entries: seq<Entry>, more: seq<Entry>)
    requires StrictOrder(less) && Ascending(less, entries + more)
    ensures InsertAll(less, entries, more) == entries + more
    decreases |more|
  {
    if more == [] {
      assert entries + more == entries;
    } else {
      assert entries + more == (entries + [more[0]]) + more[1..];
      forall i, j | 0 <= i < j < |entries + [more[0]]|
        ensures less((entries + [more[0]])[i].key, (entries + [more[0]])[j].key)
      {
        assert (entries + more)[i] == (entries + [more[0]])[i];
        assert (entries + more)[j] == (entries + [more[0]])[j];
      }
      InsertLast(less, entries, more[0]);
      InsertAllAscending(less, entries + [more[0]], more[1..]);
    }
  }

  lemma {:induction false} InsertAllKeeps(less: Less, entries: seq<Entry>, more: seq<Entry>)
    requires StrictOrder(less) && Ascending(less, entries)
    ensures Ascending(less, InsertAll(less, entries, more))
    ensures forall x :: x in InsertAll(less, entries, more) ==> x in entries || x in more
    decreases |more|
  {
    if more != [] {
      InsertAscending(less, entries, more[0]);
      InsertKeys(less, entries, more[0]);
      InsertAllKeeps(less, Insert(less, entries, more[0]), more[1..]);
    }
  }

  lemma {:induction false} LookupAbsent(entries: seq<Entry>, k: Value)
    requires forall i :: 0 <= i < |entries| ==> entries[i].key != k
    ensures Lookup(entries, k) == None
  {
    if entries != [] { LookupAbsent(entries[1..], k); }
  }

  lemma {:induction false} LookupInsert(less: Less, entries: seq<Entry>, e: Entry, k: Value)
    requires StrictOrder(less) && Ascending(less, entries)
    ensures Lookup(Insert(less, entries, e), k) ==
            if Lookup(entries, k).Some? then Lookup(entries, k)
            else if k == e.key then Some(e.val) else None
  {
    if entries != [] && entries[0].key != e.key {
      if less(e.key, entries[0].key) {
        forall i | 0 <= i < |entries| ensures entries[i].key != e.key {}
        LookupAbsent(entries, e.key);
        assert ([e] + entries)[1..] == entries;
      } else {
        LookupInsert(less, entries[1..], e, k);
        assert ([entries[0]] + Insert(less, entries[1..], e))[1..] == Insert(less, entries[1..], e);
      }
    }
  }

  /** Reading a map into a non-empty one keeps the values of keys already present, and otherwise takes
      the first value read for the key. */
  lemma {:induction false} LookupInsertAll(less: Less, entries: seq<Entry>, more: seq<Entry>, k: Value)
    requires StrictOrder(less) && Ascending(less, entries)
    ensures Lookup(InsertAll(less, entries, more), k) ==
            if Lookup(entries, k).Some? then Lookup(entries, k) else Lookup(more, k)
    decreases |more|
  {
    if more != [] {
      InsertAscending(less, entries, more[0]);
      LookupInsert(less, entries, more[0], k);
      LookupInsertAll(less, Insert(less, entries, more[0]), more[1..], k);
    }
  }

  lemma {:induction false} LookupAt(less: Less, entries: seq<Entry>, i: nat)
    requires StrictOrder(less) && Ascending(less, entries) && i < |entries|
    ensures Lookup(entries, entries[i].key) == Some(entries[i].val)
  {
    if i > 0 {
      assert less(entries[0].key, entries[i].key);
      assert entries[1..][i - 1] == entries[i];
      LookupAt(less, entries[1..], i - 1);
    }
  }

  lemma {:induction false} LookupFound(entries: seq<Entry>, k: Value) returns (i: nat)
    requires Lookup(entries, k).Some?
    ensures i < |entries| && entries[i].key == k
  {
    if entries[0].key == k { i := 0; } else { var j := LookupFound(entries[1..], k); i := j + 1; }
  }

  /** One map has one iteration order, hence one encoding. */
  lemma {:induction false} MapCanonical(less: Less, a: seq<Entry>, b: seq<Entry>)
    requires StrictOrder(less) && Ascending(less, a) && Ascending(less, b)
    requires forall k :: Lookup(a, k) == Lookup(b, k)
    ensures a == b
    decreases |a|
  {
    if a == [] {
      if b != [] { LookupAt(less, b, 0); }
    } else {
      LookupAt(less, a, 0);
      var i := LookupFound(b, a[0].key);
      LookupAt(less, b, 0);
      var j := LookupFound(a, b[0].key);
      assert i == 0 && j == 0;
      forall k ensures Lookup(a[1..], k) == Lookup(b[1..], k) {
        if k == a[0].key {
          LookupAbsent(a[1..], k);
          LookupAbsent(b[1..], k);
        } else {
          assert Lookup(a, k) == Lookup(b, k);
        }
      }
      MapCanonical(less, a[1..], b[1..]);
      assert a == [a[0]] + a[1..] && b == [b[0]] + b[1..];
    }
  }

  // ---------------------------------------------------------------- round trip

  /** Whatever the reader returns is a well-typed value that a 32-bit length can carry. */
  lemma {:induction false} ReadIsFaithful(less: Less, wrap: nat, s: Schema, buf: Bytes, pos: nat)
    requires StrictOrder(less) && wrap > 0
    ensures var r := Read(less, wrap, s, buf, pos);
            r.Some? ==> HasType(less, s, r.value.0) && Faithful(r.value.0) && r.value.1 < wrap
    decreases s, 3
  {
    match s
    case Vec(_) =>
      match ReadInt(wrap, buf, pos) {
        case None =>
        case Some((n, p)) => ItemsAreFaithful(less, wrap, s, n, buf, p);
      }
    case Map(_, _) =>
      match ReadInt(wrap, buf, pos) {
        case None =>
        case Some((n, p)) =>
          PairsAreFaithful(less, wrap, s, n, buf, p);
          match ReadPairs(less, wrap, s, n, buf, p) {
            case None =>
            case Some((pairs, _)) =>
              InsertAllKeeps(less, [], pairs);
              var es := InsertAll(less, [], pairs);
              forall i | 0 <= i < |es| ensures es[i] in pairs { assert es[i] in es; }
          }
      }
    case _ =>
  }

  lemma {:induction false} ItemsAreFaithful(less: Less, wrap: nat, s: Schema, n: int, buf: Bytes, pos: nat)
    requires StrictOrder(less) && wrap > 0 && s.Vec? && pos < wrap
    ensures var r := ReadItems(less, wrap, s, n, buf, pos);
            r.Some? ==>
              && |r.value.0| == (if n < 0 then 0 else n) && r.value.1 < wrap
              && forall i :: 0 <= i < |r.value.0| ==> HasType(less, s.elem, r.value.0[i]) && Faithful(r.value.0[i])
    decreases s, 1, n
  {
    if n > 0 && ReadItems(less, wrap, s, n, buf, pos).Some? {
      ReadIsFaithful(less, wrap, s.elem, buf, pos);
      ItemsAreFaithful(less, wrap, s, n - 1, buf, Read(less, wrap, s.elem, buf, pos).value.1);
    }
  }

  lemma {:induction false} PairsAreFaithful(less: Less, wrap: nat, s: Schema, n: int, buf: Bytes, pos: nat)
    requires StrictOrder(less) && wrap > 0 && s.Map? && pos < wrap
    ensures var r := ReadPairs(less, wrap, s, n, buf, pos);
            r.Some? ==>
              && |r.value.0| == (if n < 0 then 0 else n) && r.value.1 < wrap
              && forall e :: e in r.value.0 ==>
                   && HasType(less, s.key, e.key) && Faithful(e.key)
                   && HasType(less, s.val, e.val) && Faithful(e.val)
    decreases s, 1, n
  {
    if n > 0 && ReadPairs(less, wrap, s, n, buf, pos).Some? {
      ReadIsFaithful(less, wrap, s.key, buf, pos);
      var p := Read(less, wrap, s.key, buf, pos).value.1;
      ReadIsFaithful(less, wrap, s.val, buf, p);
      PairsAreFaithful(less, wrap, s, n - 1, buf, Read(less, wrap, s.val, buf, p).value.1);
    }
  }

  /** A negative element count is read as an empty container: only the count is consumed. */
  lemma NegativeCount(less: Less, wrap: nat, s: Schema, target: Value, buf: Bytes, pos: nat)
    requires wrap > 0 && ((s.Vec? && target.List?) || (s.Map? && target.Dict?))
    requires ReadInt(wrap, buf, pos).Some? && ReadInt(wrap, buf, pos).value.0 <= 0
    ensures ReadInto(less, wrap, s, target, buf, pos) == Some((target, (pos + 4) % wrap))
  {
    if s.Vec? {
      assert target.items + [] == target.items;
    }
  }

  lemma ReadIntBack(wrap: nat, n: int, buf: Bytes, pos: nat)
    requires Has(buf, pos, EncodeInt(n)) && pos + 4 < wrap
    ensures ReadInt(wrap, buf, pos) == Some((ToInt32(n), pos + 4))
  {
    DecodeEncodeInt(n);
  }

  lemma ReadTextBack(wrap: nat, t: Bytes, buf: Bytes, pos: nat)
    requires Has(buf, pos, EncodeInt(|t|) + t) && |t| < POW31 && pos + 4 + |t| < wrap
    ensures ReadText(wrap, buf, pos) == Some((t, pos + 4 + |t|))
  {
    hide EncodeInt, DecodeUnsigned;
    HasSplit(buf, pos, EncodeInt(|t|), t);
    ReadIntBack(wrap, |t|, buf, pos);
  }

  lemma SignExtendBack(n: nat)
    requires n < POW31 || POW64 - POW31 <= n < POW64
    ensures SignExtend(ToInt32(n)) == n
  {
    if n >= POW31 {
      assert n - POW64 + POW32 == n - (POW32 - 1) * POW32;
      assert n % POW32 == n - POW64 + POW32;
    }
  }

  lemma ReadScalarBack(less: Less, wrap: nat, s: Schema, v: Value, buf: Bytes, pos: nat)
    requires (s.Prim? || s.SizeT? || s.Str?) && HasType(less, s, v) && Faithful(v)
    requires Has(buf, pos, Encode(s, v)) && pos + |Encode(s, v)| < wrap
    ensures Read(less, wrap, s, buf, pos) == Some((v, pos + |Encode(s, v)|))
  {
    hide EncodeInt, DecodeUnsigned, ReadInt, ReadText, ToInt32, SignExtend;
    match s
    case Prim(_) =>
    case SizeT =>
      SignExtendBack(v.n);
      ReadIntBack(wrap, v.n, buf, pos);
    case Str =>
      ReadTextBack(wrap, v.bytes, buf, pos);
  }

  /** Reading into a default-constructed container adds what was written to nothing. */
  lemma ReadFresh(less: Less, wrap: nat, s: Schema, v: Value, buf: Bytes, pos: nat)
    requires StrictOrder(less) && wrap > 0 && (s.Vec? || s.Map?) && HasType(less, s, v)
    ensures s.Vec? ==> Read(less, wrap, s, buf, pos) == ReadInto(less, wrap, s, List([]), buf, pos)
                       && v == List([] + v.items)
    ensures s.Map? ==> Read(less, wrap, s, buf, pos) == ReadInto(less, wrap, s, Dict([]), buf, pos)
                       && v == Dict(InsertAll(less, [], v.entries))
  {
    hide StrictOrder, ReadInto, InsertAll;
    if s.Vec? {
      assert [] + v.items == v.items;
    } else {
      assert [] + v.entries == v.entries;
      InsertAllAscending(less, [], v.entries);
    }
  }

  lemma {:induction false} ReadBack(less: Less, wrap: nat, s: Schema, v: Value, buf: Bytes, pos: nat)
    requires StrictOrder(less) && HasType(less, s, v) && Faithful(v)
    requires Has(buf, pos, Encode(s, v)) && pos + |Encode(s, v)| < wrap
    ensures Read(less, wrap, s, buf, pos) == Some((v, pos + |Encode(s, v)|))
    decreases s, 3
  {
    hide StrictOrder, HasType, Faithful, Has, Encode, Read, ReadInto, InsertAll;
    match s
    case Vec(_) =>
      ReadFresh(less, wrap, s, v, buf, pos);
      ReadIntoBack(less, wrap, s, v, List([]), buf, pos);
    case Map(_, _) =>
      ReadFresh(less, wrap, s, v, buf, pos);
      ReadIntoBack(less, wrap, s, v, Dict([]), buf, pos);
    case _ =>
      ReadScalarBack(less, wrap, s, v, buf, pos);
  }

  lemma {:induction false} ReadIntoBack(less: Less, wrap: nat, s: Schema, v: Value, target: Value, buf: Bytes, pos: nat)
    requires StrictOrder(less) && HasType(less, s, v) && Faithful(v)
    requires (s.Vec? && target.List?) || (s.Map? && target.Dict?)
    requires Has(buf, pos, Encode(s, v)) && pos + |Encode(s, v)| < wrap
    ensures ReadInto(less, wrap, s, target, buf, pos)
            == Some((if s.Vec? then List(target.items + v.items) else Dict(InsertAll(less, target.entries, v.entries)),
                     pos + |Encode(s, v)|))
    decreases s, 2
  {
    hide StrictOrder, EncodeInt, DecodeUnsigned, EncodeItems, EncodeEntries, ReadItems, ReadPairs, InsertAll;
    if s.Vec? {
      assert v.items[..Written(|v.items|)] == v.items;
      HasSplit(buf, pos, EncodeInt(|v.items|), EncodeItems(s, v.items));
      ReadIntBack(wrap, |v.items|, buf, pos);
      assert v == List(v.items);
      ItemsBack(less, wrap, s, v.items, buf, pos + 4);
    } else {
      HasSplit(buf, pos, EncodeInt(|v.entries|), EncodeEntries(s, v.entries));
      ReadIntBack(wrap, |v.entries|, buf, pos);
      assert v == Dict(v.entries);
      PairsBack(less, wrap, s, v.entries, buf, pos + 4);
    }
  }

  lemma ItemTypes(less: Less, s: Schema, items: seq<Value>)
    requires s.Vec? && HasType(less, s, List(items)) && Faithful(List(items)) && items != []
    ensures HasType(less, s.elem, items[0]) && Faithful(items[0])
    ensures HasType(less, s, List(items[1..])) && Faithful(List(items[1..]))
  {
  }

  lemma {:induction false} ItemsBack(less: Less, wrap: nat, s: Schema, items: seq<Value>, buf: Bytes, pos: nat)
    requires StrictOrder(less) && s.Vec? && HasType(less, s, List(items)) && Faithful(List(items))
    requires Has(buf, pos, EncodeItems(s, items)) && pos + |EncodeItems(s, items)| < wrap
    ensures ReadItems(less, wrap, s, |items|, buf, pos) == Some((items, pos + |EncodeItems(s, items)|))
    decreases s, 1, |items|
  {
    hide StrictOrder, HasType, Faithful, Encode, Read;
    if items != [] {
      ItemTypes(less, s, items);
      var first := Encode(s.elem, items[0]);
      HasSplit(buf, pos, first, EncodeItems(s, items[1..]));
      ReadBack(less, wrap, s.elem, items[0], buf, pos);
      ItemsBack(less, wrap, s, items[1..], buf, pos + |first|);
      assert [items[0]] + items[1..] == items;
    }
  }

  lemma EntryTypes(less: Less, s: Schema, es: seq<Entry>)
    requires s.Map? && HasType(less, s, Dict(es)) && Faithful(Dict(es)) && es != []
    ensures HasType(less, s.key, es[0].key) && Faithful(es[0].key)
    ensures HasType(less, s.val, es[0].val) && Faithful(es[0].val)
    ensures HasType(less, s, Dict(es[1..])) && Faithful(Dict(es[1..]))
  {
  }

  lemma {:induction false} PairsBack(less: Less, wrap: nat, s: Schema, es: seq<Entry>, buf: Bytes, pos: nat)
    requires StrictOrder(less) && s.Map? && HasType(less, s, Dict(es)) && Faithful(Dict(es))
    requires Has(buf, pos, EncodeEntries(s, es)) && pos + |EncodeEntries(s, es)| < wrap
    ensures ReadPairs(less, wrap, s, |es|, buf, pos) == Some((es, pos + |EncodeEntries(s, es)|))
    decreases s, 1, |es|
  {
    hide StrictOrder, HasType, Faithful, Encode, Read;
    if es != [] {
      EntryTypes(less, s, es);
      var k, v, rest := Encode(s.key, es[0].key), Encode(s.val, es[0].val), EncodeEntries(s, es[1..]);
      HasSplit(buf, pos, k + v, rest);
      HasSplit(buf, pos, k, v);
      ReadBack(less, wrap, s.key, es[0].key, buf, pos);
      ReadBack(less, wrap, s.val, es[0].val, buf, pos + |k|);
      PairsBack(less, wrap, s, es[1..], buf, pos + |k| + |v|);
      assert [Entry(es[0].key, es[0].val)] + es[1..] == es;
    }
  }

  /** Reading what was written gives the value back and moves the cursor just past it, exactly when
      every length fits the 32-bit form and the cursor does not wrap. */
  lemma RoundTrip(less: Less, wrap: nat, s: Schema, v: Value, buf: Bytes, pos: nat)
    requires StrictOrder(less) && wrap > 0 && HasType(less, s, v)
    requires Has(buf, pos, Encode(s, v))
    ensures Read(less, wrap, s, buf, pos) == Some((v, pos + |Encode(s, v)|))
            <==> Faithful(v) && pos + |Encode(s, v)| < wrap
  {
    if Faithful(v) && pos + |Encode(s, v)| < wrap {
      ReadBack(less, wrap, s, v, buf, pos);
    } else {
      ReadIsFaithful(less, wrap, s, buf, pos);
    }
  }

  /** A written container read into a caller's container: vectors append; a map keeps the caller's
      value for every key already present and takes over all others. */
  lemma RoundTripInto(less: Less, wrap: nat, s: Schema, v: Value, target: Value, buf: Bytes, pos: nat)
    requires StrictOrder(less) && HasType(less, s, v) && Faithful(v)
    requires (s.Vec? && target.List?) || (s.Map? && target.Dict? && Ascending(less, target.entries))
    requires Has(buf, pos, Encode(s, v)) && pos + |Encode(s, v)| < wrap
    ensures var r := ReadInto(less, wrap, s, target, buf, pos);
            && r.Some? && r.value.1 == pos + |Encode(s, v)|
            && (s.Vec? ==> r.value.0 == List(target.items + v.items))
            && (s.Map? ==>
                  && r.value.0.Dict? && Ascending(less, r.value.0.entries)
                  && forall k :: Lookup(r.value.0.entries, k) ==
                       if Lookup(target.entries, k).Some? then Lookup(target.entries, k) else Lookup(v.entries, k))
  {
    hide StrictOrder, Ascending, Faithful, Encode, Read, ReadInto, InsertAll, Lookup;
    ReadIntoBack(less, wrap, s, v, target, buf, pos);
    if s.Map? {
      InsertAllKeeps(less, target.entries, v.entries);
      forall k ensures Lookup(InsertAll(less, target.entries, v.entries), k) ==
                       if Lookup(target.entries, k).Some? then Lookup(target.entries, k) else Lookup(v.entries, k) {
        LookupInsertAll(less, target.entries, v.entries, k);
      }
    }
  }
}
