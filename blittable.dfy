/**
 * The stored binary document values the text writer reads: bytes, the
 * variable-size integers of the escape trailer, lazy strings (plain and
 * compressed), lazy numbers and the value tree itself.
 */
module Blittable {
  import opened Wrappers

  type byte = x: int | 0 <= x < 256

  /** The range of a C# `long`. */
  const MinLong: int := -9223372036854775808
  const MaxLong: int := 9223372036854775807

  // ---------------------------------------------------------------------
  // Variable-size integers (BlittableJsonReaderBase.ReadVariableSizeInt)
  // ---------------------------------------------------------------------

  /** A decoded variable-size integer and the position just after its last byte. */
  datatype VarInt = VarInt(value: nat, next: nat)

  /**
   * Reads the variable-size integer that starts at `pos`: seven data bits per
   * byte, least significant group first, the high bit set on every byte but
   * the last. None when the bytes run out before the last byte.
   */
  function ReadVarInt(buf: seq<byte>, pos: nat): (r: Option<VarInt>)
    ensures r.Some? ==> pos < r.value.next <= |buf|
    decreases |buf| - pos
  {
    if pos >= |buf| then None
    else if buf[pos] < 128 then Some(VarInt(buf[pos], pos + 1))
    else match ReadVarInt(buf, pos + 1)
      case None => None
      case Some(rest) => Some(VarInt(buf[pos] - 128 + 128 * rest.value, rest.next))
  }

  /** The encoding ReadVarInt undoes: the blittable writer's side of the format. */
  function EncodeVarInt(n: nat): (r: seq<byte>)
    decreases n
  {
    if n < 128 then [n] else [n % 128 + 128] + EncodeVarInt(n / 128)
  }

  /** Reading an encoded integer back yields the integer and stops right after its bytes. */
  lemma {:induction false} VarIntRoundTrip(n: nat, buf: seq<byte>, pos: nat)
    requires pos + |EncodeVarInt(n)| <= |buf|
    requires buf[pos .. pos + |EncodeVarInt(n)|] == EncodeVarInt(n)
    ensures ReadVarInt(buf, pos) == Some(VarInt(n, pos + |EncodeVarInt(n)|))
    decreases n
  {
    if n >= 128 {
      var tail := EncodeVarInt(n / 128);
      assert EncodeVarInt(n) == [n % 128 + 128] + tail;
      assert buf[pos] == n % 128 + 128;
      assert buf[pos + 1 .. pos + 1 + |tail|] == EncodeVarInt(n)[1..];
      VarIntRoundTrip(n / 128, buf, pos + 1);
    }
  }

  // ---------------------------------------------------------------------
  // The escape trailer: [count: varint][count x skip distance: varint]
  // ---------------------------------------------------------------------

  /** Reads `count` consecutive variable-size integers starting at `pos`. */
  function ReadSkips(buf: seq<byte>, pos: nat, count: nat): (r: Option<seq<nat>>)
    ensures r.Some? ==> |r.value| == count
    decreases count
  {
    if count == 0 then Some([])
    else match ReadVarInt(buf, pos)
      case None => None
      case Some(v) =>
        match ReadSkips(buf, v.next, count - 1)
        case None => None
        case Some(rest) => Some([v.value] + rest)
  }

  /** The first of several integers, and where the rest start. */
  lemma ReadSkipsFirst(buf: seq<byte>, pos: nat, count: nat, skips: seq<nat>)
    requires count > 0 && ReadSkips(buf, pos, count) == Some(skips)
    ensures ReadVarInt(buf, pos).Some?
    ensures skips[0] == ReadVarInt(buf, pos).value.value
    ensures ReadSkips(buf, ReadVarInt(buf, pos).value.next, count - 1) == Some(skips[1..])
  {
    assert skips == [skips[0]] + skips[1..];
  }

  /** The skip distances of the trailer that starts at `at`: the count, then that many distances. */
  function Trailer(buf: seq<byte>, at: nat): Option<seq<nat>>
  {
    match ReadVarInt(buf, at)
    case None => None
    case Some(count) => ReadSkips(buf, count.next, count.value)
  }

  function EncodeSkips(skips: seq<nat>): seq<byte>
  {
    if skips == [] then [] else EncodeVarInt(skips[0]) + EncodeSkips(skips[1..])
  }

  /** The trailer the blittable writer appends after a string's payload. */
  function EncodeTrailer(skips: seq<nat>): seq<byte>
  {
    EncodeVarInt(|skips|) + EncodeSkips(skips)
  }

  lemma {:induction false} ReadSkipsRoundTrip(skips: seq<nat>, buf: seq<byte>, pos: nat)
    requires pos + |EncodeSkips(skips)| <= |buf|
    requires buf[pos .. pos + |EncodeSkips(skips)|] == EncodeSkips(skips)
    ensures ReadSkips(buf, pos, |skips|) == Some(skips)
    decreases skips
  {
    if skips != [] {
      var head := EncodeVarInt(skips[0]);
      var tail := EncodeSkips(skips[1..]);
      assert EncodeSkips(skips) == head + tail;
      assert buf[pos .. pos + |head|] == buf[pos .. pos + |EncodeSkips(skips)|][..|head|];
      assert buf[pos .. pos + |head|] == head;
      VarIntRoundTrip(skips[0], buf, pos);
      assert buf[pos + |head| .. pos + |head| + |tail|] == buf[pos .. pos + |EncodeSkips(skips)|][|head|..];
      assert buf[pos + |head| .. pos + |head| + |tail|] == tail;
      ReadSkipsRoundTrip(skips[1..], buf, pos + |head|);
      assert [skips[0]] + skips[1..] == skips;
    }
  }

  /** A payload followed by the trailer built for `skips` gives back exactly `skips`. */
  lemma TrailerRoundTrip(payload: seq<byte>, skips: seq<nat>)
    ensures Trailer(payload + EncodeTrailer(skips), |payload|) == Some(skips)
  {
    var count := EncodeVarInt(|skips|);
    var rest := EncodeSkips(skips);
    var buf := payload + (count + rest);
    assert buf == payload + EncodeTrailer(skips);
    var at := |payload|;
    var mid := at + |count|;
    assert buf[at .. mid] == count;
    VarIntRoundTrip(|skips|, buf, at);
    assert buf[mid .. mid + |rest|] == rest;
    ReadSkipsRoundTrip(skips, buf, mid);
    assert ReadVarInt(buf, at) == Some(VarInt(|skips|, mid));
  }

  /**
   * A payload stored with the trailer of a skip list that fits it is a
   * well-formed lazy string: its first `size` bytes are the payload and its
   * trailer reads back as exactly that skip list.
   */
  lemma StoredStringWellFormed(payload: seq<byte>, skips: seq<nat>)
    requires Fits(payload, skips)
    ensures WellFormedLazy(LazyString(payload + EncodeTrailer(skips), |payload|))
    ensures (payload + EncodeTrailer(skips))[..|payload|] == payload
    ensures Trailer(payload + EncodeTrailer(skips), |payload|) == Some(skips)
  {
    TrailerRoundTrip(payload, skips);
    assert (payload + EncodeTrailer(skips))[..|payload|] == payload;
  }

  /**
   * The skip list stays inside the payload: every run of verbatim bytes is
   * followed by the one byte it escapes.
   */
  predicate Fits(payload: seq<byte>, skips: seq<nat>)
    decreases skips
  {
    skips == [] || (skips[0] < |payload| && Fits(payload[skips[0] + 1..], skips[1..]))
  }

  // ---------------------------------------------------------------------
  // Stored values
  // ---------------------------------------------------------------------

  /** LazyStringValue: `size` payload bytes, followed in the same buffer by the escape trailer. */
  datatype LazyString = LazyString(buffer: seq<byte>, size: nat)

  /**
   * LazyCompressedStringValue: `plain` is what DecompressToTempBuffer yields
   * (UncompressedSize bytes); the escape trailer follows the first
   * `compressedSize` bytes of the stored buffer `source`.
   */
  datatype CompressedString = CompressedString(plain: seq<byte>, source: seq<byte>, compressedSize: nat)

  /** LazyNumberValue: the decimal text stored with the number and its three sentinel flags. */
  datatype LazyNumber = LazyNumber(text: seq<byte>, isNaN: bool, isPositiveInfinity: bool, isNegativeInfinity: bool)

  /**
   * A value together with its token. EmbeddedBlittable and StartObject both
   * carry an Object; Unknown stands for any token the writer does not handle.
   */
  datatype Value =
    | Str(s: LazyString)
    | CompressedStr(c: CompressedString)
    | Integer(i: int)
    | Number(n: LazyNumber)
    | Boolean(b: bool)
    | Null
    | Array(items: seq<Value>)
    | Object(obj: JsonObject)
    | Unknown(token: int)

  /** A property: its name and its value. */
  datatype Prop = Prop(name: LazyString, value: Value)

  /**
   * BlittableJsonReaderObject: the properties in physical (storage) order and
   * GetPropertiesByInsertionOrder, the physical index of each property in the
   * order the properties were inserted.
   */
  datatype JsonObject = JsonObject(props: seq<Prop>, insertionOrder: seq<nat>)

  predicate WellFormedLazy(s: LazyString)
  {
    s.size <= |s.buffer|
    && Trailer(s.buffer, s.size).Some?
    && Fits(s.buffer[..s.size], Trailer(s.buffer, s.size).value)
  }

  predicate WellFormedCompressed(c: CompressedString)
  {
    Trailer(c.source, c.compressedSize).Some?
    && Fits(c.plain, Trailer(c.source, c.compressedSize).value)
  }

  /**
   * What the storage layer guarantees of a stored value: trailers that parse
   * and stay inside their payload, integers within `long`, and insertion
   * indexes that name properties of the object.
   */
  predicate WellFormed(v: Value)
    decreases v, 1
  {
    match v
    case Str(s) => WellFormedLazy(s)
    case CompressedStr(c) => WellFormedCompressed(c)
    case Integer(i) => MinLong <= i <= MaxLong
    case Array(items) => forall i | 0 <= i < |items| :: WellFormed(items[i])
    case Object(o) => WellFormedObject(o)
    case _ => true
  }

  predicate WellFormedObject(o: JsonObject)
    decreases o, 0
  {
    && (forall i | 0 <= i < |o.insertionOrder| :: o.insertionOrder[i] < |o.props|)
    && (forall i | 0 <= i < |o.props| :: WellFormedProp(o.props[i]))
  }

  predicate WellFormedProp(p: Prop)
    decreases p, 0
  {
    WellFormedLazy(p.name) && WellFormed(p.value)
  }
}
