/**
 * The query hash calculator: every Write appends the little-endian bytes of
 * a query field to one growing buffer, and GetHash hashes that buffer. The
 * byte encodings are the specification functions here; the calculator's
 * methods are proved to append exactly them, and the lemmas state which
 * values the encoding tells apart and which it does not.
 */
module QueryHash {
  import opened Wrappers
  import opened Blittable
  import opened DotNet
  import Emission

  function Pow256(k: nat): (r: nat)
    ensures r > 0
  {
    if k == 0 then 1 else 256 * Pow256(k - 1)
  }

  lemma Pow256Widths()
    ensures Pow256(2) == 0x1_0000
    ensures Pow256(4) == 0x1_0000_0000
    ensures Pow256(8) == 0x1_0000_0000_0000_0000
  {
    assert Pow256(2) == 0x1_0000;
    assert Pow256(4) == 0x1_0000_0000;
  }

  /** The `width` low-order bytes of `v`, least significant first, as x86 memory holds them. */
  function LittleEndian(v: nat, width: nat): (r: seq<byte>)
    ensures |r| == width
  {
    if width == 0 then [] else [v % 256] + LittleEndian(v / 256, width - 1)
  }

  /** The unsigned value of little-endian bytes. */
  function FromLittleEndian(s: seq<byte>): nat
  {
    if s == [] then 0 else s[0] + 256 * FromLittleEndian(s[1..])
  }

  lemma {:induction false} LittleEndianRoundTrip(v: nat, width: nat)
    requires v < Pow256(width)
    ensures FromLittleEndian(LittleEndian(v, width)) == v
    decreases width
  {
    if width > 0 {
      LittleEndianRoundTrip(v / 256, width - 1);
      assert LittleEndian(v, width)[1..] == LittleEndian(v / 256, width - 1);
    }
  }

  /** The two's complement reading of `width` little-endian bytes. */
  function SignedValue(s: seq<byte>): int
  {
    var u := FromLittleEndian(s);
    if 2 * u >= Pow256(|s|) then u - Pow256(|s|) else u
  }

  /** The 8 bytes `Write(long)` copies out of the variable: two's complement, little-endian. */
  function LongBytes(l: Int64): (r: seq<byte>)
  {
    LittleEndian(if l < 0 then l + 0x1_0000_0000_0000_0000 else l, 8)
  }

  /** The 4 bytes `Write(int)` copies out of the variable. */
  function IntBytes(i: Int32): (r: seq<byte>)
  {
    LittleEndian(if i < 0 then i + 0x1_0000_0000 else i, 4)
  }

  /** A long's bytes are exactly 8 and read back as the long. */
  lemma LongBytesRoundTrip(l: Int64)
    ensures |LongBytes(l)| == 8
    ensures SignedValue(LongBytes(l)) == l
  {
    Pow256Widths();
    LittleEndianRoundTrip(if l < 0 then l + 0x1_0000_0000_0000_0000 else l, 8);
  }

  /** An int's bytes are exactly 4 and read back as the int. */
  lemma IntBytesRoundTrip(i: Int32)
    ensures |IntBytes(i)| == 4
    ensures SignedValue(IntBytes(i)) == i
  {
    Pow256Widths();
    LittleEndianRoundTrip(if i < 0 then i + 0x1_0000_0000 else i, 4);
  }

  /** Distinct longs have distinct bytes, so they hash as distinct inputs. */
  lemma LongBytesInjective(a: Int64, b: Int64)
    ensures LongBytes(a) == LongBytes(b) <==> a == b
  {
    LongBytesRoundTrip(a);
    LongBytesRoundTrip(b);
  }

  /** The bytes of a string: each UTF-16 unit as 2 little-endian bytes. */
  function StringBytes(s: Str): (r: seq<byte>)
    ensures |r| == 2 * |s|
  {
    if s == [] then [] else LittleEndian(s[0], 2) + StringBytes(s[1..])
  }

  /** Reads 2-byte little-endian units back into a string. */
  function DecodeUnits(b: seq<byte>): seq<Char16>
    requires |b| % 2 == 0
  {
    if b == [] then []
    else
      var unit: int := b[0] as int + 256 * (b[1] as int);
      [unit] + DecodeUnits(b[2..])
  }

  lemma {:induction false} StringBytesRoundTrip(s: Str)
    ensures DecodeUnits(StringBytes(s)) == s
    decreases s
  {
    if s != [] {
      var b := StringBytes(s);
      Pow256Widths();
      LittleEndianRoundTrip(s[0], 2);
      assert b[2..] == StringBytes(s[1..]);
      StringBytesRoundTrip(s[1..]);
      assert [s[0]] + s[1..] == s;
    }
  }

  lemma {:induction false} StringBytesConcat(a: Str, b: Str)
    ensures StringBytes(a + b) == StringBytes(a) + StringBytes(b)
    decreases a
  {
    if a != [] {
      assert (a + b)[1..] == a[1..] + b;
      StringBytesConcat(a[1..], b);
    } else {
      assert a + b == b;
    }
  }

  /** `Write(string)`: nothing for null. */
  function NullableStringBytes(s: Option<Str>): seq<byte>
  {
    if s.Some? then StringBytes(s.value) else []
  }

  /** `Write(bool)`: byte 1 for true, nothing for false. */
  function BoolBytes(b: bool): seq<byte>
  {
    if b then [1] else []
  }

  /** `Write(bool?)`: byte 1 for true, 2 for false, nothing for null. */
  function NullableBoolBytes(b: Option<bool>): seq<byte>
  {
    match b
    case None => []
    case Some(true) => [1]
    case Some(false) => [2]
  }

  /** The nullable encoding tells all three values apart; the plain one cannot tell false from nothing. */
  lemma BoolEncodings(a: Option<bool>, b: Option<bool>)
    ensures NullableBoolBytes(a) == NullableBoolBytes(b) <==> a == b
    ensures BoolBytes(false) == [] && BoolBytes(true) == NullableBoolBytes(Some(true))
  {
    if a != b {
      if a.None? || b.None? {
        assert |NullableBoolBytes(a)| != |NullableBoolBytes(b)|;
      } else {
        assert NullableBoolBytes(a)[0] != NullableBoolBytes(b)[0];
      }
    }
  }

  /** `Write(string[])` and `Write(List<string>)`: the element writes in index order. */
  function StringsBytes(ss: seq<Option<Str>>): seq<byte>
  {
    if ss == [] then [] else StringsBytes(ss[..|ss| - 1]) + NullableStringBytes(ss[|ss| - 1])
  }

  /**
   * A query parameter value as WriteParameterValue distinguishes it: a
   * string, a long, an int, a bool, null, an enumerable of further values,
   * or any other object, which is written as the text of its ToString().
   */
  datatype Param =
    | PString(s: Str)
    | PLong(l: Int64)
    | PInt(i: Int32)
    | PBool(b: bool)
    | PNull
    | PList(items: seq<Param>)
    | POther(text: Str)

  /** The bytes WriteParameterValue appends for a value: enumerables are written element by element. */
  function ParamBytes(v: Param): seq<byte>
    decreases v, 1
  {
    match v
    case PString(s) => StringBytes(s)
    case PLong(l) => LongBytes(l)
    case PInt(i) => IntBytes(i)
    case PBool(b) => BoolBytes(b)
    case PNull => []
    case PList(items) => ParamsBytes(items)
    case POther(text) => StringBytes(text)
  }

  /** The bytes of values written one after another. */
  function ParamsBytes(vs: seq<Param>): seq<byte>
    decreases vs, 0
  {
    if vs == [] then [] else ParamsBytes(vs[..|vs| - 1]) + ParamBytes(vs[|vs| - 1])
  }

  /** The non-enumerable values inside `v`, in enumeration order. */
  function Leaves(v: Param): (r: seq<Param>)
    ensures forall i | 0 <= i < |r| :: !r[i].PList?
    decreases v, 1
  {
    match v
    case PList(items) => ItemsLeaves(items)
    case _ => [v]
  }

  /** The non-enumerable values inside each of `vs`, in order. */
  function ItemsLeaves(vs: seq<Param>): (r: seq<Param>)
    ensures forall i | 0 <= i < |r| :: !r[i].PList?
    decreases vs, 0
  {
    if vs == [] then [] else ItemsLeaves(vs[..|vs| - 1]) + Leaves(vs[|vs| - 1])
  }

  lemma {:induction false} ParamsBytesConcat(a: seq<Param>, b: seq<Param>)
    ensures ParamsBytes(a + b) == ParamsBytes(a) + ParamsBytes(b)
    decreases |b|
  {
    if b == [] {
      assert a + b == a;
    } else {
      var b' := b[..|b| - 1];
      var last := b[|b| - 1];
      assert (a + b)[..|a + b| - 1] == a + b' && (a + b)[|a + b| - 1] == last;
      assert ParamsBytes(a + b) == ParamsBytes(a + b') + ParamBytes(last);
      assert ParamsBytes(b) == ParamsBytes(b') + ParamBytes(last);
      ParamsBytesConcat(a, b');
      Emission.SeqAssoc(ParamsBytes(a), ParamsBytes(b'), ParamBytes(last));
    }
  }

  /**
   * Writing an enumerable is writing its non-enumerable values one after
   * another: nesting adds no bytes, so only the flattened values matter.
   */
  lemma {:induction false} ParamBytesLeaves(v: Param)
    ensures ParamBytes(v) == ParamsBytes(Leaves(v))
    decreases v, 1
  {
    if v.PList? {
      ItemsBytesLeaves(v.items);
    } else {
      assert [v][..0] == [];
    }
  }

  /** ParamBytesLeaves for each of `vs`. */
  lemma {:induction false} ItemsBytesLeaves(vs: seq<Param>)
    ensures ParamsBytes(vs) == ParamsBytes(ItemsLeaves(vs))
    decreases vs, 0
  {
    if vs != [] {
      var init := vs[..|vs| - 1];
      ItemsBytesLeaves(init);
      ParamBytesLeaves(vs[|vs| - 1]);
      ParamsBytesConcat(ItemsLeaves(init), Leaves(vs[|vs| - 1]));
    }
  }

  /** Nesting an enumerable inside another changes nothing, and an enumerable of enumerables is their concatenation. */
  lemma ParamListFlattens(a: seq<Param>, b: seq<Param>)
    ensures ParamBytes(PList([PList(a)])) == ParamBytes(PList(a))
    ensures ParamBytes(PList(a + b)) == ParamBytes(PList(a)) + ParamBytes(PList(b))
  {
    assert [PList(a)][..0] == [];
    assert ParamsBytes([PList(a)]) == [] + ParamBytes(PList(a)) == ParamBytes(PList(a));
    ParamsBytesConcat(a, b);
  }

  /** `Write(Parameters)`: each entry's key, then its value, in enumeration order. */
  function ParametersBytes(entries: seq<(Str, Param)>): seq<byte>
  {
    if entries == [] then []
    else
      var last := entries[|entries| - 1];
      ParametersBytes(entries[..|entries| - 1]) + (StringBytes(last.0) + ParamBytes(last.1))
  }

  /** `Write(Dictionary<string, string>)`: each entry's key, then its value (nothing for null). */
  function DictionaryBytes(entries: seq<(Str, Option<Str>)>): seq<byte>
  {
    if entries == [] then []
    else
      var last := entries[|entries| - 1];
      DictionaryBytes(entries[..|entries| - 1]) + (StringBytes(last.0) + NullableStringBytes(last.1))
  }

  lemma ParametersBytesSnoc(entries: seq<(Str, Param)>, i: nat)
    requires i < |entries|
    ensures ParametersBytes(entries[..i + 1]) == ParametersBytes(entries[..i]) + (StringBytes(entries[i].0) + ParamBytes(entries[i].1))
  {
    assert entries[..i + 1][..i] == entries[..i];
  }

  lemma StringsBytesSnoc(ss: seq<Option<Str>>, i: nat)
    requires i < |ss|
    ensures StringsBytes(ss[..i + 1]) == StringsBytes(ss[..i]) + NullableStringBytes(ss[i])
  {
    assert ss[..i + 1][..i] == ss[..i];
  }

  lemma DictionaryBytesSnoc(entries: seq<(Str, Option<Str>)>, i: nat)
    requires i < |entries|
    ensures DictionaryBytes(entries[..i + 1]) == DictionaryBytes(entries[..i]) + StringBytes(entries[i].0) + NullableStringBytes(entries[i].1)
  {
    assert entries[..i + 1][..i] == entries[..i];
  }

  /** A single parameter writes its key and then its value. */
  lemma SingleParameter(key: Str, v: Param)
    ensures ParametersBytes([(key, v)]) == StringBytes(key) + ParamBytes(v)
  {
    assert [(key, v)][..0] == [];
  }

  /**
   * A false bool parameter and a null one both add only the key, so every
   * hash of the buffer takes them for the same query.
   */
  lemma FalseParameterIsNull(key: Str, hash: seq<byte> -> UInt64)
    ensures ParametersBytes([(key, PBool(false))]) == ParametersBytes([(key, PNull)]) == StringBytes(key)
    ensures hash(ParametersBytes([(key, PBool(false))])) == hash(ParametersBytes([(key, PNull)]))
  {
    SingleParameter(key, PBool(false));
    SingleParameter(key, PNull);
    assert StringBytes(key) + [] == StringBytes(key);
  }

  /** A list of two strings adds the same bytes as the one string that joins them. */
  lemma ListParameterIsJoinedString(key: Str, a: Str, b: Str)
    ensures ParametersBytes([(key, PList([PString(a), PString(b)]))]) == ParametersBytes([(key, PString(a + b))])
  {
    StringBytesConcat(a, b);
    assert [PString(a), PString(b)][..1] == [PString(a)];
    assert [PString(a)][..0] == [];
    assert ParamsBytes([PString(a)]) == [] + StringBytes(a) == StringBytes(a);
    assert ParamsBytes([PString(a), PString(b)]) == ParamsBytes([PString(a)]) + ParamBytes(PString(b));
    SingleParameter(key, PList([PString(a), PString(b)]));
    SingleParameter(key, PString(a + b));
  }

  /**
   * The calculator. `buffer` is the content of its write buffer; `disposed`
   * records that the buffer went back to its context.
   */
  class QueryHashCalculator {
    var buffer: seq<byte>
    var disposed: bool

    /** The buffer the context hands out starts empty. */
    constructor ()
      ensures buffer == [] && !disposed
    {
      buffer := [];
      disposed := false;
    }

    /** The hash depends on the buffer's bytes alone. */
    method GetHash(xxHash64: seq<byte> -> UInt64) returns (h: UInt64)
      ensures h == xxHash64(buffer)
    {
      h := xxHash64(buffer);
    }

    method WriteLong(l: Int64)
      modifies this`buffer
      ensures buffer == old(buffer) + LongBytes(l)
    {
      buffer := buffer + LongBytes(l);
    }

    method WriteNullableLong(l: Option<Int64>)
      modifies this`buffer
      ensures buffer == old(buffer) + (if l.Some? then LongBytes(l.value) else [])
    {
      if l.None? {
        return;
      }
      WriteLong(l.value);
    }

    method WriteNullableInt(i: Option<Int32>)
      modifies this`buffer
      ensures buffer == old(buffer) + (if i.Some? then IntBytes(i.value) else [])
    {
      if i.None? {
        return;
      }
      WriteInt(i.value);
    }

    method WriteInt(i: Int32)
      modifies this`buffer
      ensures buffer == old(buffer) + IntBytes(i)
    {
      buffer := buffer + IntBytes(i);
    }

    method WriteBool(b: bool)
      modifies this`buffer
      ensures buffer == old(buffer) + BoolBytes(b)
    {
      if b {
        buffer := buffer + [1];
      }
    }

    method WriteNullableBool(b: Option<bool>)
      modifies this`buffer
      ensures buffer == old(buffer) + NullableBoolBytes(b)
    {
      if b.Some? {
        buffer := buffer + [if b.value then 1 else 2];
      }
    }

    method WriteString(s: Option<Str>)
      modifies this`buffer
      ensures buffer == old(buffer) + NullableStringBytes(s)
    {
      if s.None? {
        return;
      }
      buffer := buffer + StringBytes(s.value);
    }

    /** `Write(string[])` and `Write(List<string>)`: null writes nothing, else each element in turn. */
    method WriteStrings(s: Option<seq<Option<Str>>>)
      modifies this`buffer
      ensures buffer == old(buffer) + (if s.Some? then StringsBytes(s.value) else [])
    {
      if s.None? {
        return;
      }
      var ss := s.value;
      ghost var start := buffer;
      for i := 0 to |ss|
        invariant buffer == start + StringsBytes(ss[..i])
      {
        WriteString(ss[i]);
        StringsBytesSnoc(ss, i);
        Emission.SeqAssoc(start, StringsBytes(ss[..i]), NullableStringBytes(ss[i]));
      }
      assert ss[..|ss|] == ss;
    }

    method WriteParameters(qp: Option<seq<(Str, Param)>>)
      modifies this`buffer
      ensures buffer == old(buffer) + (if qp.Some? then ParametersBytes(qp.value) else [])
    {
      if qp.None? {
        return;
      }
      var entries := qp.value;
      ghost var start := buffer;
      for i := 0 to |entries|
        invariant buffer == start + ParametersBytes(entries[..i])
      {
        WriteParameter(entries[i].0, entries[i].1);
        ParametersBytesSnoc(entries, i);
        Emission.SeqAssoc(start, ParametersBytes(entries[..i]), StringBytes(entries[i].0) + ParamBytes(entries[i].1));
      }
      assert entries[..|entries|] == entries;
    }

    /** One entry of `Write(Parameters)`: the key, then the value. */
    method WriteParameter(key: Str, value: Param)
      modifies this`buffer
      ensures buffer == old(buffer) + (StringBytes(key) + ParamBytes(value))
    {
      WriteString(Some(key));
      WriteParameterValue(value);
    }

    /** Dispatches on the value's kind; an enumerable is written element by element. */
    method WriteParameterValue(value: Param)
      modifies this`buffer
      ensures buffer == old(buffer) + ParamBytes(value)
      decreases value
    {
      match value {
        case PString(s) =>
          WriteString(Some(s));
        case PLong(l) =>
          WriteLong(l);
        case PInt(i) =>
          WriteInt(i);
        case PBool(b) =>
          WriteBool(b);
        case PNull =>
        case PList(items) =>
          var k := 0;
          while k < |items|
            invariant k <= |items|
            invariant buffer == old(buffer) + ParamsBytes(items[..k])
          {
            WriteParameterValue(items[k]);
            assert items[..k + 1][..k] == items[..k];
            Emission.SeqAssoc(old(buffer), ParamsBytes(items[..k]), ParamBytes(items[k]));
            k := k + 1;
          }
          assert items[..|items|] == items;
        case POther(text) =>
          WriteString(Some(text));
      }
    }

    method WriteDictionary(qp: Option<seq<(Str, Option<Str>)>>)
      modifies this`buffer
      ensures buffer == old(buffer) + (if qp.Some? then DictionaryBytes(qp.value) else [])
    {
      if qp.None? {
        return;
      }
      var entries := qp.value;
      ghost var start := buffer;
      for i := 0 to |entries|
        invariant buffer == start + DictionaryBytes(entries[..i])
      {
        WriteString(Some(entries[i].0));
        WriteString(entries[i].1);
        DictionaryBytesSnoc(entries, i);
        Emission.SeqAssoc(start, DictionaryBytes(entries[..i]), StringBytes(entries[i].0));
        Emission.SeqAssoc(start, DictionaryBytes(entries[..i]) + StringBytes(entries[i].0), NullableStringBytes(entries[i].1));
      }
      assert entries[..|entries|] == entries;
    }

    /** Returns the buffer to its context; the bytes written are left as they were. */
    method Dispose()
      modifies this`disposed
      ensures disposed
    {
      disposed := true;
    }
  }
}
