/**
 * The JSON text the writer produces for each stored value, as pure
 * functions: the literals, the string paths, numbers, and the comma and
 * bracket discipline of arrays and objects in physical or insertion order.
 */
module JsonRender {
  import opened Wrappers
  import opened Blittable
  import opened Emission
  import opened EscapeCodec
  import opened Decimal

  const NullText: seq<byte> := [110, 117, 108, 108]                                      // null
  const TrueText: seq<byte> := [116, 114, 117, 101]                                      // true
  const FalseText: seq<byte> := [102, 97, 108, 115, 101]                                 // false
  const NaNText: seq<byte> := [34, 78, 97, 78, 34]                                       // "NaN"
  const PositiveInfinityText: seq<byte> := [34, 73, 110, 102, 105, 110, 105, 116, 121, 34]      // "Infinity"
  const NegativeInfinityText: seq<byte> := [34, 45, 73, 110, 102, 105, 110, 105, 116, 121, 34]  // "-Infinity"

  function Quoted(t: Text): Text
  {
    Bracketed(Quote, t, Quote)
  }

  /** Appending a quote, a successful text and a quote appends its quoted form. */
  lemma QuotedAppend(before: seq<byte>, t: Text)
    requires t.Ok?
    ensures Quoted(t).Ok? && before + [Quote] + t.value + [Quote] == before + Quoted(t).value
  {
  }

  /**
   * Whether a string of `size` bytes with `escapes` escapes takes the large
   * (piecewise) path: when its worst-case text, quotes included, does not
   * fit in the buffer. The compressed writer tests exactly this; the lazy
   * writer uses it in corrected form (see LazyTakesLargePathAsWritten).
   */
  predicate TakesLargePath(size: nat, escapes: nat)
  {
    2 * escapes + size + 2 >= Cap
  }

  /**
   * The lazy writer's test as written: it reserves one byte fewer than the
   * fast path then asks of EnsureBuffer (size + 2, for the two quotes).
   */
  predicate LazyTakesLargePathAsWritten(size: nat, escapes: nat)
  {
    2 * escapes + size + 1 >= Cap
  }

  /** The skip list stored with a lazy string. */
  function LazySkips(s: LazyString): seq<nat>
    requires WellFormedLazy(s)
  {
    Trailer(s.buffer, s.size).value
  }

  /** The text WriteString(LazyStringValue) emits for a stored string. */
  function RenderLazy(s: LazyString): Text
    requires WellFormedLazy(s)
  {
    var skips := LazySkips(s);
    Quoted(Expand(s.buffer[..s.size], skips, TakesLargePath(s.size, |skips|)))
  }

  /**
   * The text the lazy writer emits as written: below its threshold it takes
   * the fast path, whose EnsureBuffer(size + 2) raises once size + 2
   * reaches Cap.
   */
  function RenderLazyAsWritten(s: LazyString): Text
    requires WellFormedLazy(s)
  {
    var skips := LazySkips(s);
    var p := s.buffer[..s.size];
    if LazyTakesLargePathAsWritten(s.size, |skips|) then Quoted(Expand(p, skips, true))
    else if s.size + 2 >= Cap then Err(ValueTooBig)
    else Quoted(Expand(p, skips, false))
  }

  /** The text WriteString(LazyCompressedStringValue) emits: the decompressed bytes, escaped. */
  function RenderCompressed(c: CompressedString): Text
    requires WellFormedCompressed(c)
  {
    var skips := Trailer(c.source, c.compressedSize).value;
    Quoted(Expand(c.plain, skips, TakesLargePath(|c.plain|, |skips|)))
  }

  /** WriteDouble(LazyNumberValue): the three sentinels in order, else the stored text. */
  function RenderNumber(n: LazyNumber): Text
  {
    if n.isNaN then Ok(NaNText)
    else if n.isPositiveInfinity then Ok(PositiveInfinityText)
    else if n.isNegativeInfinity then Ok(NegativeInfinityText)
    else if |n.text| >= Cap then Err(ValueTooBig)
    else Ok(n.text)
  }

  /** The physical property order 0, 1, ..., count - 1. */
  function PhysicalOrder(count: nat): (r: seq<nat>)
    ensures |r| == count && forall i | 0 <= i < count :: r[i] == i
  {
    seq(count, i requires 0 <= i < count => i)
  }

  /**
   * The text WriteValue emits for a value. `ordered` selects insertion
   * order for objects, and is passed down into nested arrays and objects.
   */
  function Render(v: Value, ordered: bool): Text
    requires WellFormed(v)
    decreases v, 1
  {
    match v
    case Str(s) => RenderLazy(s)
    case CompressedStr(c) => RenderCompressed(c)
    case Integer(i) => Ok(IntegerText(i))
    case Number(n) => RenderNumber(n)
    case Boolean(b) => Ok(if b then TrueText else FalseText)
    case Null => Ok(NullText)
    case Array(items) => Bracketed(StartArray, Join(RenderItems(items, ordered)), EndArray)
    case Object(o) => RenderObject(o, ordered)
    case Unknown(t) => Err(UnknownToken(t))
  }

  /** The texts of the array elements, in index order. */
  function RenderItems(items: seq<Value>, ordered: bool): (r: seq<Text>)
    requires forall i | 0 <= i < |items| :: WellFormed(items[i])
    ensures |r| == |items|
    ensures forall i | 0 <= i < |items| :: r[i] == Render(items[i], ordered)
    decreases items, 0
  {
    if items == [] then []
    else RenderItems(items[..|items| - 1], ordered) + [Render(items[|items| - 1], ordered)]
  }

  /** The object's properties in physical order, or in insertion order when `ordered`. */
  function RenderObject(o: JsonObject, ordered: bool): Text
    requires WellFormedObject(o)
    decreases o, 1
  {
    var order := if ordered then o.insertionOrder else PhysicalOrder(|o.props|);
    Bracketed(StartObject, Join(RenderProps(o.props, order, ordered)), EndObject)
  }

  /** The texts of the properties named by `order`, in that order. */
  function RenderProps(props: seq<Prop>, order: seq<nat>, ordered: bool): (r: seq<Text>)
    requires forall i | 0 <= i < |order| :: order[i] < |props|
    requires forall i | 0 <= i < |props| :: WellFormedProp(props[i])
    ensures |r| == |order|
    ensures forall i | 0 <= i < |order| :: r[i] == RenderProp(props[order[i]], ordered)
    decreases props, |order|
  {
    if order == [] then []
    else RenderProps(props, order[..|order| - 1], ordered) + [RenderProp(props[order[|order| - 1]], ordered)]
  }

  /** A property: its quoted name, a colon, then its value. */
  function RenderProp(p: Prop, ordered: bool): Text
    requires WellFormedProp(p)
    decreases p, 0
  {
    Concat(Suffixed(RenderLazy(p.name), [Colon]), Render(p.value, ordered))
  }

  // ---------------------------------------------------------------------
  // Properties of the rendering
  // ---------------------------------------------------------------------

  /**
   * A stored string whose trailer lists its escapable bytes renders as its
   * per-byte JSON escaping between quotes, whichever path it takes, as long
   * as no verbatim run reaches Cap.
   */
  lemma RenderLazyEscapes(p: seq<byte>)
    requires forall i | 0 <= i < |CanonicalSkips(p)| :: CanonicalSkips(p)[i] < Cap
    ensures WellFormedLazy(LazyString(p + EncodeTrailer(CanonicalSkips(p)), |p|))
    ensures RenderLazy(LazyString(p + EncodeTrailer(CanonicalSkips(p)), |p|)) == Ok([Quote] + Escaped(p) + [Quote])
  {
    ExpandCanonical(p);
    StoredStringWellFormed(p, CanonicalSkips(p));
    ExpandPaths(p, CanonicalSkips(p));
  }

  /**
   * The text of a lazy string that renders is its payload with one extra
   * byte per escape and the two quotes; it fails only with ValueTooBig (a
   * verbatim run reaching Cap on the large path) or an invalid escape byte.
   */
  lemma RenderLazyShape(s: LazyString)
    requires WellFormedLazy(s)
    ensures RenderLazy(s).Ok? ==> |RenderLazy(s).value| == s.size + |LazySkips(s)| + 2
    ensures RenderLazy(s).Ok? ==> RenderLazy(s).value[0] == Quote && RenderLazy(s).value[|RenderLazy(s).value| - 1] == Quote
    ensures RenderLazy(s).Err? ==> RenderLazy(s).error == ValueTooBig || RenderLazy(s).error.InvalidEscape?
  {
    var skips := LazySkips(s);
    var large := TakesLargePath(s.size, |skips|);
    if Expand(s.buffer[..s.size], skips, large).Ok? {
      ExpandLength(s.buffer[..s.size], skips, large);
    }
    ExpandErrors(s.buffer[..s.size], skips, large);
  }

  lemma {:induction false} ExpandErrors(p: seq<byte>, skips: seq<nat>, large: bool)
    requires Fits(p, skips)
    ensures Expand(p, skips, large).Err? ==> Expand(p, skips, large).error == ValueTooBig || Expand(p, skips, large).error.InvalidEscape?
    decreases skips
  {
    if skips != [] {
      ExpandErrors(p[skips[0] + 1..], skips[1..], large);
    }
  }

  /**
   * The fast path and the large path emit the same text for a string none
   * of whose runs reaches Cap: the choice of path is invisible in the output.
   */
  lemma LazyPathsAgree(s: LazyString)
    requires WellFormedLazy(s)
    requires forall i | 0 <= i < |LazySkips(s)| :: LazySkips(s)[i] < Cap
    ensures RenderLazy(s) == Quoted(Expand(s.buffer[..s.size], LazySkips(s), false))
    ensures RenderLazy(s) == Quoted(Expand(s.buffer[..s.size], LazySkips(s), true))
  {
    ExpandPaths(s.buffer[..s.size], LazySkips(s));
  }

  /** The same for compressed strings, over the decompressed bytes. */
  lemma CompressedPathsAgree(c: CompressedString)
    requires WellFormedCompressed(c)
    requires forall i | 0 <= i < |Trailer(c.source, c.compressedSize).value| :: Trailer(c.source, c.compressedSize).value[i] < Cap
    ensures RenderCompressed(c) == Quoted(Expand(c.plain, Trailer(c.source, c.compressedSize).value, false))
  {
    ExpandPaths(c.plain, Trailer(c.source, c.compressedSize).value);
  }

  /**
   * With the corrected threshold the fast path's two reservations
   * (EnsureBuffer(size + 2), then EnsureBuffer(2 * escapes + size + 1)) are
   * both below Cap, so a lazy string raises ValueTooBig only for a run of
   * Cap bytes or more.
   */
  lemma RenderLazyTooBig(s: LazyString)
    requires WellFormedLazy(s)
    requires RenderLazy(s) == Err(ValueTooBig)
    ensures exists i | 0 <= i < |LazySkips(s)| :: LazySkips(s)[i] >= Cap
  {
    if forall i | 0 <= i < |LazySkips(s)| :: LazySkips(s)[i] < Cap {
      ExpandPaths(s.buffer[..s.size], LazySkips(s));
      ExpandNotTooBig(s.buffer[..s.size], LazySkips(s));
    }
  }

  lemma {:induction false} ExpandNotTooBig(p: seq<byte>, skips: seq<nat>)
    requires Fits(p, skips)
    ensures Expand(p, skips, false) != Err(ValueTooBig)
    decreases skips
  {
    if skips != [] {
      ExpandNotTooBig(p[skips[0] + 1..], skips[1..]);
    }
  }

  /**
   * As written, a lazy string of Cap - 2 bytes with no escapes passes the
   * threshold into the fast path, whose EnsureBuffer(Cap) raises
   * ValueTooBig, although the string has no run of Cap bytes; the corrected
   * threshold renders it.
   */
  lemma LazyThresholdOffByOne()
    ensures var s := LazyString(seq(Cap - 2, i => 97) + [0], Cap - 2);
      && WellFormedLazy(s)
      && LazySkips(s) == []
      && RenderLazyAsWritten(s) == Err(ValueTooBig)
      && RenderLazy(s) == Ok([Quote] + seq(Cap - 2, i => 97) + [Quote])
  {
    var payload: seq<byte> := seq(Cap - 2, i => 97);
    var s := LazyString(payload + [0], Cap - 2);
    assert s.buffer[Cap - 2] == 0;
    assert ReadVarInt(s.buffer, Cap - 2) == Some(VarInt(0, Cap - 1));
    assert s.buffer[..s.size] == payload;
  }

  /** Both thresholds agree except on the one boundary size, where only the corrected one is safe. */
  lemma ThresholdsDiffer(size: nat, escapes: nat)
    ensures TakesLargePath(size, escapes) != LazyTakesLargePathAsWritten(size, escapes) <==> 2 * escapes + size + 2 == Cap
    ensures !TakesLargePath(size, escapes) ==> size + 2 < Cap && 2 * escapes + size + 1 < Cap
  {
  }

  /**
   * NaN wins over the infinities, +Infinity over -Infinity, and any flag over
   * the stored text; the three literals differ, so the flag written can be read back.
   */
  lemma RenderNumberSentinels(n: LazyNumber)
    ensures n.isNaN ==> RenderNumber(n) == Ok(NaNText)
    ensures !n.isNaN && n.isPositiveInfinity ==> RenderNumber(n) == Ok(PositiveInfinityText)
    ensures !n.isNaN && !n.isPositiveInfinity && n.isNegativeInfinity ==> RenderNumber(n) == Ok(NegativeInfinityText)
    ensures !n.isNaN && !n.isPositiveInfinity && !n.isNegativeInfinity ==>
      RenderNumber(n) == (if |n.text| >= Cap then Err(ValueTooBig) else Ok(n.text))
    ensures NaNText != PositiveInfinityText && NaNText != NegativeInfinityText
    ensures PositiveInfinityText != NegativeInfinityText
  {
    assert |NaNText| == 5 && |PositiveInfinityText| == 10 && |NegativeInfinityText| == 11;
  }

  /**
   * Insertion order only permutes the physical rendering: element i of the
   * ordered list is element insertionOrder[i] of the physical list.
   */
  lemma OrderedIsReindexed(o: JsonObject, ordered: bool)
    requires WellFormedObject(o)
    ensures var physical := RenderProps(o.props, PhysicalOrder(|o.props|), ordered);
      forall i | 0 <= i < |o.insertionOrder| ::
        RenderProps(o.props, o.insertionOrder, ordered)[i] == physical[o.insertionOrder[i]]
  {
  }

  /**
   * An object or array renders as its open bracket, then its children each
   * preceded by a comma except the first, then its close bracket; the first
   * failing child's exception is the result.
   */
  lemma {:induction false} JoinAllOk(parts: seq<Text>)
    requires forall i | 0 <= i < |parts| :: parts[i].Ok?
    ensures Join(parts).Ok?
    ensures |parts| > 0 ==> Join(parts).value == Join(parts[..|parts| - 1]).value + Separator(|parts| - 1) + parts[|parts| - 1].value
    ensures |parts| == 1 ==> Join(parts).value == parts[0].value
    decreases |parts|
  {
    JoinOk(parts);
    if |parts| > 0 {
      JoinOk(parts[..|parts| - 1]);
      assert parts[..|parts| - 1][..0] == [];
    }
  }

  lemma {:induction false} JoinFirstError(parts: seq<Text>, i: nat)
    requires i < |parts| && parts[i].Err?
    requires forall j | 0 <= j < i :: parts[j].Ok?
    ensures Join(parts) == parts[i]
  {
    JoinOk(parts[..i]);
    JoinStep(parts, i);
    JoinErrSticks(parts, i + 1);
  }
}
