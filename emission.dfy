/**
 * What the text writer emits and how partial outputs compose: the buffer
 * capacity, the writer's error kinds, the punctuation bytes, and the
 * combinators that build the expected output of a composite write from the
 * expected outputs of its parts.
 */
module Emission {
  import opened Wrappers
  import opened Blittable

  /**
   * ManagedPinnedBuffer.Size, the capacity of the writer's pinned buffer.
   * Its definition is not part of this model; 32 KiB is assumed, and the
   * proofs use only that it exceeds the longest literal and integer text.
   */
  const Cap: nat := 32768

  /** Size of the scratch memory the writer rents for integer digits. */
  const ScratchSize: nat := 32

  /** The exceptions the writer raises, one constructor per kind. */
  datatype Error =
    | ValueTooBig              // ArgumentOutOfRangeException from EnsureBuffer
    | StreamClosed             // ObjectDisposedException from Flush
    | InvalidEscape(b: byte)   // InvalidOperationException from GetEscapeCharacter
    | UnknownToken(token: int) // DataMisalignedException from WriteValue

  /** The bytes a write produces, or the exception it raises. */
  type Text = Result<seq<byte>, Error>

  const Quote: byte := 34        // '"'
  const Comma: byte := 44        // ','
  const Colon: byte := 58        // ':'
  const Backslash: byte := 92    // '\\'
  const StartObject: byte := 123 // '{'
  const EndObject: byte := 125   // '}'
  const StartArray: byte := 91   // '['
  const EndArray: byte := 93     // ']'

  function Prefixed(prefix: seq<byte>, t: Text): Text
  {
    if t.Ok? then Ok(prefix + t.value) else t
  }

  function Suffixed(t: Text, suffix: seq<byte>): Text
  {
    if t.Ok? then Ok(t.value + suffix) else t
  }

  /** The output of writing `a` and then `b`: the first exception wins. */
  function Concat(a: Text, b: Text): Text
  {
    if a.Err? then a else if b.Err? then b else Ok(a.value + b.value)
  }

  function Bracketed(open: byte, t: Text, close: byte): Text
  {
    Suffixed(Prefixed([open], t), [close])
  }

  /** The separator written before element `i` of a list: a comma except before the first. */
  function Separator(i: nat): seq<byte>
  {
    if i == 0 then [] else [Comma]
  }

  /** The parts written one after another, separated by commas. */
  function Join(parts: seq<Text>): Text
  {
    if parts == [] then Ok([])
    else Concat(Join(parts[..|parts| - 1]), Prefixed(Separator(|parts| - 1), parts[|parts| - 1]))
  }

  lemma PrefixedTwice(a: seq<byte>, b: seq<byte>, t: Text)
    ensures Prefixed(a, Prefixed(b, t)) == Prefixed(a + b, t)
  {
    if t.Ok? {
      assert a + (b + t.value) == (a + b) + t.value;
    }
  }

  lemma PrefixedNothing(t: Text)
    ensures Prefixed([], t) == t
  {
    if t.Ok? {
      assert [] + t.value == t.value;
    }
  }

  /** Writing element `i` extends the joined output of the first `i` elements. */
  lemma JoinStep(parts: seq<Text>, i: nat)
    requires i < |parts|
    ensures Join(parts[..i + 1]) == Concat(Join(parts[..i]), Prefixed(Separator(i), parts[i]))
  {
    assert parts[..i + 1][..i] == parts[..i];
  }

  /** Once a prefix of the parts raises an exception, the whole list raises it. */
  lemma {:induction false} JoinErrSticks(parts: seq<Text>, i: nat)
    requires i <= |parts|
    requires Join(parts[..i]).Err?
    ensures Join(parts) == Join(parts[..i])
    decreases |parts| - i
  {
    if i < |parts| {
      JoinStep(parts, i);
      JoinErrSticks(parts, i + 1);
    } else {
      assert parts[..i] == parts;
    }
  }

  /** Writing element `i` successfully: the joined output grows by its separator and text. */
  lemma JoinAdvance(parts: seq<Text>, i: nat, next: nat)
    requires i < |parts| && next == i + 1 && Join(parts[..i]).Ok? && parts[i].Ok?
    ensures Join(parts[..next]).Ok?
    ensures Join(parts[..next]).value == Join(parts[..i]).value + (Separator(i) + parts[i].value)
  {
    JoinStep(parts, i);
  }

  /** Element `i` raising after the first `i` succeeded: the whole list raises the same. */
  lemma JoinFails(parts: seq<Text>, i: nat)
    requires i < |parts| && Join(parts[..i]).Ok? && parts[i].Err?
    ensures Join(parts) == parts[i]
  {
    JoinStep(parts, i);
    JoinErrSticks(parts, i + 1);
  }

  /** When every part succeeds, so does the list. */
  lemma {:induction false} JoinOk(parts: seq<Text>)
    requires forall i | 0 <= i < |parts| :: parts[i].Ok?
    ensures Join(parts).Ok?
    decreases |parts|
  {
    if parts != [] {
      JoinOk(parts[..|parts| - 1]);
    }
  }

  /** The output of a write `r` and then a write `next` is their concatenation. */
  lemma ConformsThen(r: Outcome<Error>, spec: Text, next: Outcome<Error>, nextSpec: Text,
                     x: seq<byte>, y: seq<byte>, z: seq<byte>, streamed: bool)
    requires Conforms(r, spec, x, y, streamed) && r.Pass? && Conforms(next, nextSpec, y, z, streamed)
    ensures Conforms(next, Concat(spec, nextSpec), x, z, streamed)
  {
    if next.Pass? {
      assert z == x + (spec.value + nextSpec.value);
    }
  }

  /** A write after `done` was emitted, measured from before `done`. */
  lemma ConformsDone(x: seq<byte>, done: seq<byte>, r: Outcome<Error>, spec: Text, z: seq<byte>, streamed: bool)
    requires Conforms(r, spec, x + done, z, streamed)
    ensures Conforms(r, Prefixed(done, spec), x, z, streamed)
  {
    if r.Pass? {
      SeqAssoc(x, done, spec.value);
    }
  }

  /** A write that fails makes any write starting with it fail the same way. */
  lemma ConformsFirstFails(r: Outcome<Error>, spec: Text, rest: Text, x: seq<byte>, y: seq<byte>, streamed: bool)
    requires Conforms(r, spec, x, y, streamed) && r.Fail?
    ensures Conforms(r, Concat(spec, rest), x, y, streamed)
  {
  }

  /** Writing nothing conforms to the empty text. */
  lemma ConformsNothing(x: seq<byte>, streamed: bool)
    ensures Conforms(Pass, Ok([]), x, x, streamed)
  {
    assert x + [] == x;
  }

  lemma PrefixedConcat(a: seq<byte>, s: Text, t: Text)
    ensures Prefixed(a, t) == Concat(Ok(a), t)
    ensures Prefixed(a, Concat(s, t)) == Concat(Concat(Ok(a), s), t)
  {
    if s.Ok? && t.Ok? {
      SeqAssoc(a, s.value, t.value);
    }
  }

  lemma SeqAssoc(a: seq<byte>, b: seq<byte>, c: seq<byte>)
    ensures (a + b) + c == a + (b + c)
  {
  }

  lemma BracketedConcat(open: byte, t: Text, close: byte)
    ensures Bracketed(open, t, close) == Concat(Concat(Ok([open]), t), Ok([close]))
  {
  }

  /**
   * A write's outcome `r` agrees with its expected output `spec`, given the
   * observable output before and after it: on success the expected bytes
   * were appended; a failure is either the expected exception or a flush
   * without a stream; and with a stream the write succeeds exactly when the
   * expected output is not an exception.
   */
  predicate Conforms(r: Outcome<Error>, spec: Text, before: seq<byte>, after: seq<byte>, streamed: bool)
  {
    && (r.Pass? ==> spec.Ok? && after == before + spec.value)
    && (r.Fail? ==> (r.error == StreamClosed && !streamed) || spec == Err(r.error))
    && (streamed ==> (r.Pass? <==> spec.Ok?))
  }
}
