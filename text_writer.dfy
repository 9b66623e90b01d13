/**
 * BlittableJsonTextWriter: streams stored values as JSON text through a
 * fixed-capacity pinned buffer that is flushed to the output stream when
 * it fills. Each write is proved against the pure rendering of JsonRender:
 * everything emitted so far (what reached the stream, then the buffered
 * bytes) grows by exactly the rendered text.
 */
module TextWriter {
  import opened Wrappers
  import opened Blittable
  import opened Emission
  import opened EscapeCodec
  import opened Decimal
  import opened JsonRender

  class BlittableJsonTextWriter {
    /** `_buffer`: the pinned buffer of Cap bytes. */
    const buffer: array<byte>
    /** `_parserAuxiliarMemory`: the 32 bytes of scratch memory used for integer digits. */
    const scratch: array<byte>
    /** Whether the writer was given a stream (`_stream != null`). */
    const hasStream: bool
    /** `_pos`: the number of buffered bytes not yet flushed. */
    var pos: nat
    /** Everything written to the stream so far. */
    ghost var sinkOut: seq<byte>
    /** Decompression buffers rented from the context and not yet returned. */
    ghost var rentedTemp: nat
    /** How many times the pinned buffer and scratch memory were handed back to the context. */
    ghost var returned: nat

    ghost predicate Valid()
      reads this
    {
      buffer.Length == Cap && scratch.Length == ScratchSize && buffer != scratch && pos <= Cap
    }

    /** Everything emitted so far: the stream's bytes, then the buffered ones. */
    ghost function Output(): seq<byte>
      reads this, buffer
      requires Valid()
    {
      sinkOut + buffer[..pos]
    }

    constructor (withStream: bool)
      ensures Valid() && fresh(buffer) && fresh(scratch)
      ensures hasStream == withStream && pos == 0 && Output() == []
      ensures rentedTemp == 0 && returned == 0
    {
      hasStream := withStream;
      buffer := new byte[Cap];
      scratch := new byte[ScratchSize];
      pos := 0;
      sinkOut := [];
      rentedTemp := 0;
      returned := 0;
    }

    // -------------------------------------------------------------------
    // Capacity discipline
    // -------------------------------------------------------------------

    /** Flush: hand the buffered bytes to the stream and empty the buffer. */
    method Flush() returns (r: Outcome<Error>)
      requires Valid()
      modifies this`pos, this`sinkOut
      ensures Valid() && Output() == old(Output())
      ensures r == (if hasStream then Pass else Fail(StreamClosed))
      ensures r.Pass? ==> pos == 0 && sinkOut == old(Output())
      ensures r.Fail? ==> pos == old(pos) && sinkOut == old(sinkOut)
    {
      if !hasStream {
        return Fail(StreamClosed);
      }
      if pos == 0 {
        return Pass;
      }
      sinkOut := sinkOut + buffer[..pos];
      pos := 0;
      return Pass;
    }

    /**
     * EnsureBuffer: make room for `len` more bytes. Raises for a request of
     * Cap bytes or more; flushes only when the request does not fit after
     * the buffered bytes.
     */
    method EnsureBuffer(len: nat) returns (r: Outcome<Error>)
      requires Valid()
      modifies this`pos, this`sinkOut
      ensures Valid() && Output() == old(Output())
      ensures len >= Cap ==> r == Fail(ValueTooBig)
      ensures len < Cap ==> (r.Pass? <==> hasStream || old(pos) + len < Cap)
      ensures len < Cap && r.Fail? ==> r.error == StreamClosed
      ensures r.Pass? ==> pos + len < Cap
      ensures r.Fail? || old(pos) + len < Cap ==> pos == old(pos) && sinkOut == old(sinkOut)
    {
      if len >= Cap {
        return Fail(ValueTooBig);
      }
      if pos + len < Cap {
        return Pass;
      }
      r := Flush();
    }

    /** `_buffer[_pos++] = b`. */
    method Put(b: byte)
      requires Valid() && pos < Cap
      modifies this`pos, buffer
      ensures Valid() && pos == old(pos) + 1
      ensures Output() == old(Output()) + [b]
    {
      buffer[pos] := b;
      pos := pos + 1;
      assert buffer[..pos] == old(buffer[..pos]) + [b];
    }

    /** The body of the literal loops of WriteNull, WriteBool and WriteBufferFor. */
    method PutAll(lit: seq<byte>)
      requires Valid() && pos + |lit| <= Cap
      modifies this`pos, buffer
      ensures Valid() && pos == old(pos) + |lit|
      ensures Output() == old(Output()) + lit
    {
      for i := 0 to |lit|
        invariant Valid() && pos == old(pos) + i
        invariant Output() == old(Output()) + lit[..i]
      {
        Put(lit[i]);
        assert lit[..i + 1] == lit[..i] + [lit[i]];
      }
    }

    /** Memory.Copy of `src` to the buffered bytes' end, and `_pos` moved past it. */
    method Append(src: seq<byte>)
      requires Valid() && pos + |src| <= Cap
      modifies this`pos, buffer
      ensures Valid() && pos == old(pos) + |src|
      ensures Output() == old(Output()) + src
    {
      ghost var before := buffer[..pos];
      MemoryCopy(pos, src);
      assert buffer[..pos + |src|] == before + src by {
        assert buffer[..pos + |src|] == buffer[..pos] + buffer[pos..pos + |src|];
      }
      pos := pos + |src|;
    }

    /** Memory.Copy into the buffer at `at`. */
    method MemoryCopy(at: nat, src: seq<byte>)
      requires Valid() && at + |src| <= Cap
      modifies buffer
      ensures buffer[..at] == old(buffer[..at])
      ensures buffer[at..at + |src|] == src
    {
      forall j | 0 <= j < |src| {
        buffer[at + j] := src[j];
      }
    }

    /**
     * UnlikelyWriteLargeRawString: copy `src` in chunks of at most Cap
     * bytes, flushing before each chunk. The last chunk may fill the buffer.
     */
    method UnlikelyWriteLargeRawString(src: seq<byte>) returns (r: Outcome<Error>)
      requires Valid()
      modifies this`pos, this`sinkOut, buffer
      ensures Valid()
      ensures Conforms(r, Ok(src), old(Output()), Output(), hasStream)
      ensures src == [] ==> r.Pass? && pos == old(pos) && sinkOut == old(sinkOut)
    {
      r := Pass;
      var posInStr := 0;
      while posInStr < |src|
        invariant Valid() && posInStr <= |src| && r.Pass?
        invariant Output() == old(Output()) + src[..posInStr]
        invariant posInStr == 0 ==> pos == old(pos) && sinkOut == old(sinkOut)
      {
        var amount := if |src| - posInStr < Cap then |src| - posInStr else Cap;
        r := Flush();
        if r.Fail? {
          return;
        }
        MemoryCopy(0, src[posInStr..posInStr + amount]);
        assert buffer[..amount] == src[posInStr..posInStr + amount];
        assert src[..posInStr + amount] == src[..posInStr] + src[posInStr..posInStr + amount];
        posInStr := posInStr + amount;
        pos := amount;
      }
      assert src[..posInStr] == src;
    }

    /**
     * WriteRawString: copy `src` verbatim, in one piece when it is shorter
     * than Cap (flushing first if it does not fit), else in chunks.
     */
    method WriteRawString(src: seq<byte>) returns (r: Outcome<Error>)
      requires Valid()
      modifies this`pos, this`sinkOut, buffer
      ensures Valid()
      ensures Conforms(r, Ok(src), old(Output()), Output(), hasStream)
      ensures old(pos) + |src| < Cap ==> r.Pass? && pos == old(pos) + |src| && sinkOut == old(sinkOut)
    {
      if |src| < Cap {
        r := EnsureBuffer(|src|);
        if r.Fail? {
          return;
        }
        Append(src);
      } else {
        r := UnlikelyWriteLargeRawString(src);
      }
    }

    // -------------------------------------------------------------------
    // Literals and punctuation
    // -------------------------------------------------------------------

    method WriteNull() returns (r: Outcome<Error>)
      requires Valid()
      modifies this`pos, this`sinkOut, buffer
      ensures Valid()
      ensures Conforms(r, Ok(NullText), old(Output()), Output(), hasStream)
    {
      r := EnsureBuffer(4);
      if r.Fail? {
        return;
      }
      PutAll(NullText);
    }

    method WriteBool(val: bool) returns (r: Outcome<Error>)
      requires Valid()
      modifies this`pos, this`sinkOut, buffer
      ensures Valid()
      ensures Conforms(r, Ok(if val then TrueText else FalseText), old(Output()), Output(), hasStream)
    {
      r := EnsureBuffer(5);
      if r.Fail? {
        return;
      }
      PutAll(if val then TrueText else FalseText);
    }

    /** WriteBufferFor: a caller-supplied literal; one of Cap bytes or more raises. */
    method WriteBufferFor(lit: seq<byte>) returns (r: Outcome<Error>)
      requires Valid()
      modifies this`pos, this`sinkOut, buffer
      ensures Valid()
      ensures Conforms(r, if |lit| >= Cap then Err(ValueTooBig) else Ok(lit), old(Output()), Output(), hasStream)
    {
      r := EnsureBuffer(|lit|);
      if r.Fail? {
        return;
      }
      PutAll(lit);
    }

    method WriteComma() returns (r: Outcome<Error>)
      requires Valid()
      modifies this`pos, this`sinkOut, buffer
      ensures Valid()
      ensures Conforms(r, Ok([Comma]), old(Output()), Output(), hasStream)
    {
      r := EnsureBuffer(1);
      if r.Fail? {
        return;
      }
      Put(Comma);
    }

    method WriteStartObject() returns (r: Outcome<Error>)
      requires Valid()
      modifies this`pos, this`sinkOut, buffer
      ensures Valid()
      ensures Conforms(r, Ok([StartObject]), old(Output()), Output(), hasStream)
    {
      r := EnsureBuffer(1);
      if r.Fail? {
        return;
      }
      Put(StartObject);
    }

    method WriteEndObject() returns (r: Outcome<Error>)
      requires Valid()
      modifies this`pos, this`sinkOut, buffer
      ensures Valid()
      ensures Conforms(r, Ok([EndObject]), old(Output()), Output(), hasStream)
    {
      r := EnsureBuffer(1);
      if r.Fail? {
        return;
      }
      Put(EndObject);
    }

    method WriteStartArray() returns (r: Outcome<Error>)
      requires Valid()
      modifies this`pos, this`sinkOut, buffer
      ensures Valid()
      ensures Conforms(r, Ok([StartArray]), old(Output()), Output(), hasStream)
    {
      r := EnsureBuffer(1);
      if r.Fail? {
        return;
      }
      Put(StartArray);
    }

    method WriteEndArray() returns (r: Outcome<Error>)
      requires Valid()
      modifies this`pos, this`sinkOut, buffer
      ensures Valid()
      ensures Conforms(r, Ok([EndArray]), old(Output()), Output(), hasStream)
    {
      r := EnsureBuffer(1);
      if r.Fail? {
        return;
      }
      Put(EndArray);
    }

    method WriteNewLine() returns (r: Outcome<Error>)
      requires Valid()
      modifies this`pos, this`sinkOut, buffer
      ensures Valid()
      ensures Conforms(r, Ok([13, 10]), old(Output()), Output(), hasStream)
    {
      r := EnsureBuffer(2);
      if r.Fail? {
        return;
      }
      Put(13);
      Put(10);
    }

    /** WriteRawStringWhichMustBeWithoutEscapeChars: `src` between quotes, copied verbatim. */
    method WriteRawStringWhichMustBeWithoutEscapeChars(src: seq<byte>) returns (r: Outcome<Error>)
      requires Valid()
      modifies this`pos, this`sinkOut, buffer
      ensures Valid()
      ensures Conforms(r, if |src| + 2 >= Cap then Err(ValueTooBig) else Ok([Quote] + src + [Quote]), old(Output()), Output(), hasStream)
    {
      r := EnsureBuffer(|src| + 2);
      if r.Fail? {
        return;
      }
      Put(Quote);
      var copied := WriteRawString(src);
      Put(Quote);
    }

    // -------------------------------------------------------------------
    // Integers
    // -------------------------------------------------------------------

    /**
     * WriteInteger: the digits are produced least significant first into
     * the scratch memory, a '-' is appended for negatives, and the scratch
     * is copied to the buffer in reverse.
     */
    method WriteInteger(val: int) returns (r: Outcome<Error>)
      requires Valid() && MinLong <= val <= MaxLong
      modifies this`pos, this`sinkOut, buffer, scratch
      ensures Valid()
      ensures Conforms(r, Ok(IntegerText(val)), old(Output()), Output(), hasStream)
    {
      if val == 0 {
        r := EnsureBuffer(1);
        if r.Fail? {
          return;
        }
        Put(Zero);
        return;
      }
      var len := FormatReversed(val);
      r := EnsureBuffer(len);
      if r.Fail? {
        return;
      }
      CopyReversed(len);
      ReversedTwice(IntegerText(val));
    }

    /**
     * The digit loop of WriteInteger: fills the scratch memory with the
     * text of a non-zero `val` in reverse. long.MinValue starts from
     * long.MaxValue with 1 added to its first digit.
     */
    method FormatReversed(val: int) returns (idx: nat)
      requires Valid() && MinLong <= val <= MaxLong && val != 0
      modifies scratch
      ensures idx <= ScratchSize && scratch[..idx] == Reversed(IntegerText(val))
    {
      var v := val;
      var negative := false;
      var isLongMin := false;
      if v < 0 {
        negative := true;
        if v == MinLong {
          isLongMin := true;
          v := MaxLong;
        } else {
          v := -v;
        }
      }
      IntegerTextLength(val);
      idx := FormatDigits(v, isLongMin);
      ghost var digits := scratch[..idx];
      ghost var m: nat := if val < 0 then -val else val;
      assert Reversed(Significant(m)) == digits;
      if negative {
        idx := PutScratch(idx, Minus);
        ReversedTwice(Significant(m));
        ReversedSnoc(digits, Minus);
        ReversedTwice(digits + [Minus]);
      }
    }

    /**
     * The do-while loop of WriteInteger: the digits of `v` (of v + 1 for
     * long.MinValue), least significant first.
     */
    method FormatDigits(v0: nat, isLongMin0: bool) returns (idx: nat)
      requires Valid() && 0 < v0 <= MaxLong && (isLongMin0 ==> v0 == MaxLong)
      requires |Significant(if isLongMin0 then v0 + 1 else v0)| <= 19
      modifies scratch
      ensures idx <= 19 && scratch[..idx] == Reversed(Significant(if isLongMin0 then v0 + 1 else v0))
    {
      var v: nat, isLongMin := v0, isLongMin0;
      idx := 0;
      ghost var m: nat := if isLongMin0 then v0 + 1 else v0;
      ghost var cur: nat := m;
      // The source tests at the bottom; v is not 0 on entry, so testing first is the same.
      while v != 0
        invariant v == (if isLongMin then cur - 1 else cur)
        invariant isLongMin ==> idx == 0 && cur == MaxLong + 1
        invariant idx + |Significant(cur)| <= 19
        invariant Significant(m) == Significant(cur) + Reversed(scratch[..idx])
        decreases v
      {
        var d := v % 10;
        if isLongMin {
          assert v == MaxLong && cur == MaxLong + 1;
          LongMinDigit();
          isLongMin := false;
          d := d + 1;
        } else {
          assert v == cur;
        }
        assert d == cur % 10 && v / 10 == cur / 10;
        ghost var low, q := scratch[..idx], cur / 10;
        var digit: byte := Zero + d;
        idx := PutScratch(idx, digit);
        DigitStep(cur, q, digit, low);
        v := v / 10;
        cur := q;
      }
      assert cur == 0 && Significant(m) == Reversed(scratch[..idx]);
      ReversedTwice(scratch[..idx]);
    }

    /** `localBuffer[idx++] = b`: stores `b` and yields the next index. */
    method PutScratch(idx: nat, b: byte) returns (next: nat)
      requires Valid() && idx < ScratchSize
      modifies scratch
      ensures next == idx + 1 && scratch[..next] == old(scratch[..idx]) + [b]
    {
      scratch[idx] := b;
      next := idx + 1;
    }

    /** long.MinValue's last digit is long.MaxValue's plus one, and the rest agree. */
    static lemma LongMinDigit()
      ensures MaxLong % 10 + 1 == (MaxLong + 1) % 10 && MaxLong / 10 == (MaxLong + 1) / 10
    {
      assert MaxLong == 922337203685477580 * 10 + 7;
    }

    /** Moving the last digit of `cur` to the reversed digits keeps the whole digit string. */
    static lemma DigitStep(cur: nat, q: nat, digit: byte, low: seq<byte>)
      requires cur > 0 && q == cur / 10 && digit == Zero + cur % 10
      ensures Significant(cur) + Reversed(low) == Significant(q) + Reversed(low + [digit])
      ensures |Significant(cur)| == |Significant(q)| + 1
    {
      ReversedSnoc(low, digit);
      assert Significant(cur) == Significant(q) + [digit];
      SeqAssoc(Significant(q), [digit], Reversed(low));
    }

    /** The copy loop of WriteInteger: the first `len` scratch bytes, last first. */
    method CopyReversed(len: nat)
      requires Valid() && len <= ScratchSize && pos + len < Cap
      modifies this`pos, buffer
      ensures Valid() && Output() == old(Output()) + Reversed(scratch[..len])
    {
      ghost var before := buffer[..pos];
      ghost var text := Reversed(scratch[..len]);
      var idx := len;
      var auxPos := pos;
      while idx > 0
        invariant 0 <= idx <= len && auxPos == pos + (len - idx) <= Cap
        invariant buffer[..pos] == before
        invariant buffer[pos..auxPos] == text[..len - idx]
      {
        idx := idx - 1;
        buffer[auxPos] := scratch[idx];
        auxPos := auxPos + 1;
      }
      assert buffer[..auxPos] == before + text;
      pos := auxPos;
    }

    // -------------------------------------------------------------------
    // Strings
    // -------------------------------------------------------------------

    /**
     * The next skip distance of a trailer, read with the reader's
     * variable-size integer decoding, and where the rest of the list starts.
     */
    static method NextSkip(tb: seq<byte>, at: nat, k: nat, ghost skips: seq<nat>) returns (run: nat, next: nat)
      requires k > 0 && ReadSkips(tb, at, k) == Some(skips)
      ensures run == skips[0] && ReadSkips(tb, next, k - 1) == Some(skips[1..])
    {
      ReadSkipsFirst(tb, at, k, skips);
      var v := ReadVarInt(tb, at).value;
      run, next := v.value, v.next;
    }

    /**
     * The fast escape loop shared by UnlikelyWriteEscapeSequences and the
     * compressed writer: each run is copied verbatim, then a backslash and
     * the escape character. The buffer already has room for the worst case.
     */
    method EscapeRuns(p: seq<byte>, tb: seq<byte>, n: nat, escPos: nat) returns (r: Outcome<Error>)
      requires Valid()
      requires ReadSkips(tb, escPos, n).Some? && Fits(p, ReadSkips(tb, escPos, n).value)
      requires pos + 2 * n + |p| + 1 < Cap
      modifies this`pos, this`sinkOut, buffer
      ensures Valid() && (r.Pass? ==> pos < Cap)
      ensures Conforms(r, Expand(p, ReadSkips(tb, escPos, n).value, false), old(Output()), Output(), true)
    {
      ghost var skips := ReadSkips(tb, escPos, n).value;
      ghost var rest := skips;
      ghost var done: seq<byte> := [];
      var k, at: nat, off: nat := n, escPos, 0;
      assert p[off..] == p;
      PrefixedNothing(Expand(p, skips, false));
      while k > 0
        invariant Valid() && off <= |p|
        invariant ReadSkips(tb, at, k) == Some(rest)
        invariant Fits(p[off..], rest)
        invariant Output() == old(Output()) + done
        invariant Expand(p, skips, false) == Prefixed(done, Expand(p[off..], rest, false))
        invariant pos + 2 * k + (|p| - off) + 1 < Cap
      {
        var run;
        r, run, at := EscapeRound(p, tb, at, k, off, rest);
        var next := off + run + 1;
        ExpandAdvance(p, off, run, next, rest, done, false);
        ghost var step := RunThenEscape(p[off..off + run], p[off + run], false);
        if r.Fail? {
          ConformsDone(old(Output()), done, r, step, Output(), true);
          return;
        }
        SeqAssoc(old(Output()), done, step.value);
        done := done + step.value;
        off := next;
        rest := rest[1..];
        k := k - 1;
      }
      r := WriteRawString(p[off..]);
      ConformsDone(old(Output()), done, r, Ok(p[off..]), Output(), true);
    }

    /**
     * One round of the fast escape loop, with `k` escapes left: read the
     * next skip distance of the trailer, then copy that run verbatim and
     * write the escaped byte. The room reserved for the worst case still
     * covers the rounds after it.
     */
    method EscapeRound(p: seq<byte>, tb: seq<byte>, at: nat, k: nat, off: nat, ghost rest: seq<nat>)
      returns (r: Outcome<Error>, run: nat, at': nat)
      requires Valid() && k > 0 && off <= |p|
      requires ReadSkips(tb, at, k) == Some(rest) && Fits(p[off..], rest)
      requires pos + 2 * k + (|p| - off) + 1 < Cap
      modifies this`pos, this`sinkOut, buffer
      ensures Valid()
      ensures run == rest[0] && off + run < |p| && ReadSkips(tb, at', k - 1) == Some(rest[1..])
      ensures Conforms(r, RunThenEscape(p[off..off + run], p[off + run], false), old(Output()), Output(), true)
      ensures r.Pass? ==> pos + 2 * (k - 1) + (|p| - (off + run + 1)) + 1 < Cap
    {
      run, at' := NextSkip(tb, at, k, rest);
      r := FastEscapedRun(p[off..off + run], p[off + run]);
    }

    /**
     * One round of the fast escape loop: the run verbatim, then a backslash
     * and the escape character. `_pos` moves past the backslash only once
     * the escape character is found.
     */
    method FastEscapedRun(chunk: seq<byte>, b: byte) returns (r: Outcome<Error>)
      requires Valid() && pos + |chunk| + 2 < Cap
      modifies this`pos, this`sinkOut, buffer
      ensures Valid() && sinkOut == old(sinkOut) && (r.Pass? ==> pos == old(pos) + |chunk| + 2)
      ensures Conforms(r, RunThenEscape(chunk, b, false), old(Output()), Output(), true)
    {
      var copied := WriteRawString(chunk);
      ghost var kept := buffer[..pos];
      buffer[pos] := Backslash;
      var e := GetEscapeCharacter(b);
      if e.Err? {
        return Fail(e.error);
      }
      buffer[pos + 1] := e.value;
      assert buffer[..pos + 2] == kept + [Backslash, e.value];
      pos := pos + 2;
      r := Pass;
      SeqAssoc(sinkOut, kept, [Backslash, e.value]);
      SeqAssoc(old(Output()), chunk, [Backslash, e.value]);
    }

    /** UnlikelyWriteEscapeSequences: reserve the worst case, then the fast escape loop. */
    method UnlikelyWriteEscapeSequences(p: seq<byte>, tb: seq<byte>, n: nat, escPos: nat) returns (r: Outcome<Error>)
      requires Valid()
      requires ReadSkips(tb, escPos, n).Some? && Fits(p, ReadSkips(tb, escPos, n).value)
      requires 2 * n + |p| + 1 < Cap
      modifies this`pos, this`sinkOut, buffer
      ensures Valid()
      ensures Conforms(r, Expand(p, ReadSkips(tb, escPos, n).value, false), old(Output()), Output(), hasStream)
      ensures r.Pass? ==> pos < Cap
    {
      r := EnsureBuffer(2 * n + |p| + 1);
      if r.Fail? {
        return;
      }
      r := EscapeRuns(p, tb, n, escPos);
    }

    /**
     * The escape loop of the large paths: every run first reserves its own
     * length (raising for a run of Cap bytes or more), then is copied
     * (`chunked`: in flushed chunks, as the lazy writer does; otherwise by
     * WriteRawString, as the compressed writer does); each escape reserves
     * two bytes.
     */
    method LargeEscapeRuns(p: seq<byte>, tb: seq<byte>, n: nat, escPos: nat, chunked: bool) returns (r: Outcome<Error>)
      requires Valid()
      requires ReadSkips(tb, escPos, n).Some? && Fits(p, ReadSkips(tb, escPos, n).value)
      modifies this`pos, this`sinkOut, buffer
      ensures Valid()
      ensures Conforms(r, Expand(p, ReadSkips(tb, escPos, n).value, true), old(Output()), Output(), hasStream)
    {
      ghost var skips := ReadSkips(tb, escPos, n).value;
      ghost var rest := skips;
      ghost var done: seq<byte> := [];
      var k, at: nat, off: nat := n, escPos, 0;
      assert p[off..] == p;
      PrefixedNothing(Expand(p, skips, true));
      r := Pass;
      while k > 0
        invariant Valid() && off <= |p|
        invariant ReadSkips(tb, at, k) == Some(rest)
        invariant Fits(p[off..], rest)
        invariant Output() == old(Output()) + done
        invariant Expand(p, skips, true) == Prefixed(done, Expand(p[off..], rest, true))
      {
        var run;
        run, at := NextSkip(tb, at, k, rest);
        k := k - 1;
        var next := off + run + 1;
        ExpandAdvance(p, off, run, next, rest, done, true);
        r := LargeEscapedRun(p[off..off + run], p[off + run], chunked);
        ghost var step := RunThenEscape(p[off..off + run], p[off + run], true);
        if r.Fail? {
          ConformsDone(old(Output()), done, r, step, Output(), hasStream);
          return;
        }
        SeqAssoc(old(Output()), done, step.value);
        done := done + step.value;
        off := next;
        rest := rest[1..];
      }
      r := WriteRun(p[off..], chunked);
      ConformsDone(old(Output()), done, r, Ok(p[off..]), Output(), hasStream);
    }

    /** A run copied verbatim: in flushed chunks when `chunked`, else by WriteRawString. */
    method WriteRun(src: seq<byte>, chunked: bool) returns (r: Outcome<Error>)
      requires Valid()
      modifies this`pos, this`sinkOut, buffer
      ensures Valid()
      ensures Conforms(r, Ok(src), old(Output()), Output(), hasStream)
    {
      if chunked {
        r := UnlikelyWriteLargeRawString(src);
      } else {
        r := WriteRawString(src);
      }
    }

    /**
     * One round of the large escape loop: reserve the run, copy it, reserve
     * two bytes, then the backslash and the escape character. When the
     * escape character is missing, `_pos++` has already moved past the
     * backslash.
     */
    method LargeEscapedRun(chunk: seq<byte>, b: byte, chunked: bool) returns (r: Outcome<Error>)
      requires Valid()
      modifies this`pos, this`sinkOut, buffer
      ensures Valid()
      ensures Conforms(r, RunThenEscape(chunk, b, true), old(Output()), Output(), hasStream)
    {
      r := EnsureBuffer(|chunk|);
      if r.Fail? {
        return;
      }
      r := WriteRun(chunk, chunked);
      if r.Fail? {
        return;
      }
      ghost var before := Output();
      r := EnsureBuffer(2);
      if r.Fail? {
        return;
      }
      Put(Backslash);
      var e := GetEscapeCharacter(b);
      if e.Err? {
        pos := pos + 1;
        return Fail(e.error);
      }
      Put(e.value);
      assert Output() == before + [Backslash] + [e.value];
      SeqAssoc(before, [Backslash], [e.value]);
      SeqAssoc(old(Output()), chunk, [Backslash, e.value]);
    }

    /** UnlikelyWriteLargeString: quote, the large escape loop with chunked runs, quote. */
    method UnlikelyWriteLargeString(p: seq<byte>, tb: seq<byte>, n: nat, escPos: nat) returns (r: Outcome<Error>)
      requires Valid()
      requires ReadSkips(tb, escPos, n).Some? && Fits(p, ReadSkips(tb, escPos, n).value)
      modifies this`pos, this`sinkOut, buffer
      ensures Valid()
      ensures Conforms(r, Quoted(Expand(p, ReadSkips(tb, escPos, n).value, true)), old(Output()), Output(), hasStream)
    {
      ghost var body := Expand(p, ReadSkips(tb, escPos, n).value, true);
      r := EnsureBuffer(1);
      if r.Fail? {
        return;
      }
      Put(Quote);
      r := LargeEscapeRuns(p, tb, n, escPos, true);
      if r.Fail? {
        return;
      }
      r := EnsureBuffer(1);
      if r.Fail? {
        return;
      }
      Put(Quote);
      QuotedAppend(old(Output()), body);
    }

    /**
     * WriteString(LazyStringValue): `null` for a missing string; otherwise
     * the fast path when the worst-case text fits, else the large path.
     */
    method WriteString(str: Option<LazyString>) returns (r: Outcome<Error>)
      requires Valid() && (str.Some? ==> WellFormedLazy(str.value))
      modifies this`pos, this`sinkOut, buffer
      ensures Valid()
      ensures Conforms(r, if str.None? then Ok(NullText) else RenderLazy(str.value), old(Output()), Output(), hasStream)
    {
      if str.None? {
        r := WriteNull();
        return;
      }
      var s := str.value;
      var size := s.size;
      var count := ReadVarInt(s.buffer, size).value;
      var n, escPos := count.value, count.next;
      var p := s.buffer[..size];
      assert LazySkips(s) == ReadSkips(s.buffer, escPos, n).value;
      if TakesLargePath(size, n) {
        r := UnlikelyWriteLargeString(p, s.buffer, n, escPos);
      } else {
        r := WriteQuotedFast(p, s.buffer, n, escPos);
      }
    }

    /**
     * The fast path of WriteString(LazyStringValue): reserve the text
     * without escapes and its quotes, then the quote, the bytes (with the
     * escape loop when there are escapes), and the closing quote.
     */
    method WriteQuotedFast(p: seq<byte>, tb: seq<byte>, n: nat, escPos: nat) returns (r: Outcome<Error>)
      requires Valid()
      requires ReadSkips(tb, escPos, n).Some? && Fits(p, ReadSkips(tb, escPos, n).value)
      requires !TakesLargePath(|p|, n)
      modifies this`pos, this`sinkOut, buffer
      ensures Valid()
      ensures Conforms(r, Quoted(Expand(p, ReadSkips(tb, escPos, n).value, false)), old(Output()), Output(), hasStream)
    {
      ghost var body := Expand(p, ReadSkips(tb, escPos, n).value, false);
      r := EnsureBuffer(|p| + 2);
      if r.Fail? {
        return;
      }
      Put(Quote);
      if n == 0 {
        r := WriteRawString(p);
      } else {
        r := UnlikelyWriteEscapeSequences(p, tb, n, escPos);
      }
      if r.Fail? {
        return;
      }
      Put(Quote);
      QuotedAppend(old(Output()), body);
    }

    /** UnlikelyWriteCompressedString: quote, the large escape loop with whole runs, quote. */
    method UnlikelyWriteCompressedString(n: nat, src: seq<byte>, escPos: nat, plain: seq<byte>) returns (r: Outcome<Error>)
      requires Valid()
      requires ReadSkips(src, escPos, n).Some? && Fits(plain, ReadSkips(src, escPos, n).value)
      modifies this`pos, this`sinkOut, buffer
      ensures Valid()
      ensures Conforms(r, Quoted(Expand(plain, ReadSkips(src, escPos, n).value, true)), old(Output()), Output(), hasStream)
    {
      ghost var body := Expand(plain, ReadSkips(src, escPos, n).value, true);
      r := EnsureBuffer(1);
      if r.Fail? {
        return;
      }
      Put(Quote);
      r := LargeEscapeRuns(plain, src, n, escPos, false);
      if r.Fail? {
        return;
      }
      r := EnsureBuffer(1);
      if r.Fail? {
        return;
      }
      Put(Quote);
      QuotedAppend(old(Output()), body);
    }

    /** The body of WriteString(LazyCompressedStringValue) between renting and returning the temporary buffer. */
    method WriteDecompressed(c: CompressedString) returns (r: Outcome<Error>)
      requires Valid() && WellFormedCompressed(c)
      modifies this`pos, this`sinkOut, buffer
      ensures Valid()
      ensures Conforms(r, RenderCompressed(c), old(Output()), Output(), hasStream)
    {
      var size := |c.plain|;
      var count := ReadVarInt(c.source, c.compressedSize).value;
      var n, escPos := count.value, count.next;
      assert Trailer(c.source, c.compressedSize).value == ReadSkips(c.source, escPos, n).value;
      if TakesLargePath(size, n) {
        r := UnlikelyWriteCompressedString(n, c.source, escPos, c.plain);
        return;
      }
      ghost var body := Expand(c.plain, ReadSkips(c.source, escPos, n).value, false);
      r := EnsureBuffer(2 * n + size + 2);
      if r.Fail? {
        return;
      }
      Put(Quote);
      r := EscapeRuns(c.plain, c.source, n, escPos);
      if r.Fail? {
        return;
      }
      Put(Quote);
      QuotedAppend(old(Output()), body);
    }

    /**
     * WriteString(LazyCompressedStringValue): decompress into a rented
     * temporary buffer, write it, and return the buffer on every exit.
     */
    method WriteCompressedString(c: CompressedString) returns (r: Outcome<Error>)
      requires Valid() && WellFormedCompressed(c)
      modifies this`pos, this`sinkOut, buffer, this`rentedTemp
      ensures Valid() && rentedTemp == old(rentedTemp)
      ensures Conforms(r, RenderCompressed(c), old(Output()), Output(), hasStream)
    {
      rentedTemp := rentedTemp + 1;
      r := WriteDecompressed(c);
      rentedTemp := rentedTemp - 1;
    }

    /** WritePropertyName(LazyStringValue): the name as a string, then a colon. */
    method WritePropertyName(name: Option<LazyString>) returns (r: Outcome<Error>)
      requires Valid() && (name.Some? ==> WellFormedLazy(name.value))
      modifies this`pos, this`sinkOut, buffer
      ensures Valid()
      ensures Conforms(r, Suffixed(if name.None? then Ok(NullText) else RenderLazy(name.value), [Colon]), old(Output()), Output(), hasStream)
    {
      r := WriteString(name);
      if r.Fail? {
        return;
      }
      r := EnsureBuffer(1);
      if r.Fail? {
        return;
      }
      Put(Colon);
    }

    /** WriteDouble(LazyNumberValue): the sentinel literals in order, else the stored text. */
    method WriteDouble(n: LazyNumber) returns (r: Outcome<Error>)
      requires Valid()
      modifies this`pos, this`sinkOut, buffer
      ensures Valid()
      ensures Conforms(r, RenderNumber(n), old(Output()), Output(), hasStream)
    {
      if n.isNaN {
        r := WriteBufferFor(NaNText);
        return;
      }
      if n.isPositiveInfinity {
        r := WriteBufferFor(PositiveInfinityText);
        return;
      }
      if n.isNegativeInfinity {
        r := WriteBufferFor(NegativeInfinityText);
        return;
      }
      r := EnsureBuffer(|n.text|);
      if r.Fail? {
        return;
      }
      r := WriteRawString(n.text);
    }

    // -------------------------------------------------------------------
    // Values, arrays and objects
    // -------------------------------------------------------------------

    /** WriteValue: dispatch on the token; an unknown token raises. */
    method WriteValue(v: Value, ordered: bool) returns (r: Outcome<Error>)
      requires Valid() && WellFormed(v)
      modifies this`pos, this`sinkOut, buffer, scratch, this`rentedTemp
      ensures Valid() && rentedTemp == old(rentedTemp)
      ensures Conforms(r, Render(v, ordered), old(Output()), Output(), hasStream)
      decreases v, 1
    {
      match v
      case Str(s) =>
        r := WriteString(Some(s));
      case Integer(i) =>
        r := WriteInteger(i);
      case Array(items) =>
        r := WriteArrayToStream(items, ordered);
      case Object(o) =>
        if ordered {
          r := WriteObjectOrdered(o);
        } else {
          r := WriteObject(Some(o));
        }
      case CompressedStr(c) =>
        r := WriteCompressedString(c);
      case Number(n) =>
        r := WriteDouble(n);
      case Boolean(b) =>
        r := WriteBool(b);
      case Null =>
        r := WriteNull();
      case Unknown(t) =>
        r := Fail(UnknownToken(t));
    }

    /** WriteArrayToStream: '[', the elements separated by commas, ']'. */
    method WriteArrayToStream(items: seq<Value>, ordered: bool) returns (r: Outcome<Error>)
      requires Valid() && forall i | 0 <= i < |items| :: WellFormed(items[i])
      modifies this`pos, this`sinkOut, buffer, scratch, this`rentedTemp
      ensures Valid() && rentedTemp == old(rentedTemp)
      ensures Conforms(r, Bracketed(StartArray, Join(RenderItems(items, ordered)), EndArray), old(Output()), Output(), hasStream)
      decreases items, 2
    {
      ghost var body := Join(RenderItems(items, ordered));
      ghost var x := Output();
      BracketedConcat(StartArray, body, EndArray);
      r := WriteStartArray();
      if r.Fail? {
        ConformsFirstFails(r, Ok([StartArray]), body, x, Output(), hasStream);
        ConformsFirstFails(r, Concat(Ok([StartArray]), body), Ok([EndArray]), x, Output(), hasStream);
        return;
      }
      ghost var y := Output();
      var r2 := WriteElements(items, ordered);
      ConformsThen(r, Ok([StartArray]), r2, body, x, y, Output(), hasStream);
      r := r2;
      if r.Fail? {
        ConformsFirstFails(r, Concat(Ok([StartArray]), body), Ok([EndArray]), x, Output(), hasStream);
        return;
      }
      ghost var z := Output();
      var r3 := WriteEndArray();
      ConformsThen(r, Concat(Ok([StartArray]), body), r3, Ok([EndArray]), x, z, Output(), hasStream);
      r := r3;
    }

    /** The loop of WriteArrayToStream. */
    method WriteElements(items: seq<Value>, ordered: bool) returns (r: Outcome<Error>)
      requires Valid() && forall i | 0 <= i < |items| :: WellFormed(items[i])
      modifies this`pos, this`sinkOut, buffer, scratch, this`rentedTemp
      ensures Valid() && rentedTemp == old(rentedTemp)
      ensures Conforms(r, Join(RenderItems(items, ordered)), old(Output()), Output(), hasStream)
      decreases items, 1
    {
      ghost var parts := RenderItems(items, ordered);
      r := Pass;
      var i := 0;
      while i < |items|
        invariant Valid() && rentedTemp == old(rentedTemp) && i <= |items| && r.Pass?
        invariant Join(parts[..i]).Ok?
        invariant Output() == old(Output()) + Join(parts[..i]).value
      {
        ghost var joined := Join(parts[..i]).value;
        r := WriteElement(i, items[i], ordered);
        if r.Fail? {
          if !(r.error == StreamClosed && !hasStream) {
            JoinFails(parts, i);
          }
          return;
        }
        var next := i + 1;
        JoinAdvance(parts, i, next);
        SeqAssoc(old(Output()), joined, Separator(i) + parts[i].value);
        i := next;
      }
      assert parts[..i] == parts;
    }

    /** One round of WriteArrayToStream: a comma unless it is the first element, then the element. */
    method WriteElement(i: nat, item: Value, ordered: bool) returns (r: Outcome<Error>)
      requires Valid() && WellFormed(item)
      modifies this`pos, this`sinkOut, buffer, scratch, this`rentedTemp
      ensures Valid() && rentedTemp == old(rentedTemp)
      ensures Conforms(r, Prefixed(Separator(i), Render(item, ordered)), old(Output()), Output(), hasStream)
      decreases item, 2
    {
      ghost var x := Output();
      ghost var itemSpec := Render(item, ordered);
      PrefixedConcat(Separator(i), itemSpec, itemSpec);
      r := Pass;
      if i != 0 {
        r := WriteComma();
        if r.Fail? {
          ConformsFirstFails(r, Ok(Separator(i)), itemSpec, x, Output(), hasStream);
          return;
        }
      } else {
        ConformsNothing(x, hasStream);
      }
      ghost var y := Output();
      var written := WriteValue(item, ordered);
      ConformsThen(r, Ok(Separator(i)), written, itemSpec, x, y, Output(), hasStream);
      r := written;
    }

    /** WriteObject: `null` for a missing object, else its properties in physical order. */
    method WriteObject(obj: Option<JsonObject>) returns (r: Outcome<Error>)
      requires Valid() && (obj.Some? ==> WellFormedObject(obj.value))
      modifies this`pos, this`sinkOut, buffer, scratch, this`rentedTemp
      ensures Valid() && rentedTemp == old(rentedTemp)
      ensures Conforms(r, if obj.None? then Ok(NullText) else RenderObject(obj.value, false), old(Output()), Output(), hasStream)
      decreases if obj.Some? then obj.value else JsonObject([], []), 3
    {
      if obj.None? {
        r := WriteNull();
        return;
      }
      var o := obj.value;
      r := WriteProperties(o.props, PhysicalOrder(|o.props|), false);
    }

    /** WriteObjectOrdered: the properties in insertion order, passing the ordering down. */
    method WriteObjectOrdered(o: JsonObject) returns (r: Outcome<Error>)
      requires Valid() && WellFormedObject(o)
      modifies this`pos, this`sinkOut, buffer, scratch, this`rentedTemp
      ensures Valid() && rentedTemp == old(rentedTemp)
      ensures Conforms(r, RenderObject(o, true), old(Output()), Output(), hasStream)
      decreases o, 3
    {
      r := WriteProperties(o.props, o.insertionOrder, true);
    }

    /** The body the two object writers share: '{', name:value pairs separated by commas, '}'. */
    method WriteProperties(props: seq<Prop>, order: seq<nat>, ordered: bool) returns (r: Outcome<Error>)
      requires Valid()
      requires forall i | 0 <= i < |order| :: order[i] < |props|
      requires forall i | 0 <= i < |props| :: WellFormedProp(props[i])
      modifies this`pos, this`sinkOut, buffer, scratch, this`rentedTemp
      ensures Valid() && rentedTemp == old(rentedTemp)
      ensures Conforms(r, Bracketed(StartObject, Join(RenderProps(props, order, ordered)), EndObject), old(Output()), Output(), hasStream)
      decreases props, 2
    {
      ghost var body := Join(RenderProps(props, order, ordered));
      ghost var x := Output();
      BracketedConcat(StartObject, body, EndObject);
      r := WriteStartObject();
      if r.Fail? {
        ConformsFirstFails(r, Ok([StartObject]), body, x, Output(), hasStream);
        ConformsFirstFails(r, Concat(Ok([StartObject]), body), Ok([EndObject]), x, Output(), hasStream);
        return;
      }
      ghost var y := Output();
      var r2 := WritePropertyList(props, order, ordered);
      ConformsThen(r, Ok([StartObject]), r2, body, x, y, Output(), hasStream);
      r := r2;
      if r.Fail? {
        ConformsFirstFails(r, Concat(Ok([StartObject]), body), Ok([EndObject]), x, Output(), hasStream);
        return;
      }
      ghost var z := Output();
      var r3 := WriteEndObject();
      ConformsThen(r, Concat(Ok([StartObject]), body), r3, Ok([EndObject]), x, z, Output(), hasStream);
      r := r3;
    }

    /** The property loop of the object writers. */
    method WritePropertyList(props: seq<Prop>, order: seq<nat>, ordered: bool) returns (r: Outcome<Error>)
      requires Valid()
      requires forall i | 0 <= i < |order| :: order[i] < |props|
      requires forall i | 0 <= i < |props| :: WellFormedProp(props[i])
      modifies this`pos, this`sinkOut, buffer, scratch, this`rentedTemp
      ensures Valid() && rentedTemp == old(rentedTemp)
      ensures Conforms(r, Join(RenderProps(props, order, ordered)), old(Output()), Output(), hasStream)
      decreases props, 1
    {
      ghost var parts := RenderProps(props, order, ordered);
      r := Pass;
      var i := 0;
      while i < |order|
        invariant Valid() && rentedTemp == old(rentedTemp) && i <= |order| && r.Pass?
        invariant Join(parts[..i]).Ok?
        invariant Output() == old(Output()) + Join(parts[..i]).value
      {
        ghost var joined := Join(parts[..i]).value;
        r := WriteProperty(i, props[order[i]], ordered);
        if r.Fail? {
          if !(r.error == StreamClosed && !hasStream) {
            JoinFails(parts, i);
          }
          return;
        }
        var next := i + 1;
        JoinAdvance(parts, i, next);
        SeqAssoc(old(Output()), joined, Separator(i) + parts[i].value);
        i := next;
      }
      assert parts[..i] == parts;
    }

    /** One round of the object loop: a comma unless it is the first property, the name, the value. */
    method WriteProperty(i: nat, prop: Prop, ordered: bool) returns (r: Outcome<Error>)
      requires Valid() && WellFormedProp(prop)
      modifies this`pos, this`sinkOut, buffer, scratch, this`rentedTemp
      ensures Valid() && rentedTemp == old(rentedTemp)
      ensures Conforms(r, Prefixed(Separator(i), RenderProp(prop, ordered)), old(Output()), Output(), hasStream)
      decreases prop, 0
    {
      ghost var x := Output();
      ghost var nameSpec := Suffixed(RenderLazy(prop.name), [Colon]);
      ghost var valueSpec := Render(prop.value, ordered);
      PrefixedConcat(Separator(i), nameSpec, valueSpec);
      r := Pass;
      if i != 0 {
        r := WriteComma();
        if r.Fail? {
          ConformsFirstFails(r, Ok(Separator(i)), nameSpec, x, Output(), hasStream);
          ConformsFirstFails(r, Concat(Ok(Separator(i)), nameSpec), valueSpec, x, Output(), hasStream);
          return;
        }
      } else {
        ConformsNothing(x, hasStream);
      }
      ghost var y := Output();
      var named := WritePropertyName(Some(prop.name));
      ConformsThen(r, Ok(Separator(i)), named, nameSpec, x, y, Output(), hasStream);
      r := named;
      if r.Fail? {
        ConformsFirstFails(r, Concat(Ok(Separator(i)), nameSpec), valueSpec, x, Output(), hasStream);
        return;
      }
      ghost var z := Output();
      var valued := WriteValue(prop.value, ordered);
      ConformsThen(r, Concat(Ok(Separator(i)), nameSpec), valued, valueSpec, x, z, Output(), hasStream);
      r := valued;
    }

    // -------------------------------------------------------------------
    // Raw chunks and disposal
    // -------------------------------------------------------------------

    /** WriteMemoryChunk: flush, then copy `src` in chunks of at most Cap bytes, flushing each. */
    method WriteMemoryChunk(src: seq<byte>) returns (r: Outcome<Error>)
      requires Valid()
      modifies this`pos, this`sinkOut, buffer
      ensures Valid()
      ensures r == (if hasStream then Pass else Fail(StreamClosed))
      ensures r.Pass? ==> Output() == old(Output()) + src && pos == 0 && sinkOut == Output()
      ensures r.Fail? ==> pos == old(pos) && sinkOut == old(sinkOut)
    {
      r := Flush();
      if r.Fail? {
        return;
      }
      var leftToWrite := |src|;
      var totalWritten := 0;
      while leftToWrite > 0
        invariant Valid() && pos == 0 && r.Pass? && 0 <= leftToWrite && totalWritten + leftToWrite == |src|
        invariant sinkOut == old(Output()) + src[..totalWritten]
      {
        var toWrite := if Cap < leftToWrite then Cap else leftToWrite;
        MemoryCopy(0, src[totalWritten..totalWritten + toWrite]);
        pos := pos + toWrite;
        assert buffer[..pos] == src[totalWritten..totalWritten + toWrite];
        assert src[..totalWritten + toWrite] == src[..totalWritten] + src[totalWritten..totalWritten + toWrite];
        totalWritten := totalWritten + toWrite;
        leftToWrite := leftToWrite - toWrite;
        r := Flush();
      }
      assert src[..totalWritten] == src;
    }

    /**
     * Dispose: flush, ignoring a missing stream, and hand the pinned buffer
     * and the scratch memory back to the context, on every call.
     */
    method Dispose()
      requires Valid()
      modifies this`pos, this`sinkOut, this`returned
      ensures Valid() && Output() == old(Output())
      ensures hasStream ==> pos == 0 && sinkOut == old(Output())
      ensures !hasStream ==> pos == old(pos) && sinkOut == old(sinkOut)
      ensures returned == old(returned) + 1
    {
      var flushed := Flush();
      returned := returned + 1;
    }
  }
}
