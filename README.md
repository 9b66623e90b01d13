# RavenDB JSON text writer, query hash and dynamic document lookup in Dafny

This project models three parts of RavenDB and proves properties of them.

**BlittableJsonTextWriter** streams stored ("blittable") values as JSON text. It writes through a pinned buffer of fixed capacity (`Cap`), which it flushes to the output stream when a write would not fit. The model is a class over an `array<byte>` buffer with a position `pos`. A ghost sequence records what has reached the stream.

Every write method is proved against a pure rendering function from `JsonRender`. The property is called `Conforms`, and it says:
- on success, everything emitted so far (stream bytes, then buffered bytes) grew by exactly the rendered text;
- a failure is the exception the rendering predicts, or `StreamClosed` from a flush on a writer without a stream;
- with a stream, the write succeeds exactly when the rendering does.

The renderings are tied to independent reference definitions:
- a stored string expands its escapes from the trailer's skip list. With a skip list that marks every byte of the escape table, this is the per-byte JSON escaping (`Escaped`), which a JSON reader reverses (`Unescape`);
- integer text is read back by a decimal parser;
- arrays and objects use the comma and bracket discipline of `Join`;
- insertion order only re-indexes physical order.

**QueryHashCalculator** appends the little-endian bytes of query fields to a write buffer and hashes that buffer. It is a class whose `buffer: seq<byte>` each `Write` extends by exactly the bytes of an encoding function. The hash function itself is a parameter. The lemmas prove:
- the encodings of longs, ints and strings are injective (round trips);
- a nullable bool encodes all three states differently;
- nested enumerables flatten;
- a false bool parameter and a null one add the same bytes, as do a list of two strings and their concatenation.

**DynamicBlittableJson** answers member lookups by name for index map functions. `Resolve` is the specification, stated case by case, and the imperative `TryGetByName` is proved equal to it. `FastCompare`, a length and prefix pre-check, is proved to be ordinal string equality. The names of RavenDB's `Constants` class are a parameter (`FieldNames`) because their definition is not part of this model.

Files:
- `wrappers.dfy`: Option, Result and Outcome.
- `dotnet.dfy`: .NET integer and string types.
- `blittable.dfy`: the stored value format, skip trailers and well-formedness.
- `emission.dfy`: buffer capacity, errors, output composition and `Conforms`.
- `escape_codec.dfy`: the escape table, expansion, and escaping and unescaping.
- `decimal.dfy`: integer text and its parser.
- `json_render.dfy`: the renderings.
- `text_writer.dfy`: the writer class.
- `query_hash.dfy`: the query hash calculator.
- `dynamic_blittable.dfy`: the dynamic lookup.

## Model

| member | source | states |
|---|---|---|
| `Blittable.VarIntRoundTrip` | src/Sparrow/Json/BlittableJsonTextWriter.cs:208-209 | reading an encoded variable-size integer gives back its value and the position just after it, whatever follows |
| `Blittable.ReadSkipsRoundTrip` | src/Sparrow/Json/BlittableJsonTextWriter.cs:244-247 | reading `n` skip distances one after another gives back the encoded list |
| `Blittable.StoredStringWellFormed` | src/Sparrow/Json/BlittableJsonTextWriter.cs:204-209 | a payload stored with the trailer of a skip list that fits it is a well-formed lazy string: the first `size` bytes are the payload and the trailer reads back as that skip list |
| `Blittable.TrailerRoundTrip` | src/Sparrow/Json/BlittableJsonTextWriter.cs:205-209 | a payload followed by its trailer (escape count, then distances) yields exactly those distances, whatever they are |
| `Blittable.ReadSkipsFirst` | src/Sparrow/Json/BlittableJsonTextWriter.cs:246-247 | one round of the escape loop reads the first distance and leaves the rest of the list to read |
| `Emission.JoinErrSticks` | src/Sparrow/Json/BlittableJsonTextWriter.cs:121-138 | once an element raises, the list's output is that exception, whatever follows |
| `Emission.JoinAdvance` | src/Sparrow/Json/BlittableJsonTextWriter.cs:125-136 | writing element `i` appends a comma (except before the first) and the element's text to the joined output |
| `Emission.JoinFails` | src/Sparrow/Json/BlittableJsonTextWriter.cs:125-136 | the first element that raises decides the output of the whole list |
| `Emission.JoinOk` | src/Sparrow/Json/BlittableJsonTextWriter.cs:121-138 | when every element renders, so does the list: no element can make it fail once all have rendered |
| `EscapeCodec.GetEscapeCharacter` | src/Sparrow/Json/BlittableJsonTextWriter.cs:293-305 | succeeds exactly for the eight escapable bytes of the static table, never yields 255, and otherwise raises the invalid-escape exception naming the byte |
| `EscapeCodec.EscapeCharacterInverse` | src/Sparrow/Json/BlittableJsonTextWriter.cs:41-55 | a JSON reader maps every emitted escape character back to the byte it escapes |
| `EscapeCodec.ExpandLength` | src/Sparrow/Json/BlittableJsonTextWriter.cs:235-261 | an expansion that succeeds is one byte longer per escape than the payload |
| `EscapeCodec.ExpandPaths` | src/Sparrow/Json/BlittableJsonTextWriter.cs:263-291 | the large path emits the fast path's text or raises ValueTooBig, and emits exactly the same text when no run reaches Cap |
| `EscapeCodec.ExpandCanonical` | src/Sparrow/Json/BlittableJsonTextWriter.cs:244-260 | expanding a payload by the skip list that marks every escapable byte yields its per-byte JSON escaping |
| `EscapeCodec.UnescapeEscaped` | src/Sparrow/Json/BlittableJsonTextWriter.cs:47-54 | unescaping the escaped text gives back the payload |
| `Decimal.ParseIntegerText` | src/Sparrow/Json/BlittableJsonTextWriter.cs:539-592 | the text written for an integer parses back to that integer |
| `Decimal.IntegerTextCanonical` | src/Sparrow/Json/BlittableJsonTextWriter.cs:541-546 | integer text is never empty, starts with '0' only for zero and with '-' only for negatives, and has no leading zero after the sign |
| `Decimal.IntegerTextLength` | src/Sparrow/Json/BlittableJsonTextWriter.cs:548-580 | a long has at most 19 digits and at most 20 bytes of text, so the 32 bytes of scratch memory suffice |
| `JsonRender.RenderLazyEscapes` | src/Sparrow/Json/BlittableJsonTextWriter.cs:197-233 | a string stored with a trailer marking every escapable byte renders as its JSON escaping between quotes, on either path, when no run reaches Cap |
| `JsonRender.RenderLazyShape` | src/Sparrow/Json/BlittableJsonTextWriter.cs:197-233 | a rendered string is quoted and is the payload plus one byte per escape plus two; it fails only with ValueTooBig or an invalid escape |
| `JsonRender.LazyPathsAgree` | src/Sparrow/Json/BlittableJsonTextWriter.cs:212-291 | for a string with no run of Cap bytes, the fast path and the large path emit the same text |
| `JsonRender.CompressedPathsAgree` | src/Sparrow/Json/BlittableJsonTextWriter.cs:308-384 | the same for compressed strings, over their decompressed bytes |
| `JsonRender.RenderLazyTooBig` | src/Sparrow/Json/BlittableJsonTextWriter.cs:212-233 | with the corrected threshold, a string raises ValueTooBig only when one of its runs has Cap bytes or more |
| `JsonRender.LazyThresholdOffByOne` | src/Sparrow/Json/BlittableJsonTextWriter.cs:212-219 | as written, a string of Cap - 2 plain bytes goes to the fast path and raises ValueTooBig; the corrected rendering writes it |
| `JsonRender.ThresholdsDiffer` | src/Sparrow/Json/BlittableJsonTextWriter.cs:321-322 | the lazy and compressed thresholds disagree only at one boundary size, and below the corrected one both fast-path reservations are under Cap |
| `JsonRender.RenderNumberSentinels` | src/Sparrow/Json/BlittableJsonTextWriter.cs:594-617 | NaN is checked first, then +Infinity, then -Infinity, each written as its own literal (the three differ); otherwise the stored text is copied, raising ValueTooBig exactly when it has Cap bytes or more |
| `JsonRender.OrderedIsReindexed` | src/Sparrow/Json/BlittableJsonTextWriter.cs:75-94 | in insertion order, element `i` of the properties is physical property `insertionOrder[i]` |
| `JsonRender.JoinAllOk` | src/Sparrow/Json/BlittableJsonTextWriter.cs:121-138 | the elements are written in order, with a comma before each one except the first |
| `JsonRender.JoinFirstError` | src/Sparrow/Json/BlittableJsonTextWriter.cs:121-138 | when the elements before `i` render and element `i` raises, the list raises the same |
| `TextWriter.BlittableJsonTextWriter.constructor` | src/Sparrow/Json/BlittableJsonTextWriter.cs:57-66 | a fresh buffer of Cap bytes and 32 bytes of scratch memory, nothing emitted |
| `TextWriter.BlittableJsonTextWriter.Flush` | src/Sparrow/Json/BlittableJsonTextWriter.cs:463-471 | without a stream it raises StreamClosed and changes nothing; otherwise the buffered bytes move to the stream and the buffer is empty |
| `TextWriter.BlittableJsonTextWriter.EnsureBuffer` | src/Sparrow/Json/BlittableJsonTextWriter.cs:452-461 | a request of Cap bytes or more raises ValueTooBig; otherwise it flushes only when the request does not fit; afterwards the request fits |
| `TextWriter.BlittableJsonTextWriter.UnlikelyWriteLargeRawString` | src/Sparrow/Json/BlittableJsonTextWriter.cs:410-422 | every byte of the string reaches the output in order, flushing as needed, and the output grows by exactly those bytes; an empty string writes and flushes nothing |
| `TextWriter.BlittableJsonTextWriter.WriteRawString` | src/Sparrow/Json/BlittableJsonTextWriter.cs:396-408 | output grows by exactly the bytes, without a flush when they fit after the buffered ones |
| `TextWriter.BlittableJsonTextWriter.WriteNull` | src/Sparrow/Json/BlittableJsonTextWriter.cs:485-492 | output grows by `null` |
| `TextWriter.BlittableJsonTextWriter.WriteBool` | src/Sparrow/Json/BlittableJsonTextWriter.cs:495-503 | output grows by `true` or `false` |
| `TextWriter.BlittableJsonTextWriter.WriteBufferFor` | src/Sparrow/Json/BlittableJsonTextWriter.cs:619-626 | output grows by the literal; a literal of Cap bytes or more raises ValueTooBig |
| `TextWriter.BlittableJsonTextWriter.WriteComma` | src/Sparrow/Json/BlittableJsonTextWriter.cs:506-511 | output grows by `,` |
| `TextWriter.BlittableJsonTextWriter.WriteStartObject` | src/Sparrow/Json/BlittableJsonTextWriter.cs:425-429 | output grows by `{` |
| `TextWriter.BlittableJsonTextWriter.WriteEndArray` | src/Sparrow/Json/BlittableJsonTextWriter.cs:432-436 | output grows by `]` |
| `TextWriter.BlittableJsonTextWriter.WriteStartArray` | src/Sparrow/Json/BlittableJsonTextWriter.cs:439-443 | output grows by `[` |
| `TextWriter.BlittableJsonTextWriter.WriteEndObject` | src/Sparrow/Json/BlittableJsonTextWriter.cs:446-450 | output grows by `}` |
| `TextWriter.BlittableJsonTextWriter.WriteNewLine` | src/Sparrow/Json/BlittableJsonTextWriter.cs:672-677 | output grows by CR LF |
| `TextWriter.BlittableJsonTextWriter.WriteRawStringWhichMustBeWithoutEscapeChars` | src/Sparrow/Json/BlittableJsonTextWriter.cs:387-393 | output grows by the bytes between quotes; Cap - 2 bytes or more raises ValueTooBig |
| `TextWriter.BlittableJsonTextWriter.WriteInteger` | src/Sparrow/Json/BlittableJsonTextWriter.cs:539-592 | output grows by the integer's decimal text, long.MinValue included |
| `TextWriter.BlittableJsonTextWriter.FormatReversed` | src/Sparrow/Json/BlittableJsonTextWriter.cs:548-580 | the scratch memory holds the integer's text in reverse, within 32 bytes |
| `TextWriter.BlittableJsonTextWriter.FormatDigits` | src/Sparrow/Json/BlittableJsonTextWriter.cs:565-577 | the do-while loop leaves the digits least significant first, with long.MinValue's last digit one more than long.MaxValue's |
| `TextWriter.BlittableJsonTextWriter.LongMinDigit` | src/Sparrow/Json/BlittableJsonTextWriter.cs:556-572 | long.MinValue's digits are long.MaxValue's with one added to the last digit, with no carry |
| `TextWriter.BlittableJsonTextWriter.DigitStep` | src/Sparrow/Json/BlittableJsonTextWriter.cs:565-576 | taking off the last digit and appending it to the reversed digits keeps the digit string |
| `TextWriter.BlittableJsonTextWriter.CopyReversed` | src/Sparrow/Json/BlittableJsonTextWriter.cs:582-591 | output grows by the scratch bytes, last first |
| `TextWriter.BlittableJsonTextWriter.EscapeRuns` | src/Sparrow/Json/BlittableJsonTextWriter.cs:244-260 | with room reserved, output grows by the string's expansion without flushing, or raises its invalid escape |
| `TextWriter.BlittableJsonTextWriter.NextSkip` | src/Sparrow/Json/BlittableJsonTextWriter.cs:246-247 | the distance read is the first of the remaining skip list, and the position it returns is where the rest of that list is read |
| `TextWriter.BlittableJsonTextWriter.EscapeRound` | src/Sparrow/Json/BlittableJsonTextWriter.cs:246-256 | one loop round stays inside the payload, consumes one skip distance, and writes exactly that run followed by its escape, with room left for the remaining rounds |
| `TextWriter.BlittableJsonTextWriter.FastEscapedRun` | src/Sparrow/Json/BlittableJsonTextWriter.cs:247-256 | one round: the run verbatim, then a backslash and the escape character |
| `TextWriter.BlittableJsonTextWriter.UnlikelyWriteEscapeSequences` | src/Sparrow/Json/BlittableJsonTextWriter.cs:235-261 | reserves the worst case, then output grows by the fast-path expansion |
| `TextWriter.BlittableJsonTextWriter.LargeEscapeRuns` | src/Sparrow/Json/BlittableJsonTextWriter.cs:270-287 | output grows by the large-path expansion; a run of Cap bytes or more raises ValueTooBig |
| `TextWriter.BlittableJsonTextWriter.LargeEscapedRun` | src/Sparrow/Json/BlittableJsonTextWriter.cs:272-284 | one large round: reserve and copy the run, reserve two bytes, then the backslash and the escape character |
| `TextWriter.BlittableJsonTextWriter.UnlikelyWriteLargeString` | src/Sparrow/Json/BlittableJsonTextWriter.cs:263-291 | output grows by the quoted large-path expansion |
| `TextWriter.BlittableJsonTextWriter.WriteString` | src/Sparrow/Json/BlittableJsonTextWriter.cs:197-233 | `null` for a missing string, otherwise output grows by the string's rendering (corrected threshold) |
| `TextWriter.BlittableJsonTextWriter.WriteQuotedFast` | src/Sparrow/Json/BlittableJsonTextWriter.cs:219-232 | below the threshold: the quoted fast-path expansion |
| `TextWriter.BlittableJsonTextWriter.UnlikelyWriteCompressedString` | src/Sparrow/Json/BlittableJsonTextWriter.cs:360-384 | output grows by the quoted large-path expansion of the decompressed bytes |
| `TextWriter.BlittableJsonTextWriter.WriteDecompressed` | src/Sparrow/Json/BlittableJsonTextWriter.cs:314-351 | output grows by the rendering of the compressed string, through the fast or the large path by its threshold |
| `TextWriter.BlittableJsonTextWriter.WriteCompressedString` | src/Sparrow/Json/BlittableJsonTextWriter.cs:308-358 | the temporary buffer goes back on every exit, and output grows by the compressed string's rendering |
| `TextWriter.BlittableJsonTextWriter.WritePropertyName` | src/Sparrow/Json/BlittableJsonTextWriter.cs:514-519 | output grows by the name's string text and a colon |
| `TextWriter.BlittableJsonTextWriter.WriteDouble` | src/Sparrow/Json/BlittableJsonTextWriter.cs:594-617 | output grows by the number's rendering: a sentinel literal or the stored text |
| `TextWriter.BlittableJsonTextWriter.WriteValue` | src/Sparrow/Json/BlittableJsonTextWriter.cs:140-176 | output grows by the value's rendering; an unknown token raises |
| `TextWriter.BlittableJsonTextWriter.WriteArrayToStream` | src/Sparrow/Json/BlittableJsonTextWriter.cs:121-138 | output grows by `[`, the elements joined by commas, `]` |
| `TextWriter.BlittableJsonTextWriter.WriteElements` | src/Sparrow/Json/BlittableJsonTextWriter.cs:125-136 | the array loop: output grows by the joined element texts |
| `TextWriter.BlittableJsonTextWriter.WriteElement` | src/Sparrow/Json/BlittableJsonTextWriter.cs:129-134 | a comma unless it is the first element, then the element |
| `TextWriter.BlittableJsonTextWriter.WriteObject` | src/Sparrow/Json/BlittableJsonTextWriter.cs:96-118 | `null` for a missing object, otherwise its properties in physical order |
| `TextWriter.BlittableJsonTextWriter.WriteObjectOrdered` | src/Sparrow/Json/BlittableJsonTextWriter.cs:75-94 | the properties in insertion order, with nested objects ordered too |
| `TextWriter.BlittableJsonTextWriter.WriteProperties` | src/Sparrow/Json/BlittableJsonTextWriter.cs:103-117 | output grows by `{`, the properties joined by commas, `}` |
| `TextWriter.BlittableJsonTextWriter.WritePropertyList` | src/Sparrow/Json/BlittableJsonTextWriter.cs:105-115 | the property loop: output grows by the joined property texts |
| `TextWriter.BlittableJsonTextWriter.WriteProperty` | src/Sparrow/Json/BlittableJsonTextWriter.cs:107-114 | a comma unless it is the first property, then the name, a colon and the value |
| `TextWriter.BlittableJsonTextWriter.WriteMemoryChunk` | src/Sparrow/Json/BlittableJsonTextWriter.cs:693-708 | without a stream it raises and changes nothing; otherwise every byte reaches the stream and the buffer ends empty |
| `TextWriter.BlittableJsonTextWriter.Dispose` | src/Sparrow/Json/BlittableJsonTextWriter.cs:655-670 | flushes when there is a stream, swallows the missing-stream exception, and always returns the buffers |
| `QueryHash.LittleEndianRoundTrip` | src/Raven.Client/Documents/Queries/QueryHashCalculator.cs:30-33 | the bytes of a value as memory holds them read back as the value |
| `QueryHash.LongBytesRoundTrip` | src/Raven.Client/Documents/Queries/QueryHashCalculator.cs:30-33 | a long contributes exactly 8 bytes, which read back (two's complement) as the long |
| `QueryHash.IntBytesRoundTrip` | src/Raven.Client/Documents/Queries/QueryHashCalculator.cs:57-60 | an int contributes exactly 4 bytes, which read back as the int |
| `QueryHash.LongBytesInjective` | src/Raven.Client/Documents/Queries/QueryHashCalculator.cs:30-33 | two longs contribute the same bytes exactly when they are equal |
| `QueryHash.StringBytes` | src/Raven.Client/Documents/Queries/QueryHashCalculator.cs:74-80 | a string contributes 2 bytes per UTF-16 code unit |
| `QueryHash.StringBytesRoundTrip` | src/Raven.Client/Documents/Queries/QueryHashCalculator.cs:78-79 | a string's bytes decode back to its code units |
| `QueryHash.StringBytesConcat` | src/Raven.Client/Documents/Queries/QueryHashCalculator.cs:78-79 | the bytes of a concatenation are the concatenated bytes |
| `QueryHash.BoolEncodings` | src/Raven.Client/Documents/Queries/QueryHashCalculator.cs:62-72 | the nullable bool encoding tells true, false and null apart; the plain one writes nothing for false |
| `QueryHash.ParamsBytesConcat` | src/Raven.Client/Documents/Queries/QueryHashCalculator.cs:154-159 | values written one after another contribute their bytes in order |
| `QueryHash.ParamBytesLeaves` | src/Raven.Client/Documents/Queries/QueryHashCalculator.cs:132-164 | a parameter value contributes the bytes of its non-enumerable values in enumeration order |
| `QueryHash.ItemsBytesLeaves` | src/Raven.Client/Documents/Queries/QueryHashCalculator.cs:154-159 | the same for each element of an enumerable |
| `QueryHash.ParamListFlattens` | src/Raven.Client/Documents/Queries/QueryHashCalculator.cs:154-159 | nesting an enumerable adds no bytes, and a concatenated enumerable contributes the two parts' bytes |
| `QueryHash.SingleParameter` | src/Raven.Client/Documents/Queries/QueryHashCalculator.cs:121-130 | one parameter contributes its key's bytes, then its value's |
| `QueryHash.FalseParameterIsNull` | src/Raven.Client/Documents/Queries/QueryHashCalculator.cs:146-153 | a false bool parameter and a null one contribute the same bytes, so every hash agrees on them |
| `QueryHash.ListParameterIsJoinedString` | src/Raven.Client/Documents/Queries/QueryHashCalculator.cs:134-159 | a list of two strings contributes the same bytes as their concatenation |
| `QueryHash.QueryHashCalculator.constructor` | src/Raven.Client/Documents/Queries/QueryHashCalculator.cs:13-16 | the buffer starts empty |
| `QueryHash.QueryHashCalculator.GetHash` | src/Raven.Client/Documents/Queries/QueryHashCalculator.cs:18-23 | the hash is the hash function applied to the bytes written, and nothing else |
| `QueryHash.QueryHashCalculator.WriteLong` | src/Raven.Client/Documents/Queries/QueryHashCalculator.cs:30-33 | appends the long's 8 bytes |
| `QueryHash.QueryHashCalculator.WriteNullableLong` | src/Raven.Client/Documents/Queries/QueryHashCalculator.cs:35-40 | nothing for null, else the long's bytes |
| `QueryHash.QueryHashCalculator.WriteNullableInt` | src/Raven.Client/Documents/Queries/QueryHashCalculator.cs:49-54 | nothing for null, else the int's bytes |
| `QueryHash.QueryHashCalculator.WriteInt` | src/Raven.Client/Documents/Queries/QueryHashCalculator.cs:57-60 | appends the int's 4 bytes |
| `QueryHash.QueryHashCalculator.WriteBool` | src/Raven.Client/Documents/Queries/QueryHashCalculator.cs:62-66 | appends 1 for true and nothing for false |
| `QueryHash.QueryHashCalculator.WriteNullableBool` | src/Raven.Client/Documents/Queries/QueryHashCalculator.cs:68-72 | appends 1 for true, 2 for false, nothing for null |
| `QueryHash.QueryHashCalculator.WriteString` | src/Raven.Client/Documents/Queries/QueryHashCalculator.cs:74-80 | nothing for null, else the string's bytes |
| `QueryHash.QueryHashCalculator.WriteStrings` | src/Raven.Client/Documents/Queries/QueryHashCalculator.cs:82-100 | nothing for a null array or list, else each element's bytes in index order |
| `QueryHash.QueryHashCalculator.WriteParameters` | src/Raven.Client/Documents/Queries/QueryHashCalculator.cs:121-130 | nothing for null, else each entry's key and value bytes in enumeration order |
| `QueryHash.QueryHashCalculator.WriteParameter` | src/Raven.Client/Documents/Queries/QueryHashCalculator.cs:127-128 | one entry: the key's bytes, then the value's |
| `QueryHash.QueryHashCalculator.WriteParameterValue` | src/Raven.Client/Documents/Queries/QueryHashCalculator.cs:132-164 | appends the value's bytes: by kind in the source's order, enumerables element by element |
| `QueryHash.QueryHashCalculator.WriteDictionary` | src/Raven.Client/Documents/Queries/QueryHashCalculator.cs:167-176 | nothing for null, else each key's bytes, then its value's (nothing for a null value) |
| `QueryHash.QueryHashCalculator.Dispose` | src/Raven.Client/Documents/Queries/QueryHashCalculator.cs:102-105 | the buffer is released |
| `DynamicBlittable.OrdinalCompareZero` | src/Raven.Server/Documents/Indexes/Static/DynamicBlittableJson.cs:107 | ordinal comparison is 0 exactly for equal strings and is antisymmetric |
| `DynamicBlittable.MakeCompareKey` | src/Raven.Server/Documents/Indexes/Static/DynamicBlittableJson.cs:86-92 | a table entry records its name, length, and the character at its prefix group, which lies inside the name |
| `DynamicBlittable.Table` | src/Raven.Server/Documents/Indexes/Static/DynamicBlittableJson.cs:24-36 | seven entries in the order of the index constants, each prefix group inside its name |
| `DynamicBlittable.FastCompare` | src/Raven.Server/Documents/Indexes/Static/DynamicBlittableJson.cs:97-108 | true exactly when the name equals the entry's name; the pre-checks only reject and index inside both strings |
| `DynamicBlittable.ToDynamicType` | src/Raven.Server/Documents/Indexes/Static/DynamicBlittableJson.cs:162 | exactly objects become a dynamic wrapper, which has no document |
| `DynamicBlittable.ResolveAlwaysFound` | src/Raven.Server/Documents/Indexes/Static/DynamicBlittableJson.cs:110-170 | every lookup reports found; the only exception is the invalid cast |
| `DynamicBlittable.ResolveFailsOnlyOnMetadata` | src/Raven.Server/Documents/Indexes/Static/DynamicBlittableJson.cs:162-168 | a lookup raises exactly when the metadata member holds a non-object value |
| `DynamicBlittable.IdNames` | src/Raven.Server/Documents/Indexes/Static/DynamicBlittableJson.cs:113-127 | an id name gives the stored member as it is, else Null without a document, else the document key |
| `DynamicBlittable.MetadataFallbacks` | src/Raven.Server/Documents/Indexes/Static/DynamicBlittableJson.cs:129-142 | with a document and no stored member, the metadata id, etag and last-modified names give the document's key, etag and time |
| `DynamicBlittable.OtherNames` | src/Raven.Server/Documents/Indexes/Static/DynamicBlittableJson.cs:144-162 | missing gives Null (false for HasValue), stored null gives ExplicitNull (true for HasValue), a value gives its conversion |
| `DynamicBlittable.MetadataCarriesDocument` | src/Raven.Server/Documents/Indexes/Static/DynamicBlittableJson.cs:164-167 | the metadata object receives the document, so its id resolves to the document key |
| `DynamicBlittable.DynamicBlittableJson.FromDocument` | src/Raven.Server/Documents/Indexes/Static/DynamicBlittableJson.cs:46-49 | holds the document and its data |
| `DynamicBlittable.DynamicBlittableJson.FromBlittable` | src/Raven.Server/Documents/Indexes/Static/DynamicBlittableJson.cs:51-54 | holds the data and no document |
| `DynamicBlittable.DynamicBlittableJson.Set` | src/Raven.Server/Documents/Indexes/Static/DynamicBlittableJson.cs:56-60 | points at the document and its data |
| `DynamicBlittable.DynamicBlittableJson.TryGetByName` | src/Raven.Server/Documents/Indexes/Static/DynamicBlittableJson.cs:110-170 | the flag-and-fallback procedure computes exactly `Resolve` |
| `DynamicBlittable.DynamicBlittableJson.Get` | src/Raven.Server/Documents/Indexes/Static/DynamicBlittableJson.cs:172-182 | the indexer returns the lookup's result and never raises its own "could not get" exception |

## Left out

- `WriteDouble(double)`, `WriteDateTime`, `WriteString(string)` and `WritePropertyName(string)`/`(StringSegment)`: these first convert through culture-dependent formatting or the context's string caches, which are not part of this model. The writing they then do is `WriteBufferFor`, `WriteRawStringWhichMustBeWithoutEscapeChars` and `WriteString(LazyStringValue)`, which are modelled.
- `WriteStream`: it reads from another stream, which is I/O.
- `ToString` and `Position`: they only read state.
- `ManagedPinnedBuffer.Size` is not part of this model. `Cap` assumes 32 KiB, and the proofs use only that it is larger than 32.
- `ReadVariableSizeInt` is not part of this model. The trailer is modelled with 7-bit little-endian groups and a high continuation bit. Only the round trip is relied on.
- The code that builds a stored string and its trailer is not part of this model. `JsonRender.RenderLazyEscapes` and `EscapeCodec.ExpandCanonical` assume that the stored trailer marks exactly the bytes of the escape table (`CanonicalSkips`). For any other trailer that fits, the writer's output is `Expand` by that trailer, as `JsonRender.RenderLazyShape` and the writer methods state.
- Decompression (`DecompressToTempBuffer`) is not modelled. A compressed string carries its decompressed bytes. Renting and returning memory are counted in ghost fields.
- The stream is a ghost sequence of the bytes written to it. Unsafe pointers are array indices.
- `TextWriter.BlittableJsonTextWriter.WriteString`: it uses the corrected large-path threshold `2 * escapes + size + 2 >= Cap`, not the written one (see Findings). `JsonRender.RenderLazyAsWritten` models the written one.
- The writer contracts leave one case open without a stream: `Conforms` does not say which writes fail with StreamClosed, because that depends on how full the buffer is.
- `QueryHashCalculator.Write(float)` and `Write(float?)`: they copy the IEEE bit layout of a float, which is floating point.
- The `FEATURE_HIGHLIGHTING` overload: it is compiled conditionally, outside the modelled core.
- XXHash64 is a parameter of `GetHash`.
- `value.ToString()` for other parameter objects: the model carries that text as given (`POther`).
- Strings are assumed to be in memory as little-endian UTF-16, as on x86.
- The chunks of the unmanaged write buffer are not modelled; its content is a single sequence.
- `Parameters` and `Dictionary` enumeration order is the order of the given sequence.
- `DynamicBlittableJson`: `ContainsKey`, `TryGetMember`/`TryGetIndex` (binder plumbing), `Value<T>`, `GetEnumerator`, `Select`, `OrderBy` and `EnsureMetadata` fall outside the lookup.
- `TypeConverter.ToDynamicType` is modelled only as far as the lookup depends on it: objects become a wrapper without a document, and other values pass through.
- The `Constants` names are a parameter. The lemmas assume they are distinct and long enough for their prefix groups.
- A null name, for which `name.Length` raises, is not modelled. Names are non-null strings.

## Findings

| source | as written | input that shows it | evidently intended | confidence | as-written member | corrected member |
|---|---|---|---|---|---|---|
| src/Sparrow/Json/BlittableJsonTextWriter.cs:212-219 | the lazy string writer takes the fast path when `2 * escapes + size + 1 < Cap`, then reserves `size + 2` bytes | a stored string of Cap - 2 bytes with no escapes: the fast path asks EnsureBuffer for Cap bytes and raises ValueTooBig | the threshold `2 * escapes + size + 2`, the one the compressed writer uses (:321), so that such a string takes the large path and is written | high, not executed | `JsonRender.LazyThresholdOffByOne` | `JsonRender.RenderLazyTooBig` |
