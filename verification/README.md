# osu-utils core, modelled in Dafny

This project models the core of osu-utils, a command-line companion for the rhythm game osu!.
It covers five areas:

- **The legacy database reader.** A reflective, little-endian binary decoder reads the game's
  `osu!.db` file into `LocalOsu` / `LocalBeatmap` records. Its parts are:
  - the primitive reads (integers, floats, booleans, ULEB128 lengths, optional UTF-8 strings,
    int–float pairs, Windows-tick timestamps);
  - counted sequences;
  - the registry of deserializers;
  - the generic `parse` that falls back to a record's primary constructor;
  - lazily materialised fixed-width sequences (`LazySeq`);
  - the beatmap listener.
- **Score histories and analysis.**
  - `ScoreHistory`: scores grouped by analyze id, with the binary search for "scores since",
    the recent best, and `addScores`.
  - The pure `analyze` step that produces a report.
  - The analyze-record metadata with its id check.
  - The truncation step that rolls back the last analyze.
- **Mod restrictions.** A small expression language (`HD`, `HDHR`, `(HD|HR)`, `{ HD, HR }`,
  `!{ HD }`) is compiled into an `MCExpr` tree. The tree is tested against a play's difficulty
  mods and answers `Success`, `TooMany` or `TooFew`.
- **Request building for the web API.** This covers:
  - camelCase to snake_case conversion;
  - endpoint path templates (`users/{user}/scores`) and their rebuilding;
  - scalar serialisation and the URL query string.
- **Providers and helpers.**
  - The local and merging score providers.
  - The day-grouping and index lookup behind the score chart.
  - The accumulating progress indicator.
  - The memoising caches in front of the JSON stores.

Pure code is modelled as datatypes, functions and lemmas. Code that works step by step is
modelled as imperative code proved against those functions:

- the byte stream is a class `Streams.Stream` over the file's bytes with a moving cursor;
- the ULEB128 loop, the counted loops, the parse recursion and the lazy sequence are methods;
- the parse listener, the progress indicator and the caches are classes.

Every decoding method's postcondition ties its result and the new cursor to the corresponding
decoding function through `Wire.Tie`. The properties are proved about those functions. The
methods of the listener, the progress indicator, the caches and the mod-restriction context
state their new fields directly.

Integers are unbounded, so the source's 32-bit arithmetic is written out where it matters:

- the `count * size` of a `LazySeq` wraps through `Common.Wrap32`;
- the ULEB128 shift is taken modulo 2^64;
- `ticks / 10000L` truncates toward zero through `Common.DivTrunc`.

## Model

| member | source | states |
|---|---|---|
| Wire.Read | src/main/kotlin/com/github/hoshinotented/osuutils/osudb/parse.kt:234 | `read()` always succeeds. It yields a byte value or -1 at end of file, and the cursor never leaves the file. |
| Wire.LEOfEncodeLE | src/main/kotlin/com/github/hoshinotented/osuutils/osudb/parse.kt:163-171 | Reading `k` little-endian bytes gives back any number below 2^(8k) that was written as `k` little-endian bytes. |
| Wire.ReadLE | src/main/kotlin/com/github/hoshinotented/osuutils/osudb/parse.kt:41-47 | An `n`-byte little-endian read succeeds exactly when `n` bytes remain. It then advances by `n`, and the value fits in `8n` bits. |
| Wire.ReadSigned | src/main/kotlin/com/github/hoshinotented/osuutils/osudb/parse.kt:32-47 | A signed read succeeds exactly when the bytes are there. Its value is the two's-complement reading of those bytes. |
| Wire.ReadI32 | src/main/kotlin/com/github/hoshinotented/osuutils/osudb/parse.kt:181 | `readInt` succeeds exactly when 4 bytes remain. It advances by 4 and yields a 32-bit `Int`. |
| Wire.ReadNBytes | src/main/kotlin/com/github/hoshinotented/osuutils/osudb/parse.kt:215 | `readNBytes(n)` fails only for a negative `n`. Otherwise it yields the next `min(n, remaining)` bytes of the file, exactly. |
| Wire.SkipBytes | src/main/kotlin/com/github/hoshinotented/osuutils/osudb/parse.kt:204 | `skipBytes` moves forward and never past the end of the file. |
| Wire.UlebStep | src/main/kotlin/com/github/hoshinotented/osuutils/osudb/parse.kt:235-236 | One ULEB128 step keeps the accumulated value below 2^(bitsRead+7) and below 2^64. |
| Wire.UlebLoop | src/main/kotlin/com/github/hoshinotented/osuutils/osudb/parse.kt:228-237 | The do-while loop either fails with "number too large" at 70 bits, or yields a value below 2^64 after consuming at least one byte. |
| Wire.UlebLoopDecodesEncoding | src/main/kotlin/com/github/hoshinotented/osuutils/osudb/parse.kt:228-237 | From any group position, the loop decodes the remaining groups of a standard ULEB128 encoding to the full number. |
| Wire.UlebRoundTrip | src/main/kotlin/com/github/hoshinotented/osuutils/osudb/parse.kt:223-240 | `readULEB128` decodes the ULEB128 encoding of every 64-bit unsigned number. It stops exactly at the encoding's end, whatever follows. |
| Wire.UlebLoopRejectsLongRuns | src/main/kotlin/com/github/hoshinotented/osuutils/osudb/parse.kt:229-232 | Continuation bytes that run through the remaining groups make the loop fail with "number too large". |
| Wire.UlebRejectsLongRuns | src/main/kotlin/com/github/hoshinotented/osuutils/osudb/parse.kt:229-232 | Ten continuation bytes in a row, or fewer that run into the end of the file, are rejected as too large. |
| Wire.ReadString | src/main/kotlin/com/github/hoshinotented/osuutils/osudb/parse.kt:207-218 | `readString` only moves forward within the file. 0x00 gives null after one byte. Any other indicator except 0x0B, including -1 at the end of the file, fails naming it. The 0x0B branch is stated by `Wire.ReadStringPayload`. |
| Wire.ReadStringPayload | src/main/kotlin/com/github/hoshinotented/osuutils/osudb/parse.kt:211-217 | After the 0x0B indicator, a failing ULEB128 length fails `readString` the same way. A length above `Int.MAX_VALUE` is `StringTooLong`. Otherwise the result is the next `length` bytes, truncated at the end of the file, and the read stops after them. |
| Wire.SkipStringMatchesReadString | src/main/kotlin/com/github/hoshinotented/osuutils/osudb/parse.kt:196-218 | `skipString` succeeds exactly when `readString` does, ends at the same position, and fails with the same error. |
| Wire.ReadStringRoundTrip | src/main/kotlin/com/github/hoshinotented/osuutils/osudb/parse.kt:207-218 | Encoding a string as 0x0B, then its ULEB128 length, then its bytes, reads back as that string and ends right after it. |
| Wire.ReadIntFloatPair | src/main/kotlin/com/github/hoshinotented/osuutils/osudb/parse.kt:162-174 | An int–float pair reads exactly when 10 bytes with tags 0x08 at offset 0 and 0x0C at offset 5 are there. It yields the signed int and the float bits and advances by 10. A wrong first tag fails naming that byte, and so does a wrong second tag after a correct first one. |
| Wire.ReadIntFloatPairExample | src/main/kotlin/com/github/hoshinotented/osuutils/osudb/parse.kt:162-174 | `08 2A000000 0C 0000803F` reads as (42, the bits of 1.0f). |
| Wire.ReadIntFloatPairWrongTag | src/main/kotlin/com/github/hoshinotented/osuutils/osudb/parse.kt:163-164 | A first tag of 0x09 is rejected, naming 0x09. |
| Wire.ReadIntFloatPairRoundTrip | src/main/kotlin/com/github/hoshinotented/osuutils/osudb/parse.kt:162-174 | Writing any 32-bit int and float bits in the pair layout reads back the same pair. |
| Wire.FromWindowsTicks | src/main/kotlin/com/github/hoshinotented/osuutils/osudb/parse.kt:341-347 | The epoch milliseconds are the ticks divided by 10000, truncated toward zero, minus the 0001-01-01 offset 62135596800000. |
| Wire.FromWindowsTicksExamples | src/main/kotlin/com/github/hoshinotented/osuutils/osudb/parse.kt:341-347 | The Unix epoch's tick count maps to 0, tick 0 maps to minus the offset, and truncation sends -9999 ticks there too. |
| Wire.ReadManyFrom | src/main/kotlin/com/github/hoshinotented/osuutils/osudb/parse.kt:184-186 | The counted loop yields one element per remaining index, appended after those already read, or the first builder failure. |
| Wire.ReadMany | src/main/kotlin/com/github/hoshinotented/osuutils/osudb/parse.kt:180-189 | `readMany` only moves forward within the file. |
| Wire.ReadManyLength | src/main/kotlin/com/github/hoshinotented/osuutils/osudb/parse.kt:180-189 | A successful `readMany` yields as many elements as its `Int` prefix says, and none for a negative count. |
| Common.Wrap32 | src/main/kotlin/com/github/hoshinotented/osuutils/osudb/parse.kt:132 | `Int` arithmetic wraps: the result is a 32-bit value congruent to the exact one modulo 2^32, and equal to it when that value is in range. |
| Common.DivTrunc | src/main/kotlin/com/github/hoshinotented/osuutils/osudb/parse.kt:346 | `Long` division by a positive divisor truncates toward zero, for negative dividends too. |
| Streams.Stream.constructor | src/main/kotlin/com/github/hoshinotented/osuutils/osudb/parse.kt:137 | A stream over a byte buffer starts at position 0. |
| Streams.Stream.Read | src/main/kotlin/com/github/hoshinotented/osuutils/osudb/parse.kt:234 | Reads one byte, or -1 at the end, exactly as `Wire.Read` says. |
| Streams.Stream.ReadLE | src/main/kotlin/com/github/hoshinotented/osuutils/osudb/parse.kt:41-47 | Reads `n` little-endian bytes in place, as `Wire.ReadLE` says. |
| Streams.Stream.ReadSigned | src/main/kotlin/com/github/hoshinotented/osuutils/osudb/parse.kt:32-47 | A signed little-endian read in place, as `Wire.ReadSigned` says. |
| Streams.Stream.ReadByte | src/main/kotlin/com/github/hoshinotented/osuutils/osudb/parse.kt:32-34 | `readByte`, tied to its read function. |
| Streams.Stream.ReadShort | src/main/kotlin/com/github/hoshinotented/osuutils/osudb/parse.kt:36-39 | `readShort`, tied to its read function. |
| Streams.Stream.ReadInt | src/main/kotlin/com/github/hoshinotented/osuutils/osudb/parse.kt:41-43 | `readInt`, tied to `Wire.ReadI32`. |
| Streams.Stream.ReadLong | src/main/kotlin/com/github/hoshinotented/osuutils/osudb/parse.kt:45-47 | `readLong`, tied to its read function. |
| Streams.Stream.ReadFloat | src/main/kotlin/com/github/hoshinotented/osuutils/osudb/parse.kt:49-52 | `readFloat`: 4 bytes taken as float bits, tied to its read function. |
| Streams.Stream.ReadDouble | src/main/kotlin/com/github/hoshinotented/osuutils/osudb/parse.kt:54-57 | `readDouble`: 8 bytes taken as double bits, tied to its read function. |
| Streams.Stream.ReadBoolean | src/main/kotlin/com/github/hoshinotented/osuutils/osudb/parse.kt:59-62 | `readBoolean`: one byte, non-zero meaning true, tied to its read function. |
| Streams.Stream.ReadNBytes | src/main/kotlin/com/github/hoshinotented/osuutils/osudb/parse.kt:117 | `readNBytes` in place, as `Wire.ReadNBytes` says. |
| Streams.Stream.SkipBytes | src/main/kotlin/com/github/hoshinotented/osuutils/osudb/parse.kt:204 | `skipBytes` in place, returning how far it moved. |
| Streams.ReadULEB128 | src/main/kotlin/com/github/hoshinotented/osuutils/osudb/parse.kt:223-240 | The do-while loop over the stream computes `Wire.Uleb`: the same value, the same error and the same end position. |
| Streams.ReadString | src/main/kotlin/com/github/hoshinotented/osuutils/osudb/parse.kt:207-218 | `readString` on the stream computes `Wire.ReadString`. |
| Streams.SkipString | src/main/kotlin/com/github/hoshinotented/osuutils/osudb/parse.kt:196-205 | `skipString` on the stream computes its read function, which succeeds and fails together with `readString`. |
| Streams.ReadIntFloatPair | src/main/kotlin/com/github/hoshinotented/osuutils/osudb/parse.kt:162-174 | `readIntFloatPair` on the stream computes `Wire.ReadIntFloatPair`. |
| Streams.ReadDateTime | src/main/kotlin/com/github/hoshinotented/osuutils/osudb/parse.kt:191-194 | `readDateTime` reads a `Long` of ticks and converts it with `fromWindowsTicks`. |
| Registries.Deserializers.constructor | src/main/kotlin/com/github/hoshinotented/osuutils/osudb/parse.kt:31-148 | The registry starts with the fourteen built-in deserializers, from `Byte` to `LazySeq`. |
| Registries.Deserializers.Register | src/main/kotlin/com/github/hoshinotented/osuutils/osudb/parse.kt:150-153 | `register` always stores the deserializer. It reports "duplicated" exactly when the class was already registered. |
| Registries.Deserializers.Find | src/main/kotlin/com/github/hoshinotented/osuutils/osudb/parse.kt:156-159 | `find` answers exactly for the registered classes, with their deserializer. |
| Decoding.Parse | src/main/kotlin/com/github/hoshinotented/osuutils/osudb/parse.kt:247-270 | `parse` only moves forward within the file. A null result is possible only for a nullable type. |
| Decoding.ParseFields | src/main/kotlin/com/github/hoshinotented/osuutils/osudb/parse.kt:262-269 | The constructor's arguments are parsed one per parameter, appended after those already parsed. |
| Decoding.ParseMany | src/main/kotlin/com/github/hoshinotented/osuutils/osudb/parse.kt:139-141 | `count` elements are parsed in a row, one per index, or the first failure is returned. |
| Decoding.ElementType | src/main/kotlin/com/github/hoshinotented/osuutils/osudb/parse.kt:78-79 | The element type of a generic type is one of its own arguments, so it is smaller than the type. A star projection is an error. |
| Decoding.Deserialize | src/main/kotlin/com/github/hoshinotented/osuutils/osudb/parse.kt:31-147 | Every built-in deserializer only moves forward within the file. |
| Decoding.DeserializeByteArray | src/main/kotlin/com/github/hoshinotented/osuutils/osudb/parse.kt:113-119 | The `ByteArray` deserializer (length -1 means null) stays within the file. |
| Decoding.DeserializeImmutableSeq | src/main/kotlin/com/github/hoshinotented/osuutils/osudb/parse.kt:70-82 | The `ImmutableSeq` deserializer (a counted list of its element type) stays within the file. |
| Decoding.DeserializeLazySeq | src/main/kotlin/com/github/hoshinotented/osuutils/osudb/parse.kt:121-147 | The `LazySeq` deserializer stays within the file. |
| Decoding.Materialize | src/main/kotlin/com/github/hoshinotented/osuutils/osudb/parse.kt:135-144 | Materialising a lazy sequence yields `count` elements (none for a negative count), or fails. |
| Decoding.ParseRegistered | src/main/kotlin/com/github/hoshinotented/osuutils/osudb/parse.kt:252-260 | A registered class is decoded by its deserializer. A null for a non-nullable type is rejected. |
| Decoding.ParseNeedsConstructor | src/main/kotlin/com/github/hoshinotented/osuutils/osudb/parse.kt:262 | An unregistered class without a primary constructor is an error. |
| Decoding.FieldPos | src/main/kotlin/com/github/hoshinotented/osuutils/osudb/parse.kt:264-267 | Each constructor argument starts at or after the record's start and within the file. |
| Decoding.ParseRecordInOrder | src/main/kotlin/com/github/hoshinotented/osuutils/osudb/parse.kt:262-269 | A record holds one value per constructor parameter. Field k is what parsing parameter k's type yields where field k - 1 stopped, and the record ends where the last field stopped. |
| Decoding.RecordIsFields | src/main/kotlin/com/github/hoshinotented/osuutils/osudb/parse.kt:262-269 | An unregistered class decodes exactly when its argument list does, as a record of those arguments. |
| Decoding.FieldsEnd | src/main/kotlin/com/github/hoshinotented/osuutils/osudb/parse.kt:264-267 | The argument list ends where the last argument's parse stopped. |
| Decoding.FieldInOrder | src/main/kotlin/com/github/hoshinotented/osuutils/osudb/parse.kt:264-267 | Each later argument is the parse of its parameter at the position where the previous one stopped. |
| Decoding.ParseManyIsReadMany | src/main/kotlin/com/github/hoshinotented/osuutils/osudb/parse.kt:80 | The `ImmutableSeq` deserializer's loop is `readMany`'s counted loop with `parse` of the element type as its builder. |
| Decoding.ElementBuilder | src/main/kotlin/com/github/hoshinotented/osuutils/osudb/parse.kt:80 | The builder that parses one element only moves forward within the file. |
| Decoding.LazySeqNeedsSized | src/main/kotlin/com/github/hoshinotented/osuutils/osudb/parse.kt:128-130 | A `LazySeq` of a type without `@Sized` is rejected. |
| Decoding.LazySeqSlurps | src/main/kotlin/com/github/hoshinotented/osuutils/osudb/parse.kt:131-133 | A `LazySeq` reads a count, then slurps `count * size` bytes as a 32-bit `Int` product, truncated at the end of the file. A negative product fails. |
| Widths.ParseFixedWidth | src/main/kotlin/com/github/hoshinotented/osuutils/osudb/data.kt:19-29 | A type with a fixed width consumes exactly that many bytes. When they are present, only a bad int–float tag can make it fail. |
| Widths.DeserializeFixedWidth | src/main/kotlin/com/github/hoshinotented/osuutils/osudb/parse.kt:32-111 | The fixed-width built-ins consume exactly their width and never yield null. |
| Widths.PairWidth | src/main/kotlin/com/github/hoshinotented/osuutils/osudb/parse.kt:162-174 | With 10 bytes present, an int–float pair can fail only on a tag. |
| Widths.FieldsFixedWidth | src/main/kotlin/com/github/hoshinotented/osuutils/osudb/parse.kt:262-269 | A record of fixed-width fields consumes the sum of their widths. |
| Widths.ManyFixedWidth | src/main/kotlin/com/github/hoshinotented/osuutils/osudb/parse.kt:139-141 | `count` fixed-width elements consume `count` times the width. |
| Widths.LazySeqBufferFits | src/main/kotlin/com/github/hoshinotented/osuutils/osudb/parse.kt:131-144 | When the product fits and the file is long enough, the buffer is exactly the next `count * size` bytes. |
| Widths.BufferFits | src/main/kotlin/com/github/hoshinotented/osuutils/osudb/parse.kt:135-144 | A buffer of `count * size` bytes materialises into exactly `count` elements and ends at its end, unless a tag is bad. |
| Records.ModStarCacheSized | src/main/kotlin/com/github/hoshinotented/osuutils/osudb/data.kt:25-26 | `@Sized(10)` on `ModStarCache` agrees with what its deserializer consumes. |
| Records.TimePointSized | src/main/kotlin/com/github/hoshinotented/osuutils/osudb/data.kt:28-29 | `@Sized(17)` on `TimePoint` agrees with its three fields: a double, a double and a boolean. |
| Records.TimePointWidth | src/main/kotlin/com/github/hoshinotented/osuutils/osudb/data.kt:28-29 | In any registry with the built-in `Double` and `Boolean`, a `TimePoint` is 17 bytes wide. |
| Records.FindEntry | src/main/kotlin/com/github/hoshinotented/osuutils/osudb/data.kt:115 | `find` yields an entry of the cache with exactly the mod set, and nothing exactly when no entry has it. |
| Records.StarRate | src/main/kotlin/com/github/hoshinotented/osuutils/osudb/data.kt:112-118 | Reading the star cache's failure is the star rate's failure. With a materialised cache and no entry for the mod set, the star rate defaults to 0. |
| Records.FindEntryIsFirst | src/main/kotlin/com/github/hoshinotented/osuutils/osudb/data.kt:115 | The entry found is the first one with the mod set. |
| Records.StarRateOfFirstMatch | src/main/kotlin/com/github/hoshinotented/osuutils/osudb/data.kt:112-118 | The star rate is the difficulty of the first cache entry whose mods equal the given mods as a set. |
| Records.AccuracyParts | src/main/kotlin/com/github/hoshinotented/osuutils/osudb/data.kt:191-197 | The numerator and denominator of the accuracy fit in an `Int` for any four `Short` counts. |
| Records.AccuracyBounds | src/main/kotlin/com/github/hoshinotented/osuutils/osudb/data.kt:191-197 | For non-negative counts, 0 <= numerator <= denominator. They are equal exactly when every note is a great. The denominator is 0 exactly when no note was counted. |
| Records.ToScore | src/main/kotlin/com/github/hoshinotented/osuutils/osudb/data.kt:202-221 | A checksum mismatch throws exactly when the provider's beatmap has a checksum other than the score's hash. Otherwise the score carries the local score's time, id, user, mods, accuracy and the provided beatmap. |
| LocalOsuFile.ReadHeader | src/main/kotlin/com/github/hoshinotented/osuutils/osudb/parse.kt:302-306 | The header fields are read in order and stay within the file. A null player name is an error. |
| LocalOsuFile.ParseLocalOsu | src/main/kotlin/com/github/hoshinotented/osuutils/osudb/parse.kt:301-317 | Parsing `osu!.db` only moves forward within the file. |
| LocalOsuFile.ParseBody | src/main/kotlin/com/github/hoshinotented/osuutils/osudb/parse.kt:307-316 | The beatmap list followed by the permission `Int` stays within the file. |
| LocalOsuFile.BeatmapCountIsPrefix | src/main/kotlin/com/github/hoshinotented/osuutils/osudb/parse.kt:307-312 | The file holds exactly as many beatmaps as its count prefix says, each parsed as a `LocalBeatmap` one after another. |
| LocalOsuFile.BodyListIsReadMany | src/main/kotlin/com/github/hoshinotented/osuutils/osudb/parse.kt:307-312 | The beatmap list is `readMany` with the beatmap parser as its builder. |
| LocalOsuFile.ReadManyIsCounted | src/main/kotlin/com/github/hoshinotented/osuutils/osudb/parse.kt:180-189 | `readMany` is the count read followed by the counted loop. |
| LocalOsuFile.BeatmapStep | src/main/kotlin/com/github/hoshinotented/osuutils/osudb/parse.kt:184-186 | One turn of the loop: a failing element fails the whole list; otherwise the loop continues after it with the element appended. |
| LocalOsuFile.Events | src/main/kotlin/com/github/hoshinotented/osuutils/osudb/parse.kt:307-312 | The listener hears two calls per beatmap. |
| LocalOsuFile.EventsAt | src/main/kotlin/com/github/hoshinotented/osuutils/osudb/parse.kt:308-310 | For beatmap `k`, the listener hears `beforeParseBeatmap(k, max)` and then `afterParseBeatmap(k, max, beatmap k)`. |
| LocalOsuFile.EventsSnoc | src/main/kotlin/com/github/hoshinotented/osuutils/osudb/parse.kt:308-310 | Parsing one more beatmap adds its before/after pair at the end of the listener's log. |
| LocalOsuFile.ParseLog.constructor | src/main/kotlin/com/github/hoshinotented/osuutils/osudb/parse.kt:272-279 | A fresh listener has heard nothing. |
| LocalOsuFile.ParseLog.BeforeParseBeatmap | src/main/kotlin/com/github/hoshinotented/osuutils/osudb/parse.kt:278 | The call is recorded at the end of the log. |
| LocalOsuFile.ParseLog.AfterParseBeatmap | src/main/kotlin/com/github/hoshinotented/osuutils/osudb/parse.kt:279 | The call, with the beatmap, is recorded at the end of the log. |
| LocalOsuFile.ReadHeaderFrom | src/main/kotlin/com/github/hoshinotented/osuutils/osudb/parse.kt:302-306 | Reading the header from the stream computes `ReadHeader`. |
| LocalOsuFile.ReadBeatmaps | src/main/kotlin/com/github/hoshinotented/osuutils/osudb/parse.kt:307-312 | The stream's beatmap loop computes `readMany` with the beatmap builder. Each beatmap is announced before and reported after it is parsed. |
| LocalOsuFile.ReadCounted | src/main/kotlin/com/github/hoshinotented/osuutils/osudb/parse.kt:184-186 | The `for` loop over `0 until many` computes the counted loop, with its listener calls. |
| LocalOsuFile.ReadNext | src/main/kotlin/com/github/hoshinotented/osuutils/osudb/parse.kt:185 | One loop turn keeps the loop invariant, or ends the whole loop with the element's failure. |
| LocalOsuFile.ReadNextBeatmap | src/main/kotlin/com/github/hoshinotented/osuutils/osudb/parse.kt:308-311 | The builder announces the beatmap, parses it, and reports it only if it parsed. |
| LocalOsuFile.ParseLocalOsuFrom | src/main/kotlin/com/github/hoshinotented/osuutils/osudb/parse.kt:301-317 | `parseLocalOsu` on the stream computes `ParseLocalOsu`, and the listener hears every beatmap in order. |
| Parser.Parse | src/main/kotlin/com/github/hoshinotented/osuutils/osudb/parse.kt:247-270 | The recursive `parse` on the stream computes `Decoding.Parse`. |
| Parser.ParseCounted | src/main/kotlin/com/github/hoshinotented/osuutils/osudb/parse.kt:139-141 | The lazy initializer's loop over the buffer stream computes `ParseMany`. |
| Parser.Deserialize | src/main/kotlin/com/github/hoshinotented/osuutils/osudb/parse.kt:31-147 | Each built-in deserializer on the stream computes `Decoding.Deserialize`. |
| Parser.DeserializeByteArray | src/main/kotlin/com/github/hoshinotented/osuutils/osudb/parse.kt:113-119 | The `ByteArray` deserializer on the stream computes its decoding function. |
| Parser.DeserializeImmutableSeq | src/main/kotlin/com/github/hoshinotented/osuutils/osudb/parse.kt:70-82 | The `ImmutableSeq` deserializer on the stream computes its decoding function. |
| Parser.DeserializeLazySeq | src/main/kotlin/com/github/hoshinotented/osuutils/osudb/parse.kt:121-147 | The `LazySeq` deserializer on the stream computes its decoding function. |
| Parser.LazySeq.constructor | src/main/kotlin/com/github/hoshinotented/osuutils/osudb/data.kt:34 | A lazy sequence holds its buffer and has materialised nothing. |
| Parser.LazySeq.Value | src/main/kotlin/com/github/hoshinotented/osuutils/osudb/data.kt:38 | `value` is always `Materialize` of the buffer. The buffer is parsed at most once: a kept value is returned without parsing again, and a failure is not kept. |
| Parser.LazySeq.AccessTwice | src/main/kotlin/com/github/hoshinotented/osuutils/osudb/data.kt:34-43 | Two reads of `value` agree, and a success costs at most one materialisation. |
| Search.BinarySearch | src/main/kotlin/com/github/hoshinotented/osuutils/data/Score.kt:40-47 | A hit is an index comparing equal. A miss `-(p+1)` has its insertion point `p` within the sequence's bounds. |
| Search.SearchBetween | src/main/kotlin/com/github/hoshinotented/osuutils/data/Score.kt:40-47 | The search of a window stays within the window. |
| Search.SearchBetweenSplits | src/main/kotlin/com/github/hoshinotented/osuutils/data/Score.kt:49-51 | On an ordered sequence, a miss's insertion point separates the elements comparing below from those comparing above. |
| Search.UpperHalfSplits | src/main/kotlin/com/github/hoshinotented/osuutils/data/Score.kt:49-51 | The same, when the search continues in the upper half. |
| Search.LowerHalfSplits | src/main/kotlin/com/github/hoshinotented/osuutils/data/Score.kt:49-51 | The same, when the search continues in the lower half. |
| Search.EmptyWindowSplits | src/main/kotlin/com/github/hoshinotented/osuutils/data/Score.kt:49-51 | An empty window is the insertion point. |
| Search.BelowBefore | src/main/kotlin/com/github/hoshinotented/osuutils/data/Score.kt:36 | In an ordered sequence, everything before an element comparing below also compares below. |
| Search.AboveAfter | src/main/kotlin/com/github/hoshinotented/osuutils/data/Score.kt:36 | In an ordered sequence, everything after an element comparing above also compares above. |
| Search.SearchSplits | src/main/kotlin/com/github/hoshinotented/osuutils/data/Score.kt:49-52 | On an ordered sequence, a miss's insertion point splits it into "below" and "above". |
| Sorting.Insert | src/main/kotlin/com/github/hoshinotented/osuutils/providers/ScoreProvider.kt:51 | Insertion adds exactly the element: the multiset grows by it. |
| Sorting.InsertKeysFrom | src/main/kotlin/com/github/hoshinotented/osuutils/providers/ScoreProvider.kt:51 | Insertion keeps a lower bound on the keys. |
| Sorting.SortedCons | src/main/kotlin/com/github/hoshinotented/osuutils/providers/ScoreProvider.kt:51 | A head no larger than a sorted tail gives a sorted sequence. |
| Sorting.InsertSorted | src/main/kotlin/com/github/hoshinotented/osuutils/providers/ScoreProvider.kt:51 | Insertion keeps a sequence sorted. |
| Sorting.SortBy | src/main/kotlin/com/github/hoshinotented/osuutils/providers/ScoreProvider.kt:72 | `sorted(comparator)` is a permutation of its input. |
| Sorting.SortBySorted | src/main/kotlin/com/github/hoshinotented/osuutils/providers/ScoreProvider.kt:72 | `sorted(comparator)` is ordered by the key. |
| Sorting.SortedEnds | src/main/kotlin/com/github/hoshinotented/osuutils/ScoreAnalyzer.kt:147-149 | The first element of a sorted sequence has the least key and the last the greatest. |
| Sorting.TwoPositions | src/main/kotlin/com/github/hoshinotented/osuutils/providers/ScoreProvider.kt:70-72 | Two positions of a sequence hold two of its elements, counted with multiplicity. |
| Sorting.TwoElements | src/main/kotlin/com/github/hoshinotented/osuutils/providers/ScoreProvider.kt:70-72 | Two elements of a multiset sit at two distinct positions. |
| Sorting.PermutationKeepsDistinct | src/main/kotlin/com/github/hoshinotented/osuutils/providers/ScoreProvider.kt:70-72 | Sorting a sequence with distinct keys keeps the keys distinct. |
| Histories.CompareToProbe | src/main/kotlin/com/github/hoshinotented/osuutils/data/Score.kt:39-47 | The comparator against the dummy score never says "equal". It says "before" exactly for scores created before `since`. |
| Histories.CreatedSince | src/main/kotlin/com/github/hoshinotented/osuutils/data/Score.kt:34-37 | The reference "scores created since": exactly the scores at or after `since`. |
| Histories.BinaryAnswer | src/main/kotlin/com/github/hoshinotented/osuutils/data/Score.kt:38-53 | `binaryAnswer` is always a suffix of the scores. On scores ordered by time, it is exactly the scores created at or after `since`. |
| Histories.SinceSuffix | src/main/kotlin/com/github/hoshinotented/osuutils/data/Score.kt:49-52 | The insertion point `-result - 1` is within bounds, and the suffix from it is the scores since `since`. |
| Histories.SplitFilter | src/main/kotlin/com/github/hoshinotented/osuutils/data/Score.kt:51-52 | A suffix cut where "before since" ends is the filter of the scores since. |
| Histories.AddScores | src/main/kotlin/com/github/hoshinotented/osuutils/data/Score.kt:56-57 | Adding no scores leaves the history unchanged. |
| Histories.AddScoresAppends | src/main/kotlin/com/github/hoshinotented/osuutils/data/Score.kt:56-77 | The scores are appended. A new group starts at the old score count. The analyze id is appended; with no ids before, earlier groups get 0. The beatmap and window are kept. |
| Histories.AddScoresBest | src/main/kotlin/com/github/hoshinotented/osuutils/data/Score.kt:67 | The best becomes the new best if there is one, else stays. |
| Histories.GroupsNonEmpty | src/main/kotlin/com/github/hoshinotented/osuutils/data/Score.kt:18 | In a well-formed history, no score group is empty. |
| Histories.AddScoresKeepsWellFormed | src/main/kotlin/com/github/hoshinotented/osuutils/data/Score.kt:56-77 | `addScores` keeps group starts strictly increasing and in range, and keeps one analyze id per group. |
| Histories.ScoreSince | src/main/kotlin/com/github/hoshinotented/osuutils/data/Score.kt:79-81 | `scoreSince` is the history's scores created since `since`. |
| Histories.ReduceBest | src/main/kotlin/com/github/hoshinotented/osuutils/data/Score.kt:90-92 | The reduction returns one of the scores seen, and never a worse one than it started with. |
| Histories.ReduceFindsFirstBest | src/main/kotlin/com/github/hoshinotented/osuutils/data/Score.kt:90-92 | Because of `>=`, the reduction keeps the earliest score of the highest accuracy. |
| Histories.RecentBest | src/main/kotlin/com/github/hoshinotented/osuutils/data/Score.kt:87-94 | A recent best is one of the scores since `since`. |
| Histories.RecentBestIsFirstBest | src/main/kotlin/com/github/hoshinotented/osuutils/data/Score.kt:83-94 | The result is null exactly when no score is that recent. Otherwise it is the earliest recent score with the highest accuracy. |
| Analyzer.Since | src/main/kotlin/com/github/hoshinotented/osuutils/ScoreAnalyzer.kt:136-138 | The cut-off is one second after the newest analysed score, or the fallback when the history is empty. |
| Analyzer.Considered | src/main/kotlin/com/github/hoshinotented/osuutils/ScoreAnalyzer.kt:140-141 | With no cut-off every fetched score is considered. Otherwise, on time-ordered scores, exactly those created since the cut-off. |
| Analyzer.Extremes | src/main/kotlin/com/github/hoshinotented/osuutils/ScoreAnalyzer.kt:147-149 | The worst and best are considered scores, and bound every considered accuracy from below and above. |
| Analyzer.Analyze | src/main/kotlin/com/github/hoshinotented/osuutils/ScoreAnalyzer.kt:130-167 | The play count is the number of considered scores, and there is a report exactly when it is positive. With no play the history is unchanged. Otherwise: best and worst bound the considered scores; the recent best is the history's best within its recent window; each comparison is the accuracy difference, or 0 without a reference. |
| Analyzer.AnalyzeAddsGroup | src/main/kotlin/com/github/hoshinotented/osuutils/ScoreAnalyzer.kt:156-166 | The new history adds the considered scores as one group under the analyze id. The best becomes the new best score unless the history best is strictly better. |
| Analyzer.AnalyzeKeepsWellFormed | src/main/kotlin/com/github/hoshinotented/osuutils/ScoreAnalyzer.kt:162-166 | Analysis keeps a history well formed. |
| Analyzer.Pretty | src/main/kotlin/com/github/hoshinotented/osuutils/ScoreAnalyzer.kt:81-110 | The report opens with the best score's line. It has a "Worst" line, with the worst score, exactly when best and worst differ by id, as the second line. The recent line carries the recent best and its comparison. The history line carries the history comparison, and shows the previous best exactly when there is one and it is not this best. |
| Analyses.Fresh | src/main/kotlin/com/github/hoshinotented/osuutils/database/AnalyzeDatabase.kt:12 | A missing metadata file loads as no records, with `lastId` one below `START`. |
| Analyses.AddRecordAsWritten | src/main/kotlin/com/github/hoshinotented/osuutils/data/Analyze.kt:23-28 | As written: the record is rejected exactly when its id is not `lastId + 1`; otherwise it is appended and `lastId` becomes the id plus one. |
| Analyses.AddRecord | src/main/kotlin/com/github/hoshinotented/osuutils/data/Analyze.kt:23-28 | As intended: the same check, with `lastId` becoming the record's id. |
| Analyses.FirstRecordIsStart | src/main/kotlin/com/github/hoshinotented/osuutils/data/Analyze.kt:11-17 | On fresh metadata, the first record is accepted exactly when its id is `START` (100), under both versions. |
| Analyses.Truncate | src/main/kotlin/com/github/hoshinotented/osuutils/cli/action/AnalyzeAction.kt:114-144 | The truncation has five outcomes. Without ids it reports that. Without a matching last id it reports no match. Otherwise it drops the last group's scores, the last group and the last id, keeping best and beatmap. When that last group starts at the end of the scores, the truncated history is saved and reading the group's first score then throws. A missing group or an out-of-range start is malformed. |
| Analyses.TruncateWellFormed | src/main/kotlin/com/github/hoshinotented/osuutils/cli/action/AnalyzeAction.kt:130-136 | On a well-formed history truncation is never malformed and never saves-then-throws, and what it leaves is well formed. |
| Analyses.TruncateUndoesAddScores | src/main/kotlin/com/github/hoshinotented/osuutils/cli/action/AnalyzeAction.kt:130-136 | Rolling back the analyze id just added removes exactly what `addScores` added; only the best stays updated. |
| Analyses.DefaultRollbackMisses | src/main/kotlin/com/github/hoshinotented/osuutils/cli/action/AnalyzeAction.kt:116 | As written, the default rollback after an analyze never finds that analyze's id. |
| Analyses.DefaultRollbackUndoes | src/main/kotlin/com/github/hoshinotented/osuutils/cli/action/AnalyzeAction.kt:116 | With the corrected `addRecord`, the default rollback removes the analyze just run. |
| ModRestriction.Accept | src/main/kotlin/com/github/hoshinotented/osuutils/util/mod-restriction.kt:69-113 | `accept` only ever adds played mods to the matched set. |
| ModRestriction.Fold | src/main/kotlin/com/github/hoshinotented/osuutils/util/mod-restriction.kt:85-88 | The `foldLeft` over the children only ever adds played mods to the matched set. |
| ModRestriction.FoldFrom | src/main/kotlin/com/github/hoshinotented/osuutils/util/mod-restriction.kt:83-113 | Every child runs, even after a failure. A `Seq` accepts when all children accept, a `Combination` when any does. The matched set is what the children added in turn. |
| ModRestriction.SeqAcceptsAll | src/main/kotlin/com/github/hoshinotented/osuutils/util/mod-restriction.kt:83-90 | A `Seq` accepts exactly when every child accepts on the context the previous ones left. |
| ModRestriction.CombinationAcceptsAny | src/main/kotlin/com/github/hoshinotented/osuutils/util/mod-restriction.kt:103-113 | A `Combination` accepts when not negated, or when some child accepts. |
| ModRestriction.ExactMatches | src/main/kotlin/com/github/hoshinotented/osuutils/util/mod-restriction.kt:71-81 | `NM` accepts exactly when no mod is played and matches nothing. A mod accepts exactly when it is played and is then matched. |
| ModRestriction.OrBacktracks | src/main/kotlin/com/github/hoshinotented/osuutils/util/mod-restriction.kt:92-101 | `Or` accepts when either side does from the same save point; the left side wins. On failure the matched set is restored. |
| ModRestriction.Context.constructor | src/main/kotlin/com/github/hoshinotented/osuutils/util/mod-restriction.kt:64 | A context holds the matched set it was given. |
| ModRestriction.AcceptIn | src/main/kotlin/com/github/hoshinotented/osuutils/util/mod-restriction.kt:69-113 | `accept` on a mutable context computes `Accept`, including the restore of the save point in `Or`. |
| ModRestriction.AcceptChildren | src/main/kotlin/com/github/hoshinotented/osuutils/util/mod-restriction.kt:83-113 | The fold over the children on the mutable context computes `Fold`. |
| ModRestriction.Considered | src/main/kotlin/com/github/hoshinotented/osuutils/util/mod-restriction.kt:52 | Only the played difficulty-change mods are considered. |
| ModRestriction.Verdict | src/main/kotlin/com/github/hoshinotented/osuutils/util/mod-restriction.kt:51-61 | `Success` exactly when accepted and every considered mod was matched. `TooMany` exactly when accepted with some considered mod unmatched. `TooFew` exactly when not accepted. |
| ModRestriction.Test | src/main/kotlin/com/github/hoshinotented/osuutils/util/mod-restriction.kt:51-61 | `test` with a fresh context computes `Verdict`. |
| ModRestriction.VerdictIgnoresOtherMods | src/main/kotlin/com/github/hoshinotented/osuutils/util/mod-restriction.kt:52 | Adding a mod that does not change difficulty never changes the verdict. |
| ModRestriction.ProduceAll | src/main/kotlin/com/github/hoshinotented/osuutils/util/mod-restriction.kt:148 | A combination's members are compiled one per sub-expression. |
| ModRestriction.ProduceAllFlat | src/main/kotlin/com/github/hoshinotented/osuutils/util/mod-restriction.kt:148 | Compiled combination members are flat. |
| ModRestriction.ProduceFlat | src/main/kotlin/com/github/hoshinotented/osuutils/util/mod-restriction.kt:153-162 | A compiled tree never has a `Seq` directly inside a `Seq`: juxtapositions are flattened. |
| ModRestriction.SeqOfTwo | src/main/kotlin/com/github/hoshinotented/osuutils/util/mod-restriction.kt:83-90 | A two-part sequence runs the first part and then the second on what the first matched. |
| ModRestriction.SeqOfThree | src/main/kotlin/com/github/hoshinotented/osuutils/util/mod-restriction.kt:83-90 | A three-part sequence runs its parts in order on the accumulating context. |
| ModRestriction.TestTree | src/main/kotlin/com/github/hoshinotented/osuutils/util/mod-restriction.kt:116-122 | A restriction gets a verdict exactly when it compiles. |
| ModRestriction.ProduceMod | src/main/kotlin/com/github/hoshinotented/osuutils/util/mod-restriction.kt:127-130 | A mod name compiles to `Exact` of that mod. |
| ModRestriction.ProduceJuxt | src/main/kotlin/com/github/hoshinotented/osuutils/util/mod-restriction.kt:153-162 | Juxtaposition compiles to one `Seq` of both sides' operands, splicing sides that are sequences. |
| ModRestriction.ProduceOr | src/main/kotlin/com/github/hoshinotented/osuutils/util/mod-restriction.kt:134-143 | A parenthesised `l|r` compiles to `Or` of both sides. |
| ModRestriction.ProduceComb | src/main/kotlin/com/github/hoshinotented/osuutils/util/mod-restriction.kt:146-151 | `{ l, r }` compiles to a `Combination` of both. `!` marks it as excluding no-mod. |
| ModRestriction.ProduceCombOne | src/main/kotlin/com/github/hoshinotented/osuutils/util/mod-restriction.kt:146-151 | `{ l }` compiles to a one-member `Combination`. |
| ModRestriction.ExamplesExact | src/main/kotlin/com/github/hoshinotented/osuutils/util/mod-restriction.kt:51-61 | `NM` accepts a no-mod play, `HD` accepts `HD`, and `HDHR` accepts `HD HR`. `NM` against `HD` and `HD` against `HR` are too few. `HR` against `HD HR` is too many. |
| ModRestriction.ExamplesGrouped | src/main/kotlin/com/github/hoshinotented/osuutils/util/mod-restriction.kt:153-162 | `HD(HREZ)` and `(HDHR)EZ` both accept `EZ HD HR`. |
| ModRestriction.ExamplesOr | src/main/kotlin/com/github/hoshinotented/osuutils/util/mod-restriction.kt:92-101 | `EZ(HD\|HR)` accepts `EZ HD` and `EZ HR`. |
| ModRestriction.ExampleTwoOrs | src/main/kotlin/com/github/hoshinotented/osuutils/util/mod-restriction.kt:92-101 | `(HD\|HR)(HT\|DT)` accepts `HR DT`. |
| ModRestriction.ExamplesCombination | src/main/kotlin/com/github/hoshinotented/osuutils/util/mod-restriction.kt:103-113 | `{ HD, HR }` accepts no mod, `HD` alone and `HR` alone. |
| ModRestriction.ExamplesCombinationPairs | src/main/kotlin/com/github/hoshinotented/osuutils/util/mod-restriction.kt:103-113 | `{ HD, HR }` accepts `HD HR`, and finds `HD DT` too many. |
| ModRestriction.ExamplesNegated | src/main/kotlin/com/github/hoshinotented/osuutils/util/mod-restriction.kt:103-113 | `!{ HD }` rejects a no-mod play, and `!{ HD }HR` rejects `HR`. |
| ModRestriction.ExampleSeqWithCombination | src/main/kotlin/com/github/hoshinotented/osuutils/util/mod-restriction.kt:153-162 | `DT{ HD, HR }` accepts `DT HD`. |
| Mods.ValueOf | src/main/kotlin/com/github/hoshinotented/osuutils/util/mod-restriction.kt:130 | `Mod.valueOf` yields only the mod with exactly that name. |
| Mods.ValueOfName | src/main/kotlin/com/github/hoshinotented/osuutils/util/mod-restriction.kt:130 | Every mod is found by its own name. |
| Endpoints.Lower | src/main/kotlin/com/github/hoshinotented/osuutils/api/processor.kt:29 | `lowercaseChar` maps the ASCII capitals to lower case and leaves everything else. |
| Endpoints.ToSnakeCase | src/main/kotlin/com/github/hoshinotented/osuutils/api/processor.kt:20-35 | The builder loop computes the snake-case text of the name. |
| Endpoints.SnakeCaseLength | src/main/kotlin/com/github/hoshinotented/osuutils/api/processor.kt:24-29 | Snake case adds exactly one `_` per lower-to-upper boundary, so consecutive capitals get none. |
| Endpoints.SnakeCaseNoUpper | src/main/kotlin/com/github/hoshinotented/osuutils/api/processor.kt:20-35 | Snake case leaves no upper-case letter. |
| Endpoints.SnakeCaseIdentity | src/main/kotlin/com/github/hoshinotented/osuutils/api/processor.kt:30-32 | A name without capitals is unchanged. |
| Endpoints.SnakeCaseIdempotent | src/main/kotlin/com/github/hoshinotented/osuutils/api/processor.kt:20-35 | Converting twice is converting once. |
| Endpoints.SnakeCaseExamples | src/main/kotlin/com/github/hoshinotented/osuutils/api/processor.kt:25-28 | `aB` becomes `a_b`, while `AB` becomes `ab`. |
| Endpoints.Split | src/main/kotlin/com/github/hoshinotented/osuutils/api/processor.kt:55 | `split('/')` yields at least one piece, and no piece contains the separator. |
| Endpoints.JoinSplit | src/main/kotlin/com/github/hoshinotented/osuutils/api/processor.kt:55 | Joining the pieces of a split gives the text back. |
| Endpoints.SplitPrepend | src/main/kotlin/com/github/hoshinotented/osuutils/api/processor.kt:55 | A non-separator prepended to the text is prepended to its first piece. |
| Endpoints.SplitJoin | src/main/kotlin/com/github/hoshinotented/osuutils/api/processor.kt:55 | Splitting the join of separator-free pieces gives the pieces back. |
| Endpoints.Component | src/main/kotlin/com/github/hoshinotented/osuutils/api/processor.kt:58-66 | A piece is a reference exactly when it is surrounded by braces, and then names what is inside. Otherwise it is raw text. |
| Endpoints.ParseEndpointPath | src/main/kotlin/com/github/hoshinotented/osuutils/api/processor.kt:53-68 | An empty path has no components. Otherwise there is one component per `/`-separated piece. |
| Endpoints.Rebuild | src/main/kotlin/com/github/hoshinotented/osuutils/api/processor.kt:39-46 | Rebuilding no components gives the empty path. |
| Endpoints.RebuildParse | src/main/kotlin/com/github/hoshinotented/osuutils/api/processor.kt:39-68 | Rebuilding a parsed path, with each reference written back as `{name}`, gives the template back. |
| Endpoints.RebuildRawPath | src/main/kotlin/com/github/hoshinotented/osuutils/api/processor.kt:39-68 | A path without references rebuilds to itself, whatever the provider. |
| Endpoints.Digits | src/main/kotlin/com/github/hoshinotented/osuutils/api/processor.kt:221 | A number's decimal text is a non-empty run of digits. |
| Endpoints.DigitsValueOfDigits | src/main/kotlin/com/github/hoshinotented/osuutils/api/processor.kt:221 | The digits read back as the number. |
| Endpoints.DecimalRoundTrip | src/main/kotlin/com/github/hoshinotented/osuutils/api/processor.kt:221 | `toString` of any integer, negative ones included, parses back to it. |
| Endpoints.Serialize | src/main/kotlin/com/github/hoshinotented/osuutils/api/processor.kt:219-227 | A boolean is `1` exactly when true and `0` exactly when false. A number is its decimal text. |
| Endpoints.PathValue | src/main/kotlin/com/github/hoshinotented/osuutils/api/processor.kt:174-176 | A null path argument becomes the empty string, and any other is serialised. |
| Endpoints.SerializeToUrl | src/main/kotlin/com/github/hoshinotented/osuutils/api/processor.kt:236-240 | No parameters give the empty query. |
| Endpoints.SplitEntryOf | src/main/kotlin/com/github/hoshinotented/osuutils/api/processor.kt:238 | A `key=value` entry splits back at its first `=` when the key has none. |
| Endpoints.UrlRoundTrip | src/main/kotlin/com/github/hoshinotented/osuutils/api/processor.kt:236-240 | A query string of entries whose text avoids `&`, and whose keys avoid `=`, splits back into exactly those entries. |
| Endpoints.SerializeData | src/main/kotlin/com/github/hoshinotented/osuutils/api/processor.kt:229-234 | Only URL bodies serialise, to the query string. JSON bodies are the unimplemented `TODO()`. |
| ScoreProviders.DistinctFrom | src/main/kotlin/com/github/hoshinotented/osuutils/providers/ScoreProvider.kt:70 | `distinctBy` keeps only elements of its input whose key was not seen. |
| ScoreProviders.DistinctFromDistinct | src/main/kotlin/com/github/hoshinotented/osuutils/providers/ScoreProvider.kt:70 | No two kept elements share a key. |
| ScoreProviders.DistinctFromCovers | src/main/kotlin/com/github/hoshinotented/osuutils/providers/ScoreProvider.kt:70 | Every key of the input, unless seen before, is kept by some element. |
| ScoreProviders.DistinctPrefersFront | src/main/kotlin/com/github/hoshinotented/osuutils/providers/ScoreProvider.kt:70 | The first occurrence of a key wins. |
| ScoreProviders.Merge | src/main/kotlin/com/github/hoshinotented/osuutils/providers/ScoreProvider.kt:62-75 | The merge is null exactly when both providers answer null. |
| ScoreProviders.SortKeepsMembers | src/main/kotlin/com/github/hoshinotented/osuutils/providers/ScoreProvider.kt:72 | Sorting keeps exactly the same members. |
| ScoreProviders.MergeSortedDistinct | src/main/kotlin/com/github/hoshinotented/osuutils/providers/ScoreProvider.kt:56-75 | Merged scores are ordered by creation time, and no two share a creation time. |
| ScoreProviders.MergeFromSides | src/main/kotlin/com/github/hoshinotented/osuutils/providers/ScoreProvider.kt:66-72 | Every merged score comes from one of the two providers. |
| ScoreProviders.MergeCovers | src/main/kotlin/com/github/hoshinotented/osuutils/providers/ScoreProvider.kt:66-72 | Every creation time either provider reported is in the merge. |
| ScoreProviders.MergePrefersLhs | src/main/kotlin/com/github/hoshinotented/osuutils/providers/ScoreProvider.kt:67-70 | For a creation time both report, the left provider's score is the one kept. |
| ScoreProviders.AssociateBy | src/main/kotlin/com/github/hoshinotented/osuutils/providers/ScoreProvider.kt:33 | `associateBy` has every element's key, and maps each key to an element with that key. |
| ScoreProviders.AssociateByLast | src/main/kotlin/com/github/hoshinotented/osuutils/providers/ScoreProvider.kt:33 | For a repeated key, the last element with it wins. |
| ScoreProviders.Filter | src/main/kotlin/com/github/hoshinotented/osuutils/providers/ScoreProvider.kt:46 | The filter keeps exactly the user's scores, and only score-v2 plays when `v2Only` is set. |
| ScoreProviders.ToBeatmap | src/main/kotlin/com/github/hoshinotented/osuutils/osudb/data.kt:120-128 | `toBeatmap` fails exactly when the star cache does not materialise. Otherwise it keeps the beatmap id and the no-mod star rate, with no checksum. |
| ScoreProviders.Convert | src/main/kotlin/com/github/hoshinotented/osuutils/providers/ScoreProvider.kt:47-50 | A local score becomes a score with its id, time, accuracy, mods and the user's id, on the beatmap `toBeatmap` gave. |
| ScoreProviders.ConvertAll | src/main/kotlin/com/github/hoshinotented/osuutils/providers/ScoreProvider.kt:47-50 | The `map` converts each kept score, position by position. |
| ScoreProviders.SortByMembers | src/main/kotlin/com/github/hoshinotented/osuutils/providers/ScoreProvider.kt:51 | Sorting the converted scores keeps exactly their members. |
| ScoreProviders.ConvertAllSound | src/main/kotlin/com/github/hoshinotented/osuutils/providers/ScoreProvider.kt:45-50 | Every converted score is the conversion of a kept local score. |
| ScoreProviders.ConvertAllComplete | src/main/kotlin/com/github/hoshinotented/osuutils/providers/ScoreProvider.kt:45-50 | Every kept local score's conversion is among the converted scores. |
| ScoreProviders.ConvertedScoresProperties | src/main/kotlin/com/github/hoshinotented/osuutils/providers/ScoreProvider.kt:45-52 | The provider's list is ordered by time, and holds exactly the conversions of the kept scores. |
| ScoreProviders.LocalBeatmapScores | src/main/kotlin/com/github/hoshinotented/osuutils/providers/ScoreProvider.kt:36-53 | The local provider answers null exactly when the beatmap id is not in `osu!.db`. When it fails, the failure is that beatmap's star-cache failure. |
| ScoreProviders.LocalBeatmapScoresProperties | src/main/kotlin/com/github/hoshinotented/osuutils/providers/ScoreProvider.kt:40-52 | For a known beatmap the answer fails exactly when some stored play is kept and its star cache does not materialise. Otherwise it is sorted by time, empty when no scores are stored for its hash, and holds exactly the conversions of that hash's kept scores. |
| RenderScores.DayStartIsFloor | src/main/kotlin/com/github/hoshinotented/osuutils/cli/action/RenderScoresAction.kt:78 | `truncatedTo(DAYS)` yields the start of the UTC day holding the instant, before the epoch too. |
| RenderScores.FirstSeen | src/main/kotlin/com/github/hoshinotented/osuutils/cli/action/RenderScoresAction.kt:75-81 | The group map's keys, each listed once, are exactly the days on which some score was made. |
| RenderScores.EntriesFor | src/main/kotlin/com/github/hoshinotented/osuutils/cli/action/RenderScoresAction.kt:83-84 | There is one dataset per key. |
| RenderScores.Run | src/main/kotlin/com/github/hoshinotented/osuutils/cli/action/RenderScoresAction.kt:74-86 | `run` up to rendering computes the day datasets sorted by day. |
| RenderScores.GroupByDay | src/main/kotlin/com/github/hoshinotented/osuutils/cli/action/RenderScoresAction.kt:75-81 | The grouping loop has one key per day in first-seen order, each holding that day's accuracies in score order. |
| RenderScores.Flatten | src/main/kotlin/com/github/hoshinotented/osuutils/cli/action/RenderScoresAction.kt:30-32 | The plotted series has `itemCount` items. |
| RenderScores.IdxCache | src/main/kotlin/com/github/hoshinotented/osuutils/cli/action/RenderScoresAction.kt:34-40 | `idxCache` is the running total: one more entry than datasets, from 0 to `itemCount`. |
| RenderScores.IdxCacheStep | src/main/kotlin/com/github/hoshinotented/osuutils/cli/action/RenderScoresAction.kt:37-39 | Each entry is the previous one plus that dataset's size. |
| RenderScores.IdxCacheGrows | src/main/kotlin/com/github/hoshinotented/osuutils/cli/action/RenderScoresAction.kt:34-40 | The running total never decreases, and strictly increases when no dataset is empty. |
| RenderScores.GetXValueLocates | src/main/kotlin/com/github/hoshinotented/osuutils/cli/action/RenderScoresAction.kt:46-53 | For every item, `getXValue` names the dataset whose range in the series holds it. |
| RenderScores.IdxCacheIncreasing | src/main/kotlin/com/github/hoshinotented/osuutils/cli/action/RenderScoresAction.kt:34-40 | With no empty dataset, `idxCache` is strictly increasing. |
| RenderScores.SearchLocates | src/main/kotlin/com/github/hoshinotented/osuutils/cli/action/RenderScoresAction.kt:47-52 | On a strictly increasing table, a hit or a miss's `insertPoint - 1` is the slot holding the item. |
| RenderScores.FlattenAt | src/main/kotlin/com/github/hoshinotented/osuutils/cli/action/RenderScoresAction.kt:55-61 | Item `j` of dataset `i` sits at `idxCache[i] + j` in the series. |
| RenderScores.GetYValueIsSeries | src/main/kotlin/com/github/hoshinotented/osuutils/cli/action/RenderScoresAction.kt:55-61 | For every item, `getYValue` is that item's accuracy in the series. |
| RenderScores.ValueInIsSeries | src/main/kotlin/com/github/hoshinotented/osuutils/cli/action/RenderScoresAction.kt:56-60 | An item in dataset `i`'s range is read at its offset in that dataset. |
| RenderScores.ItemCountAppend | src/main/kotlin/com/github/hoshinotented/osuutils/cli/action/RenderScoresAction.kt:30-32 | The item count of concatenated datasets is the sum. |
| RenderScores.ItemCountRemove | src/main/kotlin/com/github/hoshinotented/osuutils/cli/action/RenderScoresAction.kt:30-32 | Removing a dataset removes its size from the count. |
| RenderScores.ItemCountPermutation | src/main/kotlin/com/github/hoshinotented/osuutils/cli/action/RenderScoresAction.kt:83-86 | Sorting the datasets keeps the item count. |
| RenderScores.RemovedMultiset | src/main/kotlin/com/github/hoshinotented/osuutils/cli/action/RenderScoresAction.kt:83-86 | Removing the same dataset from two permutations leaves permutations. |
| RenderScores.EntriesCount | src/main/kotlin/com/github/hoshinotented/osuutils/cli/action/RenderScoresAction.kt:83-84 | The datasets hold the per-day counts summed over the keys. |
| RenderScores.SumOnEmpty | src/main/kotlin/com/github/hoshinotented/osuutils/cli/action/RenderScoresAction.kt:77-81 | No scores give no items. |
| RenderScores.SumOnSnoc | src/main/kotlin/com/github/hoshinotented/osuutils/cli/action/RenderScoresAction.kt:77-81 | One more score adds one item per listing of its day. |
| RenderScores.OccOnce | src/main/kotlin/com/github/hoshinotented/osuutils/cli/action/RenderScoresAction.kt:79 | A key listed without repeats occurs once, or not at all. |
| RenderScores.SumOnCounts | src/main/kotlin/com/github/hoshinotented/osuutils/cli/action/RenderScoresAction.kt:77-81 | Over distinct keys covering every score's day, the per-day counts sum to the number of scores. |
| RenderScores.OnAbsent | src/main/kotlin/com/github/hoshinotented/osuutils/cli/action/RenderScoresAction.kt:79 | A day without scores has no accuracies. |
| RenderScores.OnNonEmpty | src/main/kotlin/com/github/hoshinotented/osuutils/cli/action/RenderScoresAction.kt:79-80 | A day with a score has some accuracy. |
| RenderScores.DatasetsSorted | src/main/kotlin/com/github/hoshinotented/osuutils/cli/action/RenderScoresAction.kt:83-86 | The datasets are in strictly increasing day order. |
| RenderScores.DatasetsAreDays | src/main/kotlin/com/github/hoshinotented/osuutils/cli/action/RenderScoresAction.kt:75-86 | Each dataset holds exactly its day's accuracies, and none is empty. |
| RenderScores.DatasetsCoverScores | src/main/kotlin/com/github/hoshinotented/osuutils/cli/action/RenderScoresAction.kt:75-86 | Every score's day has a dataset. |
| RenderScores.DatasetsCountScores | src/main/kotlin/com/github/hoshinotented/osuutils/cli/action/RenderScoresAction.kt:75-86 | The chart plots exactly as many points as there are scores. |
| Progress.TicksUpToMax | src/main/kotlin/com/github/hoshinotented/osuutils/util/ProgressIndicator.kt:88-95 | `n` progress calls all succeed exactly when they do not pass `max`, and then move the counter by `n`. Otherwise the failure reports the counter stuck at `max`. |
| Progress.AccumulateProgressIndicator.constructor | src/main/kotlin/com/github/hoshinotented/osuutils/util/ProgressIndicator.kt:70-76 | A new indicator is at 0 of 0 with no title. |
| Progress.AccumulateProgressIndicator.Init | src/main/kotlin/com/github/hoshinotented/osuutils/util/ProgressIndicator.kt:78-86 | `init` restarts at 0 of `max`. A non-zero `max` sets the title and reports position 0. A zero `max` reports nothing. The counter stays within 0..`max` (at 0 when `max` is negative) under every operation. |
| Progress.AccumulateProgressIndicator.Progress | src/main/kotlin/com/github/hoshinotented/osuutils/util/ProgressIndicator.kt:88-95 | Below `max`, the counter moves up one and reports the new position. At `max` it throws, leaving everything as it was. |
| Progress.AccumulateProgressIndicator.Update | src/main/kotlin/com/github/hoshinotented/osuutils/util/ProgressIndicator.kt:97-99 | `update` reports the current position again and changes nothing else. |
| Caches.Cache.constructor | src/main/kotlin/com/github/hoshinotented/osuutils/database/Cache.kt:13-14 | A new cache holds nothing and has not asked the store. |
| Caches.Cache.Get | src/main/kotlin/com/github/hoshinotented/osuutils/database/Cache.kt:19-23 | A held value is returned without asking the store. Otherwise the store is asked once, and its answer is returned and kept unless null. |
| Caches.Cache.Set | src/main/kotlin/com/github/hoshinotented/osuutils/database/Cache.kt:25-28 | `set` holds the value and saves it to the store. |
| Caches.KVCache.constructor | src/main/kotlin/com/github/hoshinotented/osuutils/database/Cache.kt:46-47 | A new cache holds no key. |
| Caches.KVCache.Get | src/main/kotlin/com/github/hoshinotented/osuutils/database/Cache.kt:52-57 | A held key's value is returned without asking the store. Otherwise the store is asked for that key, and a non-null answer is kept under it alone. |
| Caches.KVCache.Set | src/main/kotlin/com/github/hoshinotented/osuutils/database/Cache.kt:59-62 | `set` changes exactly that key and saves it. Other keys keep their values. |

## Left out

- Floating point: the game's floats and doubles (star rates, BPM, the float of an int–float pair) are kept as their raw bit patterns. A score's accuracy is an integer in the analysis, chart and provider code, and the `Float` division in `LocalScore.accuracy` is stated through its integer numerator and denominator (`Records.AccuracyParts`).
- Records.StarRate: the star rate is returned as the difficulty's float bits, and the default `0.0F` as 0.
- Endpoints.Lower: only the ASCII letters A–Z count as upper case and a–z as lower case. Kotlin's `isUpperCase`, `isLowerCase` and `lowercaseChar` cover every Unicode cased letter, so a name such as `aÄ` would convert differently. The property names the program converts are ASCII.
- ScoreProviders.LocalBeatmapScores: a beatmap id missing from `osu!.db` is taken to give `null` from the map lookup, so the provider answers `null`. That the collection library's `ImmutableMap.get` returns `null` rather than throwing for a missing key is an assumption; the library is not part of this model.
- ScoreProviders.ToBeatmap: the web-API beatmap keeps only its id, star rating and checksum; the beatmap set id, version and titles it also receives are not modelled.
- ScoreProviders.LocalBeatmapScores: `toBeatmap` runs once per kept play in the source. The model runs it once, since every run reads the same star-cache outcome.
- UTF-8 decoding of strings: a string is modelled as its payload bytes.
- Kotlin reflection: classes, type arguments, nullability, `@Sized` and primary constructors are a schema datatype, and the record classes of `data.kt` are written as schemas. Constructing the Kotlin object becomes a record value holding its fields.
- The `Deserializer` objects of the start-up block are a closed enumeration. Registering a user-defined deserializer is modelled, but its decoding is not.
- Registries.Deserializers.constructor: the start-up block's own "no duplicate" check never fires, because the fourteen names differ; the model states only the resulting table.
- The `LazySeq` initializer's thread safety (Kotlin's synchronised `lazy`) is not modelled; the lazy value is a cached field.
- Widths.LazySeqBufferFits: only the byte buffer is stated; what materialising that buffer yields is stated separately in `Widths.BufferFits`.
- Exceptions thrown from a listener, and the interruption they cause, are not modelled. `LocalOsuParseListener.Console`, which only draws progress, is left out, and so is `ProgressIndicator.Console` drawing.
- `findReplay` (a directory search for replay files) is left out. `scores.db` and `collection.db` are read through the same generic `parse`, with their record schemas in `Records`; no lemma is specific to them.
- The ANTLR lexer and parser of mod restrictions are replaced by a parse-tree datatype. Compilation starts from that tree.
- `Mod.DIFFICULTY_CHANGE_MODS`, `Mod.V2`, `Mod.asSet` and `Mod.asSeq` are parameters, since the `Mod` enum's file is not part of this model. `Mod.valueOf` covers seven constants.
- URL encoding of strings (`URLEncoder.encode`) is a parameter, and enums serialise through a parameter too.
- `resolveEndpointRequest`, `processEndpointRequest` and the building of the HTTP request are left out: they rest on Java reflection and `java.net`.
- The network, the JSON stores and the file system are left out. `load` and `save` of the caches are parameters, and their calls are recorded as a call log.
- The hash maps used by `associateBy`, `distinctBy` and the day grouping iterate in an order the source does not fix. The model lists keys in first-insertion order; every property proved about the results holds whatever that order is.
- Rendering the chart (JFreeChart, image output, date labels) is left out. The model stops at the datasets and the `XYDataset` lookups.
- `Instant` is epoch milliseconds, and `truncatedTo(DAYS)` is the start of the UTC day.
- Analyzer.Analyze: `sorted(AccComparator)` followed by `first`/`last` is stated through `Extremes`. Which of several equally accurate scores is taken as best or worst is not fixed.
- The `Int` overflow of a ULEB128 string length above `Int.MAX_VALUE` is modelled as the source's rejection. Other 32-bit counters (ids, counts in `readMany`) are not wrapped, because they come from a 32-bit read already.
- `analyze(now, fallbackSince)` over all histories, which fetches scores through the network, is left out. The pure per-history `analyze` is modelled.

## Findings

| source | as written | input that shows it | evidently intended | confidence | as-written member | corrected member |
|---|---|---|---|---|---|---|
| src/main/kotlin/com/github/hoshinotented/osuutils/data/Analyze.kt:27 | `addRecord` stores `lastId = record.id + 1`. The next analyze uses `lastId + 1` as its id (AnalyzeAction.kt:40), and the default rollback looks for `lastId` (AnalyzeAction.kt:116). | Fresh metadata (`lastId` 99), one analyze with id 100 that adds scores, then the default rollback: `lastId` is 101, which the last recorded id 100 never equals, so nothing is rolled back. | `lastId` is the id just recorded (`lastId = record.id`), so the default rollback removes the last analyze. | not executed | Analyses.AddRecordAsWritten, Analyses.DefaultRollbackMisses | Analyses.AddRecord, Analyses.DefaultRollbackUndoes |
