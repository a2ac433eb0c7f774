/**
  The wire primitives of osu!'s legacy database files (`osu!.db`, `scores.db`,
  `collection.db`) as pure functions over the whole file and a cursor position.
  Every reader returns `Done(value, next)`, `next` being the cursor after the read,
  or `Fail(error)`, the exception the decoder throws.
 */
module Wire {
  import opened Common

  /** Every way a decode can abort. */
  datatype DecodeError =
    | EndOfStream                       // EOFException from a fixed-width read
    | IllegalStringIndicator(b: int)    // OsuParseException from readString / skipString
    | IllegalPairIndicator(b: int)      // OsuParseException from readIntFloatPair
    | NumberTooLarge(bits: nat)         // OsuParseException from readULEB128
    | StringTooLong(length: nat)        // OsuParseException: string length above Int.MAX_VALUE
    | NegativeLength(requested: int)       // IllegalArgumentException from readNBytes
    | StarType                          // IllegalArgumentException: the type argument is `*`
    | MissingTypeArgument               // `typeArgs[0]` of an empty argument list
    | NotSized                          // IllegalArgumentException: LazySeq element lacks @Sized
    | NoPrimaryConstructor              // IllegalArgumentException from parse
    | UnexpectedNull                    // IllegalArgumentException: null for a non-nullable type
    | NullPointer                       // NullPointerException from `!!`

  datatype Decoded<+T> = Done(value: T, next: nat) | Fail(error: DecodeError)

  /** The outcome of an imperative read, paired with the stream position it left. */
  function Tie<T>(r: Result<T, DecodeError>, pos: nat): Decoded<T> {
    match r
    case Ok(v) => Done(v, pos)
    case Err(e) => Fail(e)
  }

  /** A successful read moves the cursor forward and stays inside the file. */
  ghost predicate Advances<T>(s: seq<byte>, pos: nat, r: Decoded<T>) {
    r.Done? ==> pos <= r.next <= |s|
  }

  // ---------------------------------------------------------------------------
  // Fixed-width primitives (Guava's LittleEndianDataInputStream)
  // ---------------------------------------------------------------------------

  /** `InputStream.read()`: the next byte, or -1 at the end of the stream, which consumes nothing. */
  function Read(s: seq<byte>, pos: nat): (r: Decoded<int>)
    requires pos <= |s|
    ensures r.Done? && -1 <= r.value < 256 && Advances(s, pos, r)
  {
    if pos < |s| then Done(s[pos] as int, pos + 1) else Done(-1, pos)
  }

  /** The unsigned little-endian number spelled by `b`. */
  function LE(b: seq<byte>): (n: nat)
    ensures n < Pow2(8 * |b|)
  {
    if b == [] then 0
    else
      Pow2Add(8, 8 * (|b| - 1));
      assert Pow2(8) == 256;
      b[0] + 256 * LE(b[1..])
  }

  /** The `k`-byte little-endian spelling of `n`. */
  function EncodeLE(n: nat, k: nat): (b: seq<byte>)
    ensures |b| == k
  {
    if k == 0 then [] else [n % 256] + EncodeLE(n / 256, k - 1)
  }

  lemma {:induction false} LEOfEncodeLE(n: nat, k: nat)
    requires n < Pow2(8 * k)
    ensures LE(EncodeLE(n, k)) == n
  {
    if k > 0 {
      Pow2Add(8, 8 * (k - 1));
      assert Pow2(8) == 256;
      assert n / 256 < Pow2(8 * (k - 1));
      LEOfEncodeLE(n / 256, k - 1);
      assert EncodeLE(n, k)[1..] == EncodeLE(n / 256, k - 1);
    } else {
      assert Pow2(0) == 1;
    }
  }

  /** Reads `n` bytes as an unsigned little-endian number; EOFException when fewer remain. */
  function ReadLE(s: seq<byte>, pos: nat, n: nat): (r: Decoded<nat>)
    requires pos <= |s|
    ensures r.Done? <==> pos + n <= |s|
    ensures r.Done? ==> r.next == pos + n && r.value < Pow2(8 * n)
  {
    if pos + n <= |s| then Done(LE(s[pos..pos + n]), pos + n) else Fail(EndOfStream)
  }

  /** Reads `n` bytes as a signed two's-complement little-endian number. */
  function ReadSigned(s: seq<byte>, pos: nat, n: nat): (r: Decoded<int>)
    requires pos <= |s| && 0 < n
    ensures r.Done? <==> pos + n <= |s|
    ensures r.Done? ==> r.next == pos + n && r.value == Signed(LE(s[pos..pos + n]), 8 * n)
  {
    match ReadLE(s, pos, n)
    case Fail(e) => Fail(e)
    case Done(u, p) => Done(Signed(u, 8 * n), p)
  }

  function ReadI8(s: seq<byte>, pos: nat): Decoded<int>
    requires pos <= |s|
  {
    ReadSigned(s, pos, 1)
  }

  function ReadI16(s: seq<byte>, pos: nat): Decoded<int>
    requires pos <= |s|
  {
    ReadSigned(s, pos, 2)
  }

  function ReadI32(s: seq<byte>, pos: nat): (r: Decoded<int>)
    requires pos <= |s|
    ensures r.Done? <==> pos + 4 <= |s|
    ensures r.Done? ==> r.next == pos + 4 && INT_MIN <= r.value <= INT_MAX
  {
    Pow2Int();
    ReadSigned(s, pos, 4)
  }

  function ReadI64(s: seq<byte>, pos: nat): Decoded<int>
    requires pos <= |s|
  {
    ReadSigned(s, pos, 8)
  }

  /** A float is kept as its raw IEEE-754 bit pattern. */
  function ReadF32(s: seq<byte>, pos: nat): Decoded<nat>
    requires pos <= |s|
  {
    ReadLE(s, pos, 4)
  }

  function ReadF64(s: seq<byte>, pos: nat): Decoded<nat>
    requires pos <= |s|
  {
    ReadLE(s, pos, 8)
  }

  /** `readBoolean`: one byte, non-zero meaning true. */
  function ReadBool(s: seq<byte>, pos: nat): Decoded<bool>
    requires pos <= |s|
  {
    match ReadLE(s, pos, 1)
    case Fail(e) => Fail(e)
    case Done(u, p) => Done(u != 0, p)
  }

  /** `InputStream.readNBytes(n)`: up to `n` bytes, fewer at the end of the stream; a negative `n` throws. */
  function ReadNBytes(s: seq<byte>, pos: nat, n: int): (r: Decoded<seq<byte>>)
    requires pos <= |s|
    ensures r.Fail? <==> n < 0
    ensures r.Done? ==> pos <= r.next <= |s| && r.value == s[pos..r.next]
    ensures r.Done? ==> |r.value| == if pos + n <= |s| then n else |s| - pos
  {
    if n < 0 then Fail(NegativeLength(n))
    else
      var e := if pos + n <= |s| then pos + n else |s|;
      Done(s[pos..e], e)
  }

  /** `skipBytes(n)`: skips up to `n` bytes. */
  function SkipBytes(s: seq<byte>, pos: nat, n: nat): (next: nat)
    requires pos <= |s|
    ensures pos <= next <= |s|
  {
    if pos + n <= |s| then pos + n else |s|
  }

  // ---------------------------------------------------------------------------
  // ULEB128 (section 7.6 of the DWARF 5 standard)
  // ---------------------------------------------------------------------------

  /** The seven payload bits of a byte returned by `read()`; `-1 and 0x7F` is 0x7F. */
  function Low7(b: int): int {
    if b == -1 then 127 else b % 128
  }

  /** `byte and 0x80 != 0`; it holds for the end-of-stream value -1. */
  predicate Continues(b: int) {
    b == -1 || b >= 128
  }

  /**
    One turn of `readULEB128`'s loop body: the source ORs `(byte and 0x7F) shl bitsRead`
    into a 64-bit `ULong`, whose `shl` keeps only the low 64 bits. As `result` has no bit
    at or above `bitsRead`, the OR is the sum, taken modulo 2^64.
   */
  function UlebStep(result: nat, b: int, bitsRead: nat): (r: nat)
    requires result < Pow2(bitsRead)
    ensures r < Pow2(bitsRead + 7) && r < TWO_64
  {
    UlebStepBound(result, Low7(b), bitsRead);
    (result + Low7(b) * Pow2(bitsRead)) % TWO_64
  }

  lemma UlebStepBound(result: nat, low: int, bitsRead: nat)
    requires result < Pow2(bitsRead) && 0 <= low < 128
    ensures 0 <= (result + low * Pow2(bitsRead)) % TWO_64 < Pow2(bitsRead + 7)
    ensures (result + low * Pow2(bitsRead)) % TWO_64 < TWO_64
  {
    var P := Pow2(bitsRead);
    Pow2Add(bitsRead, 7);
    Pow2Byte();
    MulLe(low, 127, P);
    var y := low * P;
    assert result + y < 128 * P;
    ModBelow(result + y, TWO_64);
  }

  lemma ModBelow(x: nat, m: nat)
    requires m > 0
    ensures x % m <= x && x % m < m
  {
  }

  /** `readULEB128`'s do-while loop, from a state with `bitsRead` bits already read. */
  function UlebLoop(s: seq<byte>, pos: nat, result: nat, bitsRead: nat): (r: Decoded<nat>)
    requires pos <= |s| && bitsRead % 7 == 0 && bitsRead <= 70 && result < Pow2(bitsRead)
    ensures Advances(s, pos, r)
    ensures r.Done? ==> r.value < TWO_64 && pos < r.next
    ensures r.Fail? ==> r.error == NumberTooLarge(70)
    decreases 70 - bitsRead
  {
    SevenBitGroups(bitsRead);
    if bitsRead > 64 then Fail(NumberTooLarge(bitsRead))
    else
      var b := Read(s, pos);
      var result' := UlebStep(result, b.value, bitsRead);
      if Continues(b.value) then UlebLoop(s, b.next, result', bitsRead + 7)
      else Done(result', b.next)
  }

  /** The shift counts the loop can reach: multiples of 7, the last one 70. */
  lemma SevenBitGroups(bitsRead: nat)
    requires bitsRead % 7 == 0 && bitsRead <= 70
    ensures bitsRead > 64 ==> bitsRead == 70
    ensures bitsRead <= 64 ==> (bitsRead + 7) % 7 == 0 && bitsRead + 7 <= 70
  {
  }

  /** `readULEB128()`. */
  function Uleb(s: seq<byte>, pos: nat): Decoded<nat>
    requires pos <= |s|
  {
    UlebLoop(s, pos, 0, 0)
  }

  /** The standard ULEB128 encoding: low groups first, the high bit set on every byte but the last. */
  function UlebEncode(n: nat): (b: seq<byte>)
    ensures |b| >= 1
    decreases n
  {
    if n < 128 then [n] else [128 + n % 128] + UlebEncode(n / 128)
  }

  /** The arithmetic of one decoding step over the first byte of an encoding. */
  lemma UlebStepOfEncoding(acc: nat, k: nat, m: nat)
    requires acc < Pow2(7 * k) && acc + m * Pow2(7 * k) < TWO_64
    ensures UlebStep(acc, UlebEncode(m)[0], 7 * k) == acc + (m % 128) * Pow2(7 * k)
  {
    var P := Pow2(7 * k);
    Low7OfEncoding(m);
    MulLe(m % 128, m, P);
    NoWrap(acc + (m % 128) * P);
  }

  /** The low seven bits of an encoding's first byte are the number's lowest group. */
  lemma Low7OfEncoding(m: nat)
    ensures Low7(UlebEncode(m)[0]) == m % 128
  {
  }

  lemma NoWrap(x: nat)
    requires x < TWO_64
    ensures x % TWO_64 == x
  {
  }

  lemma UlebCarry(acc: nat, k: nat, m: nat)
    requires m >= 128
    ensures acc + (m % 128) * Pow2(7 * k) + (m / 128) * Pow2(7 * (k + 1)) == acc + m * Pow2(7 * k)
  {
    var P := Pow2(7 * k);
    var q := m / 128;
    Pow2Add(7 * k, 7);
    assert Pow2(7) == 128;
    assert Pow2(7 * (k + 1)) == 128 * P;
    assert q * (128 * P) == (q * 128) * P;
    assert (m % 128) * P + (q * 128) * P == (m % 128 + q * 128) * P;
  }

  /** A value below 2^64 with a non-zero group at `7 * k` bits has `k` at most 9. */
  lemma UlebGroupBound(acc: nat, k: nat, m: nat)
    requires acc + m * Pow2(7 * k) < TWO_64 && m >= 1
    ensures k <= 9
  {
    MulLe(1, m, Pow2(7 * k));
    if k > 9 {
      Pow2Long();
      Pow2Monotone(64, 7 * k);
    }
  }

  lemma {:induction false} UlebLoopDecodesEncoding(s: seq<byte>, pos: nat, acc: nat, k: nat, m: nat)
    requires pos + |UlebEncode(m)| <= |s| && s[pos..pos + |UlebEncode(m)|] == UlebEncode(m)
    requires k <= 9 && acc < Pow2(7 * k)
    requires acc + m * Pow2(7 * k) < TWO_64
    ensures UlebLoop(s, pos, acc, 7 * k) == Done(acc + m * Pow2(7 * k), pos + |UlebEncode(m)|)
    decreases m
  {
    var e := UlebEncode(m);
    assert s[pos] == e[0];
    UlebStepOfEncoding(acc, k, m);
    var acc' := acc + (m % 128) * Pow2(7 * k);
    if m >= 128 {
      UlebCarry(acc, k, m);
      var q := m / 128;
      assert Continues(s[pos]);
      assert e[1..] == UlebEncode(q);
      assert s[pos + 1..pos + 1 + |UlebEncode(q)|] == UlebEncode(q);
      UlebGroupBound(acc', k + 1, q);
      UlebLoopDecodesEncoding(s, pos + 1, acc', k + 1, q);
    }
  }

  /** Decoding the standard encoding of any 64-bit unsigned value gives the value back. */
  lemma UlebRoundTrip(n: nat, rest: seq<byte>)
    requires n < TWO_64
    ensures Uleb(UlebEncode(n) + rest, 0) == Done(n, |UlebEncode(n)|)
  {
    var s := UlebEncode(n) + rest;
    assert s[0..|UlebEncode(n)|] == UlebEncode(n);
    assert Pow2(0) == 1;
    UlebLoopDecodesEncoding(s, 0, 0, 0, n);
  }

  lemma {:induction false} UlebLoopRejectsLongRuns(s: seq<byte>, pos: nat, result: nat, k: nat)
    requires pos <= |s| && k <= 10 && result < Pow2(7 * k)
    requires forall j :: pos <= j < |s| && j < pos + (10 - k) ==> s[j] >= 128
    ensures UlebLoop(s, pos, result, 7 * k) == Fail(NumberTooLarge(70))
    decreases 10 - k
  {
    if k < 10 {
      var b := Read(s, pos);
      assert Continues(b.value);
      UlebLoopRejectsLongRuns(s, b.next, UlebStep(result, b.value, 7 * k), k + 1);
    }
  }

  /**
    Ten bytes that all carry the continuation bit, possibly cut short by the end of the
    stream (where `read()` gives -1), make `readULEB128` throw: it reads at most ten bytes.
   */
  lemma UlebRejectsLongRuns(s: seq<byte>, pos: nat)
    requires pos <= |s|
    requires forall j :: pos <= j < |s| && j < pos + 10 ==> s[j] >= 128
    ensures Uleb(s, pos) == Fail(NumberTooLarge(70))
  {
    UlebLoopRejectsLongRuns(s, pos, 0, 0);
  }

  // ---------------------------------------------------------------------------
  // Strings, int-float pairs, timestamps, counted sequences
  // ---------------------------------------------------------------------------

  /** `readString()`: null on indicator 0x00; on 0x0B a ULEB128 length then that many UTF-8 bytes. */
  function ReadString(s: seq<byte>, pos: nat): (r: Decoded<Option<seq<byte>>>)
    requires pos <= |s|
    ensures Advances(s, pos, r)
    ensures pos == |s| ==> r == Fail(IllegalStringIndicator(-1))
    ensures pos < |s| && s[pos] == 0x00 ==> r == Done(None, pos + 1)
    ensures pos < |s| && s[pos] != 0x00 && s[pos] != 0x0B ==> r == Fail(IllegalStringIndicator(s[pos]))
  {
    var ind := Read(s, pos);
    if ind.value == 0x00 then Done(None, ind.next)
    else if ind.value != 0x0B then Fail(IllegalStringIndicator(ind.value))
    else
      match Uleb(s, ind.next)
      case Fail(e) => Fail(e)
      case Done(len, p) =>
        if len > INT_MAX then Fail(StringTooLong(len))
        else
          var payload := ReadNBytes(s, p, len);
          Done(Some(payload.value), payload.next)
  }

  /**
    After the 0x0B indicator, `readString` fails as the ULEB128 length does, rejects a
    length above `Int.MAX_VALUE`, and otherwise yields the next `length` bytes, truncated
    at the end of the file, and stops after them.
   */
  lemma ReadStringPayload(s: seq<byte>, pos: nat)
    requires pos < |s| && s[pos] == 0x0B
    ensures var r := ReadString(s, pos);
            match Uleb(s, pos + 1)
            case Fail(e) => r == Fail(e)
            case Done(len, p) =>
              && (len > INT_MAX ==> r == Fail(StringTooLong(len)))
              && (len <= INT_MAX ==> var e := if p + len <= |s| then p + len else |s|;
                                       p <= e && r == Done(Some(s[p..e]), e))
  {
  }

  /** `skipString()`: the same reads as `readString()`, with the payload skipped. */
  function SkipString(s: seq<byte>, pos: nat): (r: Decoded<()>)
    requires pos <= |s|
  {
    var ind := Read(s, pos);
    if ind.value == 0x00 then Done((), ind.next)
    else if ind.value != 0x0B then Fail(IllegalStringIndicator(ind.value))
    else
      match Uleb(s, ind.next)
      case Fail(e) => Fail(e)
      case Done(len, p) =>
        if len > INT_MAX then Fail(StringTooLong(len))
        else Done((), SkipBytes(s, p, len))
  }

  /** `skipString` consumes exactly the bytes `readString` consumes and fails exactly when it fails. */
  lemma SkipStringMatchesReadString(s: seq<byte>, pos: nat)
    requires pos <= |s|
    ensures SkipString(s, pos).Done? <==> ReadString(s, pos).Done?
    ensures SkipString(s, pos).Done? ==> SkipString(s, pos).next == ReadString(s, pos).next
    ensures SkipString(s, pos).Fail? ==> SkipString(s, pos).error == ReadString(s, pos).error
  {
  }

  /** A present string as the format spells it: 0x0B, its ULEB128 length, its bytes. */
  function EncodeString(payload: seq<byte>): seq<byte> {
    [0x0B] + UlebEncode(|payload|) + payload
  }

  lemma ReadStringRoundTrip(payload: seq<byte>, rest: seq<byte>)
    requires |payload| <= INT_MAX
    ensures ReadString(EncodeString(payload) + rest, 0) == Done(Some(payload), |EncodeString(payload)|)
  {
    var s := EncodeString(payload) + rest;
    var len := UlebEncode(|payload|);
    assert Pow2(0) == 1;
    assert s[1..1 + |len|] == len;
    UlebLoopDecodesEncoding(s, 1, 0, 0, |payload|);
    assert s[1 + |len|..1 + |len| + |payload|] == payload;
  }

  /** `IntFloatPair`: the float is kept as its bit pattern. */
  datatype IntFloatPair = IntFloatPair(i: int, fbits: nat)

  /** `readIntFloatPair()`: 0x08, an Int, 0x0C, a Float; a wrong tag byte throws, naming that byte. */
  function ReadIntFloatPair(s: seq<byte>, pos: nat): (r: Decoded<IntFloatPair>)
    requires pos <= |s|
    ensures r.Done? <==> pos + 10 <= |s| && s[pos] == 0x08 && s[pos + 5] == 0x0C
    ensures r.Done? ==> r.next == pos + 10
    ensures r.Done? ==> r.value == IntFloatPair(Signed(LE(s[pos + 1..pos + 5]), 32), LE(s[pos + 6..pos + 10]))
    ensures pos < |s| && s[pos] != 0x08 ==> r == Fail(IllegalPairIndicator(Signed(s[pos], 8)))
    ensures pos + 6 <= |s| && s[pos] == 0x08 && s[pos + 5] != 0x0C ==> r == Fail(IllegalPairIndicator(Signed(s[pos + 5], 8)))
  {
    assert Pow2(8) == 256 && Pow2(7) == 128;
    match ReadI8(s, pos)
    case Fail(e) => Fail(e)
    case Done(intTag, p1) =>
      assert LE(s[pos..pos + 1]) == s[pos];
      if intTag != 0x08 then Fail(IllegalPairIndicator(intTag))
      else
        match ReadI32(s, p1)
        case Fail(e) => Fail(e)
        case Done(i, p2) =>
          match ReadI8(s, p2)
          case Fail(e) => Fail(e)
          case Done(floatTag, p3) =>
            assert LE(s[p2..p2 + 1]) == s[p2];
            if floatTag != 0x0C then Fail(IllegalPairIndicator(floatTag))
            else
              match ReadF32(s, p3)
              case Fail(e) => Fail(e)
              case Done(f, p4) => Done(IntFloatPair(i, f), p4)
  }

  /** The bytes `08 2A 00 00 00 0C 00 00 80 3F` are the pair (42, 1.0f). */
  lemma ReadIntFloatPairExample()
    ensures ReadIntFloatPair([0x08, 0x2A, 0, 0, 0, 0x0C, 0, 0, 0x80, 0x3F], 0) == Done(IntFloatPair(42, 0x3F80_0000), 10)
  {
    var s: seq<byte> := [0x08, 0x2A, 0, 0, 0, 0x0C, 0, 0, 0x80, 0x3F];
    assert s[1..5] == [0x2A, 0, 0, 0];
    assert LE([0x2A, 0, 0, 0]) == 42;
    assert s[6..10] == [0, 0, 0x80, 0x3F];
    assert LE([0, 0, 0x80, 0x3F]) == 0x3F80_0000;
    TwosComplement32(42);
  }

  /** With 0x09 in place of the int tag the pair is refused, naming 9. */
  lemma ReadIntFloatPairWrongTag()
    ensures ReadIntFloatPair([0x09, 0x2A, 0, 0, 0, 0x0C, 0, 0, 0x80, 0x3F], 0) == Fail(IllegalPairIndicator(9))
  {
    Pow2Byte();
  }

  /** A pair spelled in the format's layout decodes to itself. */
  lemma ReadIntFloatPairRoundTrip(i: int, fbits: nat, rest: seq<byte>)
    requires INT_MIN <= i <= INT_MAX && fbits < Pow2(32)
    ensures var u := if i < 0 then i + 0x1_0000_0000 else i;
            ReadIntFloatPair([0x08] + EncodeLE(u, 4) + [0x0C] + EncodeLE(fbits, 4) + rest, 0)
              == Done(IntFloatPair(i, fbits), 10)
  {
    var u: nat := if i < 0 then i + 0x1_0000_0000 else i;
    TwosComplement32(i);
    PairLayout(u, fbits, rest);
  }

  /** The 32-bit two's-complement spelling of an Int reads back as that Int. */
  lemma TwosComplement32(i: int)
    requires INT_MIN <= i <= INT_MAX
    ensures var u := if i < 0 then i + 0x1_0000_0000 else i;
      0 <= u < Pow2(32) && Signed(u, 32) == i
  {
    Pow2Int();
  }

  /** The pair's layout puts the tags at offsets 0 and 5 and the two numbers after them. */
  lemma PairLayout(u: nat, fbits: nat, rest: seq<byte>)
    requires u < Pow2(32) && fbits < Pow2(32)
    ensures var s := [0x08] + EncodeLE(u, 4) + [0x0C] + EncodeLE(fbits, 4) + rest;
      |s| >= 10 && s[0] == 0x08 && s[5] == 0x0C && LE(s[1..5]) == u && LE(s[6..10]) == fbits
  {
    LEOfEncodeLE(u, 4);
    LEOfEncodeLE(fbits, 4);
    PairSlices(EncodeLE(u, 4), EncodeLE(fbits, 4), rest);
  }

  /** Where the two four-byte halves sit in the ten bytes of a pair. */
  lemma PairSlices(a: seq<byte>, b: seq<byte>, rest: seq<byte>)
    requires |a| == 4 && |b| == 4
    ensures var s := [0x08] + a + [0x0C] + b + rest;
      |s| >= 10 && s[0] == 0x08 && s[5] == 0x0C && s[1..5] == a && s[6..10] == b
  {
    var s := [0x08] + a + [0x0C] + b + rest;
    assert s[1..5] == a;
    assert s[6..10] == b;
  }

  /** Milliseconds between 0001-01-01T00:00:00Z and the Unix epoch. */
  const UNIX_EPOCH_MILLISECONDS: int := 62135596800000

  /**
    `fromWindowsTicks`: 10000 ticks of 100 ns make a millisecond; the Long division rounds toward zero.
    The result is the epoch millisecond that holds the tick (for ticks before year 1, the one after it).
   */
  function FromWindowsTicks(ticks: int): (ms: int)
    ensures ticks >= 0 ==> (ms + UNIX_EPOCH_MILLISECONDS) * 10000 <= ticks < (ms + UNIX_EPOCH_MILLISECONDS) * 10000 + 10000
    ensures ticks < 0 ==> (ms + UNIX_EPOCH_MILLISECONDS) * 10000 - 10000 < ticks <= (ms + UNIX_EPOCH_MILLISECONDS) * 10000
  {
    DivTrunc(ticks, 10000) - UNIX_EPOCH_MILLISECONDS
  }

  lemma FromWindowsTicksExamples()
    ensures FromWindowsTicks(621355968000000000) == 0
    ensures FromWindowsTicks(0) == -UNIX_EPOCH_MILLISECONDS
    ensures FromWindowsTicks(-9999) == -UNIX_EPOCH_MILLISECONDS
  {
  }

  /** `readDateTime()`: a Long of ticks, converted to epoch milliseconds. */
  function ReadDateTime(s: seq<byte>, pos: nat): Decoded<int>
    requires pos <= |s|
  {
    match ReadI64(s, pos)
    case Fail(e) => Fail(e)
    case Done(t, p) => Done(FromWindowsTicks(t), p)
  }

  /**
    The loop of `readMany` from index `i` on: `builder(i, count, pos)` for each `i` below `count`,
    in order, each starting where the previous one stopped.
   */
  function ReadManyFrom<R>(s: seq<byte>, pos: nat, count: int, i: nat, acc: seq<R>,
                           builder: (nat, int, nat) -> Decoded<R>): (r: Decoded<seq<R>>)
    requires pos <= |s|
    requires forall j: nat, p: nat :: p <= |s| ==> Advances(s, p, builder(j, count, p))
    ensures Advances(s, pos, r)
    ensures r.Done? ==> |r.value| == |acc| + Max(count - i, 0) && r.value[..|acc|] == acc
    decreases count - i
  {
    if i >= count then Done(acc, pos)
    else
      match builder(i, count, pos)
      case Fail(e) => Fail(e)
      case Done(v, p) =>
        assert Advances(s, pos, builder(i, count, pos));
        ReadManyFrom(s, p, count, i + 1, acc + [v], builder)
  }

  /** `readMany(builder)`: an Int count, then the builder once per index. */
  function ReadMany<R>(s: seq<byte>, pos: nat, builder: (nat, int, nat) -> Decoded<R>): (r: Decoded<seq<R>>)
    requires pos <= |s|
    requires forall j: nat, c: int, p: nat :: p <= |s| ==> Advances(s, p, builder(j, c, p))
    ensures Advances(s, pos, r)
  {
    match ReadI32(s, pos)
    case Fail(e) => Fail(e)
    case Done(count, p) => ReadManyFrom(s, p, count, 0, [], builder)
  }

  /** The result of `readMany` has one element per index below the count, none for a count below one. */
  lemma ReadManyLength<R>(s: seq<byte>, pos: nat, builder: (nat, int, nat) -> Decoded<R>)
    requires pos <= |s|
    requires forall j: nat, c: int, p: nat :: p <= |s| ==> Advances(s, p, builder(j, c, p))
    ensures var r := ReadMany(s, pos, builder);
            r.Done? ==> ReadI32(s, pos).Done? && |r.value| == Max(ReadI32(s, pos).value, 0)
  {
  }
}
