/**
  The little-endian input stream the decoder reads from, and the stream readers the
  decoder adds to it. Each method advances the shared cursor and is proved to behave
  as the matching pure reader of `Wire` applied at the cursor it started from.
 */
module Streams {
  import opened Common
  import opened Wire

  /** A little-endian data input stream over an in-memory file. */
  class Stream {
    const bytes: seq<byte>
    var pos: nat

    ghost predicate Valid()
      reads this
    {
      pos <= |bytes|
    }

    constructor (bytes: seq<byte>)
      ensures Valid() && this.bytes == bytes && pos == 0
    {
      this.bytes := bytes;
      pos := 0;
    }

    /** `read()`: the next byte, or -1 once the stream is exhausted. */
    method Read() returns (b: int)
      requires Valid()
      modifies this
      ensures Valid() && Done(b, pos) == Wire.Read(bytes, old(pos))
    {
      if pos < |bytes| {
        b := bytes[pos];
        pos := pos + 1;
      } else {
        b := -1;
      }
    }

    /** `n` bytes as an unsigned little-endian number; a short read exhausts the stream and throws. */
    method ReadLE(n: nat) returns (r: Result<nat, DecodeError>)
      requires Valid()
      modifies this
      ensures Valid() && Tie(r, pos) == Wire.ReadLE(bytes, old(pos), n)
    {
      if pos + n <= |bytes| {
        r := Ok(LE(bytes[pos..pos + n]));
        pos := pos + n;
      } else {
        r := Err(EndOfStream);
        pos := |bytes|;
      }
    }

    method ReadSigned(n: nat) returns (r: Result<int, DecodeError>)
      requires Valid() && 0 < n
      modifies this
      ensures Valid() && Tie(r, pos) == Wire.ReadSigned(bytes, old(pos), n)
    {
      var u := ReadLE(n);
      match u
      case Ok(v) => r := Ok(Signed(v, 8 * n));
      case Err(e) => r := Err(e);
    }

    method ReadByte() returns (r: Result<int, DecodeError>)
      requires Valid()
      modifies this
      ensures Valid() && Tie(r, pos) == ReadI8(bytes, old(pos))
    {
      r := ReadSigned(1);
    }

    method ReadShort() returns (r: Result<int, DecodeError>)
      requires Valid()
      modifies this
      ensures Valid() && Tie(r, pos) == ReadI16(bytes, old(pos))
    {
      r := ReadSigned(2);
    }

    method ReadInt() returns (r: Result<int, DecodeError>)
      requires Valid()
      modifies this
      ensures Valid() && Tie(r, pos) == ReadI32(bytes, old(pos))
    {
      r := ReadSigned(4);
    }

    method ReadLong() returns (r: Result<int, DecodeError>)
      requires Valid()
      modifies this
      ensures Valid() && Tie(r, pos) == ReadI64(bytes, old(pos))
    {
      r := ReadSigned(8);
    }

    method ReadFloat() returns (r: Result<nat, DecodeError>)
      requires Valid()
      modifies this
      ensures Valid() && Tie(r, pos) == ReadF32(bytes, old(pos))
    {
      r := ReadLE(4);
    }

    method ReadDouble() returns (r: Result<nat, DecodeError>)
      requires Valid()
      modifies this
      ensures Valid() && Tie(r, pos) == ReadF64(bytes, old(pos))
    {
      r := ReadLE(8);
    }

    method ReadBoolean() returns (r: Result<bool, DecodeError>)
      requires Valid()
      modifies this
      ensures Valid() && Tie(r, pos) == ReadBool(bytes, old(pos))
    {
      var u := ReadLE(1);
      match u
      case Ok(v) => r := Ok(v != 0);
      case Err(e) => r := Err(e);
    }

    /** `readNBytes(n)`: up to `n` bytes; a negative `n` throws. */
    method ReadNBytes(n: int) returns (r: Result<seq<byte>, DecodeError>)
      requires Valid()
      modifies this
      ensures Valid() && Tie(r, pos) == Wire.ReadNBytes(bytes, old(pos), n)
    {
      if n < 0 {
        r := Err(NegativeLength(n));
      } else {
        var e := if pos + n <= |bytes| then pos + n else |bytes|;
        r := Ok(bytes[pos..e]);
        pos := e;
      }
    }

    /** `skipBytes(n)`: skips up to `n` bytes and returns how many it skipped. */
    method SkipBytes(n: nat) returns (skipped: nat)
      requires Valid()
      modifies this
      ensures Valid() && pos == Wire.SkipBytes(bytes, old(pos), n) && skipped == pos - old(pos)
    {
      var e := if pos + n <= |bytes| then pos + n else |bytes|;
      skipped := e - pos;
      pos := e;
    }
  }

  /** `readULEB128()`: the do-while loop, with the OR written as in `UlebStep`. */
  method ReadULEB128(st: Stream) returns (r: Result<nat, DecodeError>)
    requires st.Valid()
    modifies st
    ensures st.Valid() && Tie(r, st.pos) == Uleb(st.bytes, old(st.pos))
  {
    var result: nat := 0;
    var bitsRead: nat := 0;
    while true
      invariant st.Valid() && bitsRead % 7 == 0 && bitsRead <= 70 && result < Pow2(bitsRead)
      invariant UlebLoop(st.bytes, st.pos, result, bitsRead) == Uleb(st.bytes, old(st.pos))
      decreases 70 - bitsRead
    {
      if bitsRead > 64 {
        return Err(NumberTooLarge(bitsRead));
      }
      var b := st.Read();
      result := UlebStep(result, b, bitsRead);
      bitsRead := bitsRead + 7;
      if !Continues(b) {
        return Ok(result);
      }
    }
  }

  /** `readString()`: the payload bytes, or None for the null indicator. */
  method ReadString(st: Stream) returns (r: Result<Option<seq<byte>>, DecodeError>)
    requires st.Valid()
    modifies st
    ensures st.Valid() && Tie(r, st.pos) == Wire.ReadString(st.bytes, old(st.pos))
  {
    var indicator := st.Read();
    if indicator == 0x00 {
      return Ok(None);
    }
    if indicator != 0x0B {
      return Err(IllegalStringIndicator(indicator));
    }
    var length := ReadULEB128(st);
    match length
    case Err(e) => r := Err(e);
    case Ok(len) =>
      if len > INT_MAX {
        r := Err(StringTooLong(len));
      } else {
        var payload := st.ReadNBytes(len);
        r := Ok(Some(payload.value));
      }
  }

  /** `skipString()`. */
  method SkipString(st: Stream) returns (r: Result<(), DecodeError>)
    requires st.Valid()
    modifies st
    ensures st.Valid() && Tie(r, st.pos) == Wire.SkipString(st.bytes, old(st.pos))
  {
    var indicator := st.Read();
    if indicator == 0x00 {
      return Ok(());
    }
    if indicator != 0x0B {
      return Err(IllegalStringIndicator(indicator));
    }
    var length := ReadULEB128(st);
    match length
    case Err(e) => r := Err(e);
    case Ok(len) =>
      if len > INT_MAX {
        r := Err(StringTooLong(len));
      } else {
        var _ := st.SkipBytes(len);
        r := Ok(());
      }
  }

  /** `readIntFloatPair()`. */
  method ReadIntFloatPair(st: Stream) returns (r: Result<IntFloatPair, DecodeError>)
    requires st.Valid()
    modifies st
    ensures st.Valid() && Tie(r, st.pos) == Wire.ReadIntFloatPair(st.bytes, old(st.pos))
  {
    var intIndicator := st.ReadByte();
    if intIndicator.Err? {
      return Err(intIndicator.error);
    }
    if intIndicator.value != 0x08 {
      return Err(IllegalPairIndicator(intIndicator.value));
    }
    var i := st.ReadInt();
    if i.Err? {
      return Err(i.error);
    }
    var floatIndicator := st.ReadByte();
    if floatIndicator.Err? {
      return Err(floatIndicator.error);
    }
    if floatIndicator.value != 0x0C {
      return Err(IllegalPairIndicator(floatIndicator.value));
    }
    var f := st.ReadFloat();
    if f.Err? {
      return Err(f.error);
    }
    r := Ok(IntFloatPair(i.value, f.value));
  }

  /** `readDateTime()`: a tick count converted to epoch milliseconds. */
  method ReadDateTime(st: Stream) returns (r: Result<int, DecodeError>)
    requires st.Valid()
    modifies st
    ensures st.Valid() && Tie(r, st.pos) == Wire.ReadDateTime(st.bytes, old(st.pos))
  {
    var ticks := st.ReadLong();
    match ticks
    case Err(e) => r := Err(e);
    case Ok(t) => r := Ok(FromWindowsTicks(t));
  }
}
