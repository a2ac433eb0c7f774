/**
  The decoder as it runs: `parse` and the deserializers advance one shared stream, and a
  LazySeq keeps its raw buffer until its value is first asked for. Each method is proved
  to do what the pure definitions of `Decoding` say.
 */
module Parser {
  import opened Common
  import opened Wire
  import opened Schema
  import opened Decoding
  import opened Streams

  /** `parse(type, bytes)`: the registry first, otherwise the primary constructor's parameters in order. */
  method Parse(reg: Registry, ty: Ty, st: Stream) returns (r: Result<Value, DecodeError>)
    requires st.Valid()
    modifies st
    ensures st.Valid() && Tie(r, st.pos) == Decoding.Parse(reg, ty, st.bytes, old(st.pos))
    decreases ty, 2
  {
    if ty.cls.name in reg {
      var decoded := Deserialize(reg, reg[ty.cls.name], ty, st);
      if decoded.Ok? && decoded.value == VNull && !ty.nullable {
        return Err(UnexpectedNull);
      }
      return decoded;
    }
    match ty.cls.ctor
    case Absent =>
      r := Err(NoPrimaryConstructor);
    case Primary(params) =>
      var args: seq<Value> := [];
      var i := 0;
      while i < |params|
        invariant 0 <= i <= |params| && st.Valid()
        invariant ParseFields(reg, ty, i, args, st.bytes, st.pos) == ParseFields(reg, ty, 0, [], st.bytes, old(st.pos))
      {
        assert params[i] in params;
        var a := Parse(reg, params[i], st);
        if a.Err? {
          return Err(a.error);
        }
        args := args + [a.value];
        i := i + 1;
      }
      r := Ok(VRecord(ty.cls.name, args));
  }

  /** `readMany { _, _ -> parse(elem, this) }` after its count has been read. */
  method ParseCounted(reg: Registry, elem: Ty, count: int, st: Stream) returns (r: Result<seq<Value>, DecodeError>)
    requires st.Valid()
    modifies st
    ensures st.Valid() && Tie(r, st.pos) == ParseMany(reg, elem, count, 0, [], st.bytes, old(st.pos))
    decreases elem, 3
  {
    var buffer: seq<Value> := [];
    var i := 0;
    while i < count
      invariant st.Valid() && |buffer| == i
      invariant ParseMany(reg, elem, count, i, buffer, st.bytes, st.pos) == ParseMany(reg, elem, count, 0, [], st.bytes, old(st.pos))
      decreases count - i
    {
      var e := Parse(reg, elem, st);
      if e.Err? {
        return Err(e.error);
      }
      buffer := buffer + [e.value];
      i := i + 1;
    }
    r := Ok(buffer);
  }

  /** The `decode` method of each built-in deserializer. */
  method Deserialize(reg: Registry, d: Deserializer, ty: Ty, st: Stream) returns (r: Result<Value, DecodeError>)
    requires st.Valid()
    modifies st
    ensures st.Valid() && Tie(r, st.pos) == Decoding.Deserialize(reg, d, ty, st.bytes, old(st.pos))
    decreases ty, 1
  {
    match d {
      case DByte =>
        var x := st.ReadByte();
        r := if x.Ok? then Ok(VByte(x.value)) else Err(x.error);
      case DShort =>
        var x := st.ReadShort();
        r := if x.Ok? then Ok(VShort(x.value)) else Err(x.error);
      case DInt =>
        var x := st.ReadInt();
        r := if x.Ok? then Ok(VInt(x.value)) else Err(x.error);
      case DLong =>
        var x := st.ReadLong();
        r := if x.Ok? then Ok(VLong(x.value)) else Err(x.error);
      case DFloat =>
        var x := st.ReadFloat();
        r := if x.Ok? then Ok(VFloat(x.value)) else Err(x.error);
      case DDouble =>
        var x := st.ReadDouble();
        r := if x.Ok? then Ok(VDouble(x.value)) else Err(x.error);
      case DBoolean =>
        var x := st.ReadBoolean();
        r := if x.Ok? then Ok(VBool(x.value)) else Err(x.error);
      case DString =>
        var x := Streams.ReadString(st);
        r := if x.Err? then Err(x.error) else if x.value.None? then Ok(VNull) else Ok(VString(x.value.value));
      case DIntFloatPair =>
        var x := Streams.ReadIntFloatPair(st);
        r := if x.Ok? then Ok(VPair(x.value.i, x.value.fbits)) else Err(x.error);
      case DInstant =>
        var x := Streams.ReadDateTime(st);
        r := if x.Ok? then Ok(VInstant(x.value)) else Err(x.error);
      case DModStarCache =>
        var pair := Streams.ReadIntFloatPair(st);
        r := if pair.Ok? then Ok(VModStarCache(pair.value.i, pair.value.fbits)) else Err(pair.error);
      case DByteArray =>
        r := DeserializeByteArray(st);
      case DImmutableSeq =>
        r := DeserializeImmutableSeq(reg, ty, st);
      case DLazySeq =>
        r := DeserializeLazySeq(ty, st);
    }
  }

  /** The byte-array deserializer: a length, -1 for null, then that many bytes. */
  method DeserializeByteArray(st: Stream) returns (r: Result<Value, DecodeError>)
    requires st.Valid()
    modifies st
    ensures st.Valid() && Tie(r, st.pos) == Decoding.DeserializeByteArray(st.bytes, old(st.pos))
  {
    var length := st.ReadInt();
    if length.Err? {
      return Err(length.error);
    }
    if length.value == -1 {
      return Ok(VNull);
    }
    var b := st.ReadNBytes(length.value);
    r := if b.Ok? then Ok(VBytes(b.value)) else Err(b.error);
  }

  /** The ImmutableSeq deserializer: a count, then that many elements of the type argument. */
  method DeserializeImmutableSeq(reg: Registry, ty: Ty, st: Stream) returns (r: Result<Value, DecodeError>)
    requires st.Valid()
    modifies st
    ensures st.Valid() && Tie(r, st.pos) == Decoding.DeserializeImmutableSeq(reg, ty, st.bytes, old(st.pos))
    decreases ty, 0
  {
    var elemTy := ElementType(ty);
    if elemTy.Err? {
      return Err(elemTy.error);
    }
    var count := st.ReadInt();
    if count.Err? {
      return Err(count.error);
    }
    var elems := ParseCounted(reg, elemTy.value, count.value, st);
    r := if elems.Ok? then Ok(VSeq(elems.value)) else Err(elems.error);
  }

  /** The LazySeq deserializer: a count, then count times the element's `@Sized` width of raw bytes. */
  method DeserializeLazySeq(ty: Ty, st: Stream) returns (r: Result<Value, DecodeError>)
    requires st.Valid()
    modifies st
    ensures st.Valid() && Tie(r, st.pos) == Decoding.DeserializeLazySeq(ty, st.bytes, old(st.pos))
  {
    var elemTy := ElementType(ty);
    if elemTy.Err? {
      return Err(elemTy.error);
    }
    var sized := elemTy.value.cls.sized;
    if sized.None? {
      return Err(NotSized);
    }
    var count := st.ReadInt();
    if count.Err? {
      return Err(count.error);
    }
    var totalSize := Wrap32(count.value * sized.value);
    var buffer := st.ReadNBytes(totalSize);
    r := if buffer.Ok? then Ok(VLazy(elemTy.value, count.value, buffer.value)) else Err(buffer.error);
  }

  /**
    A `LazySeq`: the element type, the count and the raw buffer, and a memo cell that is
    empty until the first successful access. `materialisations` counts the times the
    initializer ran.
   */
  class LazySeq {
    const reg: Registry
    const elem: Ty
    const count: int
    const buffer: seq<byte>
    var cached: Option<seq<Value>>
    ghost var materialisations: nat

    ghost predicate Valid()
      reads this
    {
      cached.Some? ==> Materialize(reg, elem, count, buffer) == Ok(cached.value)
    }

    constructor (reg: Registry, elem: Ty, count: int, buffer: seq<byte>)
      ensures Valid() && cached == None && materialisations == 0
      ensures this.reg == reg && this.elem == elem && this.count == count && this.buffer == buffer
    {
      this.reg := reg;
      this.elem := elem;
      this.count := count;
      this.buffer := buffer;
      cached := None;
      materialisations := 0;
    }

    /**
      `value`: the cached elements when there are some; otherwise the initializer runs on a
      fresh stream over the buffer, and its result is kept when it succeeds. A failure is
      not kept, so the next access runs the initializer again.
     */
    method Value() returns (r: Result<seq<Value>, DecodeError>)
      requires Valid()
      modifies this
      ensures Valid()
      ensures r == Materialize(reg, elem, count, buffer)
      ensures old(cached).Some? ==> cached == old(cached) && materialisations == old(materialisations)
      ensures old(cached).None? ==> materialisations == old(materialisations) + 1
      ensures cached == if r.Ok? then Some(r.value) else None
    {
      if cached.Some? {
        return Ok(cached.value);
      }
      materialisations := materialisations + 1;
      var stream := new Stream(buffer);
      var elems := ParseCounted(reg, elem, count, stream);
      if elems.Ok? {
        cached := Some(elems.value);
      }
      r := elems;
    }
  }

  /** Two accesses to a LazySeq give the same result, and the initializer runs at most once when the first succeeds. */
  method AccessTwice(l: LazySeq) returns (first: Result<seq<Value>, DecodeError>, second: Result<seq<Value>, DecodeError>)
    requires l.Valid()
    modifies l
    ensures first == second
    ensures first.Ok? ==> l.materialisations <= old(l.materialisations) + 1
  {
    first := l.Value();
    second := l.Value();
  }
}
