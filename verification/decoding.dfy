/**
  The schema-driven decoder as pure functions: `Parse` dispatches on the registry,
  `Deserialize` is the body of each built-in deserializer, `ParseFields` decodes a
  record's constructor parameters in declaration order and `ParseMany` is the
  counted loop shared by the sequence deserializer and the LazySeq initializer.
 */
module Decoding {
  import opened Common
  import opened Wire
  import opened Schema

  /** Applies `f` to a successful read. */
  function Lift<T>(r: Decoded<T>, f: T -> Value): Decoded<Value> {
    match r
    case Fail(e) => Fail(e)
    case Done(v, p) => Done(f(v), p)
  }

  /** `parse(type, bytes)`. */
  function Parse(reg: Registry, ty: Ty, s: seq<byte>, pos: nat): (r: Decoded<Value>)
    requires pos <= |s|
    ensures Advances(s, pos, r)
    ensures r.Done? && r.value == VNull ==> ty.nullable
    decreases ty, 2
  {
    if ty.cls.name in reg then
      match Deserialize(reg, reg[ty.cls.name], ty, s, pos)
      case Fail(e) => Fail(e)
      case Done(v, p) => if v == VNull && !ty.nullable then Fail(UnexpectedNull) else Done(v, p)
    else
      match ty.cls.ctor
      case Absent => Fail(NoPrimaryConstructor)
      case Primary(params) =>
        match ParseFields(reg, ty, 0, [], s, pos)
        case Fail(e) => Fail(e)
        case Done(fields, p) => Done(VRecord(ty.cls.name, fields), p)
  }

  /** Constructor arguments `i` onwards, each decoded where the previous one stopped. */
  function ParseFields(reg: Registry, ty: Ty, i: nat, acc: seq<Value>, s: seq<byte>, pos: nat): (r: Decoded<seq<Value>>)
    requires pos <= |s| && ty.cls.ctor.Primary? && i <= |ty.cls.ctor.params|
    ensures Advances(s, pos, r)
    ensures r.Done? ==> |r.value| == |acc| + |ty.cls.ctor.params| - i && r.value[..|acc|] == acc
    decreases ty, 1, |ty.cls.ctor.params| - i
  {
    var params := ty.cls.ctor.params;
    if i == |params| then Done(acc, pos)
    else
      assert params[i] in ty.cls.ctor.params;
      match Parse(reg, params[i], s, pos)
      case Fail(e) => Fail(e)
      case Done(v, p) => ParseFields(reg, ty, i + 1, acc + [v], s, p)
  }

  /** The loop `for (i in 0 until count)` appending `parse(elem)`, from index `i`. */
  function ParseMany(reg: Registry, elem: Ty, count: int, i: nat, acc: seq<Value>, s: seq<byte>, pos: nat): (r: Decoded<seq<Value>>)
    requires pos <= |s|
    ensures Advances(s, pos, r)
    ensures r.Done? ==> |r.value| == |acc| + Max(count - i, 0) && r.value[..|acc|] == acc
    decreases elem, 3, count - i
  {
    if i >= count then Done(acc, pos)
    else
      match Parse(reg, elem, s, pos)
      case Fail(e) => Fail(e)
      case Done(v, p) => ParseMany(reg, elem, count, i + 1, acc + [v], s, p)
  }

  /** The single type argument of a generic type, or the error its absence raises. */
  function ElementType(ty: Ty): (r: Result<Ty, DecodeError>)
    ensures r.Ok? ==> r.value < ty
  {
    if |ty.args| == 0 then Err(MissingTypeArgument)
    else
      assert ty.args[0] in ty.args;
      match ty.args[0]
      case Star => Err(StarType)
      case Arg(elem) => Ok(elem)
  }

  /** The body of each built-in deserializer. */
  function Deserialize(reg: Registry, d: Deserializer, ty: Ty, s: seq<byte>, pos: nat): (r: Decoded<Value>)
    requires pos <= |s|
    ensures Advances(s, pos, r)
    decreases ty, 1, 0
  {
    match d
    case DByte => Lift(ReadI8(s, pos), x => VByte(x))
    case DShort => Lift(ReadI16(s, pos), x => VShort(x))
    case DInt => Lift(ReadI32(s, pos), x => VInt(x))
    case DLong => Lift(ReadI64(s, pos), x => VLong(x))
    case DFloat => Lift(ReadF32(s, pos), x => VFloat(x))
    case DDouble => Lift(ReadF64(s, pos), x => VDouble(x))
    case DBoolean => Lift(ReadBool(s, pos), x => VBool(x))
    case DString => Lift(ReadString(s, pos), (o: Option<seq<byte>>) => if o.None? then VNull else VString(o.value))
    case DIntFloatPair => Lift(ReadIntFloatPair(s, pos), (p: IntFloatPair) => VPair(p.i, p.fbits))
    case DInstant => Lift(ReadDateTime(s, pos), x => VInstant(x))
    case DModStarCache => Lift(ReadIntFloatPair(s, pos), (p: IntFloatPair) => VModStarCache(p.i, p.fbits))
    case DByteArray => DeserializeByteArray(s, pos)
    case DImmutableSeq => DeserializeImmutableSeq(reg, ty, s, pos)
    case DLazySeq => DeserializeLazySeq(ty, s, pos)
  }

  /** The byte-array deserializer: a length, -1 for null, then that many bytes. */
  function DeserializeByteArray(s: seq<byte>, pos: nat): (r: Decoded<Value>)
    requires pos <= |s|
    ensures Advances(s, pos, r)
  {
    match ReadI32(s, pos)
    case Fail(e) => Fail(e)
    case Done(length, p) =>
      if length == -1 then Done(VNull, p)
      else Lift(ReadNBytes(s, p, length), b => VBytes(b))
  }

  /** The ImmutableSeq deserializer: a count, then that many elements of the type argument. */
  function DeserializeImmutableSeq(reg: Registry, ty: Ty, s: seq<byte>, pos: nat): (r: Decoded<Value>)
    requires pos <= |s|
    ensures Advances(s, pos, r)
    decreases ty, 0
  {
    match ElementType(ty)
    case Err(e) => Fail(e)
    case Ok(elem) =>
      match ReadI32(s, pos)
      case Fail(e) => Fail(e)
      case Done(count, p) => Lift(ParseMany(reg, elem, count, 0, [], s, p), elems => VSeq(elems))
  }

  /** The LazySeq deserializer: a count, then count times the element's `@Sized` width of raw bytes. */
  function DeserializeLazySeq(ty: Ty, s: seq<byte>, pos: nat): (r: Decoded<Value>)
    requires pos <= |s|
    ensures Advances(s, pos, r)
  {
    match ElementType(ty)
    case Err(e) => Fail(e)
    case Ok(elem) =>
      if elem.cls.sized.None? then Fail(NotSized)
      else
        match ReadI32(s, pos)
        case Fail(e) => Fail(e)
        case Done(count, p) =>
          Lift(ReadNBytes(s, p, Wrap32(count * elem.cls.sized.value)), buffer => VLazy(elem, count, buffer))
  }

  /** The LazySeq initializer: `count` elements decoded from a fresh stream over the buffer. */
  function Materialize(reg: Registry, elem: Ty, count: int, buffer: seq<byte>): (r: Result<seq<Value>, DecodeError>)
    ensures r.Ok? ==> |r.value| == Max(count, 0)
  {
    match ParseMany(reg, elem, count, 0, [], buffer, 0)
    case Fail(e) => Err(e)
    case Done(elems, _) => Ok(elems)
  }

  // ---------------------------------------------------------------------------
  // Properties
  // ---------------------------------------------------------------------------

  /** A registered type is decoded by its deserializer; a null is refused unless the type is nullable. */
  lemma ParseRegistered(reg: Registry, ty: Ty, s: seq<byte>, pos: nat)
    requires pos <= |s| && ty.cls.name in reg
    ensures var d := Deserialize(reg, reg[ty.cls.name], ty, s, pos);
            Parse(reg, ty, s, pos)
              == if d.Done? && d.value == VNull && !ty.nullable then Fail(UnexpectedNull) else d
  {
  }

  /** An unregistered class without a primary constructor cannot be decoded. */
  lemma ParseNeedsConstructor(reg: Registry, ty: Ty, s: seq<byte>, pos: nat)
    requires pos <= |s| && ty.cls.name !in reg && ty.cls.ctor.Absent?
    ensures Parse(reg, ty, s, pos) == Fail(NoPrimaryConstructor)
  {
  }

  /**
    Where constructor argument `k` of `ty` starts when the record starts at `pos`: the first
    at `pos`, each later one where the previous argument's parse stopped (or where it
    started, if that parse failed, in which case the record fails anyway).
   */
  function FieldPos(reg: Registry, ty: Ty, s: seq<byte>, pos: nat, k: nat): (p: nat)
    requires pos <= |s| && ty.cls.ctor.Primary? && k <= |ty.cls.ctor.params|
    ensures pos <= p <= |s|
  {
    if k == 0 then pos
    else
      var q := FieldPos(reg, ty, s, pos, k - 1);
      match Parse(reg, ty.cls.ctor.params[k - 1], s, q)
      case Done(_, p) => p
      case Fail(_) => q
  }

  /**
    An unregistered class is decoded as its constructor parameters, first to last: the
    record holds one field per parameter, field `k` is what `Parse` gives for parameter
    `k` at `FieldPos(k)`, the position where field `k - 1` stopped, that parse stops at
    `FieldPos(k + 1)`, and the record ends where the last field stopped.
   */
  lemma ParseRecordInOrder(reg: Registry, ty: Ty, s: seq<byte>, pos: nat)
    requires pos <= |s| && ty.cls.name !in reg && ty.cls.ctor.Primary?
    ensures var r := Parse(reg, ty, s, pos);
            var params := ty.cls.ctor.params;
            r.Done? ==> && r.value.VRecord? && r.value.cls == ty.cls.name && |r.value.fields| == |params|
                        && r.next == FieldPos(reg, ty, s, pos, |params|)
                        && forall k {:trigger r.value.fields[k]} :: 0 <= k < |params| ==>
                             Parse(reg, params[k], s, FieldPos(reg, ty, s, pos, k))
                               == Done(r.value.fields[k], FieldPos(reg, ty, s, pos, k + 1))
  {
    var params := ty.cls.ctor.params;
    RecordIsFields(reg, ty, s, pos);
    assert FieldPos(reg, ty, s, pos, 0) == pos;
    FieldsEnd(reg, ty, s, pos, 0, []);
    var r := Parse(reg, ty, s, pos);
    if r.Done? {
      forall k | 0 <= k < |params|
        ensures Parse(reg, params[k], s, FieldPos(reg, ty, s, pos, k))
                  == Done(r.value.fields[k], FieldPos(reg, ty, s, pos, k + 1))
      {
        FieldInOrder(reg, ty, s, pos, 0, [], k);
      }
    }
  }

  /** The record's decoding is its argument list's, wrapped in the class name. */
  lemma RecordIsFields(reg: Registry, ty: Ty, s: seq<byte>, pos: nat)
    requires pos <= |s| && ty.cls.name !in reg && ty.cls.ctor.Primary?
    ensures var r := Parse(reg, ty, s, pos);
            var f := ParseFields(reg, ty, 0, [], s, pos);
            (r.Done? <==> f.Done?) && (r.Done? ==> r == Done(VRecord(ty.cls.name, f.value), f.next))
  {
  }

  /** Decoding the arguments from `i` on, started at `FieldPos(i)`, stops where the last one stopped. */
  lemma {:induction false} FieldsEnd(reg: Registry, ty: Ty, s: seq<byte>, pos: nat, i: nat, acc: seq<Value>)
    requires pos <= |s| && ty.cls.ctor.Primary? && i <= |ty.cls.ctor.params|
    ensures var r := ParseFields(reg, ty, i, acc, s, FieldPos(reg, ty, s, pos, i));
            r.Done? ==> r.next == FieldPos(reg, ty, s, pos, |ty.cls.ctor.params|)
    decreases |ty.cls.ctor.params| - i
  {
    var params := ty.cls.ctor.params;
    if i < |params| {
      match Parse(reg, params[i], s, FieldPos(reg, ty, s, pos, i))
      case Fail(_) =>
      case Done(v, p) =>
        assert FieldPos(reg, ty, s, pos, i + 1) == p;
        FieldsEnd(reg, ty, s, pos, i + 1, acc + [v]);
    }
  }

  /**
    With `acc` the first `i` fields, a successful decoding of the arguments from `i` on
    holds, at each later index `k`, what parameter `k` decodes to at `FieldPos(k)`.
   */
  lemma {:induction false} FieldInOrder(reg: Registry, ty: Ty, s: seq<byte>, pos: nat, i: nat, acc: seq<Value>, k: nat)
    requires pos <= |s| && ty.cls.ctor.Primary? && |acc| == i <= k < |ty.cls.ctor.params|
    ensures var r := ParseFields(reg, ty, i, acc, s, FieldPos(reg, ty, s, pos, i));
            r.Done? ==> Parse(reg, ty.cls.ctor.params[k], s, FieldPos(reg, ty, s, pos, k))
                          == Done(r.value[k], FieldPos(reg, ty, s, pos, k + 1))
    decreases k - i
  {
    var params := ty.cls.ctor.params;
    match Parse(reg, params[i], s, FieldPos(reg, ty, s, pos, i))
    case Fail(_) =>
    case Done(v, p) =>
      assert FieldPos(reg, ty, s, pos, i + 1) == p;
      var r := ParseFields(reg, ty, i + 1, acc + [v], s, p);
      if r.Done? {
        if k == i {
          assert r.value[..|acc| + 1] == acc + [v];
          assert r.value[k] == v;
        } else {
          FieldInOrder(reg, ty, s, pos, i + 1, acc + [v], k);
        }
      }
  }

  /** The counted loop of the sequence deserializer is `readMany` with `parse` as its builder. */
  lemma {:induction false} ParseManyIsReadMany(reg: Registry, elem: Ty, count: int, i: nat, acc: seq<Value>, s: seq<byte>, pos: nat)
    requires pos <= |s|
    ensures ParseMany(reg, elem, count, i, acc, s, pos)
         == ReadManyFrom(s, pos, count, i, acc, ElementBuilder(reg, elem, s))
    decreases count - i
  {
    if i < count {
      match Parse(reg, elem, s, pos)
      case Fail(_) =>
      case Done(v, p) => ParseManyIsReadMany(reg, elem, count, i + 1, acc + [v], s, p);
    }
  }

  /** The builder `{ _, _ -> parse(elemTy, this) }`. */
  function ElementBuilder(reg: Registry, elem: Ty, s: seq<byte>): (b: (nat, int, nat) -> Decoded<Value>)
    ensures forall j: nat, c: int, p: nat :: p <= |s| ==> Advances(s, p, b(j, c, p))
  {
    (j: nat, c: int, p: nat) => if p <= |s| then Parse(reg, elem, s, p) else Fail(EndOfStream)
  }

  /** The LazySeq deserializer refuses an element class without `@Sized`, before reading anything. */
  lemma LazySeqNeedsSized(reg: Registry, ty: Ty, s: seq<byte>, pos: nat)
    requires pos <= |s| && ElementType(ty).Ok? && ElementType(ty).value.cls.sized.None?
    ensures DeserializeLazySeq(ty, s, pos) == Fail(NotSized)
  {
  }

  /**
    The LazySeq deserializer reads the count `n` and then takes `n * @Sized` bytes (as a
    32-bit product) and no more, decoding nothing: the elements come from `Materialize`.
   */
  lemma LazySeqSlurps(reg: Registry, ty: Ty, s: seq<byte>, pos: nat)
    requires pos <= |s| && ElementType(ty).Ok? && ElementType(ty).value.cls.sized.Some?
    requires pos + 4 <= |s|
    ensures var elem := ElementType(ty).value;
            var count := Signed(LE(s[pos..pos + 4]), 32);
            var total := Wrap32(count * elem.cls.sized.value);
            var r := DeserializeLazySeq(ty, s, pos);
            (total < 0 <==> r.Fail?)
            && (r.Done? ==> r.value == VLazy(elem, count, s[pos + 4..r.next])
                            && r.next == if pos + 4 + total <= |s| then pos + 4 + total else |s|)
  {
  }
}

/**
  Fixed-width types, and the `@Sized` contract: a type whose every field has a fixed
  width always consumes exactly that many bytes, so the buffer a LazySeq takes up front
  is exactly what decoding its elements reads.
 */
module Widths {
  import opened Common
  import opened Wire
  import opened Schema
  import opened Decoding

  /** The bytes each built-in deserializer always reads, for those that read a fixed amount. */
  function DeserializerWidth(d: Deserializer): Option<nat> {
    match d
    case DByte => Some(1)
    case DShort => Some(2)
    case DInt => Some(4)
    case DLong => Some(8)
    case DFloat => Some(4)
    case DDouble => Some(8)
    case DBoolean => Some(1)
    case DIntFloatPair => Some(10)
    case DInstant => Some(8)
    case DModStarCache => Some(10)
    case _ => None
  }

  /** The fixed number of bytes a value of `ty` occupies, if it has one. */
  function Width(reg: Registry, ty: Ty): Option<nat>
    decreases ty, 1
  {
    if ty.cls.name in reg then DeserializerWidth(reg[ty.cls.name])
    else
      match ty.cls.ctor
      case Absent => None
      case Primary(_) => FieldsWidth(reg, ty, 0)
  }

  function FieldsWidth(reg: Registry, ty: Ty, i: nat): Option<nat>
    requires ty.cls.ctor.Primary? && i <= |ty.cls.ctor.params|
    decreases ty, 0, |ty.cls.ctor.params| - i
  {
    var params := ty.cls.ctor.params;
    if i == |params| then Some(0)
    else
      assert params[i] in params;
      match Width(reg, params[i])
      case None => None
      case Some(w) =>
        match FieldsWidth(reg, ty, i + 1)
        case None => None
        case Some(rest) => Some(w + rest)
  }

  /** A class's `@Sized` annotation, when present, states the width its values really have. */
  predicate SizedAgrees(reg: Registry, c: Class) {
    c.sized.Some? ==> Width(reg, Plain(c)) == Some(c.sized.value)
  }

  /**
    A fixed-width type consumes exactly its width; when that many bytes are there, the
    only way it can fail is a wrong tag byte of an int-float pair.
   */
  lemma {:induction false} ParseFixedWidth(reg: Registry, ty: Ty, s: seq<byte>, pos: nat)
    requires pos <= |s| && Width(reg, ty).Some?
    ensures var r := Parse(reg, ty, s, pos);
            && (r.Done? ==> r.next == pos + Width(reg, ty).value)
            && (pos + Width(reg, ty).value <= |s| && r.Fail? ==> r.error.IllegalPairIndicator?)
    decreases ty, 1
  {
    if ty.cls.name in reg {
      DeserializeFixedWidth(reg, reg[ty.cls.name], ty, s, pos);
    } else {
      FieldsFixedWidth(reg, ty, 0, [], s, pos);
    }
  }

  lemma DeserializeFixedWidth(reg: Registry, d: Deserializer, ty: Ty, s: seq<byte>, pos: nat)
    requires pos <= |s| && DeserializerWidth(d).Some?
    ensures var r := Deserialize(reg, d, ty, s, pos);
            && (r.Done? ==> r.next == pos + DeserializerWidth(d).value && r.value != VNull)
            && (pos + DeserializerWidth(d).value <= |s| && r.Fail? ==> r.error.IllegalPairIndicator?)
  {
    match d
    case DByte => assert Deserialize(reg, d, ty, s, pos) == Lift(ReadI8(s, pos), x => VByte(x));
    case DShort => assert Deserialize(reg, d, ty, s, pos) == Lift(ReadI16(s, pos), x => VShort(x));
    case DInt => assert Deserialize(reg, d, ty, s, pos) == Lift(ReadI32(s, pos), x => VInt(x));
    case DLong => assert Deserialize(reg, d, ty, s, pos) == Lift(ReadI64(s, pos), x => VLong(x));
    case DFloat => assert Deserialize(reg, d, ty, s, pos) == Lift(ReadF32(s, pos), x => VFloat(x));
    case DDouble => assert Deserialize(reg, d, ty, s, pos) == Lift(ReadF64(s, pos), x => VDouble(x));
    case DBoolean => assert Deserialize(reg, d, ty, s, pos) == Lift(ReadBool(s, pos), x => VBool(x));
    case DInstant => assert Deserialize(reg, d, ty, s, pos) == Lift(ReadDateTime(s, pos), x => VInstant(x));
    case DIntFloatPair => PairWidth(s, pos);
    case DModStarCache => PairWidth(s, pos);
  }

  lemma PairWidth(s: seq<byte>, pos: nat)
    requires pos <= |s|
    ensures var r := ReadIntFloatPair(s, pos);
            pos + 10 <= |s| && r.Fail? ==> r.error.IllegalPairIndicator?
  {
  }

  lemma {:induction false} FieldsFixedWidth(reg: Registry, ty: Ty, i: nat, acc: seq<Value>, s: seq<byte>, pos: nat)
    requires pos <= |s| && ty.cls.ctor.Primary? && i <= |ty.cls.ctor.params| && FieldsWidth(reg, ty, i).Some?
    ensures var r := ParseFields(reg, ty, i, acc, s, pos);
            && (r.Done? ==> r.next == pos + FieldsWidth(reg, ty, i).value)
            && (pos + FieldsWidth(reg, ty, i).value <= |s| && r.Fail? ==> r.error.IllegalPairIndicator?)
    decreases ty, 0, |ty.cls.ctor.params| - i
  {
    var params := ty.cls.ctor.params;
    if i < |params| {
      assert params[i] in params;
      ParseFixedWidth(reg, params[i], s, pos);
      match Parse(reg, params[i], s, pos)
      case Fail(_) =>
      case Done(v, p) => FieldsFixedWidth(reg, ty, i + 1, acc + [v], s, p);
    }
  }

  /** `count - i` fixed-width elements consume exactly `count - i` widths. */
  lemma {:induction false} ManyFixedWidth(reg: Registry, elem: Ty, w: nat, count: int, i: nat, acc: seq<Value>, s: seq<byte>, pos: nat)
    requires pos <= |s| && Width(reg, elem) == Some(w)
    ensures var r := ParseMany(reg, elem, count, i, acc, s, pos);
            && (r.Done? ==> r.next == pos + Span(count, i, w))
            && (pos + Span(count, i, w) <= |s| && r.Fail? ==> r.error.IllegalPairIndicator?)
    decreases count - i
  {
    if i < count {
      ParseFixedWidth(reg, elem, s, pos);
      match Parse(reg, elem, s, pos)
      case Fail(_) =>
      case Done(v, p) =>
        ManyFixedWidth(reg, elem, w, count, i + 1, acc + [v], s, p);
    }
  }

  /** The bytes taken by the elements `i` to `count` of width `w`, counted one element at a time. */
  function Span(count: int, i: nat, w: nat): nat
    decreases count - i
  {
    if i >= count then 0 else w + Span(count, i + 1, w)
  }

  /** Counted one at a time or multiplied, the span is the same. */
  lemma {:induction false} SpanIsProduct(count: int, i: nat, w: nat)
    ensures Span(count, i, w) == Max(count - i, 0) * w
    decreases count - i
  {
    if i < count {
      SpanIsProduct(count, i + 1, w);
      assert (count - i) * w == w + (count - i - 1) * w;
    }
  }

  /**
    The `@Sized` contract of LazySeq: when the element class's annotation is its true
    width and the file holds the whole buffer, the deserializer takes exactly
    `count * @Sized` bytes, and materialising the buffer later decodes `count` elements
    that use up the whole buffer, failing only on a wrong tag byte.
   */
  lemma LazySeqBufferFits(reg: Registry, ty: Ty, s: seq<byte>, pos: nat, elem: Ty, w: nat, count: int)
    requires ElementType(ty) == Ok(elem) && elem.cls.sized == Some(w) && Width(reg, elem) == Some(w)
    requires pos + 4 <= |s| && count == Signed(LE(s[pos..pos + 4]), 32)
    requires 0 <= count * w <= INT_MAX && pos + 4 + count * w <= |s|
    ensures DeserializeLazySeq(ty, s, pos) == Done(VLazy(elem, count, s[pos + 4..pos + 4 + count * w]), pos + 4 + count * w)
  {
    LazySeqSlurps(reg, ty, s, pos);
    assert Wrap32(count * w) == count * w;
  }

  /** A buffer of exactly `count` widths decodes to `count` elements that use it up, or fails on a tag byte. */
  lemma BufferFits(reg: Registry, elem: Ty, w: nat, count: int, buffer: seq<byte>)
    requires Width(reg, elem) == Some(w) && 0 <= count && |buffer| == count * w
    ensures var m := ParseMany(reg, elem, count, 0, [], buffer, 0);
            && (m.Done? ==> |m.value| == count && m.next == |buffer|)
            && (m.Fail? ==> m.error.IllegalPairIndicator?)
  {
    SpanIsProduct(count, 0, w);
    ManyFixedWidth(reg, elem, w, count, 0, [], buffer, 0);
  }
}
