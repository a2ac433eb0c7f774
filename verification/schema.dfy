/**
  The reflection the decoder relies on, made explicit: a type is a class with type
  arguments and a nullability mark, and a class carries its primary constructor's
  parameter types and its `@Sized` byte count. A decoded value is a `Value`.
 */
module Schema {
  import opened Common

  /** A class: its name, its primary constructor and its `@Sized` byte count. */
  datatype Class = Class(name: string, ctor: Ctor, sized: Option<int>)

  /** A primary constructor's parameter types, in declaration order, or its absence. */
  datatype Ctor = Absent | Primary(params: seq<Ty>)

  /** A `KType`: a classifier, its type arguments and whether it is marked nullable. */
  datatype Ty = Ty(cls: Class, args: seq<TyArg>, nullable: bool)

  /** A `KTypeProjection`: the star projection or a concrete type. */
  datatype TyArg = Star | Arg(ty: Ty)

  /** The built-in deserializers, one per class the registry knows. */
  datatype Deserializer =
    | DByte | DShort | DInt | DLong | DFloat | DDouble | DBoolean | DString
    | DImmutableSeq | DIntFloatPair | DInstant | DModStarCache | DByteArray | DLazySeq

  /** The registry, keyed by class name. */
  type Registry = map<string, Deserializer>

  /** A decoded value. Floats are bit patterns, strings their UTF-8 bytes, instants epoch milliseconds. */
  datatype Value =
    | VNull
    | VByte(b: int)
    | VShort(sh: int)
    | VInt(i: int)
    | VLong(l: int)
    | VFloat(fbits: nat)
    | VDouble(dbits: nat)
    | VBool(z: bool)
    | VString(utf8: seq<byte>)
    | VSeq(elems: seq<Value>)
    | VPair(pi: int, pf: nat)
    | VInstant(ms: int)
    | VModStarCache(mods: int, difficulty: nat)
    | VBytes(data: seq<byte>)
    | VLazy(elem: Ty, count: int, buffer: seq<byte>)     // a LazySeq not yet materialised
    | VRecord(cls: string, fields: seq<Value>)

  /** A plain non-nullable type of a class without type arguments. */
  function Plain(c: Class): Ty {
    Ty(c, [], false)
  }

  function Nullable(c: Class): Ty {
    Ty(c, [], true)
  }

  /** A generic type with a single type argument. */
  function Generic(c: Class, elem: Ty): Ty {
    Ty(c, [Arg(elem)], false)
  }

  /** A library class: not a record, and not annotated. */
  function Builtin(name: string): Class {
    Class(name, Absent, None)
  }
}
