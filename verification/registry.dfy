/** The `Deserializers` registry: a mutable map from class to deserializer, filled once at start-up. */
module Registries {
  import opened Common
  import opened Schema

  /** The table the start-up block builds, one entry per `register` call, in that order. */
  function Builtins(): Registry {
    map[
      "Byte" := DByte, "Short" := DShort, "Int" := DInt, "Long" := DLong,
      "Float" := DFloat, "Double" := DDouble, "Boolean" := DBoolean, "String" := DString,
      "ImmutableSeq" := DImmutableSeq, "IntFloatPair" := DIntFloatPair, "Instant" := DInstant,
      "ModStarCache" := DModStarCache, "ByteArray" := DByteArray, "LazySeq" := DLazySeq
    ]
  }

  class Deserializers {
    var table: Registry

    /** The start-up block: one registration per built-in class, in source order. */
    constructor ()
      ensures table == Builtins()
    {
      table := map[];
      new;
      var _ := Register("Byte", DByte);
      var _ := Register("Short", DShort);
      var _ := Register("Int", DInt);
      var _ := Register("Long", DLong);
      var _ := Register("Float", DFloat);
      var _ := Register("Double", DDouble);
      var _ := Register("Boolean", DBoolean);
      var _ := Register("String", DString);
      var _ := Register("ImmutableSeq", DImmutableSeq);
      var _ := Register("IntFloatPair", DIntFloatPair);
      var _ := Register("Instant", DInstant);
      var _ := Register("ModStarCache", DModStarCache);
      var _ := Register("ByteArray", DByteArray);
      var _ := Register("LazySeq", DLazySeq);
    }

    /**
      `register(clazz, deserializer)`: the map takes the new entry first; the call then
      throws when the class already had one, so the new entry stays even then.
     */
    method Register(name: string, d: Deserializer) returns (r: Result<(), string>)
      modifies this
      ensures table == old(table)[name := d]
      ensures r.Err? <==> name in old(table)
      ensures r.Err? ==> r.error == name
    {
      var existed := name in table;
      table := table[name := d];
      if existed {
        return Err(name);
      }
      return Ok(());
    }

    /** `find(clazz)`. */
    function Find(name: string): (r: Option<Deserializer>)
      reads this
      ensures r.Some? <==> name in table
      ensures r.Some? ==> table[name] == r.value
    {
      if name in table then Some(table[name]) else None
    }
  }

}
