/**
  The records of the three database files, as schemas the decoder walks, and the logic
  that sits on the decoded records: star rating lookup, accuracy and the conversion of a
  local score into a web-API score.
 */
module Records {
  import opened Common
  import opened Wire
  import opened Schema
  import opened Decoding
  import opened Widths
  import opened Registries
  import opened Mods
  import Histories

  // ---------------------------------------------------------------------------
  // Schemas
  // ---------------------------------------------------------------------------

  const ByteC := Builtin("Byte")
  const ShortC := Builtin("Short")
  const IntC := Builtin("Int")
  const LongC := Builtin("Long")
  const FloatC := Builtin("Float")
  const DoubleC := Builtin("Double")
  const BooleanC := Builtin("Boolean")
  const StringC := Builtin("String")
  const InstantC := Builtin("Instant")
  const ByteArrayC := Builtin("ByteArray")
  const ImmutableSeqC := Builtin("ImmutableSeq")
  const LazySeqC := Builtin("LazySeq")
  const MutableEnumSetC := Builtin("MutableEnumSet")

  /** `@Sized(bytes = 10)`: a mod mask and a star rating, each behind a tag byte. */
  const ModStarCacheC := Class("ModStarCache", Primary([Plain(MutableEnumSetC), Plain(FloatC)]), Some(10))

  /** `@Sized(bytes = 17)`: two doubles and a boolean. */
  const TimePointC := Class("TimePoint", Primary([Plain(DoubleC), Plain(DoubleC), Plain(BooleanC)]), Some(17))

  /** The fields of `LocalBeatmap` in declaration order; the commented-out `unknown: Short` is not among them. */
  const LocalBeatmapC := Class("LocalBeatmap", Primary([
    Plain(StringC),                  // artist
    Nullable(StringC),               // artistUnicode
    Plain(StringC),                  // title
    Nullable(StringC),               // titleUnicode
    Plain(StringC),                  // creator
    Plain(StringC),                  // difficultyName
    Plain(StringC),                  // audioFileName
    Plain(StringC),                  // md5Hash
    Plain(StringC),                  // osuFileName
    Plain(ByteC),                    // rankedStatus
    Plain(ShortC),                   // circleAmount
    Plain(ShortC),                   // sliderAmount
    Plain(ShortC),                   // spinnerAmount
    Plain(InstantC),                 // lastModified
    Plain(FloatC),                   // ar
    Plain(FloatC),                   // cs
    Plain(FloatC),                   // hp
    Plain(FloatC),                   // od
    Plain(DoubleC),                  // sliderVelocity
    Generic(LazySeqC, Plain(ModStarCacheC)),  // stdModdedStarCache
    Generic(LazySeqC, Plain(ModStarCacheC)),  // taikoModdedStarCache
    Generic(LazySeqC, Plain(ModStarCacheC)),  // ctbModdedStarCache
    Generic(LazySeqC, Plain(ModStarCacheC)),  // maniaModdedStarCache
    Plain(IntC),                     // drainTimeSeconds
    Plain(IntC),                     // totalTimeMilliseconds
    Plain(IntC),                     // someMysteryTimeWhichIDontKnowInMilliseconds
    Generic(LazySeqC, Plain(TimePointC)),     // timePoints
    Plain(IntC),                     // beatmapId
    Plain(IntC),                     // beatmapSetId
    Plain(IntC),                     // threadId
    Plain(ByteC),                    // stdGrade
    Plain(ByteC),                    // taikoGrade
    Plain(ByteC),                    // ctbGrade
    Plain(ByteC),                    // maniaGrade
    Plain(ShortC),                   // userOffset
    Plain(FloatC),                   // stackLeniency
    Plain(ByteC),                    // gameplayMode
    Plain(StringC),                  // songSource
    Plain(StringC),                  // songTags
    Plain(ShortC),                   // onlineOffset
    Plain(StringC),                  // titleFont
    Plain(BooleanC),                 // unplayed
    Plain(InstantC),                 // lastTimePlayed
    Plain(BooleanC),                 // isOsz2
    Plain(StringC),                  // folderName
    Plain(InstantC),                 // lastTimeChecked
    Plain(BooleanC),                 // ignoreSound
    Plain(BooleanC),                 // ignoreSkin
    Plain(BooleanC),                 // disableStoryboard
    Plain(BooleanC),                 // disableVideo
    Plain(BooleanC),                 // visualOverride
    Plain(IntC),                     // lastModifiedTime
    Plain(ByteC)                     // maniaScrollSpeed
  ]), None)

  const LocalScoreC := Class("LocalScore", Primary([
    Plain(ByteC),                    // gameplayMode
    Plain(IntC),                     // version
    Plain(StringC),                  // beatmapMd5Hash
    Plain(StringC),                  // playerName
    Plain(StringC),                  // replayMd5Hash
    Plain(ShortC),                   // greatAmount
    Plain(ShortC),                   // okAmout
    Plain(ShortC),                   // mehAmount
    Plain(ShortC),                   // gekisAmount
    Plain(ShortC),                   // katusAmount
    Plain(ShortC),                   // missAmount
    Plain(IntC),                     // score
    Plain(ShortC),                   // maxCombo
    Plain(BooleanC),                 // isPFC
    Plain(IntC),                     // mods
    Nullable(StringC),               // _unused0
    Plain(InstantC),                 // createTime
    Nullable(ByteArrayC),            // replay
    Plain(LongC)                     // scoreId
  ]), None)

  const LocalScoredBeatmapC := Class("LocalScoredBeatmap", Primary([
    Plain(StringC), Generic(ImmutableSeqC, Plain(LocalScoreC))]), None)

  /** The layout of `scores.db`. */
  const LocalScoresC := Class("LocalScores", Primary([
    Plain(IntC), Generic(ImmutableSeqC, Plain(LocalScoredBeatmapC))]), None)

  const LocalCollectionC := Class("LocalCollection", Primary([
    Plain(StringC), Generic(ImmutableSeqC, Plain(StringC))]), None)

  /** The layout of `collection.db`. */
  const LocalCollectionsC := Class("LocalCollections", Primary([
    Plain(IntC), Generic(ImmutableSeqC, Plain(LocalCollectionC))]), None)

  /** `@Sized(10)` on ModStarCache is the width of the int-float pair its deserializer reads. */
  lemma ModStarCacheSized()
    ensures SizedAgrees(Builtins(), ModStarCacheC)
  {
    assert "ModStarCache" in Builtins() && Builtins()["ModStarCache"] == DModStarCache;
  }

  /** `@Sized(17)` on TimePoint is the width of its two doubles and its boolean. */
  lemma TimePointSized()
    ensures SizedAgrees(Builtins(), TimePointC)
  {
    var reg := Builtins();
    assert "TimePoint" !in reg;
    assert "Double" in reg && reg["Double"] == DDouble;
    assert "Boolean" in reg && reg["Boolean"] == DBoolean;
    TimePointWidth(reg);
  }

  /** In any registry that has no entry of its own for TimePoint and the usual doubles and booleans, it is 17 bytes wide. */
  lemma TimePointWidth(reg: Registry)
    requires "TimePoint" !in reg
    requires "Double" in reg && reg["Double"] == DDouble
    requires "Boolean" in reg && reg["Boolean"] == DBoolean
    ensures Width(reg, Plain(TimePointC)) == Some(17)
  {
    var tp := Plain(TimePointC);
    assert Width(reg, Plain(DoubleC)) == Some(8);
    assert Width(reg, Plain(BooleanC)) == Some(1);
    assert FieldsWidth(reg, tp, 3) == Some(0);
    assert FieldsWidth(reg, tp, 2) == Some(1);
    assert FieldsWidth(reg, tp, 1) == Some(9);
  }

  // ---------------------------------------------------------------------------
  // Logic on decoded records
  // ---------------------------------------------------------------------------

  /** A decoded star-rating cache entry, its mask already turned into a mod set. */
  datatype ModStarCache = ModStarCache(mods: set<Mod>, difficulty: nat)

  /**
    The fields of a decoded beatmap that the logic below reads. `stdModdedStarCache` is what
    reading the LazySeq's `value` gives: the materialised entries, or the decoding failure
    (a bad int-float tag) that the read throws. A failed read is retried on the next access
    and fails the same way, so one outcome stands for every access.
   */
  datatype LocalBeatmap = LocalBeatmap(md5Hash: string, beatmapId: int,
                                       stdModdedStarCache: Result<seq<ModStarCache>, DecodeError>)

  /** kala's `find`: the first entry whose mod set is `modSet`. */
  function FindEntry(cache: seq<ModStarCache>, modSet: set<Mod>): (r: Option<ModStarCache>)
    ensures r.None? <==> forall k :: 0 <= k < |cache| ==> cache[k].mods != modSet
    ensures r.Some? ==> r.value in cache && r.value.mods == modSet
  {
    if cache == [] then None
    else if cache[0].mods == modSet then Some(cache[0])
    else FindEntry(cache[1..], modSet)
  }

  /**
    `starRate(mods)`: reading the standard star cache throws when it does not materialise;
    otherwise the difficulty of the first entry for exactly this mod set, or 0.0 (bit
    pattern 0) when there is none.
   */
  function StarRate(b: LocalBeatmap, mods: seq<Mod>): (r: Result<nat, DecodeError>)
    ensures b.stdModdedStarCache.Err? ==> r == Err(b.stdModdedStarCache.error)
    ensures b.stdModdedStarCache.Ok? ==> r.Ok?
    ensures var cache := b.stdModdedStarCache;
      cache.Ok? && (forall k :: 0 <= k < |cache.value| ==> cache.value[k].mods != set m | m in mods) ==> r == Ok(0)
  {
    match b.stdModdedStarCache
    case Err(e) => Err(e)
    case Ok(cache) =>
      var modSet := set m | m in mods;
      match FindEntry(cache, modSet)
      case Some(e) => Ok(e.difficulty)
      case None => Ok(0)
  }

  /** The entry `find` returns is the first one for the mod set. */
  lemma {:induction false} FindEntryIsFirst(cache: seq<ModStarCache>, modSet: set<Mod>) returns (j: nat)
    requires FindEntry(cache, modSet).Some?
    ensures j < |cache| && cache[j] == FindEntry(cache, modSet).value
    ensures forall k :: 0 <= k < j ==> cache[k].mods != modSet
  {
    if cache[0].mods == modSet {
      j := 0;
    } else {
      var j' := FindEntryIsFirst(cache[1..], modSet);
      j := j' + 1;
    }
  }

  /** With a materialised cache that has a matching entry, the star rating is the difficulty of the first one. */
  lemma StarRateOfFirstMatch(b: LocalBeatmap, mods: seq<Mod>) returns (j: nat)
    requires b.stdModdedStarCache.Ok?
    requires var cache := b.stdModdedStarCache.value;
      exists k :: 0 <= k < |cache| && cache[k].mods == set m | m in mods
    ensures var cache := b.stdModdedStarCache.value;
      && j < |cache| && cache[j].mods == (set m | m in mods)
      && StarRate(b, mods) == Ok(cache[j].difficulty)
      && forall k :: 0 <= k < j ==> cache[k].mods != set m | m in mods
  {
    j := FindEntryIsFirst(b.stdModdedStarCache.value, set m | m in mods);
  }

  /** A `scores.db` entry, field for field. Counts are signed 16-bit values. */
  datatype LocalScore = LocalScore(
    gameplayMode: int, version: int, beatmapMd5Hash: string, playerName: string, replayMd5Hash: string,
    greatAmount: int, okAmount: int, mehAmount: int, gekisAmount: int, katusAmount: int, missAmount: int,
    score: int, maxCombo: int, isPFC: bool, mods: int, unused0: Option<string>, createTime: int,
    replay: Option<seq<byte>>, scoreId: int)

  predicate IsShort(n: int) {
    -0x8000 <= n < 0x8000
  }

  /**
    The two `Int`s whose quotient is the accuracy: 6 per great, 2 per ok and 1 per meh,
    over 6 per note. Four shorts cannot overflow a 32-bit Int here.
   */
  function AccuracyParts(s: LocalScore): (r: (int, int))
    requires IsShort(s.greatAmount) && IsShort(s.okAmount) && IsShort(s.mehAmount) && IsShort(s.missAmount)
    ensures INT_MIN <= r.0 <= INT_MAX && INT_MIN <= r.1 <= INT_MAX
  {
    var noteCounts := s.greatAmount + s.okAmount + s.mehAmount + s.missAmount;
    var b := noteCounts * 6;
    var a := s.greatAmount * 6 + s.okAmount * 2 + s.mehAmount;
    (a, b)
  }

  /**
    For non-negative counts the numerator never exceeds the denominator, they are equal
    exactly when every counted note is a great, and the denominator is zero exactly
    when there are no counted notes at all.
   */
  lemma AccuracyBounds(s: LocalScore)
    requires IsShort(s.greatAmount) && IsShort(s.okAmount) && IsShort(s.mehAmount) && IsShort(s.missAmount)
    requires s.greatAmount >= 0 && s.okAmount >= 0 && s.mehAmount >= 0 && s.missAmount >= 0
    ensures var (a, b) := AccuracyParts(s);
      && 0 <= a <= b
      && (a == b <==> s.okAmount == 0 && s.mehAmount == 0 && s.missAmount == 0)
      && (b == 0 <==> s.greatAmount == 0 && s.okAmount == 0 && s.mehAmount == 0 && s.missAmount == 0)
  {
  }

  datatype ChecksumMismatch = ChecksumMismatch(expected: string, actual: string)

  /**
    `toScore(userId, beatmapProvider)`: refuses a beatmap whose known checksum differs
    from the score's; otherwise builds the web-API score. `asSeq` turns the mod mask
    into mods and `accuracy` is the score's accuracy in the integer scale of `Score`.
   */
  function ToScore(s: LocalScore, userId: int, beatmapProvider: string -> Option<Histories.Beatmap>,
                   asSeq: int -> seq<Mod>, accuracy: int): (r: Result<Histories.Score, ChecksumMismatch>)
    ensures var b := beatmapProvider(s.beatmapMd5Hash);
      r.Err? <==> b.Some? && b.value.checksum.Some? && b.value.checksum.value != s.beatmapMd5Hash
    ensures r.Err? ==> r.error.expected == s.beatmapMd5Hash
    ensures r.Ok? ==> r.value.createdAt == s.createTime && r.value.id == s.scoreId && r.value.userId == userId
                      && r.value.beatmap == beatmapProvider(s.beatmapMd5Hash) && r.value.mods == asSeq(s.mods)
                      && r.value.accuracy == accuracy && r.value.pinnedId.None?
  {
    var beatmap := beatmapProvider(s.beatmapMd5Hash);
    if beatmap.Some? && beatmap.value.checksum.Some? && beatmap.value.checksum.value != s.beatmapMd5Hash then
      Err(ChecksumMismatch(s.beatmapMd5Hash, beatmap.value.checksum.value))
    else
      Ok(Histories.Score(accuracy, s.createTime, s.scoreId, asSeq(s.mods), userId, beatmap, None))
  }
}
