/**
  `parseLocalOsu`: the header of `osu!.db` read field by field, the counted beatmap list
  with a listener told before and after each beatmap, and the trailing permission.
 */
module LocalOsuFile {
  import opened Common
  import opened Wire
  import opened Schema
  import opened Decoding
  import opened Streams
  import Parser
  import opened Records

  /** The decoded `osu!.db`. The beatmap count is not kept: it is the length of `beatmaps`. */
  datatype LocalOsu = LocalOsu(
    version: int, folderCount: int, unlocked: bool, unlockedTime: int, playerName: seq<byte>,
    beatmaps: seq<Value>, userPermission: int)

  datatype Header = Header(version: int, folderCount: int, unlocked: bool, unlockedTime: int, playerName: seq<byte>)

  /** The fields before the beatmap list; a null player name fails on `!!`. */
  function ReadHeader(s: seq<byte>, pos: nat): (r: Decoded<Header>)
    requires pos <= |s|
    ensures Advances(s, pos, r)
  {
    match ReadI32(s, pos)
    case Fail(e) => Fail(e)
    case Done(version, p1) =>
    match ReadI32(s, p1)
    case Fail(e) => Fail(e)
    case Done(folderCount, p2) =>
    match ReadBool(s, p2)
    case Fail(e) => Fail(e)
    case Done(unlocked, p3) =>
    match Wire.ReadDateTime(s, p3)
    case Fail(e) => Fail(e)
    case Done(unlockedTime, p4) =>
    match Wire.ReadString(s, p4)
    case Fail(e) => Fail(e)
    case Done(name, p5) =>
      if name.None? then Fail(NullPointer)
      else Done(Header(version, folderCount, unlocked, unlockedTime, name.value), p5)
  }

  function BeatmapType(): Ty {
    Plain(LocalBeatmapC)
  }

  /** The whole file, as the method below reads it. */
  function ParseLocalOsu(reg: Registry, s: seq<byte>, pos: nat): (r: Decoded<LocalOsu>)
    requires pos <= |s|
    ensures Advances(s, pos, r)
  {
    match ReadHeader(s, pos)
    case Fail(e) => Fail(e)
    case Done(h, p) => ParseBody(reg, h, s, p)
  }

  /** The beatmap list and the permission after the header. */
  function ParseBody(reg: Registry, h: Header, s: seq<byte>, pos: nat): (r: Decoded<LocalOsu>)
    requires pos <= |s|
    ensures Advances(s, pos, r)
  {
    match ReadMany(s, pos, ElementBuilder(reg, BeatmapType(), s))
    case Fail(e) => Fail(e)
    case Done(beatmaps, p1) =>
    match ReadI32(s, p1)
    case Fail(e) => Fail(e)
    case Done(permission, p2) =>
      Done(LocalOsu(h.version, h.folderCount, h.unlocked, h.unlockedTime, h.playerName, beatmaps, permission), p2)
  }

  /**
    The beatmap list is the count prefix and that many beatmap records: a count below one
    gives no beatmaps, and each beatmap is what `parse` gives for `LocalBeatmap`.
   */
  lemma {:induction false} BeatmapCountIsPrefix(reg: Registry, h: Header, s: seq<byte>, pos: nat)
    requires pos <= |s|
    ensures var r := ParseBody(reg, h, s, pos);
      r.Done? ==>
        && ReadI32(s, pos).Done?
        && |r.value.beatmaps| == Max(ReadI32(s, pos).value, 0)
        && ParseMany(reg, BeatmapType(), ReadI32(s, pos).value, 0, [], s, pos + 4).Done?
        && r.value.beatmaps == ParseMany(reg, BeatmapType(), ReadI32(s, pos).value, 0, [], s, pos + 4).value
  {
    var builder := ElementBuilder(reg, BeatmapType(), s);
    BodyListIsReadMany(reg, h, s, pos);
    ReadManyIsCounted(reg, s, pos);
    ReadManyLength(s, pos, builder);
    if ReadI32(s, pos).Done? {
      ParseManyIsReadMany(reg, BeatmapType(), ReadI32(s, pos).value, 0, [], s, pos + 4);
    }
  }

  lemma BodyListIsReadMany(reg: Registry, h: Header, s: seq<byte>, pos: nat)
    requires pos <= |s|
    ensures var r := ParseBody(reg, h, s, pos);
      var m := ReadMany(s, pos, ElementBuilder(reg, BeatmapType(), s));
      r.Done? ==> m.Done? && r.value.beatmaps == m.value
  {
  }

  lemma ReadManyIsCounted(reg: Registry, s: seq<byte>, pos: nat)
    requires pos <= |s|
    ensures var m := ReadMany(s, pos, ElementBuilder(reg, BeatmapType(), s));
      m.Done? ==> ReadI32(s, pos).Done? && ReadI32(s, pos).next == pos + 4
                  && m == ReadManyFrom(s, pos + 4, ReadI32(s, pos).value, 0, [], ElementBuilder(reg, BeatmapType(), s))
  {
  }

  /** One turn of the counted list: the next beatmap's decoding either fails the list or moves it on. */
  lemma BeatmapStep(reg: Registry, ty: Ty, s: seq<byte>, pos: nat, count: int, i: nat, acc: seq<Value>)
    requires pos <= |s| && i < count
    ensures var d := Parse(reg, ty, s, pos);
      var whole := ReadManyFrom(s, pos, count, i, acc, ElementBuilder(reg, ty, s));
      && (d.Fail? ==> whole == Fail(d.error))
      && (d.Done? ==> d.next <= |s| && whole == ReadManyFrom(s, d.next, count, i + 1, acc + [d.value], ElementBuilder(reg, ty, s)))
  {
  }

  /** What the listener hears. */
  datatype ParseEvent = Before(index: int, max: int) | After(index: int, max: int, beatmap: Value)

  /** The events of a run that decoded `beatmaps` out of `max`: a Before and an After per beatmap. */
  function Events(beatmaps: seq<Value>, max: int): (r: seq<ParseEvent>)
    ensures |r| == 2 * |beatmaps|
  {
    if beatmaps == [] then []
    else
      var n := |beatmaps| - 1;
      Events(beatmaps[..n], max) + [Before(n, max), After(n, max, beatmaps[n])]
  }

  /** The k-th beatmap is announced at positions 2k and 2k+1, with its index and the count. */
  lemma {:induction false} EventsAt(beatmaps: seq<Value>, max: int, k: nat)
    requires k < |beatmaps|
    ensures Events(beatmaps, max)[2 * k] == Before(k, max)
    ensures Events(beatmaps, max)[2 * k + 1] == After(k, max, beatmaps[k])
  {
    var n := |beatmaps| - 1;
    if k < n {
      EventsAt(beatmaps[..n], max, k);
    }
  }

  /** One more beatmap adds its Before and its After at the end. */
  lemma EventsSnoc(beatmaps: seq<Value>, b: Value, max: int)
    ensures Events(beatmaps + [b], max) == Events(beatmaps, max) + [Before(|beatmaps|, max), After(|beatmaps|, max, b)]
  {
    assert (beatmaps + [b])[..|beatmaps|] == beatmaps;
  }

  /** A listener that records what it is told. Interrupting by throwing is not modelled. */
  class ParseLog {
    var events: seq<ParseEvent>

    constructor ()
      ensures events == []
    {
      events := [];
    }

    method BeforeParseBeatmap(index: int, max: int)
      modifies this
      ensures events == old(events) + [Before(index, max)]
    {
      events := events + [Before(index, max)];
    }

    method AfterParseBeatmap(index: int, max: int, beatmap: Value)
      modifies this
      ensures events == old(events) + [After(index, max, beatmap)]
    {
      events := events + [After(index, max, beatmap)];
    }
  }

  method ReadHeaderFrom(st: Stream) returns (r: Result<Header, DecodeError>)
    requires st.Valid()
    modifies st
    ensures st.Valid() && Tie(r, st.pos) == ReadHeader(st.bytes, old(st.pos))
  {
    var version := st.ReadInt();
    if version.Err? { return Err(version.error); }
    var folderCount := st.ReadInt();
    if folderCount.Err? { return Err(folderCount.error); }
    var unlocked := st.ReadBoolean();
    if unlocked.Err? { return Err(unlocked.error); }
    var unlockedTime := Streams.ReadDateTime(st);
    if unlockedTime.Err? { return Err(unlockedTime.error); }
    var name := Streams.ReadString(st);
    if name.Err? { return Err(name.error); }
    if name.value.None? { return Err(NullPointer); }
    r := Ok(Header(version.value, folderCount.value, unlocked.value, unlockedTime.value, name.value.value));
  }

  /**
    The counted beatmap list, with the listener told before and after each beatmap. On
    success it has heard a Before and an After per beatmap, in order; on failure it keeps
    what it heard before.
   */
  method ReadBeatmaps(reg: Registry, st: Stream, log: ParseLog) returns (r: Result<seq<Value>, DecodeError>)
    requires st.Valid()
    modifies st, log
    ensures st.Valid() && Tie(r, st.pos) == ReadMany(st.bytes, old(st.pos), ElementBuilder(reg, BeatmapType(), st.bytes))
    ensures r.Ok? ==> log.events == old(log.events) + Events(r.value, |r.value|)
    ensures |old(log.events)| <= |log.events| && log.events[..|old(log.events)|] == old(log.events)
  {
    var count := st.ReadInt();
    if count.Err? { return Err(count.error); }
    r := ReadCounted(reg, st, log, count.value);
    if r.Ok? {
      ReadManyLength(st.bytes, old(st.pos), ElementBuilder(reg, BeatmapType(), st.bytes));
    }
  }

  /** The beatmaps after the count, one by one. */
  method ReadCounted(reg: Registry, st: Stream, log: ParseLog, count: int) returns (r: Result<seq<Value>, DecodeError>)
    requires st.Valid()
    modifies st, log
    ensures st.Valid() && Tie(r, st.pos) == ReadManyFrom(st.bytes, old(st.pos), count, 0, [], ElementBuilder(reg, BeatmapType(), st.bytes))
    ensures r.Ok? ==> log.events == old(log.events) + Events(r.value, count)
    ensures |old(log.events)| <= |log.events| && log.events[..|old(log.events)|] == old(log.events)
  {
    ghost var whole := ReadManyFrom(st.bytes, st.pos, count, 0, [], ElementBuilder(reg, BeatmapType(), st.bytes));
    ghost var events0 := log.events;
    var beatmaps: seq<Value> := [];
    var i := 0;
    while i < count
      invariant Midway(reg, BeatmapType(), st, log, count, i, beatmaps, whole, events0)
      decreases count - i
    {
      var beatmap := ReadNext(reg, BeatmapType(), st, log, count, i, beatmaps, whole, events0);
      if beatmap.Err? {
        return Err(beatmap.error);
      }
      beatmaps := beatmaps + [beatmap.value];
      i := i + 1;
    }
    r := Ok(beatmaps);
  }

  /**
    Where the list stands after `i` beatmaps: what is left to read completes the whole
    list, and the listener has heard about the beatmaps so far.
   */
  ghost predicate Midway(reg: Registry, ty: Ty, st: Stream, log: ParseLog, count: int, i: int, beatmaps: seq<Value>,
                         whole: Decoded<seq<Value>>, events0: seq<ParseEvent>)
    reads st, log
  {
    && st.Valid() && |beatmaps| == i && 0 <= i && (i > 0 ==> i <= count)
    && ReadManyFrom(st.bytes, st.pos, count, i, beatmaps, ElementBuilder(reg, ty, st.bytes)) == whole
    && log.events == events0 + Events(beatmaps, count)
  }

  /** One turn of the loop: either the list has failed as a whole, or it stands one beatmap further. */
  method ReadNext(reg: Registry, ty: Ty, st: Stream, log: ParseLog, count: int, i: int, beatmaps: seq<Value>,
                  ghost whole: Decoded<seq<Value>>, ghost events0: seq<ParseEvent>)
    returns (r: Result<Value, DecodeError>)
    requires Midway(reg, ty, st, log, count, i, beatmaps, whole, events0) && i < count
    modifies st, log
    ensures r.Ok? ==> Midway(reg, ty, st, log, count, i + 1, beatmaps + [r.value], whole, events0)
    ensures r.Err? ==> st.Valid() && whole == Fail(r.error)
    ensures r.Err? ==> |events0| <= |log.events| && log.events[..|events0|] == events0
  {
    BeatmapStep(reg, ty, st.bytes, st.pos, count, i, beatmaps);
    r := ReadNextBeatmap(reg, ty, st, log, i, count);
    if r.Ok? {
      EventsSnoc(beatmaps, r.value, count);
    } else {
      assert log.events[..|events0|] == events0;
    }
  }

  /** One beatmap of the list, with the listener told before and, when it decodes, after. */
  method ReadNextBeatmap(reg: Registry, ty: Ty, st: Stream, log: ParseLog, i: int, count: int) returns (r: Result<Value, DecodeError>)
    requires st.Valid()
    modifies st, log
    ensures st.Valid() && Tie(r, st.pos) == Parse(reg, ty, st.bytes, old(st.pos))
    ensures r.Ok? ==> log.events == old(log.events) + [Before(i, count), After(i, count, r.value)]
    ensures r.Err? ==> log.events == old(log.events) + [Before(i, count)]
  {
    log.BeforeParseBeatmap(i, count);
    r := Parser.Parse(reg, ty, st);
    if r.Ok? {
      log.AfterParseBeatmap(i, count, r.value);
    }
  }

  /**
    `parseLocalOsu(bytes, listener)`: the header, the beatmap list, then the permission.
   */
  method ParseLocalOsuFrom(reg: Registry, st: Stream, log: ParseLog) returns (r: Result<LocalOsu, DecodeError>)
    requires st.Valid()
    modifies st, log
    ensures st.Valid() && Tie(r, st.pos) == ParseLocalOsu(reg, st.bytes, old(st.pos))
    ensures r.Ok? ==> log.events == old(log.events) + Events(r.value.beatmaps, |r.value.beatmaps|)
    ensures |old(log.events)| <= |log.events| && log.events[..|old(log.events)|] == old(log.events)
  {
    var header := ReadHeaderFrom(st);
    if header.Err? { return Err(header.error); }
    var beatmaps := ReadBeatmaps(reg, st, log);
    if beatmaps.Err? { return Err(beatmaps.error); }
    var permission := st.ReadInt();
    if permission.Err? { return Err(permission.error); }
    var h := header.value;
    r := Ok(LocalOsu(h.version, h.folderCount, h.unlocked, h.unlockedTime, h.playerName, beatmaps.value, permission.value));
  }
}
