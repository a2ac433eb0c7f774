/**
  Score providers: the scores of a beatmap from `osu!.db`/`scores.db`, and the merge of
  two providers. Every provider returns its scores ordered by creation time.
 */
module ScoreProviders {
  import opened Common
  import opened Mods
  import opened Sorting
  import opened Histories
  import opened Records
  import Wire

  // ---------------------------------------------------------------------------
  // MergeScoreProvider

  /**
    `distinctBy(key)`: keeps an element when no earlier kept element had its key; `seen`
    holds the keys kept so far.
   */
  function DistinctFrom<T>(s: seq<T>, key: T -> int, seen: set<int>): (r: seq<T>)
    ensures forall y | y in r :: y in s && key(y) !in seen
  {
    if s == [] then []
    else if key(s[0]) in seen then DistinctFrom(s[1..], key, seen)
    else [s[0]] + DistinctFrom(s[1..], key, seen + {key(s[0])})
  }

  function DistinctBy<T>(s: seq<T>, key: T -> int): seq<T> {
    DistinctFrom(s, key, {})
  }

  /** No two kept elements share a key. */
  lemma {:induction false} DistinctFromDistinct<T>(s: seq<T>, key: T -> int, seen: set<int>)
    ensures DistinctKeys(DistinctFrom(s, key, seen), key)
  {
    if s != [] {
      if key(s[0]) in seen {
        DistinctFromDistinct(s[1..], key, seen);
      } else {
        var rest := DistinctFrom(s[1..], key, seen + {key(s[0])});
        DistinctFromDistinct(s[1..], key, seen + {key(s[0])});
        var r := [s[0]] + rest;
        forall i, j | 0 <= i < j < |r|
          ensures key(r[i]) != key(r[j])
        {
          assert r[j] == rest[j - 1];
          assert rest[j - 1] in rest;
          if i > 0 {
            assert r[i] == rest[i - 1];
          }
        }
      }
    }
  }

  /** Every key of the input that was not already seen is the key of a kept element. */
  lemma {:induction false} DistinctFromCovers<T>(s: seq<T>, key: T -> int, seen: set<int>)
    ensures forall x | x in s :: key(x) in seen || exists y | y in DistinctFrom(s, key, seen) :: key(y) == key(x)
  {
    if s != [] {
      var r := DistinctFrom(s, key, seen);
      assert forall x | x in s :: x == s[0] || x in s[1..];
      if key(s[0]) in seen {
        DistinctFromCovers(s[1..], key, seen);
      } else {
        DistinctFromCovers(s[1..], key, seen + {key(s[0])});
        assert r[0] == s[0];
        assert forall y | y in DistinctFrom(s[1..], key, seen + {key(s[0])}) :: y in r;
      }
    }
  }

  /** Of elements sharing a key, the one kept comes from the front part when the front part has that key. */
  lemma {:induction false} DistinctPrefersFront<T>(front: seq<T>, back: seq<T>, key: T -> int, seen: set<int>)
    ensures forall y | y in DistinctFrom(front + back, key, seen) ::
      (exists x | x in front :: key(x) == key(y)) ==> y in front
  {
    if front != [] {
      var a := front[0];
      var tail := front[1..];
      assert (front + back)[1..] == tail + back;
      assert forall x | x in front :: x == a || x in tail;
      if key(a) in seen {
        DistinctPrefersFront(tail, back, key, seen);
      } else {
        DistinctPrefersFront(tail, back, key, seen + {key(a)});
        var rest := DistinctFrom(tail + back, key, seen + {key(a)});
        assert DistinctFrom(front + back, key, seen) == [a] + rest;
        assert forall y | y in [a] + rest :: y == a || y in rest;
      }
    }
  }

  /**
    `MergeScoreProvider.beatmapScores`: no scores when neither side has any; otherwise both
    sides' scores, left first, one per creation time, ordered by creation time.
   */
  function Merge(lhs: Option<seq<Score>>, rhs: Option<seq<Score>>): (r: Option<seq<Score>>)
    ensures r.None? <==> lhs.None? && rhs.None?
  {
    if lhs.None? && rhs.None? then None
    else Some(SortBy(DistinctBy(lhs.GetOr([]) + rhs.GetOr([]), CreatedAt), CreatedAt))
  }

  /** The sort moves scores around but keeps the same ones. */
  lemma SortKeepsMembers(d: seq<Score>)
    ensures forall y :: y in SortBy(d, CreatedAt) <==> y in d
  {
    var m := SortBy(d, CreatedAt);
    assert forall y :: y in m <==> y in multiset(m);
    assert forall y :: y in d <==> y in multiset(d);
  }

  /** The merged scores are sorted by creation time, and no two share a creation time. */
  lemma MergeSortedDistinct(lhs: Option<seq<Score>>, rhs: Option<seq<Score>>)
    requires lhs.Some? || rhs.Some?
    ensures SortedBy(Merge(lhs, rhs).value, CreatedAt)
    ensures DistinctKeys(Merge(lhs, rhs).value, CreatedAt)
  {
    var both := lhs.GetOr([]) + rhs.GetOr([]);
    var d := DistinctBy(both, CreatedAt);
    SortBySorted(d, CreatedAt);
    DistinctFromDistinct(both, CreatedAt, {});
    PermutationKeepsDistinct(d, SortBy(d, CreatedAt), CreatedAt);
  }

  /** Every merged score comes from one of the two sides. */
  lemma MergeFromSides(lhs: Option<seq<Score>>, rhs: Option<seq<Score>>)
    requires lhs.Some? || rhs.Some?
    ensures forall y | y in Merge(lhs, rhs).value :: y in lhs.GetOr([]) || y in rhs.GetOr([])
  {
    SortKeepsMembers(DistinctBy(lhs.GetOr([]) + rhs.GetOr([]), CreatedAt));
  }

  /** Every creation time of either side is represented in the merge. */
  lemma MergeCovers(lhs: Option<seq<Score>>, rhs: Option<seq<Score>>)
    requires lhs.Some? || rhs.Some?
    ensures forall x | x in lhs.GetOr([]) + rhs.GetOr([]) :: exists y | y in Merge(lhs, rhs).value :: y.createdAt == x.createdAt
  {
    var both := lhs.GetOr([]) + rhs.GetOr([]);
    DistinctFromCovers(both, CreatedAt, {});
    SortKeepsMembers(DistinctBy(both, CreatedAt));
  }

  /** A creation time present on the left is represented by a left score: the left side wins a tie. */
  lemma MergePrefersLhs(lhs: Option<seq<Score>>, rhs: Option<seq<Score>>)
    requires lhs.Some? || rhs.Some?
    ensures forall y | y in Merge(lhs, rhs).value ::
      (exists x | x in lhs.GetOr([]) :: x.createdAt == y.createdAt) ==> y in lhs.GetOr([])
  {
    DistinctPrefersFront(lhs.GetOr([]), rhs.GetOr([]), CreatedAt, {});
    SortKeepsMembers(DistinctBy(lhs.GetOr([]) + rhs.GetOr([]), CreatedAt));
  }

  // ---------------------------------------------------------------------------
  // LocalOsuScoreProvider

  datatype ScoredBeatmap = ScoredBeatmap(md5Hash: string, scores: seq<LocalScore>)

  /** The user scores are asked for: their id and their player name. */
  datatype User = User(id: int, userName: string)

  /** `associateBy(key)`: a map from key to element, the last element winning a shared key. */
  function AssociateBy<K, T>(s: seq<T>, key: T -> K): (m: map<K, T>)
    ensures forall x | x in s :: key(x) in m
    ensures forall k | k in m :: m[k] in s && key(m[k]) == k
  {
    if s == [] then map[]
    else
      var init := s[..|s| - 1];
      assert forall x | x in init :: x in s;
      assert forall x | x in s :: x in init || x == s[|s| - 1];
      AssociateBy(init, key)[key(s[|s| - 1]) := s[|s| - 1]]
  }

  /** The element a key maps to is the last one with that key. */
  lemma {:induction false} AssociateByLast<K, T>(s: seq<T>, key: T -> K, k: K) returns (j: nat)
    requires k in AssociateBy(s, key)
    ensures j < |s| && s[j] == AssociateBy(s, key)[k]
    ensures forall i :: j < i < |s| ==> key(s[i]) != k
  {
    var last := |s| - 1;
    if key(s[last]) == k {
      j := last;
    } else {
      var init := s[..last];
      assert AssociateBy(s, key) == AssociateBy(init, key)[key(s[last]) := s[last]];
      j := AssociateByLast(init, key, k);
      assert init[j] == s[j];
      forall i | j < i < |s|
        ensures key(s[i]) != k
      {
        if i < last {
          assert init[i] == s[i];
        }
      }
    }
  }

  /**
    `toBeatmap()`: the web-API beatmap of a local one, with its no-mod star rating and no
    checksum. Reading the star rating throws when the star cache does not materialise.
   */
  function ToBeatmap(b: LocalBeatmap): (r: Result<Histories.Beatmap, Wire.DecodeError>)
    ensures r.Err? <==> b.stdModdedStarCache.Err?
    ensures r.Err? ==> r.error == b.stdModdedStarCache.error
    ensures r.Ok? ==> r.value.id == b.beatmapId && r.value.checksum.None?
                      && Ok(r.value.difficulty) == StarRate(b, [])
  {
    match StarRate(b, [])
    case Err(e) => Err(e)
    case Ok(star) => Ok(Histories.Beatmap(b.beatmapId, star, None))
  }

  /** The filter: the user's own scores, and only score-v2 plays when `v2Only`. */
  predicate Kept(s: LocalScore, user: User, v2Only: bool, hasV2: int -> bool) {
    s.playerName == user.userName && (!v2Only || hasV2(s.mods))
  }

  function Filter(scores: seq<LocalScore>, user: User, v2Only: bool, hasV2: int -> bool): (r: seq<LocalScore>)
    ensures forall x | x in r :: x in scores && Kept(x, user, v2Only, hasV2)
    ensures forall x | x in scores && Kept(x, user, v2Only, hasV2) :: x in r
  {
    if scores == [] then []
    else
      var rest := Filter(scores[1..], user, v2Only, hasV2);
      if Kept(scores[0], user, v2Only, hasV2) then [scores[0]] + rest else rest
  }

  /**
    `toScore` with the provider `{ beatmap.toBeatmap() }`, once `toBeatmap()` has given
    `bm`. That beatmap carries no checksum, so the checksum check never refuses it.
   */
  function Convert(s: LocalScore, user: User, bm: Histories.Beatmap, asSeq: int -> seq<Mod>,
                   accuracy: LocalScore -> int): (r: Score)
    requires bm.checksum.None?
    ensures r.id == s.scoreId && r.createdAt == s.createTime && r.userId == user.id
    ensures r.beatmap == Some(bm) && r.accuracy == accuracy(s) && r.mods == asSeq(s.mods)
  {
    ToScore(s, user.id, (_: string) => Some(bm), asSeq, accuracy(s)).value
  }

  /**
    `LocalOsuScoreProvider.beatmapScores(user, beatmapId)`. `hasV2` tests the score-v2 bit
    of a mod mask and `accuracy` is a score's accuracy in the integer scale of `Score`.
    An `Err` is the exception `toBeatmap()` throws for the first kept play, when the
    beatmap's star cache does not materialise; with no kept play it is never called.
   */
  function LocalBeatmapScores(beatmaps: seq<LocalBeatmap>, scored: seq<ScoredBeatmap>, v2Only: bool,
                              user: User, beatmapId: int, hasV2: int -> bool, asSeq: int -> seq<Mod>,
                              accuracy: LocalScore -> int): (r: Result<Option<seq<Score>>, Wire.DecodeError>)
    ensures r == Ok(None) <==> forall b | b in beatmaps :: b.beatmapId != beatmapId
    ensures r.Err? ==> exists b | b in beatmaps :: b.beatmapId == beatmapId && b.stdModdedStarCache == Err(r.error)
  {
    var beatmapById := AssociateBy(beatmaps, (b: LocalBeatmap) => b.beatmapId);
    if beatmapId !in beatmapById then Ok(None)
    else
      var beatmap := beatmapById[beatmapId];
      var byHash := AssociateBy(scored, (sb: ScoredBeatmap) => sb.md5Hash);
      if beatmap.md5Hash !in byHash then Ok(Some([]))
      else
        var kept := Filter(byHash[beatmap.md5Hash].scores, user, v2Only, hasV2);
        if kept == [] then Ok(Some([]))
        else
          match ToBeatmap(beatmap)
          case Err(e) => Err(e)
          case Ok(bm) => Ok(Some(SortBy(ConvertAll(kept, user, bm, asSeq, accuracy), CreatedAt)))
  }

  /** The kept plays turned into web-API scores and sorted by creation time. */
  function ConvertedScores(scores: seq<LocalScore>, user: User, v2Only: bool, hasV2: int -> bool,
                           bm: Histories.Beatmap, asSeq: int -> seq<Mod>, accuracy: LocalScore -> int): seq<Score>
    requires bm.checksum.None?
  {
    SortBy(ConvertAll(Filter(scores, user, v2Only, hasV2), user, bm, asSeq, accuracy), CreatedAt)
  }

  /** `map { it.toScore(…) }` over the kept plays. */
  function ConvertAll(kept: seq<LocalScore>, user: User, bm: Histories.Beatmap, asSeq: int -> seq<Mod>,
                      accuracy: LocalScore -> int): (r: seq<Score>)
    requires bm.checksum.None?
    ensures |r| == |kept|
    ensures forall k :: 0 <= k < |kept| ==> r[k] == Convert(kept[k], user, bm, asSeq, accuracy)
  {
    seq(|kept|, k requires 0 <= k < |kept| => Convert(kept[k], user, bm, asSeq, accuracy))
  }

  /** Sorting keeps exactly the same elements. */
  lemma SortByMembers<T>(s: seq<T>, key: T -> int)
    ensures forall x :: x in SortBy(s, key) <==> x in s
  {
    forall x
      ensures x in SortBy(s, key) <==> x in s
    {
      assert x in SortBy(s, key) <==> x in multiset(SortBy(s, key));
      assert x in s <==> x in multiset(s);
    }
  }

  /** Every converted score comes from a kept play. */
  lemma ConvertAllSound(scores: seq<LocalScore>, user: User, v2Only: bool, hasV2: int -> bool,
                        bm: Histories.Beatmap, asSeq: int -> seq<Mod>, accuracy: LocalScore -> int, x: Score)
    requires bm.checksum.None?
    requires x in ConvertAll(Filter(scores, user, v2Only, hasV2), user, bm, asSeq, accuracy)
    ensures exists s | s in scores && Kept(s, user, v2Only, hasV2) :: x == Convert(s, user, bm, asSeq, accuracy)
  {
    var kept := Filter(scores, user, v2Only, hasV2);
    var k :| 0 <= k < |kept| && ConvertAll(kept, user, bm, asSeq, accuracy)[k] == x;
    assert kept[k] in kept;
  }

  /** Every kept play is converted. */
  lemma ConvertAllComplete(scores: seq<LocalScore>, user: User, v2Only: bool, hasV2: int -> bool,
                           bm: Histories.Beatmap, asSeq: int -> seq<Mod>, accuracy: LocalScore -> int, s: LocalScore)
    requires bm.checksum.None?
    requires s in scores && Kept(s, user, v2Only, hasV2)
    ensures Convert(s, user, bm, asSeq, accuracy) in ConvertAll(Filter(scores, user, v2Only, hasV2), user, bm, asSeq, accuracy)
  {
    var kept := Filter(scores, user, v2Only, hasV2);
    var k :| 0 <= k < |kept| && kept[k] == s;
    assert ConvertAll(kept, user, bm, asSeq, accuracy)[k] == Convert(s, user, bm, asSeq, accuracy);
  }

  /** The converted scores are sorted by creation time and are exactly the conversions of the kept plays. */
  lemma ConvertedScoresProperties(scores: seq<LocalScore>, user: User, v2Only: bool, hasV2: int -> bool,
                                  bm: Histories.Beatmap, asSeq: int -> seq<Mod>, accuracy: LocalScore -> int)
    requires bm.checksum.None?
    ensures var r := ConvertedScores(scores, user, v2Only, hasV2, bm, asSeq, accuracy);
      && SortedBy(r, CreatedAt)
      && forall x :: x in r <==>
           exists s | s in scores && Kept(s, user, v2Only, hasV2) :: x == Convert(s, user, bm, asSeq, accuracy)
  {
    var converted := ConvertAll(Filter(scores, user, v2Only, hasV2), user, bm, asSeq, accuracy);
    SortBySorted(converted, CreatedAt);
    SortByMembers(converted, CreatedAt);
    forall x | x in converted
      ensures exists s | s in scores && Kept(s, user, v2Only, hasV2) :: x == Convert(s, user, bm, asSeq, accuracy)
    {
      ConvertAllSound(scores, user, v2Only, hasV2, bm, asSeq, accuracy, x);
    }
    forall s | s in scores && Kept(s, user, v2Only, hasV2)
      ensures Convert(s, user, bm, asSeq, accuracy) in converted
    {
      ConvertAllComplete(scores, user, v2Only, hasV2, bm, asSeq, accuracy, s);
    }
  }

  /**
    With the beatmap found (the last one with that id), the answer fails exactly when some
    play is kept and the star cache does not materialise. Otherwise it is empty when no
    scored beatmap has its hash, it is sorted by creation time, and its scores are exactly
    the converted scores of the user's kept plays on that hash.
   */
  lemma LocalBeatmapScoresProperties(beatmaps: seq<LocalBeatmap>, scored: seq<ScoredBeatmap>, v2Only: bool,
                                     user: User, beatmapId: int, hasV2: int -> bool, asSeq: int -> seq<Mod>,
                                     accuracy: LocalScore -> int)
    requires exists b | b in beatmaps :: b.beatmapId == beatmapId
    ensures var r := LocalBeatmapScores(beatmaps, scored, v2Only, user, beatmapId, hasV2, asSeq, accuracy);
      var beatmap := AssociateBy(beatmaps, (b: LocalBeatmap) => b.beatmapId)[beatmapId];
      var byHash := AssociateBy(scored, (sb: ScoredBeatmap) => sb.md5Hash);
      var stored := if beatmap.md5Hash in byHash then byHash[beatmap.md5Hash].scores else [];
      && beatmap in beatmaps && beatmap.beatmapId == beatmapId
      && (r.Err? <==> beatmap.stdModdedStarCache.Err? && exists s | s in stored :: Kept(s, user, v2Only, hasV2))
      && (r.Ok? ==> r.value.Some? && SortedBy(r.value.value, CreatedAt))
      && ((forall sb | sb in scored :: sb.md5Hash != beatmap.md5Hash) ==> r == Ok(Some([])))
      && (ToBeatmap(beatmap).Ok? ==>
            r.Ok? && r.value.Some? && forall x :: x in r.value.value <==>
              exists s | s in stored && Kept(s, user, v2Only, hasV2) ::
                x == Convert(s, user, ToBeatmap(beatmap).value, asSeq, accuracy))
  {
    var beatmap := AssociateBy(beatmaps, (b: LocalBeatmap) => b.beatmapId)[beatmapId];
    var byHash := AssociateBy(scored, (sb: ScoredBeatmap) => sb.md5Hash);
    if beatmap.md5Hash in byHash {
      var stored := byHash[beatmap.md5Hash].scores;
      var kept := Filter(stored, user, v2Only, hasV2);
      if kept != [] {
        assert kept[0] in kept;
      }
      match ToBeatmap(beatmap)
      case Err(_) =>
      case Ok(bm) => ConvertedScoresProperties(stored, user, v2Only, hasV2, bm, asSeq, accuracy);
    }
  }
}
