/** Properties of `PostRedisService` that relate several calls: the
    read-through round trip, the frame of each counter update, the
    increment/decrement round trips, and idempotence of ranking rebuild,
    batch registration and DTO puts. */
module PostRedisProperties {
  import opened Wrappers
  import opened Decimal
  import opened Durable
  import opened PostRedisService

  /** On a cold counter, the first read returns the durable count and
      caches its decimal text; a second read is then a hit that returns the
      same number and writes nothing. */
  lemma ReadThroughThenHit(s: CacheState, db: Db, kind: CountKind, id: PostId)
    requires CachedCount(s, kind, id).None?
    ensures GetCount(s, db, kind, id).Success?
    ensures var (n, s1) := GetCount(s, db, kind, id).value;
      && n == DurableCount(db, kind, id)
      && CachedCount(s1, kind, id) == Some(ToDecimal(n))
      && GetCount(s1, db, kind, id) == Success((n, s1))
  {
    var n := DurableCount(db, kind, id);
    ParseLongRoundTrip(n);
    var s1 := GetCount(s, db, kind, id).value.1;
    assert CachedCount(s1, kind, id) == Some(ToDecimal(n));
  }

  /** On a well-formed cache a read never fails, returns the number whose
      text is (now) cached, keeps the cache well-formed, and reading again
      changes nothing. */
  lemma ReadIdempotent(s: CacheState, db: Db, kind: CountKind, id: PostId)
    requires WellFormed(s)
    ensures GetCount(s, db, kind, id).Success?
    ensures var (n, s1) := GetCount(s, db, kind, id).value;
      && WellFormed(s1)
      && CachedCount(s1, kind, id) == Some(ToDecimal(n))
      && GetCount(s1, db, kind, id) == Success((n, s1))
  {
    var key := CountKey(kind, id);
    if key in s.strings {
      var v := ParseStrict(s.strings[key]).value;
      StrictImpliesLenient(s.strings[key]);
      assert GetCount(s, db, kind, id) == Success((v, s));
    } else {
      ReadThroughThenHit(s, db, kind, id);
      var (n, s1) := GetCount(s, db, kind, id).value;
      ParseStrictIff(ToDecimal(n), n);
      assert s1.strings == s.strings[key := ToDecimal(n)];
    }
  }

  /** A read touches no other counter, of either kind. */
  lemma ReadFrame(s: CacheState, db: Db, kind: CountKind, id: PostId)
    requires GetCount(s, db, kind, id).Success?
    ensures var s1 := GetCount(s, db, kind, id).value.1;
      forall k, x :: (k != kind || x != id) ==> CachedCount(s1, k, x) == CachedCount(s, k, x)
  {
    var s1 := GetCount(s, db, kind, id).value.1;
    forall k, x | k != kind || x != id
      ensures CachedCount(s1, k, x) == CachedCount(s, k, x)
    {
      CountKeyInjective(k, x, kind, id);
    }
  }

  /** A counter update changes that one counter and nothing else: no other
      counter of either kind, not the ranking, not the DTO cache. */
  lemma AdjustFrame(s: CacheState, kind: CountKind, id: PostId, delta: int)
    requires AdjustCount(s, kind, id, delta).Success?
    ensures var s1 := AdjustCount(s, kind, id, delta).value;
      && s1.ranking == s.ranking
      && s1.posts == s.posts
      && forall k, x :: (k != kind || x != id) ==> CachedCount(s1, k, x) == CachedCount(s, k, x)
  {
    var s1 := AdjustCount(s, kind, id, delta).value;
    forall k, x | k != kind || x != id
      ensures CachedCount(s1, k, x) == CachedCount(s, k, x)
    {
      CountKeyInjective(k, x, kind, id);
    }
  }

  /** `increment...Count` and `decrement...Count` each touch only their own
      counter: every other counter of either kind, the ranking and the DTO
      cache are as before. */
  lemma IncrementDecrementFrame(s: CacheState, kind: CountKind, id: PostId)
    requires Counter(s, kind, id).Some?
    ensures var up, down := IncrementCount(s, kind, id).value, DecrementCount(s, kind, id).value;
      && up.ranking == s.ranking && up.posts == s.posts
      && down.ranking == s.ranking && down.posts == s.posts
      && forall k, x :: (k != kind || x != id) ==>
        CachedCount(up, k, x) == CachedCount(s, k, x) && CachedCount(down, k, x) == CachedCount(s, k, x)
  {
    AdjustFrame(s, kind, id, 1);
    AdjustFrame(s, kind, id, -1);
  }

  /** On a well-formed cache an update never fails and keeps it well-formed. */
  lemma AdjustKeepsWellFormed(s: CacheState, kind: CountKind, id: PostId, delta: int)
    requires WellFormed(s)
    ensures AdjustCount(s, kind, id, delta).Success?
    ensures WellFormed(AdjustCount(s, kind, id, delta).value)
  {
    var key := CountKey(kind, id);
    AdjustCountExact(s, kind, id, delta);
    var v := Counter(s, kind, id).value;
    ParseStrictIff(ToDecimal(v + delta), v + delta);
    var m := AdjustCount(s, kind, id, delta).value.strings;
    forall k | k in m
      ensures ParseStrict(m[k]).Some?
    {
      if k != key {
        assert m[k] == s.strings[k];
      }
    }
  }

  /** A decrement on a counter that is not cached does not consult the
      durable store and is not floored: the counter becomes -1. */
  lemma DecrementOfAbsentIsMinusOne(s: CacheState, kind: CountKind, id: PostId)
    requires CachedCount(s, kind, id).None?
    ensures DecrementCount(s, kind, id).Success?
    ensures CachedCount(DecrementCount(s, kind, id).value, kind, id) == Some("-1")
  {
    AdjustCountExact(s, kind, id, -1);
    assert ToDecimal(-1) == "-1";
  }

  /** An increment on a counter that is not cached starts from 0. */
  lemma IncrementOfAbsentIsOne(s: CacheState, kind: CountKind, id: PostId)
    requires CachedCount(s, kind, id).None?
    ensures IncrementCount(s, kind, id).Success?
    ensures CachedCount(IncrementCount(s, kind, id).value, kind, id) == Some("1")
  {
    AdjustCountExact(s, kind, id, 1);
    assert ToDecimal(1) == "1";
  }

  /** Increment then decrement of a cached, integer counter restores the
      cache exactly. */
  lemma IncrementThenDecrement(s: CacheState, kind: CountKind, id: PostId)
    requires CachedCount(s, kind, id).Some? && Counter(s, kind, id).Some?
    ensures IncrementCount(s, kind, id).Success?
    ensures DecrementCount(IncrementCount(s, kind, id).value, kind, id) == Success(s)
  {
    var key := CountKey(kind, id);
    var v := Counter(s, kind, id).value;
    AdjustCountExact(s, kind, id, 1);
    var s1 := s.(strings := s.strings[key := ToDecimal(v + 1)]);
    assert IncrementCount(s, kind, id) == Success(s1);
    AdjustCountExact(s1, kind, id, -1);
    assert DecrementCount(s1, kind, id) == Success(s1.(strings := s1.strings[key := ToDecimal(v)]));
    assert ToDecimal(v) == s.strings[key];
    assert s1.strings[key := ToDecimal(v)] == s.strings;
  }

  /** Decrement then increment of a cached, integer counter restores the
      cache exactly. */
  lemma DecrementThenIncrement(s: CacheState, kind: CountKind, id: PostId)
    requires CachedCount(s, kind, id).Some? && Counter(s, kind, id).Some?
    ensures DecrementCount(s, kind, id).Success?
    ensures IncrementCount(DecrementCount(s, kind, id).value, kind, id) == Success(s)
  {
    var key := CountKey(kind, id);
    var v := Counter(s, kind, id).value;
    AdjustCountExact(s, kind, id, -1);
    var s1 := s.(strings := s.strings[key := ToDecimal(v - 1)]);
    assert DecrementCount(s, kind, id) == Success(s1);
    AdjustCountExact(s1, kind, id, 1);
    assert IncrementCount(s1, kind, id) == Success(s1.(strings := s1.strings[key := ToDecimal(v)]));
    assert ToDecimal(v) == s.strings[key];
    assert s1.strings[key := ToDecimal(v)] == s.strings;
  }

  /** On a counter that is not cached, increment then decrement leaves the
      text "0" behind rather than the absent key. */
  lemma IncrementThenDecrementOfAbsent(s: CacheState, kind: CountKind, id: PostId)
    requires CachedCount(s, kind, id).None?
    ensures IncrementCount(s, kind, id).Success?
    ensures var r := DecrementCount(IncrementCount(s, kind, id).value, kind, id);
      r.Success? && r.value == s.(strings := s.strings[CountKey(kind, id) := "0"])
  {
    AdjustCountExact(s, kind, id, 1);
    var s1 := IncrementCount(s, kind, id).value;
    AdjustCountExact(s1, kind, id, -1);
    assert ToDecimal(0) == "0";
  }

  /** A like and an unlike of a ranked post restore the ranking. */
  lemma RankingIncrementThenDecrement(s: CacheState, id: PostId)
    requires id in s.ranking
    ensures DecrementLikeRanking(IncrementLikeRanking(s, id), id) == s
  {
    var r := DecrementLikeRanking(IncrementLikeRanking(s, id), id);
    assert r.ranking == s.ranking;
  }

  /** Scoring a post that was not ranked and then removing it restores the
      ranking. */
  lemma RankingIncrementThenRemove(s: CacheState, id: PostId)
    requires id !in s.ranking
    ensures RemoveRanking(IncrementLikeRanking(s, id), id) == s
  {
    var r := RemoveRanking(IncrementLikeRanking(s, id), id);
    assert r.ranking == s.ranking;
  }

  /** Registering the same batch twice has the effect of registering it once. */
  lemma AddRankingBatchIdempotent(s: CacheState, posts: Option<seq<Post>>)
    ensures AddRankingBatch(AddRankingBatch(s, posts), posts) == AddRankingBatch(s, posts)
  {
    if posts.Some? && posts.value != [] {
      var ps := posts.value;
      var m1 := AddAtZero(s.ranking, ps);
      var m2 := AddAtZero(m1, ps);
      assert m2.Keys == m1.Keys;
      forall x | x in m2
        ensures m2[x] == m1[x]
      {
        if x in IdSet(ps) {
          var p :| p in ps && p.id == x;
          assert m1[p.id] == 0 && m2[p.id] == 0;
        }
      }
      assert m2 == m1;
    }
  }

  /** Rebuilding twice has the effect of rebuilding once. */
  lemma InitRankingIdempotent(s: CacheState, db: Db)
    ensures InitRankingIfEmpty(InitRankingIfEmpty(s, db), db) == InitRankingIfEmpty(s, db)
  {
    var r1 := InitRankingIfEmpty(s, db);
    if |s.ranking| == 0 && |r1.ranking| == 0 {
      assert r1.ranking.Keys == {};
      var r2 := InitRankingIfEmpty(r1, db);
      assert r2.ranking.Keys == {};
      assert r2.ranking == r1.ranking;
    }
  }

  /** After a rebuild every member is a stored post (no orphans) and every
      stored post is a member scored with its durable like count. */
  lemma InitRankingMatchesStore(s: CacheState, db: Db)
    requires |s.ranking| == 0
    ensures var r := InitRankingIfEmpty(s, db);
      && (forall id :: id in r.ranking <==> exists p :: p in db.posts && p.id == id)
      && (forall p :: p in db.posts ==> r.ranking[p.id] == multiset(db.likeRows)[p.id])
  {
  }

  /** After a put, a multi-get sees the new object at every position asking
      for its id, and exactly what it saw before everywhere else. */
  lemma SaveThenGetList(s: CacheState, d: PostDto, ids: seq<PostId>)
    ensures var before := GetPostDtoList(s, ids);
      var after := GetPostDtoList(SavePostDto(s, d), ids);
      && |after| == |ids|
      && forall i :: 0 <= i < |ids| ==>
        after[i] == if ids[i] == d.id then Some(d) else before[i]
  {
  }

  /** Puts of the same id overwrite: only the last one is visible. */
  lemma SavePostDtoOverwrites(s: CacheState, d1: PostDto, d2: PostDto)
    requires d1.id == d2.id
    ensures SavePostDto(SavePostDto(s, d1), d2) == SavePostDto(s, d2)
  {
  }
}
