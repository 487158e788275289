/** The cache-aside layer of `PostRedisService`: like and comment counters
    kept as decimal text in the cache's string keyspace, the like ranking
    (the sorted set `ranking:likes`) and the cache of post presentation
    objects. Every operation is a pure transition of `CacheState`; the
    durable store is a read-only `Db`. */
module PostRedisService {
  import opened Wrappers
  import opened Decimal
  import opened Durable

  const CacheLikes: string := "postLikes"
  const CacheComments: string := "postComments"

  /** Which derived counter of a post. */
  datatype CountKind = Like | Comment

  /** The cached presentation object of a post; fields the model does not
      read are omitted. */
  datatype PostDto = PostDto(id: PostId, title: string, summary: string, sourceName: string)

  /** `strings`: the cache's string keyspace (counter keys to decimal text).
      `ranking`: member post id to score of the sorted set `ranking:likes`.
      `posts`: the `posts` cache, post id to presentation object. */
  datatype CacheState = CacheState(
    strings: map<string, string>,
    ranking: map<PostId, int>,
    posts: map<PostId, PostDto>)

  datatype CacheError =
    | NumberFormat(text: string)   // `Long.parseLong` rejected a cached value
    | NotAnInteger(key: string)    // INCR/DECR on a value that is not an integer

  function Namespace(kind: CountKind): string {
    match kind
    case Like => CacheLikes
    case Comment => CacheComments
  }

  /** `getLikeKey` / `getCommentKey`: `<namespace>::<decimal id>`. */
  function CountKey(kind: CountKind, id: PostId): (key: string)
    ensures |key| > |Namespace(kind)| + 2 && key[..|Namespace(kind)| + 2] == Namespace(kind) + "::"
    ensures key[|Namespace(kind)| + 2..] == ToDecimal(id)
  {
    Namespace(kind) + "::" + ToDecimal(id)
  }

  /** Two counters share a key only if they are the same counter: the two
      namespaces are disjoint and the decimal id is injective. */
  lemma CountKeyInjective(k1: CountKind, a: PostId, k2: CountKind, b: PostId)
    ensures CountKey(k1, a) == CountKey(k2, b) <==> k1 == k2 && a == b
  {
    var x, y := CountKey(k1, a), CountKey(k2, b);
    if k1 != k2 {
      assert x[4] != y[4];
    } else if x == y {
      var n := |Namespace(k1) + "::"|;
      assert ToDecimal(a) == x[n..];
      assert ToDecimal(b) == y[n..];
      ToDecimalInjective(a, b);
    }
  }

  /** The text cached for one counter, if any. */
  function CachedCount(s: CacheState, kind: CountKind, id: PostId): Option<string> {
    var key := CountKey(kind, id);
    if key in s.strings then Some(s.strings[key]) else None
  }

  /** The integer the cache server sees for a counter: an absent key counts
      as 0, text that is not an integer gives `None`. */
  function Counter(s: CacheState, kind: CountKind, id: PostId): Option<int> {
    match CachedCount(s, kind, id)
    case None => Some(0)
    case Some(text) => ParseStrict(text)
  }

  /** Every cached string is an integer in canonical decimal form; this is
      what the service itself ever writes. */
  ghost predicate WellFormed(s: CacheState) {
    forall key :: key in s.strings ==> ParseStrict(s.strings[key]).Some?
  }

  function DurableCount(db: Db, kind: CountKind, id: PostId): nat {
    match kind
    case Like => LikesCount(db, id)
    case Comment => CommentCount(db, id)
  }

  /** `getLikeCount` / `getCommentCount`: read-through with populate-on-miss. */
  function GetCount(s: CacheState, db: Db, kind: CountKind, id: PostId): (r: Result<(int, CacheState), CacheError>)
    // hit: the stored text, parsed; nothing is written
    ensures CachedCount(s, kind, id).Some? ==>
      match ParseLong(CachedCount(s, kind, id).value)
      case Some(v) => r == Success((v, s))
      case None => r.Failure?
    // miss: the durable count, which is now cached
    ensures CachedCount(s, kind, id).None? ==>
      && r.Success?
      && r.value.0 == DurableCount(db, kind, id)
      && Counter(r.value.1, kind, id) == Some(r.value.0)
    ensures r.Success? ==> r.value.1.ranking == s.ranking && r.value.1.posts == s.posts
  {
    var key := CountKey(kind, id);
    if key in s.strings then
      match ParseLong(s.strings[key])
      case Some(v) => Success((v, s))
      case None => Failure(NumberFormat(s.strings[key]))
    else
      var dbCount := DurableCount(db, kind, id);
      ParseStrictIff(ToDecimal(dbCount), dbCount);
      Success((dbCount, s.(strings := s.strings[key := ToDecimal(dbCount)])))
  }

  /** INCRBY on one key of the string keyspace: an absent key starts at 0,
      there is no floor, and text that is not an integer is an error. */
  function IncrBy(m: map<string, string>, key: string, delta: int): (r: Result<map<string, string>, CacheError>)
    ensures r.Success? <==> key !in m || ParseStrict(m[key]).Some?
    ensures r.Success? ==> r.value.Keys == m.Keys + {key}
    ensures r.Success? ==> forall k :: k in m && k != key ==> r.value[k] == m[k]
    ensures r.Success? ==> r.value[key] == ToDecimal((if key in m then ParseStrict(m[key]).value else 0) + delta)
  {
    if key !in m then Success(m[key := ToDecimal(delta)])
    else
      match ParseStrict(m[key])
      case Some(v) => Success(m[key := ToDecimal(v + delta)])
      case None => Failure(NotAnInteger(key))
  }

  /** Adds `delta` to one counter, without any durable-store read. */
  function AdjustCount(s: CacheState, kind: CountKind, id: PostId, delta: int): (r: Result<CacheState, CacheError>)
    ensures r.Success? <==> Counter(s, kind, id).Some?
    ensures r.Success? ==> r.value.ranking == s.ranking && r.value.posts == s.posts
  {
    match IncrBy(s.strings, CountKey(kind, id), delta)
    case Success(m) => Success(s.(strings := m))
    case Failure(e) => Failure(e)
  }

  /** The state an update leaves: the counter's key now holds the canonical
      text of its old value (0 when absent) plus `delta`, and the counter
      reads as exactly that value. */
  lemma AdjustCountExact(s: CacheState, kind: CountKind, id: PostId, delta: int)
    requires Counter(s, kind, id).Some?
    ensures var v := Counter(s, kind, id).value;
      && AdjustCount(s, kind, id, delta) == Success(s.(strings := s.strings[CountKey(kind, id) := ToDecimal(v + delta)]))
      && Counter(AdjustCount(s, kind, id, delta).value, kind, id) == Some(v + delta)
  {
    var v := Counter(s, kind, id).value;
    ParseStrictIff(ToDecimal(v + delta), v + delta);
  }

  /** `incrementLikeCount` / `incrementCommentCount` (INCR). */
  function IncrementCount(s: CacheState, kind: CountKind, id: PostId): (r: Result<CacheState, CacheError>)
    ensures r.Success? <==> Counter(s, kind, id).Some?
    ensures r.Success? ==> Counter(s, kind, id).Some? && Counter(r.value, kind, id) == Some(Counter(s, kind, id).value + 1)
  {
    if Counter(s, kind, id).Some? then AdjustCountExact(s, kind, id, 1); AdjustCount(s, kind, id, 1)
    else AdjustCount(s, kind, id, 1)
  }

  /** `decrementLikeCount` / `decrementCommentCount` (DECR). */
  function DecrementCount(s: CacheState, kind: CountKind, id: PostId): (r: Result<CacheState, CacheError>)
    ensures r.Success? <==> Counter(s, kind, id).Some?
    ensures r.Success? ==> Counter(s, kind, id).Some? && Counter(r.value, kind, id) == Some(Counter(s, kind, id).value - 1)
  {
    if Counter(s, kind, id).Some? then AdjustCountExact(s, kind, id, -1); AdjustCount(s, kind, id, -1)
    else AdjustCount(s, kind, id, -1)
  }

  /** A member's score, 0 when it is not a member (what ZINCRBY starts from). */
  function Score(s: CacheState, id: PostId): int {
    if id in s.ranking then s.ranking[id] else 0
  }

  /** ZINCRBY `ranking:likes` by `delta`, creating the member if needed. */
  function IncrementScore(s: CacheState, id: PostId, delta: int): (r: CacheState)
    ensures r.ranking.Keys == s.ranking.Keys + {id}
    ensures r.ranking[id] == Score(s, id) + delta
    ensures forall x :: x in s.ranking && x != id ==> r.ranking[x] == s.ranking[x]
    ensures r.strings == s.strings && r.posts == s.posts
  {
    s.(ranking := s.ranking[id := Score(s, id) + delta])
  }

  /** `incrementLikeRanking` */
  function IncrementLikeRanking(s: CacheState, id: PostId): (r: CacheState)
    ensures id in r.ranking && r.ranking[id] == Score(s, id) + 1
    ensures r.ranking.Keys == s.ranking.Keys + {id}
    ensures forall x :: x in s.ranking && x != id ==> r.ranking[x] == s.ranking[x]
    ensures r.strings == s.strings && r.posts == s.posts
  {
    IncrementScore(s, id, 1)
  }

  /** `decrementLikeRanking` */
  function DecrementLikeRanking(s: CacheState, id: PostId): (r: CacheState)
    ensures id in r.ranking && r.ranking[id] == Score(s, id) - 1
    ensures r.ranking.Keys == s.ranking.Keys + {id}
    ensures forall x :: x in s.ranking && x != id ==> r.ranking[x] == s.ranking[x]
    ensures r.strings == s.strings && r.posts == s.posts
  {
    IncrementScore(s, id, -1)
  }

  /** `removeRanking` (ZREM): only that member goes. */
  function RemoveRanking(s: CacheState, id: PostId): (r: CacheState)
    ensures r.ranking.Keys == s.ranking.Keys - {id}
    ensures forall x :: x in r.ranking ==> r.ranking[x] == s.ranking[x]
    ensures r.strings == s.strings && r.posts == s.posts
  {
    s.(ranking := s.ranking - {id})
  }

  /** Some member of a non-empty set has the highest score in it. */
  lemma {:induction false} MaxScoreExists(m: map<PostId, int>, xs: set<PostId>)
    requires xs != {} && xs <= m.Keys
    ensures exists x :: x in xs && forall y :: y in xs ==> m[y] <= m[x]
    decreases xs
  {
    if forall x :: x !in xs {
      assert false;
    }
    var a :| a in xs;
    var rest := xs - {a};
    if rest != {} {
      MaxScoreExists(m, rest);
      var b :| b in rest && forall y :: y in rest ==> m[y] <= m[b];
      if m[a] <= m[b] {
        assert forall y :: y in xs ==> m[y] <= m[b];
      } else {
        assert forall y :: y in xs ==> m[y] <= m[a];
      }
    } else {
      assert xs == {a};
    }
  }

  /** `getTopLikedPostIds(limit)` (ZREVRANGE 0 limit-1): the `limit` highest
      scored members, best first. Among equal scores the order is left open. */
  method GetTopLikedPostIds(s: CacheState, limit: int) returns (ids: seq<PostId>)
    requires limit >= 1
    ensures |ids| == if limit < |s.ranking| then limit else |s.ranking|
    ensures forall i :: 0 <= i < |ids| ==> ids[i] in s.ranking
    ensures forall i, j :: 0 <= i < j < |ids| ==> ids[i] != ids[j]
    ensures forall i, j :: 0 <= i < j < |ids| ==> s.ranking[ids[i]] >= s.ranking[ids[j]]
    ensures forall x, i :: x in s.ranking && x !in ids && 0 <= i < |ids| ==> s.ranking[x] <= s.ranking[ids[i]]
  {
    ids := [];
    var rest := s.ranking.Keys;
    while |ids| < limit && rest != {}
      invariant rest <= s.ranking.Keys
      invariant |ids| <= limit
      invariant |rest| + |ids| == |s.ranking|
      invariant forall i :: 0 <= i < |ids| ==> ids[i] in s.ranking && ids[i] !in rest
      invariant forall x :: x in s.ranking && x !in rest ==> x in ids
      invariant forall i, j :: 0 <= i < j < |ids| ==> ids[i] != ids[j]
      invariant forall i, j :: 0 <= i < j < |ids| ==> s.ranking[ids[i]] >= s.ranking[ids[j]]
      invariant forall x, i :: x in rest && 0 <= i < |ids| ==> s.ranking[x] <= s.ranking[ids[i]]
      decreases rest
    {
      MaxScoreExists(s.ranking, rest);
      var top :| top in rest && forall y :: y in rest ==> s.ranking[y] <= s.ranking[top];
      assert forall i :: 0 <= i < |ids| ==> s.ranking[top] <= s.ranking[ids[i]];
      assert |rest - {top}| == |rest| - 1;
      ids := ids + [top];
      rest := rest - {top};
    }
  }

  /** ZADD of every listed post at score 0, one after another. */
  function AddAtZero(ranking: map<PostId, int>, posts: seq<Post>): (r: map<PostId, int>)
    ensures r.Keys == ranking.Keys + IdSet(posts)
    ensures forall p :: p in posts ==> r[p.id] == 0
    ensures forall x :: x in ranking && x !in IdSet(posts) ==> r[x] == ranking[x]
    decreases |posts|
  {
    if |posts| == 0 then ranking
    else
      assert IdSet(posts) == {posts[0].id} + IdSet(posts[1..]);
      AddAtZero(ranking[posts[0].id := 0], posts[1..])
  }

  /** `addRankingBatch(posts)`: null or empty is a no-op; otherwise each
      post becomes a member with score 0, an existing score included. */
  function AddRankingBatch(s: CacheState, posts: Option<seq<Post>>): (r: CacheState)
    ensures posts.None? || posts.value == [] ==> r == s
    ensures posts.Some? ==> r.ranking.Keys == s.ranking.Keys + IdSet(posts.value)
    ensures posts.Some? ==> forall p :: p in posts.value ==> r.ranking[p.id] == 0
    ensures posts.Some? ==> forall x :: x in s.ranking && x !in IdSet(posts.value) ==> r.ranking[x] == s.ranking[x]
    ensures r.strings == s.strings && r.posts == s.posts
  {
    match posts
    case None => s
    case Some(ps) => if |ps| == 0 then s else s.(ranking := AddAtZero(s.ranking, ps))
  }

  /** ZADD of every listed post with its durable like count as score. */
  function AddWithLikeCounts(ranking: map<PostId, int>, posts: seq<Post>, db: Db): (r: map<PostId, int>)
    ensures r.Keys == ranking.Keys + IdSet(posts)
    ensures forall p :: p in posts ==> r[p.id] == LikesCount(db, p.id)
    ensures forall x :: x in ranking && x !in IdSet(posts) ==> r[x] == ranking[x]
    decreases |posts|
  {
    if |posts| == 0 then ranking
    else
      assert IdSet(posts) == {posts[0].id} + IdSet(posts[1..]);
      AddWithLikeCounts(ranking[posts[0].id := LikesCount(db, posts[0].id)], posts[1..], db)
  }

  /** `initRankingIfEmpty`: a sorted set with no members does not exist, so
      the key is absent exactly when the ranking is empty; then it is rebuilt
      from every stored post and its like count. */
  function InitRankingIfEmpty(s: CacheState, db: Db): (r: CacheState)
    ensures |s.ranking| > 0 ==> r == s
    ensures |s.ranking| == 0 ==> r.ranking.Keys == PostIds(db)
    ensures |s.ranking| == 0 ==> forall id :: id in r.ranking ==> r.ranking[id] == LikesCount(db, id)
    ensures r.strings == s.strings && r.posts == s.posts
  {
    if |s.ranking| > 0 then s
    else s.(ranking := AddWithLikeCounts(map[], db.posts, db))
  }

  /** `savePostDtoToRedis`: put, overwriting any earlier entry. */
  function SavePostDto(s: CacheState, d: PostDto): (r: CacheState)
    ensures r.posts.Keys == s.posts.Keys + {d.id}
    ensures r.posts[d.id] == d
    ensures forall x :: x in s.posts && x != d.id ==> r.posts[x] == s.posts[x]
    ensures r.strings == s.strings && r.ranking == s.ranking
  {
    s.(posts := s.posts[d.id := d])
  }

  /** The cached object for one id, `None` (null) when absent. */
  function LookupDto(s: CacheState, id: PostId): Option<PostDto> {
    if id in s.posts then Some(s.posts[id]) else None
  }

  /** `getPostDtoList` (MGET): one entry per requested id, in order, with
      null for every id that is not cached. */
  function GetPostDtoList(s: CacheState, ids: seq<PostId>): (r: seq<Option<PostDto>>)
    ensures |r| == |ids|
    ensures forall i :: 0 <= i < |ids| ==> (r[i].Some? <==> ids[i] in s.posts)
    ensures forall i :: 0 <= i < |ids| && r[i].Some? ==> r[i].value == s.posts[ids[i]]
  {
    if |ids| == 0 then []
    else [LookupDto(s, ids[0])] + GetPostDtoList(s, ids[1..])
  }
}
