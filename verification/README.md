# Tech-Post cache layer and post search, modelled in Dafny

This project models two parts of the Tech-Post backend.

1. **`PostRedisService`** is the cache-aside layer in front of the relational store:
   - like and comment counters, kept as decimal text under `postLikes::<id>` / `postComments::<id>`;
   - the like leaderboard, the sorted set `ranking:likes`;
   - the `posts` cache of post presentation objects.

   Each public operation is a pure transition of an immutable
   `CacheState` against a fixed, read-only durable store `Db` (the post table
   plus the `post_id` column of the likes and comments tables).
2. **`PostRepositoryImpl.searchIds`** is the QueryDSL search. It filters posts by
   an optional keyword (in title or summary) and an optional source name, orders
   them by id descending and cuts one page. It also reports the total number of
   matches. It is modelled as a pure function over a sequence of posts.

Files:
- `wrappers.dfy`: `Option` (a Java reference that may be null) and `Result` (a call that may throw).
- `decimal.dfy`: `Long.toString`, `Long.parseLong` and the cache server's strict integer parser (the one INCR/DECR use), with the round-trip lemmas.
- `durable.dfy`: posts, like/comment rows and `countByPostId`.
- `post_redis_service.dfy`: the cache state and every operation of `PostRedisService`.
- `post_redis_properties.dfy`: lemmas relating several operations: read-through round trip, frames, increment/decrement round trips, idempotence.
- `post_search.dfy`: `hasText`, `contains`, the two predicate builders, ordering, paging and `searchIds`.

Behaviour worth noting, as the code has it:
- A decrement does not read through and is not floored at zero. On an absent key it yields -1.
- `addRankingBatch` is a plain ZADD: it resets an existing score to 0 instead of adding only absent members.
- `savePostDtoToRedis` always overwrites.
- Among equal scores the top-N order is decided by the cache server, not by this code; the model leaves it unspecified.

## Model

| member | source | states |
|---|---|---|
| `Decimal.ToDecimal` | src/main/java/com/ureka/techpost/domain/post/service/PostRedisService.java:98 | `Long.toString`, as used for the counts written on a miss (and at line 112) and for the id in each key: non-negative values become digits only, with no leading zero, and 0 is exactly "0"; negative values become a minus sign followed by digits with no leading zero |
| `Decimal.ParseLong` | src/main/java/com/ureka/techpost/domain/post/service/PostRedisService.java:93 | `Long.parseLong`, as used on a cache hit (and at lines 108 and 159): it accepts text exactly when the text is one or more digits, optionally after one leading `+` or `-`; anything else is a format error |
| `Decimal.ParseStrict` | src/main/java/com/ureka/techpost/domain/post/service/PostRedisService.java:119-130 | the integer parse the cache server applies before INCR/DECR: whatever it accepts is the canonical `Long.toString` text of the value it returns |
| `PostRedisService.CountKey` | src/main/java/com/ureka/techpost/domain/post/service/PostRedisService.java:79-84 | `getLikeKey` / `getCommentKey`: the key is the cache name followed by `::`, and the rest of the key is the decimal text of the post id |
| `PostSearch.HasText` | src/main/java/com/ureka/techpost/domain/post/repository/PostRepositoryImpl.java:65 | `StringUtils.hasText`: null has no text; a string has text exactly when it is not empty and not all whitespace (as `Character.isWhitespace` defines whitespace) |
| `Decimal.ParseLongRoundTrip` | src/main/java/com/ureka/techpost/domain/post/service/PostRedisService.java:93-98 | a count written with `toString` is read back unchanged by `parseLong`, for every integer including negative ones |
| `Decimal.ParseStrictIff` | src/main/java/com/ureka/techpost/domain/post/service/PostRedisService.java:119-130 | the integer parser INCR/DECR apply accepts text exactly when it is the canonical decimal form of the value it returns |
| `Decimal.ToDecimalInjective` | src/main/java/com/ureka/techpost/domain/post/service/PostRedisService.java:79-84 | distinct ids have distinct decimal texts, so the per-post keys never collide |
| `Durable.CountByPostId` | src/main/java/com/ureka/techpost/domain/post/service/PostRedisService.java:97 | the durable count of a post is the number of rows referring to it (its multiplicity), never negative |
| `PostRedisService.CountKeyInjective` | src/main/java/com/ureka/techpost/domain/post/service/PostRedisService.java:79-84 | two counter keys are equal if and only if they are for the same kind and the same post: `postLikes::` and `postComments::` are disjoint namespaces |
| `PostRedisService.GetCount` | src/main/java/com/ureka/techpost/domain/post/service/PostRedisService.java:87-114 | hit: the parsed cached value, state unchanged, and an unparseable value is a failure; miss: the durable count, which is then cached; ranking and DTO cache are never touched |
| `PostRedisService.IncrBy` | src/main/java/com/ureka/techpost/domain/post/service/PostRedisService.java:119-130 | INCRBY fails only on a value that is not an integer; otherwise it stores at its key the canonical text of the old value (0 if absent) plus delta, creating the key if needed, and changes no other key |
| `PostRedisService.AdjustCount` | src/main/java/com/ureka/techpost/domain/post/service/PostRedisService.java:119-130 | INCRBY/DECRBY on a counter succeeds exactly when the counter is absent or holds an integer; ranking and DTO cache are unchanged |
| `PostRedisService.AdjustCountExact` | src/main/java/com/ureka/techpost/domain/post/service/PostRedisService.java:119-130 | on a counter that is absent (counting as 0) or an integer, the update stores the canonical text of the old value plus `delta` under that key and changes nothing else |
| `PostRedisService.IncrementCount` | src/main/java/com/ureka/techpost/domain/post/service/PostRedisService.java:119-127 | `incrementLikeCount`/`incrementCommentCount`: the counter goes up by exactly one, starting from 0 when absent |
| `PostRedisService.DecrementCount` | src/main/java/com/ureka/techpost/domain/post/service/PostRedisService.java:122-130 | `decrementLikeCount`/`decrementCommentCount`: the counter goes down by exactly one, with no floor and no durable read |
| `PostRedisService.IncrementScore` | src/main/java/com/ureka/techpost/domain/post/service/PostRedisService.java:135-141 | ZINCRBY: the member exists afterwards with its old score (0 if new) plus delta; every other member, the counters and the DTO cache are unchanged |
| `PostRedisService.IncrementLikeRanking` | src/main/java/com/ureka/techpost/domain/post/service/PostRedisService.java:135-138 | the post is a member with score one higher than before (from 0 if new); no other member is added or rescored, and the counters and DTO cache are unchanged |
| `PostRedisService.DecrementLikeRanking` | src/main/java/com/ureka/techpost/domain/post/service/PostRedisService.java:139-141 | the post is a member with score one lower than before (from 0 if new), so a post never liked can score -1; no other member is added or rescored, and the counters and DTO cache are unchanged |
| `PostRedisService.RemoveRanking` | src/main/java/com/ureka/techpost/domain/post/service/PostRedisService.java:144-146 | only that member leaves the ranking; every remaining score, the counters and the DTO cache are unchanged |
| `PostRedisService.MaxScoreExists` | src/main/java/com/ureka/techpost/domain/post/service/PostRedisService.java:151 | every non-empty set of members has one whose score no other member exceeds (what a reverse range starts from) |
| `PostRedisService.GetTopLikedPostIds` | src/main/java/com/ureka/techpost/domain/post/service/PostRedisService.java:149-161 | the result has length min(limit, members), so an empty ranking gives an empty list; ids are distinct members with non-increasing scores; no omitted member outscores a returned one |
| `PostRedisService.AddAtZero` | src/main/java/com/ureka/techpost/domain/post/service/PostRedisService.java:168-170 | after the ZADD loop every listed post is a member at score 0; other members keep their scores; nothing else becomes a member |
| `PostRedisService.AddRankingBatch` | src/main/java/com/ureka/techpost/domain/post/service/PostRedisService.java:164-172 | null or empty input changes nothing; otherwise the listed posts are members at 0, overwriting earlier scores; other members, counters and DTO cache are unchanged |
| `PostRedisService.AddWithLikeCounts` | src/main/java/com/ureka/techpost/domain/post/service/PostRedisService.java:181-184 | after the rebuild loop every listed post is a member scored with its durable like count; other members are unchanged |
| `PostRedisService.InitRankingIfEmpty` | src/main/java/com/ureka/techpost/domain/post/service/PostRedisService.java:175-185 | a non-empty ranking is left alone; an empty one becomes exactly the stored post ids, each scored with its durable like count |
| `PostRedisService.SavePostDto` | src/main/java/com/ureka/techpost/domain/post/service/PostRedisService.java:54-61 | the object is cached under its id, overwriting any earlier one; every other entry, the counters and the ranking are unchanged |
| `PostRedisService.GetPostDtoList` | src/main/java/com/ureka/techpost/domain/post/service/PostRedisService.java:64-76 | one entry per requested id, in order; an entry is non-null exactly when that id is cached, and is then the cached object; misses are not dropped |
| `PostRedisProperties.ReadThroughThenHit` | src/main/java/com/ureka/techpost/domain/post/service/PostRedisService.java:87-100 | on a miss the read returns the durable count and caches its text; a second read is a hit returning the same number and writing nothing |
| `PostRedisProperties.ReadIdempotent` | src/main/java/com/ureka/techpost/domain/post/service/PostRedisService.java:87-114 | on a well-formed cache a read never fails and keeps the cache well-formed; reading twice equals reading once |
| `PostRedisProperties.ReadFrame` | src/main/java/com/ureka/techpost/domain/post/service/PostRedisService.java:96-99 | populating one counter on a miss leaves every other counter, of either kind, unchanged |
| `PostRedisProperties.AdjustFrame` | src/main/java/com/ureka/techpost/domain/post/service/PostRedisService.java:119-130 | a counter update leaves every other counter of either kind, the ranking and the DTO cache unchanged |
| `PostRedisProperties.IncrementDecrementFrame` | src/main/java/com/ureka/techpost/domain/post/service/PostRedisService.java:119-130 | `increment...Count` and `decrement...Count` change no other counter of either kind (the `postLikes::` and `postComments::` keys never collide), and leave the ranking and the DTO cache unchanged |
| `PostRedisProperties.AdjustKeepsWellFormed` | src/main/java/com/ureka/techpost/domain/post/service/PostRedisService.java:119-130 | on a well-formed cache INCR/DECR never fail and keep every cached value a canonical integer |
| `PostRedisProperties.DecrementOfAbsentIsMinusOne` | src/main/java/com/ureka/techpost/domain/post/service/PostRedisService.java:122-124 | decrementing a counter that is not cached stores "-1": no durable read, no floor at zero |
| `PostRedisProperties.IncrementOfAbsentIsOne` | src/main/java/com/ureka/techpost/domain/post/service/PostRedisService.java:119-121 | incrementing a counter that is not cached stores "1" |
| `PostRedisProperties.IncrementThenDecrement` | src/main/java/com/ureka/techpost/domain/post/service/PostRedisService.java:119-124 | increment then decrement of a cached integer counter restores the whole cache state |
| `PostRedisProperties.DecrementThenIncrement` | src/main/java/com/ureka/techpost/domain/post/service/PostRedisService.java:119-124 | decrement then increment of a cached integer counter restores the whole cache state |
| `PostRedisProperties.IncrementThenDecrementOfAbsent` | src/main/java/com/ureka/techpost/domain/post/service/PostRedisService.java:119-124 | on an absent counter, increment then decrement leaves "0" cached rather than restoring the absent key |
| `PostRedisProperties.RankingIncrementThenDecrement` | src/main/java/com/ureka/techpost/domain/post/service/PostRedisService.java:135-141 | a like and an unlike of a ranked post restore the state |
| `PostRedisProperties.RankingIncrementThenRemove` | src/main/java/com/ureka/techpost/domain/post/service/PostRedisService.java:135-146 | scoring an unranked post and then removing it restores the state |
| `PostRedisProperties.AddRankingBatchIdempotent` | src/main/java/com/ureka/techpost/domain/post/service/PostRedisService.java:164-172 | registering a batch twice equals registering it once |
| `PostRedisProperties.InitRankingIdempotent` | src/main/java/com/ureka/techpost/domain/post/service/PostRedisService.java:175-185 | rebuilding twice equals rebuilding once |
| `PostRedisProperties.InitRankingMatchesStore` | src/main/java/com/ureka/techpost/domain/post/service/PostRedisService.java:181-184 | after a cold-start rebuild a post is ranked iff it is stored (no orphans), and its score is the number of like rows for it |
| `PostRedisProperties.SaveThenGetList` | src/main/java/com/ureka/techpost/domain/post/service/PostRedisService.java:54-76 | after a put, a multi-get returns the new object at every position asking for its id and what it returned before at every other position |
| `PostRedisProperties.SavePostDtoOverwrites` | src/main/java/com/ureka/techpost/domain/post/service/PostRedisService.java:58-60 | of two puts for the same id only the last is visible |
| `PostSearch.ContainsIff` | src/main/java/com/ureka/techpost/domain/post/repository/PostRepositoryImpl.java:68-69 | the recursive `contains` holds exactly when the text occurs at some position |
| `PostSearch.TitleOrSummaryContains` | src/main/java/com/ureka/techpost/domain/post/repository/PostRepositoryImpl.java:64-70 | a condition is produced iff the keyword has text, and it holds of a post iff title or summary contains the keyword |
| `PostSearch.SourceNameContains` | src/main/java/com/ureka/techpost/domain/post/repository/PostRepositoryImpl.java:73-78 | a condition is produced iff the name has text, and it holds of a post iff its source name contains the name |
| `PostSearch.WhereIffMatches` | src/main/java/com/ureka/techpost/domain/post/repository/PostRepositoryImpl.java:43-46 | the built `where` clause (nulls skipped, the rest and-ed) selects a post exactly when it satisfies both filters as stated independently |
| `PostSearch.Where` | src/main/java/com/ureka/techpost/domain/post/repository/PostRepositoryImpl.java:43-46 | keeps exactly the rows satisfying every present condition, and no id more often than the table has it |
| `PostSearch.WhereIsMatching` | src/main/java/com/ureka/techpost/domain/post/repository/PostRepositoryImpl.java:40-46 | the ids of the rows the query keeps are the ids of the matching rows, in table order |
| `PostSearch.WhereCountIsMatchCount` | src/main/java/com/ureka/techpost/domain/post/repository/PostRepositoryImpl.java:52-58 | the count query over the same `where` clause counts exactly the matching rows |
| `PostSearch.MatchingIdsIff` | src/main/java/com/ureka/techpost/domain/post/repository/PostRepositoryImpl.java:43-46 | an id is in the reference list of matching ids exactly when some stored post with that id satisfies both filters |
| `PostSearch.SortDesc` | src/main/java/com/ureka/techpost/domain/post/repository/PostRepositoryImpl.java:49 | the result is a permutation of the ids in non-increasing order |
| `PostSearch.SortedIsUnique` | src/main/java/com/ureka/techpost/domain/post/repository/PostRepositoryImpl.java:49 | two non-increasing permutations of the same ids are equal, so ordering by id descending determines the list |
| `PostSearch.NoRepeatsStrict` | src/main/java/com/ureka/techpost/domain/post/repository/PostRepositoryImpl.java:49 | a non-increasing list without repeated ids is strictly descending |
| `PostSearch.Window` | src/main/java/com/ureka/techpost/domain/post/repository/PostRepositoryImpl.java:47-48 | offset/limit return the rows at positions offset .. offset+size-1 that exist, so at most `size` rows, in order |
| `PostSearch.OrderedMatches` | src/main/java/com/ureka/techpost/domain/post/repository/PostRepositoryImpl.java:40-50 | the ordered id list is a non-increasing permutation of the matching ids, strictly descending when ids are unique |
| `PostSearch.SearchIds` | src/main/java/com/ureka/techpost/domain/post/repository/PostRepositoryImpl.java:37-61 | at most pageSize ids, each one of the matching ids, in descending order (strictly when ids are unique); the total is the number of matching posts whatever the page |
| `PostSearch.SearchIdsSound` | src/main/java/com/ureka/techpost/domain/post/repository/PostRepositoryImpl.java:37-61 | every id on the page is the id of a stored post whose title or summary contains the keyword and whose source name contains the name, for the filters that have text |
| `PostSearch.SearchIdsIsWindow` | src/main/java/com/ureka/techpost/domain/post/repository/PostRepositoryImpl.java:47-49 | the page content is the slice [offset, offset+pageSize) of any descending arrangement of the matching ids |
| `PostSearch.BlankFiltersAreIgnored` | src/main/java/com/ureka/techpost/domain/post/repository/PostRepositoryImpl.java:64-76 | a null, empty or whitespace-only keyword or source name gives the same page as null |

## Left out

- 64-bit overflow of `Long` ids, counts and page offsets: integers are unbounded, and the parsers' range checks are not modelled.
- `Long.parseLong` also accepts non-ASCII Unicode decimal digits; only ASCII digits are modelled.
- Sorted-set scores are doubles in the cache server; all deltas are ±1 and rebuild scores are counts, so scores are `int`.
- PostRedisService.GetTopLikedPostIds: requires `limit >= 1`. For `limit <= 0` the reverse range `0..limit-1` uses negative indices (the whole set for 0), which is not modelled.
- PostRedisService.GetTopLikedPostIds: the tie-break among equal scores (reverse lexicographic on the member text) is left unspecified; only score order is stated.
- Ranking members are post ids; the cache server stores their decimal text and `getTopLikedPostIds` parses it back, which `Decimal.ParseLongRoundTrip` justifies.
- The `cache != null` guard of `savePostDtoToRedis` is taken as always true. The `posts::<id>` keys read by `getPostDtoList` are the same map `cache.put` writes.
- `PostDto` stands for `PostResponseDTO`; only its id, title, summary and source name are modelled.
- Redis/Spring mechanics (templates, cache manager, serializers), unavailability of the cache or the database, concurrency, and the lack of atomicity between a counter update and a ranking update.
- `countByPostId` and `findAll` are repository calls whose code is not part of this model; they are modelled as counting rows and listing posts of a fixed `Db`.
- Database LIKE collation, case sensitivity and wildcard escaping: `contains` is plain substring search.
- `PageableExecutionUtils` may skip the count query; this never changes the reported total, which is modelled as the count.
- `Pageable.unpaged()` is not modelled; a page request is given by its offset (page number times page size) and its page size, and the multiplication is not modelled.
- Crawl orchestration, `CrawlerController`, `CrawlScheduler`, the crawler interface, the exception classes, the chat domain (`ChatService`, `ChatParticipantRepository`, `ChatRoomRes`) and the `Likes` entity: they are HTTP/cron glue, response builders or JPA mapping outside this model; `CrawlService` is not modelled.
