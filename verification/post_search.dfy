/** `PostRepositoryImpl.searchIds`: the ids of the posts matching an
    optional keyword (in title or summary) and an optional source name,
    ordered by id descending, cut to one page, with the total match count. */
module PostSearch {
  import opened Wrappers
  import opened Durable

  /** Java's `Character.isWhitespace`: the ASCII controls TAB..CR and
      FS..US, and the Unicode space, line and paragraph separators other
      than the non-breaking ones (U+00A0, U+2007, U+202F). */
  predicate IsWhitespace(c: char) {
    var n := c as int;
    || 0x09 <= n <= 0x0D
    || 0x1C <= n <= 0x20
    || n == 0x1680
    || 0x2000 <= n <= 0x2006
    || 0x2008 <= n <= 0x200A
    || n == 0x2028 || n == 0x2029 || n == 0x205F || n == 0x3000
  }

  /** `StringUtils.hasText`: not null and holding a non-whitespace char. */
  function HasText(s: Option<string>): (b: bool)
    ensures s.None? ==> !b
    ensures s.Some? ==> (!b <==> forall i :: 0 <= i < |s.value| ==> IsWhitespace(s.value[i]))
  {
    s.Some? && exists i :: 0 <= i < |s.value| && !IsWhitespace(s.value[i])
  }

  predicate StartsWith(s: string, prefix: string) {
    |prefix| <= |s| && s[..|prefix|] == prefix
  }

  /** `contains`: `sub` occurs in `s` (the database's LIKE '%sub%' taken as
      plain substring search). */
  predicate Contains(s: string, sub: string)
    decreases |s|
  {
    StartsWith(s, sub) || (|s| > 0 && Contains(s[1..], sub))
  }

  /** `sub` occurs in `s` starting at position `i`. */
  ghost predicate OccursAt(sub: string, s: string, i: int) {
    0 <= i <= |s| - |sub| && s[i..i + |sub|] == sub
  }

  /** Substring occurrence, stated directly. */
  ghost predicate OccursIn(sub: string, s: string) {
    exists i :: OccursAt(sub, s, i)
  }

  lemma {:induction false} ContainsOccurs(s: string, sub: string)
    requires Contains(s, sub)
    ensures OccursIn(sub, s)
    decreases |s|
  {
    if StartsWith(s, sub) {
      assert OccursAt(sub, s, 0);
    } else {
      ContainsOccurs(s[1..], sub);
      var j :| OccursAt(sub, s[1..], j);
      assert s[1..][j..j + |sub|] == s[j + 1..j + 1 + |sub|];
      assert OccursAt(sub, s, j + 1);
    }
  }

  lemma {:induction false} OccursAtContains(s: string, sub: string, i: int)
    requires OccursAt(sub, s, i)
    ensures Contains(s, sub)
    decreases i
  {
    if i > 0 {
      assert s[1..][i - 1..i - 1 + |sub|] == s[i..i + |sub|];
      assert OccursAt(sub, s[1..], i - 1);
      OccursAtContains(s[1..], sub, i - 1);
    } else {
      assert StartsWith(s, sub);
    }
  }

  /** The recursive search agrees with the direct statement. */
  lemma ContainsIff(s: string, sub: string)
    ensures Contains(s, sub) <==> OccursIn(sub, s)
  {
    if Contains(s, sub) {
      ContainsOccurs(s, sub);
    }
    if OccursIn(sub, s) {
      var i :| OccursAt(sub, s, i);
      OccursAtContains(s, sub, i);
    }
  }

  /** One predicate of the query's `where` clause. */
  datatype Condition = TitleOrSummaryHas(keyword: string) | SourceNameHas(name: string)

  predicate Holds(c: Condition, p: Post) {
    match c
    case TitleOrSummaryHas(k) => Contains(p.title, k) || Contains(p.summary, k)
    case SourceNameHas(n) => Contains(p.sourceName, n)
  }

  /** `titleOrSummaryContains`: no condition (null) unless the keyword has text. */
  function TitleOrSummaryContains(keyword: Option<string>): (c: Option<Condition>)
    ensures c.Some? <==> HasText(keyword)
    ensures c.Some? ==> forall p :: Holds(c.value, p) <==> Contains(p.title, keyword.value) || Contains(p.summary, keyword.value)
  {
    if !HasText(keyword) then None else Some(TitleOrSummaryHas(keyword.value))
  }

  /** `sourceNameContains`: no condition (null) unless the name has text. */
  function SourceNameContains(provider: Option<string>): (c: Option<Condition>)
    ensures c.Some? <==> HasText(provider)
    ensures c.Some? ==> forall p :: Holds(c.value, p) <==> Contains(p.sourceName, provider.value)
  {
    if !HasText(provider) then None else Some(SourceNameHas(provider.value))
  }

  /** QueryDSL's `where(c1, c2, ...)`: null conditions are skipped and the
      others are joined with `and`. */
  predicate SatisfiesAll(conds: seq<Option<Condition>>, p: Post) {
    forall i :: 0 <= i < |conds| && conds[i].Some? ==> Holds(conds[i].value, p)
  }

  function SearchConditions(keyword: Option<string>, sourceName: Option<string>): seq<Option<Condition>> {
    [TitleOrSummaryContains(keyword), SourceNameContains(sourceName)]
  }

  /** The search filter stated on its own: each filter that has text must
      occur in its column(s), and both must hold. */
  ghost predicate Matches(p: Post, keyword: Option<string>, sourceName: Option<string>) {
    && (HasText(keyword) ==> OccursIn(keyword.value, p.title) || OccursIn(keyword.value, p.summary))
    && (HasText(sourceName) ==> OccursIn(sourceName.value, p.sourceName))
  }

  /** The `where` clause the query builds selects exactly the posts that
      match both filters. */
  lemma WhereIffMatches(p: Post, keyword: Option<string>, sourceName: Option<string>)
    ensures SatisfiesAll(SearchConditions(keyword, sourceName), p) <==> Matches(p, keyword, sourceName)
  {
    var conds := SearchConditions(keyword, sourceName);
    if HasText(keyword) {
      ContainsIff(p.title, keyword.value);
      ContainsIff(p.summary, keyword.value);
    }
    if HasText(sourceName) {
      ContainsIff(p.sourceName, sourceName.value);
    }
    assert SatisfiesAll(conds, p) <==> (conds[0].Some? ==> Holds(conds[0].value, p)) && (conds[1].Some? ==> Holds(conds[1].value, p));
  }

  /** The rows the `where` clause keeps, in table order. */
  function Where(posts: seq<Post>, conds: seq<Option<Condition>>): (r: seq<Post>)
    ensures forall p :: p in r ==> p in posts && SatisfiesAll(conds, p)
    ensures forall p :: p in posts && SatisfiesAll(conds, p) ==> p in r
    ensures multiset(Ids(r)) <= multiset(Ids(posts))
  {
    if |posts| == 0 then []
    else
      var rest := Where(posts[1..], conds);
      assert Ids(posts) == [posts[0].id] + Ids(posts[1..]);
      if SatisfiesAll(conds, posts[0]) then
        assert Ids([posts[0]] + rest) == [posts[0].id] + Ids(rest);
        [posts[0]] + rest
      else rest
  }

  /** How many rows match the filters (what `count()` over the same `where`
      clause returns). */
  ghost function CountMatching(posts: seq<Post>, keyword: Option<string>, sourceName: Option<string>): nat {
    if |posts| == 0 then 0
    else (if Matches(posts[0], keyword, sourceName) then 1 else 0) + CountMatching(posts[1..], keyword, sourceName)
  }

  /** The ids of the matching rows, in table order. */
  ghost function MatchingIds(posts: seq<Post>, keyword: Option<string>, sourceName: Option<string>): seq<PostId> {
    if |posts| == 0 then []
    else (if Matches(posts[0], keyword, sourceName) then [posts[0].id] else []) + MatchingIds(posts[1..], keyword, sourceName)
  }

  /** The filter the query runs keeps exactly the matching rows. */
  lemma {:induction false} WhereIsMatching(posts: seq<Post>, keyword: Option<string>, sourceName: Option<string>)
    ensures Ids(Where(posts, SearchConditions(keyword, sourceName))) == MatchingIds(posts, keyword, sourceName)
  {
    if |posts| > 0 {
      var conds := SearchConditions(keyword, sourceName);
      WhereIsMatching(posts[1..], keyword, sourceName);
      WhereIffMatches(posts[0], keyword, sourceName);
      var rest := Where(posts[1..], conds);
      if SatisfiesAll(conds, posts[0]) {
        assert Where(posts, conds) == [posts[0]] + rest;
        assert Ids([posts[0]] + rest) == [posts[0].id] + Ids(rest);
        assert MatchingIds(posts, keyword, sourceName) == [posts[0].id] + MatchingIds(posts[1..], keyword, sourceName);
      } else {
        assert Where(posts, conds) == rest;
        assert MatchingIds(posts, keyword, sourceName) == [] + MatchingIds(posts[1..], keyword, sourceName);
      }
    }
  }

  /** The count query counts exactly the matching rows. */
  lemma {:induction false} WhereCountIsMatchCount(posts: seq<Post>, keyword: Option<string>, sourceName: Option<string>)
    ensures |Where(posts, SearchConditions(keyword, sourceName))| == CountMatching(posts, keyword, sourceName)
  {
    if |posts| > 0 {
      WhereCountIsMatchCount(posts[1..], keyword, sourceName);
      WhereIffMatches(posts[0], keyword, sourceName);
    }
  }

  predicate NonIncreasing(xs: seq<PostId>) {
    forall i, j :: 0 <= i < j < |xs| ==> xs[i] >= xs[j]
  }

  predicate StrictlyDescending(xs: seq<PostId>) {
    forall i, j :: 0 <= i < j < |xs| ==> xs[i] > xs[j]
  }

  /** No id occurs twice: the id is the table's primary key. */
  ghost predicate DistinctIds(posts: seq<Post>) {
    forall x :: multiset(Ids(posts))[x] <= 1
  }

  function InsertDesc(x: PostId, xs: seq<PostId>): (r: seq<PostId>)
    requires NonIncreasing(xs)
    ensures NonIncreasing(r)
    ensures multiset(r) == multiset(xs) + multiset{x}
  {
    if |xs| == 0 || x >= xs[0] then [x] + xs
    else
      assert xs == [xs[0]] + xs[1..];
      var tail := InsertDesc(x, xs[1..]);
      HeadBoundsInsert(x, xs, tail);
      [xs[0]] + tail
  }

  lemma HeadBoundsInsert(x: PostId, xs: seq<PostId>, tail: seq<PostId>)
    requires NonIncreasing(xs) && |xs| > 0 && x < xs[0]
    requires multiset(tail) == multiset(xs[1..]) + multiset{x}
    requires NonIncreasing(tail)
    ensures NonIncreasing([xs[0]] + tail)
  {
    forall k | 0 <= k < |tail|
      ensures xs[0] >= tail[k]
    {
      assert tail[k] in multiset(tail);
      if tail[k] != x {
        assert tail[k] in multiset(xs[1..]);
        var m :| 0 <= m < |xs[1..]| && xs[1..][m] == tail[k];
        assert xs[m + 1] == tail[k];
      }
    }
    var r := [xs[0]] + tail;
    forall i, j | 0 <= i < j < |r|
      ensures r[i] >= r[j]
    {
      if i == 0 {
        assert r[j] == tail[j - 1];
      } else {
        assert r[i] == tail[i - 1] && r[j] == tail[j - 1];
      }
    }
  }

  /** `orderBy(post.id.desc())` */
  function SortDesc(xs: seq<PostId>): (r: seq<PostId>)
    ensures NonIncreasing(r)
    ensures multiset(r) == multiset(xs)
  {
    if |xs| == 0 then []
    else
      assert xs == [xs[0]] + xs[1..];
      InsertDesc(xs[0], SortDesc(xs[1..]))
  }

  /** The head of a non-increasing list is its largest element. */
  lemma HeadIsGreatest(a: seq<PostId>)
    requires NonIncreasing(a) && |a| > 0
    ensures forall x :: x in multiset(a) ==> x <= a[0]
  {
    forall x | x in multiset(a)
      ensures x <= a[0]
    {
      var j :| 0 <= j < |a| && a[j] == x;
    }
  }

  /** Two non-increasing arrangements of the same ids are the same list, so
      "ordered by id descending" pins the order down completely. */
  lemma {:induction false} SortedIsUnique(a: seq<PostId>, b: seq<PostId>)
    requires NonIncreasing(a) && NonIncreasing(b)
    requires multiset(a) == multiset(b)
    ensures a == b
    decreases |a|
  {
    assert |a| == |multiset(a)| == |multiset(b)| == |b|;
    if |a| > 0 {
      HeadIsGreatest(a);
      HeadIsGreatest(b);
      assert a[0] in multiset(b) && b[0] in multiset(a);
      assert a[0] == b[0];
      assert a == [a[0]] + a[1..];
      assert b == [b[0]] + b[1..];
      assert multiset(a) == multiset{a[0]} + multiset(a[1..]);
      assert multiset(b) == multiset{a[0]} + multiset(b[1..]);
      forall x
        ensures multiset(a[1..])[x] == multiset(b[1..])[x]
      {
        assert multiset(a)[x] == multiset(b)[x];
      }
      assert multiset(a[1..]) == multiset(b[1..]);
      SortedIsUnique(a[1..], b[1..]);
    }
  }

  /** A value at two positions occurs at least twice. */
  lemma TwoOccurrences(xs: seq<PostId>, i: int, j: int)
    requires 0 <= i < j < |xs| && xs[i] == xs[j]
    ensures multiset(xs)[xs[i]] >= 2
  {
    var v := xs[i];
    assert xs == xs[..j] + xs[j..];
    assert v in multiset(xs[..j]);
    assert v in multiset(xs[j..]);
    assert multiset(xs)[v] == multiset(xs[..j])[v] + multiset(xs[j..])[v];
  }

  /** A non-increasing list in which no value repeats is strictly descending. */
  lemma NoRepeatsStrict(xs: seq<PostId>)
    requires NonIncreasing(xs)
    requires forall x :: multiset(xs)[x] <= 1
    ensures StrictlyDescending(xs)
  {
    forall i, j | 0 <= i < j < |xs|
      ensures xs[i] > xs[j]
    {
      if xs[i] == xs[j] {
        TwoOccurrences(xs, i, j);
        assert false;
      }
    }
  }

  /** A page request as the query reads it: `getOffset()` (the page number
      times the page size) and `getPageSize()`. */
  datatype Pageable = Pageable(offset: nat, pageSize: nat)

  /** `.offset(o).limit(n)`: the rows at positions o, o+1, ... o+n-1 that exist. */
  function Window(xs: seq<PostId>, offset: nat, size: nat): (r: seq<PostId>)
    ensures |r| == if offset >= |xs| then 0 else if size < |xs| - offset then size else |xs| - offset
    ensures forall k :: 0 <= k < |r| ==> r[k] == xs[offset + k]
    ensures NonIncreasing(xs) ==> NonIncreasing(r)
    ensures StrictlyDescending(xs) ==> StrictlyDescending(r)
  {
    if offset >= |xs| then []
    else if size < |xs| - offset then xs[offset..offset + size]
    else xs[offset..]
  }

  /** One page of ids and the total number of matching rows. */
  datatype Page = Page(content: seq<PostId>, total: nat)

  /** An id is in the reference list exactly when some stored post with
      that id matches both filters. */
  lemma {:induction false} MatchingIdsIff(posts: seq<Post>, keyword: Option<string>, sourceName: Option<string>, x: PostId)
    ensures x in MatchingIds(posts, keyword, sourceName) <==>
      exists p :: p in posts && p.id == x && Matches(p, keyword, sourceName)
  {
    if |posts| > 0 {
      MatchingIdsIff(posts[1..], keyword, sourceName, x);
      assert posts == [posts[0]] + posts[1..];
      if exists p :: p in posts && p.id == x && Matches(p, keyword, sourceName) {
        var p :| p in posts && p.id == x && Matches(p, keyword, sourceName);
        if p != posts[0] {
          assert p in posts[1..];
        }
      }
    }
  }

  /** With distinct ids in the table, the ordered list is strictly descending. */
  lemma OrderedIdsStrict(posts: seq<Post>, matched: seq<Post>, ordered: seq<PostId>)
    requires multiset(Ids(matched)) <= multiset(Ids(posts))
    requires multiset(ordered) == multiset(Ids(matched))
    requires NonIncreasing(ordered)
    ensures DistinctIds(posts) ==> StrictlyDescending(ordered)
  {
    if DistinctIds(posts) {
      forall x
        ensures multiset(ordered)[x] <= 1
      {
        assert multiset(Ids(matched))[x] <= multiset(Ids(posts))[x];
      }
      NoRepeatsStrict(ordered);
    }
  }

  lemma OrderedMatchesFacts(posts: seq<Post>, keyword: Option<string>, sourceName: Option<string>)
    ensures var ordered := SortDesc(Ids(Where(posts, SearchConditions(keyword, sourceName))));
      && multiset(ordered) == multiset(MatchingIds(posts, keyword, sourceName))
      && (DistinctIds(posts) ==> StrictlyDescending(ordered))
  {
    var matched := Where(posts, SearchConditions(keyword, sourceName));
    WhereIsMatching(posts, keyword, sourceName);
    OrderedIdsStrict(posts, matched, SortDesc(Ids(matched)));
  }

  /** The ids of the matching rows, ordered by id descending: the query
      before `.offset(...).limit(...)` is applied. */
  function OrderedMatches(posts: seq<Post>, keyword: Option<string>, sourceName: Option<string>): (ordered: seq<PostId>)
    ensures NonIncreasing(ordered)
    ensures multiset(ordered) == multiset(MatchingIds(posts, keyword, sourceName))
    ensures DistinctIds(posts) ==> StrictlyDescending(ordered)
  {
    OrderedMatchesFacts(posts, keyword, sourceName);
    SortDesc(Ids(Where(posts, SearchConditions(keyword, sourceName))))
  }

  /** Every element of a window of `xs` is an element of any permutation of `xs`. */
  lemma WindowOfPermutation(xs: seq<PostId>, ys: seq<PostId>, offset: nat, size: nat)
    requires multiset(xs) == multiset(ys)
    ensures forall k :: 0 <= k < |Window(xs, offset, size)| ==> Window(xs, offset, size)[k] in ys
  {
    var w := Window(xs, offset, size);
    forall k | 0 <= k < |w|
      ensures w[k] in ys
    {
      assert w[k] == xs[offset + k];
      assert w[k] in multiset(xs);
    }
  }

  /** `searchIds(keyword, sourceName, pageable)`: the page's slice of the
      ordered matching ids, and the count query's total. */
  function SearchIds(posts: seq<Post>, keyword: Option<string>, sourceName: Option<string>, pageable: Pageable): (r: Page)
    ensures |r.content| <= pageable.pageSize
    ensures forall k :: 0 <= k < |r.content| ==> r.content[k] in MatchingIds(posts, keyword, sourceName)
    ensures NonIncreasing(r.content)
    ensures DistinctIds(posts) ==> StrictlyDescending(r.content)
    ensures r.total == CountMatching(posts, keyword, sourceName)
  {
    var content := Window(OrderedMatches(posts, keyword, sourceName), pageable.offset, pageable.pageSize);
    WindowOfPermutation(OrderedMatches(posts, keyword, sourceName), MatchingIds(posts, keyword, sourceName),
      pageable.offset, pageable.pageSize);
    WhereCountIsMatchCount(posts, keyword, sourceName);
    Page(content, |Where(posts, SearchConditions(keyword, sourceName))|)
  }

  /** Every returned id is the id of a stored post that matches both filters. */
  lemma SearchIdsSound(posts: seq<Post>, keyword: Option<string>, sourceName: Option<string>, pageable: Pageable)
    ensures var r := SearchIds(posts, keyword, sourceName, pageable);
      forall k :: 0 <= k < |r.content| ==>
        exists p :: p in posts && p.id == r.content[k] && Matches(p, keyword, sourceName)
  {
    var r := SearchIds(posts, keyword, sourceName, pageable);
    forall k | 0 <= k < |r.content|
      ensures exists p :: p in posts && p.id == r.content[k] && Matches(p, keyword, sourceName)
    {
      MatchingIdsIff(posts, keyword, sourceName, r.content[k]);
    }
  }

  /** The page is exactly the window `[offset, offset + pageSize)` of ANY
      descending arrangement of the matching ids. */
  lemma SearchIdsIsWindow(posts: seq<Post>, keyword: Option<string>, sourceName: Option<string>,
                          pageable: Pageable, ordered: seq<PostId>)
    requires NonIncreasing(ordered)
    requires multiset(ordered) == multiset(MatchingIds(posts, keyword, sourceName))
    ensures SearchIds(posts, keyword, sourceName, pageable).content == Window(ordered, pageable.offset, pageable.pageSize)
  {
    SortedIsUnique(ordered, OrderedMatches(posts, keyword, sourceName));
  }

  /** A keyword or source name without text filters nothing: it behaves as
      if it were null. */
  lemma BlankFiltersAreIgnored(posts: seq<Post>, keyword: Option<string>, sourceName: Option<string>, pageable: Pageable)
    ensures !HasText(keyword) ==>
      SearchIds(posts, keyword, sourceName, pageable) == SearchIds(posts, None, sourceName, pageable)
    ensures !HasText(sourceName) ==>
      SearchIds(posts, keyword, sourceName, pageable) == SearchIds(posts, keyword, None, pageable)
  {
  }
}
