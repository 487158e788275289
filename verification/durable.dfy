/** The relational store as the cache layer sees it: a fixed, read-only
    snapshot of the post table and of the `post_id` column of the likes and
    comments tables. */
module Durable {

  /** A post's primary key (a Java `Long`; the 64-bit bound is not modelled). */
  type PostId = int

  /** The columns of a post that the model reads. */
  datatype Post = Post(id: PostId, title: string, summary: string, sourceName: string)

  /** `posts` is what `findAll()` returns, in that order; each entry of
      `likeRows` / `commentRows` is the post id of one like / comment row. */
  datatype Db = Db(posts: seq<Post>, likeRows: seq<PostId>, commentRows: seq<PostId>)

  /** `countByPostId`: how many rows refer to the post. */
  function CountByPostId(rows: seq<PostId>, id: PostId): (n: nat)
    ensures n == multiset(rows)[id]
    ensures n <= |rows|
  {
    if |rows| == 0 then 0
    else
      assert rows == [rows[0]] + rows[1..];
      (if rows[0] == id then 1 else 0) + CountByPostId(rows[1..], id)
  }

  function LikesCount(db: Db, id: PostId): nat {
    CountByPostId(db.likeRows, id)
  }

  function CommentCount(db: Db, id: PostId): nat {
    CountByPostId(db.commentRows, id)
  }

  /** The ids of a list of posts, in list order (the ordered view). */
  function Ids(posts: seq<Post>): (r: seq<PostId>)
    ensures |r| == |posts|
    ensures forall i :: 0 <= i < |posts| ==> r[i] == posts[i].id
  {
    if |posts| == 0 then [] else [posts[0].id] + Ids(posts[1..])
  }

  /** The ids of a list of posts as a set (the unordered view of `Ids`). */
  function IdSet(posts: seq<Post>): set<PostId> {
    set p | p in posts :: p.id
  }

  /** The ids of every stored post. */
  function PostIds(db: Db): set<PostId> {
    IdSet(db.posts)
  }
}
