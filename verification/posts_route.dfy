/** `/api/forum/posts`: a topic's top-level posts with their replies
    embedded (GET), post creation (POST) and post deletion (DELETE). */
module PostsRoute {
  import opened Common
  import opened Rows
  import opened Session
  import opened Store
  import opened Paging
  import opened Sorting
  import opened Enrichment

  /** Query parameters; `page` and `limit` are the parsed integers. */
  datatype PostsQuery = PostsQuery(topicId: Id, page: int, limit: int, sort: string)

  datatype PostsPage = PostsPage(data: seq<PostView>, pagination: Pagination)

  /** `.eq('topic_id', topicId).is('parent_id', null)` */
  function TopLevelOf(topicId: Id): Post -> bool {
    (x: Post) => x.topicId == topicId && x.parentId.None?
  }

  function ReplyTo(id: Id): Post -> bool {
    (x: Post) => x.parentId == Some(id)
  }

  /** The `order(...)` clause: `newest` by creation descending, `popular`
      by score descending, anything else by creation ascending. */
  function PostRank(sort: string): Post -> Rank {
    if sort == "newest" then (x: Post) => Rank(0 - x.createdAt as int, 0)
    else if sort == "popular" then (x: Post) => Rank(-x.voteScore, 0)
    else (x: Post) => Rank(x.createdAt, 0)
  }

  function SortPosts(posts: seq<Post>, sort: string): (r: seq<Post>)
    ensures multiset(r) == multiset(posts)
    ensures sort == "newest" ==>
              forall i, j :: 0 <= i < j < |r| ==> r[i].createdAt >= r[j].createdAt
    ensures sort == "popular" ==>
              forall i, j :: 0 <= i < j < |r| ==> r[i].voteScore >= r[j].voteScore
    ensures sort != "newest" && sort != "popular" ==>
              forall i, j :: 0 <= i < j < |r| ==> r[i].createdAt <= r[j].createdAt
  {
    SortBy(posts, PostRank(sort))
  }

  /** The result set the list query ranges over. */
  function PostListing(posts: seq<Post>, topicId: Id, sort: string): (r: seq<Post>)
    ensures |r| <= |posts|
    ensures forall x :: x in r <==> x in posts && x.topicId == topicId && x.parentId.None?
  {
    var chosen := Filter(posts, TopLevelOf(topicId));
    FilterMembers(posts, TopLevelOf(topicId));
    var r := SortPosts(chosen, sort);
    assert forall x :: x in r <==> x in chosen by {
      forall x
        ensures x in r <==> x in chosen
      {
        assert x in r <==> x in multiset(r);
        assert x in chosen <==> x in multiset(chosen);
      }
    }
    r
  }

  /** The `replies:forum_posts!parent_id` embedding: every row whose parent
      is the post, from the whole table. The handler embeds only six columns
      of each reply (id, content, author name and avatar, score, creation
      time); the model carries the whole row. */
  function RepliesOf(posts: seq<Post>, id: Id): (r: seq<Post>)
    ensures forall x :: x in r <==> x in posts && x.parentId == Some(id)
  {
    FilterMembers(posts, ReplyTo(id));
    Filter(posts, ReplyTo(id))
  }

  /** Each listed post with its embedded replies. */
  function ThreadsOf(rows: seq<Post>, posts: seq<Post>): (r: seq<Thread>)
    ensures |r| == |rows|
    ensures forall i :: 0 <= i < |r| ==> r[i].post == rows[i] && r[i].replies == RepliesOf(posts, rows[i].id)
  {
    seq(|rows|, i requires 0 <= i < |rows| => Thread(rows[i], RepliesOf(posts, rows[i].id)))
  }

  /** The listed posts with their replies embedded and enriched. */
  function PostViews(rows: seq<Post>, posts: seq<Post>, fetched: Option<seq<VoteRow>>): (r: seq<PostView>)
    ensures |r| == |rows|
    ensures forall i :: 0 <= i < |r| ==> r[i].post == rows[i]
    ensures forall i :: 0 <= i < |r| ==>
              && |r[i].replies| == |RepliesOf(posts, rows[i].id)|
              && forall j :: 0 <= j < |r[i].replies| ==> r[i].replies[j].reply == RepliesOf(posts, rows[i].id)[j]
    ensures forall i :: 0 <= i < |r| ==> (r[i].counts.Some? <==> fetched.Some?)
    ensures forall i, j :: 0 <= i < |r| && 0 <= j < |r[i].replies| ==> (r[i].replies[j].counts.Some? <==> fetched.Some?)
    ensures fetched.Some? ==>
              forall i :: 0 <= i < |r| ==> r[i].counts.value == CountsFor(fetched.value, rows[i].id)
    ensures fetched.Some? ==>
              forall i, j :: 0 <= i < |r| && 0 <= j < |r[i].replies| ==>
                r[i].replies[j].counts == Some(CountsFor(fetched.value, r[i].replies[j].reply.id))
  {
    var threads := ThreadsOf(rows, posts);
    var data := EnrichThreads(threads, fetched);
    assert forall i, j :: 0 <= i < |data| && 0 <= j < |data[i].replies| ==>
             data[i].replies[j].reply.id == threads[i].replies[j].id;
    data
  }

  function ListPosts(q: PostsQuery, f: Forum, fetched: Option<seq<VoteRow>>,
                     count: Option<nat>): (r: PostsPage)
    requires q.page >= 1 && q.limit >= 1
    ensures |r.data| <= q.limit
    ensures |r.data| == |Slice(PostListing(f.posts, q.topicId, q.sort), PageWindow(q.page, q.limit))|
    ensures forall i :: 0 <= i < |r.data| ==>
              && PageWindow(q.page, q.limit).first + i < |PostListing(f.posts, q.topicId, q.sort)|
              && r.data[i].post
                 == PostListing(f.posts, q.topicId, q.sort)[PageWindow(q.page, q.limit).first + i]
    ensures forall i :: 0 <= i < |r.data| ==>
              && |r.data[i].replies| == |RepliesOf(f.posts, r.data[i].post.id)|
              && forall j :: 0 <= j < |r.data[i].replies| ==>
                   r.data[i].replies[j].reply == RepliesOf(f.posts, r.data[i].post.id)[j]
    ensures forall i :: 0 <= i < |r.data| ==> (r.data[i].counts.Some? <==> fetched.Some?)
    ensures forall i, j :: 0 <= i < |r.data| && 0 <= j < |r.data[i].replies| ==>
              (r.data[i].replies[j].counts.Some? <==> fetched.Some?)
    ensures fetched.Some? ==>
              forall i :: 0 <= i < |r.data| ==> r.data[i].counts.value == CountsFor(fetched.value, r.data[i].post.id)
    ensures fetched.Some? ==>
              forall i, j :: 0 <= i < |r.data| && 0 <= j < |r.data[i].replies| ==>
                r.data[i].replies[j].counts == Some(CountsFor(fetched.value, r.data[i].replies[j].reply.id))
    ensures r.pagination == Paginate(q.page, q.limit, count)
  {
    var listing := PostListing(f.posts, q.topicId, q.sort);
    var w := PageWindow(q.page, q.limit);
    var rows := Slice(listing, w);
    var data := PostViews(rows, f.posts, fetched);
    assert forall i :: 0 <= i < |data| ==> data[i].post == rows[i] == listing[w.first + i];
    PostsPage(data, Paginate(q.page, q.limit, count))
  }

  /** GET as written: without a requested count the pagination block always
      says zero. */
  function GetPosts(q: PostsQuery, f: Forum, fetched: Option<seq<VoteRow>>): (r: Outcome<PostsPage>)
    requires q.topicId == "" || (q.page >= 1 && q.limit >= 1)
    ensures q.topicId == "" <==> r == Rejected(BadRequest)
    ensures q.topicId != "" ==> r == Done(ListPosts(q, f, fetched, None))
    ensures r.Done? ==>
              && |r.value.data| <= q.limit
              && (forall i :: 0 <= i < |r.value.data| ==>
                    var p := r.value.data[i].post;
                    p in f.posts && p.topicId == q.topicId && p.parentId.None?)
              && (forall i, j :: 0 <= i < |r.value.data| && 0 <= j < |r.value.data[i].replies| ==>
                    var x := r.value.data[i].replies[j].reply;
                    x in f.posts && x.parentId == Some(r.value.data[i].post.id))
              && r.value.pagination.total == 0 && r.value.pagination.totalPages == 0
  {
    if q.topicId == "" then Rejected(BadRequest)
    else
      var r := ListPosts(q, f, fetched, None);
      assert forall i :: 0 <= i < |r.data| ==> r.data[i].post in PostListing(f.posts, q.topicId, q.sort);
      assert forall i, j :: 0 <= i < |r.data| && 0 <= j < |r.data[i].replies| ==>
               r.data[i].replies[j].reply in RepliesOf(f.posts, r.data[i].post.id);
      Done(r)
  }

  /** The list branch with the count requested: the pagination block
      reports the number of top-level posts of the topic. */
  function GetPostsCounted(q: PostsQuery, f: Forum, fetched: Option<seq<VoteRow>>): (r: PostsPage)
    requires q.page >= 1 && q.limit >= 1
    ensures r.pagination.total == |PostListing(f.posts, q.topicId, q.sort)|
    ensures |r.data| > 0 <==> q.page <= r.pagination.totalPages
  {
    var listing := PostListing(f.posts, q.topicId, q.sort);
    PageFilledIffWithinTotal(listing, q.page, q.limit);
    ListPosts(q, f, fetched, Some(|listing|))
  }

  /** As written, a first page holding a post still reports no pages. */
  lemma GetPostsReportsNoPages(p: Post)
    requires p.topicId == "t1" && p.parentId.None?
    ensures var q := PostsQuery("t1", 1, 20, "oldest");
            var r := GetPosts(q, Forum([], [p], map[], map[]), None).value;
            |r.data| == 1 && r.pagination.totalPages == 0
  {
    assert p in PostListing([p], "t1", "oldest");
  }

  /** The POST body; empty strings stand for missing fields, and an empty
      `parentId` makes a top-level post. */
  datatype NewPost = NewPost(content: string, topicId: Id, parentId: Id)

  predicate ValidPost(req: NewPost) {
    req.content != "" && req.topicId != "" && 1 <= |req.content| <= 5000
  }

  /** The reply bookkeeping on the parent topic: `increment_reply_count`
      and `last_reply_at`. */
  function Replied(t: Topic, now: Instant): Topic {
    t.(replyCount := t.replyCount + 1, lastReplyAt := now)
  }

  /** POST. The store assigns `newId`; `now` is the request's clock. */
  function CreatePost(token: string, sessions: Sessions, req: NewPost, f: Forum,
                      newId: Id, now: Instant): (h: Handled<Post>)
    ensures Authenticate(token, sessions).None? ==> h.reply == Rejected(Unauthorized)
    ensures Authenticate(token, sessions).Some? && !ValidPost(req) ==> h.reply == Rejected(BadRequest)
    ensures Authenticate(token, sessions).Some? && ValidPost(req) ==>
              match Single(f.topics, TopicHasId(req.topicId))
              case None => h.reply == Rejected(NotFound)
              case Some(t) => t.isLocked <==> h.reply == Rejected(Forbidden)
    ensures (&& Authenticate(token, sessions).Some? && ValidPost(req)
             && Single(f.topics, TopicHasId(req.topicId)).Some?
             && !Single(f.topics, TopicHasId(req.topicId)).value.isLocked) ==> h.reply.Done?
    ensures h.reply.Rejected? ==> h.after == f
    ensures h.reply.Done? ==>
              var p := h.reply.value;
              var user := Authenticate(token, sessions).value;
              && Single(f.topics, TopicHasId(req.topicId)).Some?
              && !Single(f.topics, TopicHasId(req.topicId)).value.isLocked
              && h.after.posts == f.posts + [p]
              && h.after.votes == f.votes && h.after.topicCounts == f.topicCounts
              && |h.after.topics| == |f.topics|
              && (forall i :: 0 <= i < |f.topics| ==>
                    h.after.topics[i] == if f.topics[i].id == req.topicId
                                         then Replied(f.topics[i], now) else f.topics[i])
              && p.id == newId && p.content == req.content && p.topicId == req.topicId
              && p.parentId == (if req.parentId == "" then None else Some(req.parentId))
              && p.authorId == user.userId && p.authorName == DisplayName(user)
              && p.authorAvatar == Avatar(user)
              && p.voteScore == 0 && !p.isEdited && p.createdAt == now && p.updatedAt == now
  {
    match Authenticate(token, sessions)
    case None => Handled(Rejected(Unauthorized), f)
    case Some(user) =>
      if req.content == "" || req.topicId == "" then Handled(Rejected(BadRequest), f)
      else if |req.content| < 1 || |req.content| > 5000 then Handled(Rejected(BadRequest), f)
      else
        match Single(f.topics, TopicHasId(req.topicId))
        case None => Handled(Rejected(NotFound), f)
        case Some(topic) =>
          if topic.isLocked then Handled(Rejected(Forbidden), f)
          else
            var p := Post(newId, req.content, req.topicId,
                          if req.parentId == "" then None else Some(req.parentId),
                          user.userId, DisplayName(user), Avatar(user), 0, false, now, now);
            Handled(Done(p), f.(posts := f.posts + [p],
                                topics := Update(f.topics, TopicHasId(req.topicId),
                                                 (t: Topic) => Replied(t, now))))
  }

  /** DELETE: only the post's author may delete it; its replies and the
      votes on it stay. */
  function DeletePost(token: string, sessions: Sessions, postId: Id, f: Forum): (h: Handled<()>)
    ensures Authenticate(token, sessions).None? ==> h.reply == Rejected(Unauthorized)
    ensures Authenticate(token, sessions).Some? && postId == "" ==> h.reply == Rejected(BadRequest)
    ensures Authenticate(token, sessions).Some? && postId != "" ==>
              match Single(f.posts, PostHasId(postId))
              case None => h.reply == Rejected(NotFound)
              case Some(p) =>
                p.authorId != Authenticate(token, sessions).value.userId <==> h.reply == Rejected(Forbidden)
    ensures (&& Authenticate(token, sessions).Some? && postId != ""
             && Single(f.posts, PostHasId(postId)).Some?
             && Single(f.posts, PostHasId(postId)).value.authorId == Authenticate(token, sessions).value.userId)
            ==> h.reply.Done?
    ensures h.reply.Rejected? ==> h.after == f
    ensures h.reply.Done? ==>
              var p := Single(f.posts, PostHasId(postId)).value;
              && p.authorId == Authenticate(token, sessions).value.userId
              && (forall x :: x in h.after.posts <==> x in f.posts && x.id != postId)
              && h.after.votes == f.votes && h.after.topicCounts == f.topicCounts
              && |h.after.topics| == |f.topics|
              && (forall i :: 0 <= i < |f.topics| ==>
                    h.after.topics[i] == if f.topics[i].id == p.topicId
                                         then f.topics[i].(replyCount := f.topics[i].replyCount - 1)
                                         else f.topics[i])
  {
    match Authenticate(token, sessions)
    case None => Handled(Rejected(Unauthorized), f)
    case Some(user) =>
      if postId == "" then Handled(Rejected(BadRequest), f)
      else
        match Single(f.posts, PostHasId(postId))
        case None => Handled(Rejected(NotFound), f)
        case Some(p) =>
          if p.authorId != user.userId then Handled(Rejected(Forbidden), f)
          else
            var keep := (x: Post) => x.id != postId;
            FilterMembers(f.posts, keep);
            Handled(Done(()), f.(posts := Filter(f.posts, keep),
                                 topics := Update(f.topics, TopicHasId(p.topicId),
                                                  (t: Topic) => t.(replyCount := t.replyCount - 1))))
  }

  /** A post's replies survive its deletion, now pointing at a parent that
      no longer exists. */
  lemma DeletePostOrphansReplies(token: string, sessions: Sessions, postId: Id, f: Forum, x: Post)
    requires DeletePost(token, sessions, postId, f).reply.Done?
    requires x in f.posts && x.parentId == Some(postId) && x.id != postId
    ensures var after := DeletePost(token, sessions, postId, f).after;
            x in after.posts && forall y :: y in after.posts ==> y.id != postId
  {
  }
}
