/** An in-memory snapshot of the forum tables the route handlers read and
    write: `forum_topics` and `forum_posts` as rows in storage order,
    `forum_votes` as the ledger, and the categories' `topic_count`. */
module Store {
  import opened Common
  import opened Ledger

  /** Timestamps are opaque instants (milliseconds). */
  type Instant = nat

  datatype Topic = Topic(
    id: Id, title: string, content: string, categoryId: Id,
    authorId: Id, authorName: string, authorAvatar: Option<string>,
    isPinned: bool, isLocked: bool,
    viewCount: int, replyCount: int, voteScore: int,
    createdAt: Instant, updatedAt: Instant, lastReplyAt: Instant)

  /** A post is top-level when `parentId` is `None`, a reply otherwise. */
  datatype Post = Post(
    id: Id, content: string, topicId: Id, parentId: Option<Id>,
    authorId: Id, authorName: string, authorAvatar: Option<string>,
    voteScore: int, isEdited: bool,
    createdAt: Instant, updatedAt: Instant)

  datatype Forum = Forum(
    topics: seq<Topic>, posts: seq<Post>, votes: Votes,
    topicCounts: map<Id, int>)

  /** `.eq('id', id)` on either table. */
  function TopicHasId(id: Id): Topic -> bool {
    (x: Topic) => x.id == id
  }

  function PostHasId(id: Id): Post -> bool {
    (x: Post) => x.id == id
  }

  /** A write handler's answer together with the snapshot it leaves. */
  datatype Handled<T> = Handled(reply: Outcome<T>, after: Forum)

  /** The counter procedures (`increment_topic_count`, `decrement_reply_count`,
      ...) run inside the store; each is modelled as adding `d` to the named
      counter when it exists. */
  function Bump(m: map<Id, int>, key: Id, d: int): (r: map<Id, int>)
    ensures r.Keys == m.Keys
    ensures key in m ==> r[key] == m[key] + d
    ensures forall k :: k in m && k != key ==> r[k] == m[k]
  {
    if key in m then m[key := m[key] + d] else m
  }
}
