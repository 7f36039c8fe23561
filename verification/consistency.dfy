/** The stored `vote_score` of every topic and post is meant to equal the
    ledger's up votes minus down votes for it. The handlers maintain it by
    deltas, never by recounting; this module states the invariant and
    proves that each write handler keeps it, together with the uniqueness of
    row ids that `.single()` relies on. */
module Consistency {
  import opened Common
  import opened Rows
  import opened Session
  import opened Ledger
  import opened Store
  import opened Enrichment
  import opened VotesRoute
  import opened TopicsRoute
  import opened PostsRoute

  function TopicId(x: Topic): Id { x.id }

  function PostId(x: Post): Id { x.id }

  ghost predicate UniqueIds(f: Forum) {
    DistinctBy(f.topics, TopicId) && DistinctBy(f.posts, PostId)
  }

  predicate ScoresConsistent(f: Forum) {
    && (forall i :: 0 <= i < |f.topics| ==>
          f.topics[i].voteScore == Tally(f.votes, TopicTarget, f.topics[i].id))
    && (forall i :: 0 <= i < |f.posts| ==>
          f.posts[i].voteScore == Tally(f.votes, PostTarget, f.posts[i].id))
  }

  ghost predicate Healthy(f: Forum) {
    UniqueIds(f) && ScoresConsistent(f)
  }

  /** A target with no ledger rows: the id a new row receives. */
  predicate Unvoted(votes: Votes, t: TargetType, id: Id) {
    forall k :: k in votes ==> !(k.target == t && k.targetId == id)
  }

  lemma UnvotedTallyZero(votes: Votes, t: TargetType, id: Id)
    requires Unvoted(votes, t, id)
    ensures Tally(votes, t, id) == 0
  {
    assert Voters(votes, t, id, Up) == {};
    assert Voters(votes, t, id, Down) == {};
  }

  /** A tally reads only the ledger rows of its own target. */
  lemma TallyLocal(votes: Votes, other: Votes, t: TargetType, id: Id)
    requires forall k: VoteKey :: k.target == t && k.targetId == id ==>
               (k in votes <==> k in other) && (k in votes ==> votes[k] == other[k])
    ensures Tally(votes, t, id) == Tally(other, t, id)
  {
    assert Voters(votes, t, id, Up) == Voters(other, t, id, Up);
    assert Voters(votes, t, id, Down) == Voters(other, t, id, Down);
  }

  /** With unique ids, a row carrying the id is the one `.single()` finds. */
  lemma SingleTopic(topics: seq<Topic>, i: int)
    requires DistinctBy(topics, TopicId) && 0 <= i < |topics|
    ensures Single(topics, TopicHasId(topics[i].id)) == Some(topics[i])
  {
    AtMostOneMatch(topics, TopicHasId(topics[i].id));
    FilterComplete(topics, TopicHasId(topics[i].id), topics[i]);
  }

  lemma SinglePost(posts: seq<Post>, i: int)
    requires DistinctBy(posts, PostId) && 0 <= i < |posts|
    ensures Single(posts, PostHasId(posts[i].id)) == Some(posts[i])
  {
    AtMostOneMatch(posts, PostHasId(posts[i].id));
    FilterComplete(posts, PostHasId(posts[i].id), posts[i]);
  }

  /** Writing one ledger row and setting the target's rows to their old
      score plus the contribution change keeps scores and tallies equal. */
  lemma VoteWriteKeepsHealthy(f: Forum, key: VoteKey, v: Option<VoteType>, score: int)
    requires Healthy(f)
    requires forall i :: 0 <= i < |f.topics| && key.target == TopicTarget && f.topics[i].id == key.targetId ==>
               score == f.topics[i].voteScore + Contribution(v) - Contribution(Current(f.votes, key))
    requires forall i :: 0 <= i < |f.posts| && key.target == PostTarget && f.posts[i].id == key.targetId ==>
               score == f.posts[i].voteScore + Contribution(v) - Contribution(Current(f.votes, key))
    ensures Healthy(SetScore(f.(votes := Put(f.votes, key, v)), key.target, key.targetId, score))
  {
    var votes := Put(f.votes, key, v);
    var g := SetScore(f.(votes := votes), key.target, key.targetId, score);
    forall i | 0 <= i < |g.topics|
      ensures g.topics[i].voteScore == Tally(votes, TopicTarget, g.topics[i].id)
    {
      TallyAfterPut(f.votes, key, v, TopicTarget, f.topics[i].id);
    }
    forall i | 0 <= i < |g.posts|
      ensures g.posts[i].voteScore == Tally(votes, PostTarget, g.posts[i].id)
    {
      TallyAfterPut(f.votes, key, v, PostTarget, f.posts[i].id);
    }
    assert forall i :: 0 <= i < |g.topics| ==> TopicId(g.topics[i]) == TopicId(f.topics[i]);
    assert forall i :: 0 <= i < |g.posts| ==> PostId(g.posts[i]) == PostId(f.posts[i]);
  }

  /** Casting a vote keeps every score equal to its tally, provided the
      stored score can be read. */
  lemma PostVoteKeepsHealthy(token: string, sessions: Sessions, req: VoteRequest, f: Forum)
    requires Healthy(f)
    ensures Healthy(PostVote(token, sessions, req, f, false).after)
  {
    var h := PostVote(token, sessions, req, f, false);
    if Authenticate(token, sessions).Some? && WellFormed(req) {
      var user := Authenticate(token, sessions).value;
      var t := ParseTarget(req.targetType).value;
      var id := req.targetId;
      var key := VoteKey(t, id, user.userId);
      var tr := Decide(Current(f.votes, key), ParseVote(req.voteType).value);
      var score := NewVoteScore(StoredScore(f, t, id), tr.delta);
      assert h.after == SetScore(f.(votes := Put(f.votes, key, tr.after)), t, id, score);
      forall i | 0 <= i < |f.topics| && t == TopicTarget && f.topics[i].id == id
        ensures score == f.topics[i].voteScore + tr.delta
      {
        SingleTopic(f.topics, i);
      }
      forall i | 0 <= i < |f.posts| && t == PostTarget && f.posts[i].id == id
        ensures score == f.posts[i].voteScore + tr.delta
      {
        SinglePost(f.posts, i);
      }
      VoteWriteKeepsHealthy(f, key, tr.after, score);
    }
  }

  /** When the score read fails the row is set to the change alone: a
      second up vote on a topic that already had one leaves score 1 against
      a tally of 2. */
  lemma ReadFailureBreaksScores(t: Topic)
    requires t.id == "t1" && t.voteScore == 1
    ensures var f := Forum([t], [], map[VoteKey(TopicTarget, "t1", "u1") := Up], map[]);
            var sessions := map["tok" := User("u2", "b@x", "B", "")];
            var h := PostVote("tok", sessions, VoteRequest("topic", "t1", "up"), f, true);
            && Healthy(f)
            && h.reply.Done?
            && !ScoresConsistent(h.after)
  {
    var k1 := VoteKey(TopicTarget, "t1", "u1");
    var k2 := VoteKey(TopicTarget, "t1", "u2");
    var f := Forum([t], [], map[k1 := Up], map[]);
    assert Voters(f.votes, TopicTarget, "t1", Up) == {k1};
    assert Voters(f.votes, TopicTarget, "t1", Down) == {};
    assert Filter(f.topics, TopicHasId("t1")) == [t] by {
      FilterSnoc([], t, TopicHasId("t1"));
      assert [] + [t] == [t];
    }
    var sessions := map["tok" := User("u2", "b@x", "B", "")];
    var h := PostVote("tok", sessions, VoteRequest("topic", "t1", "up"), f, true);
    var after := map[k1 := Up, k2 := Up];
    assert h.after.votes == after;
    assert Voters(after, TopicTarget, "t1", Up) == {k1, k2};
    assert Voters(after, TopicTarget, "t1", Down) == {};
    assert h.after.topics[0].voteScore == 1;
  }

  /** A new topic starts at score 0 under an id with no votes. */
  lemma CreateTopicKeepsHealthy(token: string, sessions: Sessions, req: NewTopic, f: Forum,
                                newId: Id, now: Instant)
    requires Healthy(f)
    requires forall i :: 0 <= i < |f.topics| ==> f.topics[i].id != newId
    requires Unvoted(f.votes, TopicTarget, newId)
    ensures Healthy(CreateTopic(token, sessions, req, f, newId, now).after)
  {
    var h := CreateTopic(token, sessions, req, f, newId, now);
    if h.reply.Done? {
      UnvotedTallyZero(f.votes, TopicTarget, newId);
      assert h.after.topics[|f.topics|] == h.reply.value;
      assert forall i :: 0 <= i < |f.topics| ==> h.after.topics[i] == f.topics[i];
    }
  }

  /** A new post starts at score 0 under an id with no votes; the parent
      topic's counters change but not its score. */
  lemma CreatePostKeepsHealthy(token: string, sessions: Sessions, req: NewPost, f: Forum,
                               newId: Id, now: Instant)
    requires Healthy(f)
    requires forall i :: 0 <= i < |f.posts| ==> f.posts[i].id != newId
    requires Unvoted(f.votes, PostTarget, newId)
    ensures Healthy(CreatePost(token, sessions, req, f, newId, now).after)
  {
    var h := CreatePost(token, sessions, req, f, newId, now);
    if h.reply.Done? {
      UnvotedTallyZero(f.votes, PostTarget, newId);
      assert h.after.posts[|f.posts|] == h.reply.value;
      assert forall i :: 0 <= i < |f.posts| ==> h.after.posts[i] == f.posts[i];
      assert forall i :: 0 <= i < |f.topics| ==> TopicId(h.after.topics[i]) == TopicId(f.topics[i]);
    }
  }

  /** Removing rows and only the votes of removed topics keeps the rest
      consistent. */
  lemma RemoveTopicKeepsHealthy(f: Forum, topicId: Id, keep: Topic -> bool, categoryId: Id)
    requires Healthy(f)
    requires forall t :: t in f.topics && keep(t) ==> t.id != topicId
    ensures Healthy(RemoveTopic(f, topicId, keep, categoryId))
  {
    var g := RemoveTopic(f, topicId, keep, categoryId);
    assert g.topics == Filter(f.topics, keep);
    assert g.posts == Filter(f.posts, OutsideTopic(topicId));
    FilterKeepsDistinct(f.topics, keep, TopicId);
    FilterKeepsDistinct(f.posts, OutsideTopic(topicId), PostId);
    forall i | 0 <= i < |g.topics|
      ensures g.topics[i].voteScore == Tally(g.votes, TopicTarget, g.topics[i].id)
    {
      var x := g.topics[i];
      var m :| 0 <= m < |f.topics| && f.topics[m] == x;
      TallyLocal(f.votes, g.votes, TopicTarget, x.id);
    }
    forall i | 0 <= i < |g.posts|
      ensures g.posts[i].voteScore == Tally(g.votes, PostTarget, g.posts[i].id)
    {
      var x := g.posts[i];
      var m :| 0 <= m < |f.posts| && f.posts[m] == x;
      TallyLocal(f.votes, g.votes, PostTarget, x.id);
    }
  }

  /** Deleting a topic as written keeps the invariant: with unique ids the
      only row carrying the id is the one found by id and author name. */
  lemma DeleteTopicKeepsHealthy(token: string, sessions: Sessions, topicId: Id, authorName: string,
                                f: Forum)
    requires Healthy(f)
    ensures Healthy(DeleteTopic(token, sessions, topicId, authorName, f).after)
  {
    var h := DeleteTopic(token, sessions, topicId, authorName, f);
    if h.reply.Done? {
      var topic := Single(f.topics, OwnedBy(topicId, authorName)).value;
      forall t | t in f.topics && NotOwnedBy(topicId, authorName)(t)
        ensures t.id != topicId
      {
        var a :| 0 <= a < |f.topics| && f.topics[a] == t;
        var b :| 0 <= b < |f.topics| && f.topics[b] == topic;
        if a != b {
          assert TopicId(f.topics[a]) != TopicId(f.topics[b]);
        }
      }
      RemoveTopicKeepsHealthy(f, topicId, NotOwnedBy(topicId, authorName), topic.categoryId);
    }
  }

  lemma DeleteOwnTopicKeepsHealthy(token: string, sessions: Sessions, topicId: Id, f: Forum)
    requires Healthy(f)
    ensures Healthy(DeleteOwnTopic(token, sessions, topicId, f).after)
  {
    var h := DeleteOwnTopic(token, sessions, topicId, f);
    if h.reply.Done? {
      var topic := Single(f.topics, TopicHasId(topicId)).value;
      RemoveTopicKeepsHealthy(f, topicId, NotTopic(topicId), topic.categoryId);
    }
  }

  /** Deleting a post leaves the ledger and every other score alone. */
  lemma DeletePostKeepsHealthy(token: string, sessions: Sessions, postId: Id, f: Forum)
    requires Healthy(f)
    ensures Healthy(DeletePost(token, sessions, postId, f).after)
  {
    var h := DeletePost(token, sessions, postId, f);
    if h.reply.Done? {
      var keep := (x: Post) => x.id != postId;
      var p := Single(f.posts, PostHasId(postId)).value;
      assert h.after.posts == Filter(f.posts, keep);
      FilterKeepsDistinct(f.posts, keep, PostId);
      forall i | 0 <= i < |h.after.posts|
        ensures h.after.posts[i].voteScore == Tally(h.after.votes, PostTarget, h.after.posts[i].id)
      {
        var m :| 0 <= m < |f.posts| && f.posts[m] == h.after.posts[i];
      }
      assert forall i :: 0 <= i < |f.topics| ==> TopicId(h.after.topics[i]) == TopicId(f.topics[i]);
    }
  }

  /** What the listings show agrees with the stored score: when the vote
      fetch returns the ledger's rows, a healthy topic's likes minus
      dislikes is its `vote_score`. */
  lemma ShownCountsMatchScore(f: Forum, batch: seq<VoteRow>, keys: seq<VoteKey>, ids: set<Id>, i: int)
    requires ScoresConsistent(f)
    requires BatchOf(batch, keys, f.votes, TopicTarget, ids)
    requires 0 <= i < |f.topics| && f.topics[i].id in ids
    ensures CountsFor(batch, f.topics[i].id).likes - CountsFor(batch, f.topics[i].id).dislikes
            == f.topics[i].voteScore
  {
    CountsMatchLedger(batch, keys, f.votes, TopicTarget, ids, f.topics[i].id);
  }
}
