/** `/api/forum/topics`: one topic by id or a filtered, ordered page of
    topics (GET), topic creation (POST) and topic deletion (DELETE). */
module TopicsRoute {
  import opened Common
  import opened Rows
  import opened Session
  import opened Ledger
  import opened Store
  import opened Paging
  import opened Sorting
  import opened Enrichment

  /** Query parameters; `page` and `limit` are the parsed integers and an
      empty string stands for an absent parameter. */
  datatype TopicsQuery = TopicsQuery(id: Id, categoryId: Id, page: int, limit: int, sort: string)

  datatype TopicsReply =
    | OneTopic(view: TopicView)
    | TopicPage(data: seq<TopicView>, pagination: Pagination)

  function InCategory(categoryId: Id): Topic -> bool {
    (x: Topic) => x.categoryId == categoryId
  }

  /** The `order(...)` clauses: `popular` by score descending, `oldest` by
      creation ascending, anything else pinned first and then by last reply,
      newest first. */
  function TopicRank(sort: string): Topic -> Rank {
    if sort == "popular" then (x: Topic) => Rank(-x.voteScore, 0)
    else if sort == "oldest" then (x: Topic) => Rank(x.createdAt, 0)
    else (x: Topic) => Rank(if x.isPinned then 0 else 1, 0 - x.lastReplyAt as int)
  }

  function SortTopics(topics: seq<Topic>, sort: string): (r: seq<Topic>)
    ensures multiset(r) == multiset(topics)
    ensures sort == "popular" ==>
              forall i, j :: 0 <= i < j < |r| ==> r[i].voteScore >= r[j].voteScore
    ensures sort == "oldest" ==>
              forall i, j :: 0 <= i < j < |r| ==> r[i].createdAt <= r[j].createdAt
    ensures sort != "popular" && sort != "oldest" ==>
              forall i, j :: 0 <= i < j < |r| ==>
                && (r[j].isPinned ==> r[i].isPinned)
                && (r[i].isPinned == r[j].isPinned ==> r[i].lastReplyAt >= r[j].lastReplyAt)
  {
    SortBy(topics, TopicRank(sort))
  }

  /** The result set the list query ranges over: the category's topics (or
      all topics) in the requested order. */
  function Listing(topics: seq<Topic>, categoryId: Id, sort: string): (r: seq<Topic>)
    ensures |r| <= |topics|
    ensures forall x :: x in r <==> x in topics && (categoryId != "" ==> x.categoryId == categoryId)
  {
    var chosen := if categoryId != "" then Filter(topics, InCategory(categoryId)) else topics;
    FilterMembers(topics, InCategory(categoryId));
    var r := SortTopics(chosen, sort);
    assert forall x :: x in r <==> x in chosen by {
      forall x
        ensures x in r <==> x in chosen
      {
        assert x in r <==> x in multiset(r);
        assert x in chosen <==> x in multiset(chosen);
      }
    }
    r
  }

  /** The list branch, given the count the query reports. */
  function ListTopics(q: TopicsQuery, f: Forum, fetched: Option<seq<VoteRow>>,
                      count: Option<nat>): (r: TopicsReply)
    requires q.page >= 1 && q.limit >= 1
    ensures r.TopicPage?
    ensures |r.data| <= q.limit
    ensures |r.data| == |Slice(Listing(f.topics, q.categoryId, q.sort), PageWindow(q.page, q.limit))|
    ensures forall i :: 0 <= i < |r.data| ==>
              && PageWindow(q.page, q.limit).first + i < |Listing(f.topics, q.categoryId, q.sort)|
              && r.data[i].topic == Listing(f.topics, q.categoryId, q.sort)[PageWindow(q.page, q.limit).first + i]
    ensures forall i :: 0 <= i < |r.data| ==> (r.data[i].counts.Some? <==> fetched.Some?)
    ensures fetched.Some? ==>
              forall i :: 0 <= i < |r.data| ==> r.data[i].counts.value == CountsFor(fetched.value, r.data[i].topic.id)
    ensures r.pagination == Paginate(q.page, q.limit, count)
  {
    var listing := Listing(f.topics, q.categoryId, q.sort);
    var w := PageWindow(q.page, q.limit);
    var rows := Slice(listing, w);
    var data := EnrichTopics(rows, fetched);
    assert forall i :: 0 <= i < |data| ==> data[i].topic == rows[i] == listing[w.first + i];
    TopicPage(data, Paginate(q.page, q.limit, count))
  }

  /** GET as written. `fetched` is the vote fetch's result (`None` when it
      fails). The list query does not ask for a count, so the store reports
      none and the pagination block always says zero. */
  function GetTopics(q: TopicsQuery, f: Forum, fetched: Option<seq<VoteRow>>): (r: Outcome<TopicsReply>)
    requires q.id != "" || (q.page >= 1 && q.limit >= 1)
    ensures q.id != "" ==> (r.Done? <==> |Filter(f.topics, TopicHasId(q.id))| == 1)
    ensures r.Rejected? ==> r.status == NotFound
    ensures q.id != "" && r.Done? ==>
              && r.value.OneTopic?
              && r.value.view.topic in f.topics && r.value.view.topic.id == q.id
              && r.value.view.counts == (if fetched.Some? then Some(TypeCounts(fetched.value)) else None)
    ensures q.id == "" ==> r == Done(ListTopics(q, f, fetched, None))
    ensures q.id == "" ==>
              && r.Done? && r.value.TopicPage?
              && |r.value.data| <= q.limit
              && (forall i :: 0 <= i < |r.value.data| ==>
                    && r.value.data[i].topic in f.topics
                    && (q.categoryId != "" ==> r.value.data[i].topic.categoryId == q.categoryId))
              && r.value.pagination.total == 0 && r.value.pagination.totalPages == 0
  {
    if q.id != "" then
      match Single(f.topics, TopicHasId(q.id))
      case None => Rejected(NotFound)
      case Some(topic) =>
        Done(OneTopic(TopicView(topic, if fetched.Some? then Some(TypeCounts(fetched.value)) else None)))
    else
      var r := ListTopics(q, f, fetched, None);
      assert forall i :: 0 <= i < |r.data| ==>
               r.data[i].topic in Listing(f.topics, q.categoryId, q.sort);
      Done(r)
  }

  /** The list branch with the count requested (`{ count: 'exact' }`): the
      pagination block reports the size of the whole result set. */
  function GetTopicsCounted(q: TopicsQuery, f: Forum, fetched: Option<seq<VoteRow>>): (r: TopicsReply)
    requires q.page >= 1 && q.limit >= 1
    ensures r.TopicPage?
    ensures r.pagination.total == |Listing(f.topics, q.categoryId, q.sort)|
    ensures |r.data| > 0 <==> q.page <= r.pagination.totalPages
  {
    var listing := Listing(f.topics, q.categoryId, q.sort);
    PageFilledIffWithinTotal(listing, q.page, q.limit);
    ListTopics(q, f, fetched, Some(|listing|))
  }

  /** As written, a first page full of topics still reports no pages. */
  lemma GetTopicsReportsNoPages(t: Topic)
    ensures var q := TopicsQuery("", "", 1, 20, "latest");
            var f := Forum([t], [], map[], map[]);
            var r := GetTopics(q, f, None).value;
            |r.data| == 1 && r.pagination.totalPages == 0
  {
    var q := TopicsQuery("", "", 1, 20, "latest");
    var f := Forum([t], [], map[], map[]);
    assert t in Listing(f.topics, "", "latest");
  }

  /** With the count requested, the last page holds the remainder and the
      page after it is empty. */
  lemma CountedLastPage(q: TopicsQuery, f: Forum, fetched: Option<seq<VoteRow>>)
    requires q.page >= 1 && q.limit >= 1
    requires |Listing(f.topics, q.categoryId, q.sort)| > 0
    ensures var n := |Listing(f.topics, q.categoryId, q.sort)|;
            var last := q.(page := GetTopicsCounted(q, f, fetched).pagination.totalPages);
            && last.page >= 1
            && |GetTopicsCounted(last, f, fetched).data| == (if n % q.limit == 0 then q.limit else n % q.limit)
            && GetTopicsCounted(last.(page := last.page + 1), f, fetched).data == []
  {
    LastPageHoldsRemainder(Listing(f.topics, q.categoryId, q.sort), q.limit);
  }

  /** The POST body; empty strings stand for missing fields. */
  datatype NewTopic = NewTopic(title: string, content: string, categoryId: Id)

  /** The 400 checks: all fields present, title of 5 to 200 characters,
      content of 10 to 10000. */
  predicate ValidTopic(req: NewTopic) {
    && req.title != "" && req.content != "" && req.categoryId != ""
    && 5 <= |req.title| <= 200
    && 10 <= |req.content| <= 10000
  }

  /** POST. The store assigns `newId`; `now` is the request's clock. */
  function CreateTopic(token: string, sessions: Sessions, req: NewTopic, f: Forum,
                       newId: Id, now: Instant): (h: Handled<Topic>)
    ensures Authenticate(token, sessions).None? ==> h.reply == Rejected(Unauthorized)
    ensures Authenticate(token, sessions).Some? ==>
              (h.reply.Rejected? <==> !ValidTopic(req))
              && (h.reply.Rejected? ==> h.reply.status == BadRequest)
    ensures h.reply.Rejected? ==> h.after == f
    ensures h.reply.Done? ==>
              var t := h.reply.value;
              var user := Authenticate(token, sessions).value;
              && h.after == f.(topics := f.topics + [t],
                               topicCounts := Bump(f.topicCounts, req.categoryId, 1))
              && t.id == newId && t.title == req.title && t.content == req.content
              && t.categoryId == req.categoryId
              && t.authorId == user.userId && t.authorName == DisplayName(user)
              && t.authorAvatar == Avatar(user)
              && t.viewCount == 0 && t.replyCount == 0 && t.voteScore == 0
              && !t.isPinned && !t.isLocked
              && t.createdAt == now && t.updatedAt == now && t.lastReplyAt == now
  {
    match Authenticate(token, sessions)
    case None => Handled(Rejected(Unauthorized), f)
    case Some(user) =>
      if req.title == "" || req.content == "" || req.categoryId == "" then
        Handled(Rejected(BadRequest), f)
      else if |req.title| < 5 || |req.title| > 200 then
        Handled(Rejected(BadRequest), f)
      else if |req.content| < 10 || |req.content| > 10000 then
        Handled(Rejected(BadRequest), f)
      else
        var t := Topic(newId, req.title, req.content, req.categoryId,
                       user.userId, DisplayName(user), Avatar(user),
                       false, false, 0, 0, 0, now, now, now);
        Handled(Done(t), f.(topics := f.topics + [t],
                            topicCounts := Bump(f.topicCounts, req.categoryId, 1)))
  }

  function OwnedBy(topicId: Id, authorName: string): Topic -> bool {
    (x: Topic) => x.id == topicId && x.authorName == authorName
  }

  function NotOwnedBy(topicId: Id, authorName: string): Topic -> bool {
    (x: Topic) => !(x.id == topicId && x.authorName == authorName)
  }

  function NotTopic(topicId: Id): Topic -> bool {
    (x: Topic) => x.id != topicId
  }

  function OutsideTopic(topicId: Id): Post -> bool {
    (x: Post) => x.topicId != topicId
  }

  /** The ledger without the votes cast on the topic itself. */
  function DropTopicVotes(votes: Votes, topicId: Id): (r: Votes)
    ensures forall k :: k in r <==> k in votes && !(k.target == TopicTarget && k.targetId == topicId)
    ensures forall k :: k in r ==> r[k] == votes[k]
  {
    map k | k in votes && !(k.target == TopicTarget && k.targetId == topicId) :: votes[k]
  }

  /** The three deletes and the counter update the handler performs once
      the topic is found: its votes, every post of the topic, the topic rows
      `keep` rejects, and one off the category's count. */
  function RemoveTopic(f: Forum, topicId: Id, keep: Topic -> bool, categoryId: Id): (g: Forum)
    ensures forall k :: k in g.votes <==> k in f.votes && !(k.target == TopicTarget && k.targetId == topicId)
    ensures forall k :: k in g.votes ==> g.votes[k] == f.votes[k]
    ensures forall p :: p in g.posts <==> p in f.posts && p.topicId != topicId
    ensures forall t :: t in g.topics <==> t in f.topics && keep(t)
    ensures g.topicCounts == Bump(f.topicCounts, categoryId, -1)
  {
    FilterMembers(f.posts, OutsideTopic(topicId));
    FilterMembers(f.topics, keep);
    Forum(Filter(f.topics, keep), Filter(f.posts, OutsideTopic(topicId)),
          DropTopicVotes(f.votes, topicId), Bump(f.topicCounts, categoryId, -1))
  }

  /** DELETE as written: the caller is matched against the `author_name`
      parameter by display name, and the topic is looked up by id and that
      name. */
  function DeleteTopic(token: string, sessions: Sessions, topicId: Id, authorName: string,
                       f: Forum): (h: Handled<()>)
    ensures topicId == "" || authorName == "" ==> h.reply == Rejected(BadRequest)
    ensures topicId != "" && authorName != "" && Authenticate(token, sessions).None? ==>
              h.reply == Rejected(Unauthorized)
    ensures topicId != "" && authorName != "" && Authenticate(token, sessions).Some?
            && DisplayName(Authenticate(token, sessions).value) != authorName ==>
              h.reply == Rejected(Forbidden)
    ensures h.reply.Rejected? ==> h.after == f
    ensures h.reply.Done? <==>
              && topicId != "" && authorName != "" && Authenticate(token, sessions).Some?
              && DisplayName(Authenticate(token, sessions).value) == authorName
              && |Filter(f.topics, OwnedBy(topicId, authorName))| == 1
    ensures h.reply.Done? ==>
              var topic := Single(f.topics, OwnedBy(topicId, authorName)).value;
              && topic in f.topics && topic.id == topicId && topic.authorName == authorName
              && h.after == RemoveTopic(f, topicId, NotOwnedBy(topicId, authorName), topic.categoryId)
  {
    if topicId == "" || authorName == "" then Handled(Rejected(BadRequest), f)
    else
      match Authenticate(token, sessions)
      case None => Handled(Rejected(Unauthorized), f)
      case Some(user) =>
        if DisplayName(user) != authorName then Handled(Rejected(Forbidden), f)
        else
          match Single(f.topics, OwnedBy(topicId, authorName))
          case None => Handled(Rejected(NotFound), f)
          case Some(topic) =>
            Handled(Done(()), RemoveTopic(f, topicId, NotOwnedBy(topicId, authorName), topic.categoryId))
  }

  /** Deleting a topic removes the votes on the topic but none of the votes
      on its posts, although the posts themselves go. */
  lemma DeleteTopicKeepsPostVotes(token: string, sessions: Sessions, topicId: Id,
                                  authorName: string, f: Forum)
    requires DeleteTopic(token, sessions, topicId, authorName, f).reply.Done?
    ensures var after := DeleteTopic(token, sessions, topicId, authorName, f).after;
            && (forall k :: k in f.votes && k.target == PostTarget ==>
                  k in after.votes && after.votes[k] == f.votes[k])
            && (forall k :: k in after.votes ==> !(k.target == TopicTarget && k.targetId == topicId))
            && (forall p :: p in after.posts ==> p.topicId != topicId)
  {
  }

  /** Two accounts that share a display name: the second may delete the
      first's topic. */
  lemma NamesakeDeletesTopic(t: Topic)
    requires t.id != "" && t.authorId == "u1" && t.authorName == "Ali"
    ensures var sessions := map["tok" := User("u2", "ali@x", "Ali", "")];
            var f := Forum([t], [], map[], map[]);
            DeleteTopic("tok", sessions, t.id, "Ali", f).reply.Done?
  {
    var f := Forum([t], [], map[], map[]);
    assert Filter(f.topics, OwnedBy(t.id, "Ali")) == [t] by {
      FilterSnoc([], t, OwnedBy(t.id, "Ali"));
      assert [] + [t] == [t];
    }
  }

  /** DELETE with the check the posts handler uses: the topic is found by
      id and its stored author id must be the caller's. */
  function DeleteOwnTopic(token: string, sessions: Sessions, topicId: Id, f: Forum): (h: Handled<()>)
    ensures topicId == "" ==> h.reply == Rejected(BadRequest)
    ensures topicId != "" && Authenticate(token, sessions).None? ==> h.reply == Rejected(Unauthorized)
    ensures h.reply.Rejected? ==> h.after == f
    ensures h.reply.Done? <==>
              && topicId != "" && Authenticate(token, sessions).Some?
              && Single(f.topics, TopicHasId(topicId)).Some?
              && Single(f.topics, TopicHasId(topicId)).value.authorId
                 == Authenticate(token, sessions).value.userId
    ensures h.reply.Done? ==>
              var topic := Single(f.topics, TopicHasId(topicId)).value;
              && (forall t :: t in f.topics && t.id == topicId ==> t.authorId == topic.authorId)
              && h.after == RemoveTopic(f, topicId, NotTopic(topicId), topic.categoryId)
  {
    if topicId == "" then Handled(Rejected(BadRequest), f)
    else
      match Authenticate(token, sessions)
      case None => Handled(Rejected(Unauthorized), f)
      case Some(user) =>
        match Single(f.topics, TopicHasId(topicId))
        case None => Handled(Rejected(NotFound), f)
        case Some(topic) =>
          if topic.authorId != user.userId then Handled(Rejected(Forbidden), f)
          else Handled(Done(()), RemoveTopic(f, topicId, NotTopic(topicId), topic.categoryId))
  }

  /** With the id check, a namesake is refused. */
  lemma NamesakeRefused(t: Topic)
    requires t.id != "" && t.authorId == "u1" && t.authorName == "Ali"
    ensures var sessions := map["tok" := User("u2", "ali@x", "Ali", "")];
            var f := Forum([t], [], map[], map[]);
            DeleteOwnTopic("tok", sessions, t.id, f).reply == Rejected(Forbidden)
  {
    var f := Forum([t], [], map[], map[]);
    assert Filter(f.topics, TopicHasId(t.id)) == [t] by {
      FilterSnoc([], t, TopicHasId(t.id));
      assert [] + [t] == [t];
    }
  }
}
