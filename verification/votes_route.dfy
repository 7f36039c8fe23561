/** `/api/forum/votes`: POST casts, flips or withdraws the caller's vote and
    moves the target's stored `vote_score`; GET reports the caller's vote. */
module VotesRoute {
  import opened Common
  import opened Rows
  import opened Session
  import opened Ledger
  import opened Store

  /** The JSON body; empty strings stand for missing fields. */
  datatype VoteRequest = VoteRequest(targetType: string, targetId: Id, voteType: string)

  /** `{ action, vote_change, new_score }` */
  datatype VoteResult = VoteResult(action: Action, voteChange: int, newScore: int)

  function TypeName(t: TargetType): string {
    match t
    case TopicTarget => "topic"
    case PostTarget => "post"
  }

  /** `['topic', 'post'].includes(target_type)` */
  function ParseTarget(s: string): (t: Option<TargetType>)
    ensures t.Some? <==> s == "topic" || s == "post"
    ensures t.Some? ==> TypeName(t.value) == s
  {
    if s == "topic" then Some(TopicTarget)
    else if s == "post" then Some(PostTarget)
    else None
  }

  /** `['up', 'down'].includes(vote_type)` */
  function ParseVote(s: string): (v: Option<VoteType>)
    ensures v.Some? <==> s == "up" || s == "down"
    ensures v == Some(Up) <==> s == "up"
  {
    if s == "up" then Some(Up)
    else if s == "down" then Some(Down)
    else None
  }

  /** The checks that answer 400, in the handler's order. */
  predicate WellFormed(req: VoteRequest) {
    && req.targetType != "" && req.targetId != "" && req.voteType != ""
    && ParseTarget(req.targetType).Some? && ParseVote(req.voteType).Some?
  }

  /** Rows of the target's table carrying the id. */
  function MatchingRows(f: Forum, t: TargetType, id: Id): nat {
    match t
    case TopicTarget => |Filter(f.topics, TopicHasId(id))|
    case PostTarget => |Filter(f.posts, PostHasId(id))|
  }

  /** `select('vote_score').eq('id', id).single()` */
  function StoredScore(f: Forum, t: TargetType, id: Id): (s: Option<int>)
    ensures s.Some? <==> MatchingRows(f, t, id) == 1
  {
    match t
    case TopicTarget =>
      (match Single(f.topics, TopicHasId(id))
       case Some(row) => Some(row.voteScore)
       case None => None)
    case PostTarget =>
      (match Single(f.posts, PostHasId(id))
       case Some(row) => Some(row.voteScore)
       case None => None)
  }

  /** `getNewVoteScore`: the stored score plus the change, or the change
      alone when the read fails. */
  function NewVoteScore(stored: Option<int>, change: int): (s: int)
    ensures stored.Some? ==> s - stored.value == change
    ensures stored.None? ==> s == change
  {
    match stored
    case Some(v) => v + change
    case None => change
  }

  /** `update({ vote_score }).eq('id', id)` on the target's table. */
  function SetScore(f: Forum, t: TargetType, id: Id, score: int): (g: Forum)
    ensures g.votes == f.votes && g.topicCounts == f.topicCounts
    ensures |g.topics| == |f.topics| && |g.posts| == |f.posts|
    ensures forall i :: 0 <= i < |f.topics| ==>
              g.topics[i] == if t == TopicTarget && f.topics[i].id == id
                             then f.topics[i].(voteScore := score) else f.topics[i]
    ensures forall i :: 0 <= i < |f.posts| ==>
              g.posts[i] == if t == PostTarget && f.posts[i].id == id
                            then f.posts[i].(voteScore := score) else f.posts[i]
  {
    match t
    case TopicTarget =>
      f.(topics := Update(f.topics, TopicHasId(id), (x: Topic) => x.(voteScore := score)))
    case PostTarget =>
      f.(posts := Update(f.posts, PostHasId(id), (x: Post) => x.(voteScore := score)))
  }

  /** POST. `scoreReadFails` stands for a failed read inside
      `getNewVoteScore`; every other store call is taken to succeed. The
      score write reports 500 unless it hit exactly one row, and by then the
      ledger has already been written. */
  function PostVote(token: string, sessions: Sessions, req: VoteRequest, f: Forum,
                    scoreReadFails: bool): (h: Handled<VoteResult>)
    ensures Authenticate(token, sessions).None? ==> h.reply == Rejected(Unauthorized)
    ensures Authenticate(token, sessions).Some? && !WellFormed(req) ==> h.reply == Rejected(BadRequest)
    ensures h.reply.Rejected? && h.reply.status != ServerError ==> h.after == f
    ensures h.reply.Done? <==>
              Authenticate(token, sessions).Some? && WellFormed(req)
              && MatchingRows(f, ParseTarget(req.targetType).value, req.targetId) == 1
    ensures h.reply.Done? ==>
              var key := VoteKey(ParseTarget(req.targetType).value, req.targetId,
                                 Authenticate(token, sessions).value.userId);
              && h.reply.value.voteChange
                 == Contribution(Current(h.after.votes, key)) - Contribution(Current(f.votes, key))
              && (forall k :: k != key ==> Current(h.after.votes, k) == Current(f.votes, k))
    ensures h.reply.Done? ==>
              var t := ParseTarget(req.targetType).value;
              var g := SetScore(f, t, req.targetId, h.reply.value.newScore);
              && h.after.topics == g.topics && h.after.posts == g.posts
              && h.after.topicCounts == f.topicCounts
    ensures h.reply == Rejected(ServerError) <==>
              Authenticate(token, sessions).Some? && WellFormed(req)
              && MatchingRows(f, ParseTarget(req.targetType).value, req.targetId) != 1
    ensures h.reply == Rejected(ServerError) ==>
              var t := ParseTarget(req.targetType).value;
              var key := VoteKey(t, req.targetId, Authenticate(token, sessions).value.userId);
              var change := Contribution(Current(h.after.votes, key)) - Contribution(Current(f.votes, key));
              var stored := if scoreReadFails then None else StoredScore(f, t, req.targetId);
              var g := SetScore(f, t, req.targetId, NewVoteScore(stored, change));
              && (forall k :: k != key ==> Current(h.after.votes, k) == Current(f.votes, k))
              && h.after.topics == g.topics && h.after.posts == g.posts
              && h.after.topicCounts == f.topicCounts
  {
    match Authenticate(token, sessions)
    case None => Handled(Rejected(Unauthorized), f)
    case Some(user) =>
      if req.targetType == "" || req.targetId == "" || req.voteType == "" then
        Handled(Rejected(BadRequest), f)
      else
        match ParseTarget(req.targetType)
        case None => Handled(Rejected(BadRequest), f)
        case Some(t) =>
          match ParseVote(req.voteType)
          case None => Handled(Rejected(BadRequest), f)
          case Some(vt) =>
            var key := VoteKey(t, req.targetId, user.userId);
            var cast := CastVote(f.votes, key, vt);
            var stored := if scoreReadFails then None else StoredScore(f, t, req.targetId);
            var score := NewVoteScore(stored, cast.transition.delta);
            var written := SetScore(f.(votes := cast.votes), t, req.targetId, score);
            if MatchingRows(f, t, req.targetId) == 1 then
              Handled(Done(VoteResult(cast.transition.action, cast.transition.delta, score)), written)
            else
              Handled(Rejected(ServerError), written)
  }

  /** The reported action and change are the ledger transition's. */
  lemma PostVoteReportsTransition(token: string, sessions: Sessions, req: VoteRequest, f: Forum,
                                  scoreReadFails: bool)
    requires PostVote(token, sessions, req, f, scoreReadFails).reply.Done?
    ensures var r := PostVote(token, sessions, req, f, scoreReadFails).reply.value;
            var key := VoteKey(ParseTarget(req.targetType).value, req.targetId,
                               Authenticate(token, sessions).value.userId);
            var t := Decide(Current(f.votes, key), ParseVote(req.voteType).value);
            && r.action == t.action
            && r.voteChange == t.delta
  {
  }

  /** The new score is the target row's stored score plus the change when
      the read succeeds, and the change alone when it fails. */
  lemma PostVoteNewScore(token: string, sessions: Sessions, req: VoteRequest, f: Forum,
                         scoreReadFails: bool)
    requires PostVote(token, sessions, req, f, scoreReadFails).reply.Done?
    ensures var h := PostVote(token, sessions, req, f, scoreReadFails);
            var t := ParseTarget(req.targetType).value;
            && (scoreReadFails ==> h.reply.value.newScore == h.reply.value.voteChange)
            && (!scoreReadFails ==>
                  h.reply.value.newScore
                  == StoredScore(f, t, req.targetId).value + h.reply.value.voteChange)
  {
  }

  /** As written, a vote on an id with no row is recorded in the ledger and
      only then answered with 500, when the score write finds no row. */
  lemma VoteOnMissingTargetIsRecorded(token: string, sessions: Sessions, req: VoteRequest, f: Forum)
    requires Authenticate(token, sessions).Some? && WellFormed(req)
    requires MatchingRows(f, ParseTarget(req.targetType).value, req.targetId) == 0
    ensures var h := PostVote(token, sessions, req, f, false);
            var key := VoteKey(ParseTarget(req.targetType).value, req.targetId,
                               Authenticate(token, sessions).value.userId);
            && h.reply == Rejected(ServerError)
            && Current(h.after.votes, key) != Current(f.votes, key)
  {
    var key := VoteKey(ParseTarget(req.targetType).value, req.targetId,
                       Authenticate(token, sessions).value.userId);
    var t := Decide(Current(f.votes, key), ParseVote(req.voteType).value);
    assert t.delta != 0;
  }

  /** POST with the target looked up before the ledger is touched: a
      missing target is answered with 404 and nothing is written. */
  function PostVoteChecked(token: string, sessions: Sessions, req: VoteRequest, f: Forum,
                           scoreReadFails: bool): (h: Handled<VoteResult>)
    ensures h.reply.Rejected? ==> h.after == f
    ensures Authenticate(token, sessions).Some? && WellFormed(req)
            && MatchingRows(f, ParseTarget(req.targetType).value, req.targetId) != 1 ==>
              h.reply == Rejected(NotFound)
    ensures h.reply.Done? <==> PostVote(token, sessions, req, f, scoreReadFails).reply.Done?
    ensures h.reply.Done? ==> h == PostVote(token, sessions, req, f, scoreReadFails)
  {
    if Authenticate(token, sessions).Some? && WellFormed(req)
       && MatchingRows(f, ParseTarget(req.targetType).value, req.targetId) != 1
    then Handled(Rejected(NotFound), f)
    else PostVote(token, sessions, req, f, scoreReadFails)
  }

  /** `{ has_voted, vote_type }` */
  datatype VoteLookup = VoteLookup(hasVoted: bool, voteType: Option<VoteType>)

  /** GET. The target type is not validated here: an unknown type simply
      matches no row. */
  function GetVote(token: string, sessions: Sessions, targetType: string, targetId: Id,
                   votes: Votes): (r: Outcome<VoteLookup>)
    ensures Authenticate(token, sessions).None? ==> r == Rejected(Unauthorized)
    ensures Authenticate(token, sessions).Some? && (targetType == "" || targetId == "") ==>
              r == Rejected(BadRequest)
    ensures Authenticate(token, sessions).Some? && targetType != "" && targetId != "" ==> r.Done?
    ensures r.Done? ==>
              (r.value.hasVoted <==>
                 exists k :: k in votes && TypeName(k.target) == targetType && k.targetId == targetId
                             && k.voter == Authenticate(token, sessions).value.userId)
    ensures r.Done? ==> (r.value.voteType.Some? <==> r.value.hasVoted)
    ensures r.Done? && r.value.hasVoted ==>
              var k := VoteKey(ParseTarget(targetType).value, targetId,
                               Authenticate(token, sessions).value.userId);
              k in votes && r.value.voteType == Some(votes[k])
  {
    match Authenticate(token, sessions)
    case None => Rejected(Unauthorized)
    case Some(user) =>
      if targetType == "" || targetId == "" then Rejected(BadRequest)
      else
        var row := match ParseTarget(targetType)
                   case None => None
                   case Some(t) => Current(votes, VoteKey(t, targetId, user.userId));
        assert row.None? ==> !exists k :: k in votes && TypeName(k.target) == targetType
                                          && k.targetId == targetId && k.voter == user.userId by {
          if row.None? {
            forall k | k in votes && TypeName(k.target) == targetType && k.targetId == targetId
              ensures k.voter != user.userId
            {
              assert ParseTarget(targetType) == Some(k.target);
            }
          }
        }
        Done(VoteLookup(row.Some?, row))
  }
}
