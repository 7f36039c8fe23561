/** Like/dislike enrichment of listed topics and posts: one batched fetch of
    vote rows, then an in-process filter and count per item. */
module Enrichment {
  import opened Common
  import opened Rows
  import opened Ledger
  import opened Store

  /** A row of the batched fetch, `select('target_id, vote_type')`. */
  datatype VoteRow = VoteRow(targetId: Id, voteType: VoteType)

  datatype Counts = Counts(likes: nat, dislikes: nat)

  /** `votes.filter(vote => vote.target_id === id)` */
  function ForTarget(batch: seq<VoteRow>, id: Id): seq<VoteRow> {
    Filter(batch, (r: VoteRow) => r.targetId == id)
  }

  predicate IsUp(r: VoteRow) {
    r.voteType == Up
  }

  predicate IsDown(r: VoteRow) {
    r.voteType == Down
  }

  function Direction(vt: VoteType): VoteRow -> bool {
    if vt == Up then IsUp else IsDown
  }

  /** The up and down rows of a batch, counted by direction. */
  function TypeCounts(rows: seq<VoteRow>): (c: Counts)
    ensures c.likes + c.dislikes == |rows|
  {
    UpDownSplit(rows);
    Counts(|Filter(rows, IsUp)|, |Filter(rows, IsDown)|)
  }

  lemma {:induction false} UpDownSplit(rows: seq<VoteRow>)
    ensures |Filter(rows, IsUp)| + |Filter(rows, IsDown)| == |rows|
    decreases |rows|
  {
    if |rows| > 0 {
      UpDownSplit(rows[..|rows| - 1]);
    }
  }

  lemma ForTargetSnoc(s: seq<VoteRow>, y: VoteRow, id: Id)
    ensures ForTarget(s + [y], id) == ForTarget(s, id) + (if y.targetId == id then [y] else [])
  {
    assert (s + [y])[..|s|] == s;
  }

  /** The counts one item gets: its own rows of the batch, by direction. */
  function CountsFor(batch: seq<VoteRow>, id: Id): Counts {
    TypeCounts(ForTarget(batch, id))
  }

  datatype TopicView = TopicView(topic: Topic, counts: Option<Counts>)

  /** Topic enrichment; a failed fetch (`None`) leaves the list as it was. */
  function EnrichTopics(topics: seq<Topic>, fetched: Option<seq<VoteRow>>): (r: seq<TopicView>)
    ensures |r| == |topics|
    ensures forall i :: 0 <= i < |r| ==> r[i].topic == topics[i]
    ensures forall i :: 0 <= i < |r| ==> (r[i].counts.Some? <==> fetched.Some?)
    ensures fetched.Some? ==>
              forall i :: 0 <= i < |r| ==> r[i].counts.value == CountsFor(fetched.value, topics[i].id)
  {
    seq(|topics|, i requires 0 <= i < |topics| =>
      TopicView(topics[i], if fetched.Some? then Some(CountsFor(fetched.value, topics[i].id)) else None))
  }

  /** A top-level post with the rows embedded under `replies`. */
  datatype Thread = Thread(post: Post, replies: seq<Post>)

  datatype ReplyView = ReplyView(reply: Post, counts: Option<Counts>)
  datatype PostView = PostView(post: Post, counts: Option<Counts>, replies: seq<ReplyView>)

  function ReplyIds(replies: seq<Post>): seq<Id> {
    seq(|replies|, j requires 0 <= j < |replies| => replies[j].id)
  }

  function AllReplyIds(threads: seq<Thread>): seq<Id>
    decreases |threads|
  {
    if |threads| == 0 then []
    else ReplyIds(threads[0].replies) + AllReplyIds(threads[1..])
  }

  /** `[...postIds, ...replyIds]`: the ids the batched fetch asks for. */
  function ThreadIds(threads: seq<Thread>): (ids: seq<Id>)
    ensures forall i :: 0 <= i < |threads| ==> threads[i].post.id in ids
  {
    var postIds := seq(|threads|, i requires 0 <= i < |threads| => threads[i].post.id);
    assert forall i :: 0 <= i < |threads| ==> postIds[i] == threads[i].post.id;
    postIds + AllReplyIds(threads)
  }

  /** Every reply's id is among the fetched ids too. */
  lemma {:induction false} ThreadIdsCoverReplies(threads: seq<Thread>, i: int, j: int)
    requires 0 <= i < |threads| && 0 <= j < |threads[i].replies|
    ensures threads[i].replies[j].id in ThreadIds(threads)
  {
    AllReplyIdsCover(threads, i, j);
  }

  lemma {:induction false} AllReplyIdsCover(threads: seq<Thread>, i: int, j: int)
    requires 0 <= i < |threads| && 0 <= j < |threads[i].replies|
    ensures threads[i].replies[j].id in AllReplyIds(threads)
    decreases |threads|
  {
    if i == 0 {
      assert ReplyIds(threads[0].replies)[j] == threads[0].replies[j].id;
    } else {
      AllReplyIdsCover(threads[1..], i - 1, j);
    }
  }

  function EnrichReplies(replies: seq<Post>, fetched: Option<seq<VoteRow>>): (r: seq<ReplyView>)
    ensures |r| == |replies|
    ensures forall j :: 0 <= j < |r| ==> r[j].reply == replies[j]
    ensures forall j :: 0 <= j < |r| ==> (r[j].counts.Some? <==> fetched.Some?)
    ensures fetched.Some? ==>
              forall j :: 0 <= j < |r| ==> r[j].counts.value == CountsFor(fetched.value, replies[j].id)
  {
    seq(|replies|, j requires 0 <= j < |replies| =>
      ReplyView(replies[j], if fetched.Some? then Some(CountsFor(fetched.value, replies[j].id)) else None))
  }

  /** Post enrichment: each post and each of its replies gets the counts of
      its own id; reply lists keep their length and order. */
  function EnrichThreads(threads: seq<Thread>, fetched: Option<seq<VoteRow>>): (r: seq<PostView>)
    ensures |r| == |threads|
    ensures forall i :: 0 <= i < |r| ==> r[i].post == threads[i].post
    ensures forall i :: 0 <= i < |r| ==> (r[i].counts.Some? <==> fetched.Some?)
    ensures fetched.Some? ==>
              forall i :: 0 <= i < |r| ==> r[i].counts.value == CountsFor(fetched.value, threads[i].post.id)
    ensures forall i :: 0 <= i < |r| ==> |r[i].replies| == |threads[i].replies|
    ensures forall i, j :: 0 <= i < |r| && 0 <= j < |r[i].replies| ==> r[i].replies[j].reply == threads[i].replies[j]
    ensures forall i, j :: 0 <= i < |r| && 0 <= j < |r[i].replies| ==> (r[i].replies[j].counts.Some? <==> fetched.Some?)
    ensures fetched.Some? ==>
              forall i, j :: 0 <= i < |r| && 0 <= j < |r[i].replies| ==>
                r[i].replies[j].counts == Some(CountsFor(fetched.value, threads[i].replies[j].id))
  {
    seq(|threads|, i requires 0 <= i < |threads| =>
      PostView(threads[i].post,
               if fetched.Some? then Some(CountsFor(fetched.value, threads[i].post.id)) else None,
               EnrichReplies(threads[i].replies, fetched)))
  }

  /** `batch` is what the fetch returns for target type `t` and the ids
      `ids`: one row per matching ledger entry, with `keys` naming the ledger
      key behind each row. */
  ghost predicate BatchOf(batch: seq<VoteRow>, keys: seq<VoteKey>, votes: Votes, t: TargetType, ids: set<Id>) {
    && RowsFromLedger(batch, keys, votes)
    && (forall i :: 0 <= i < |keys| ==> keys[i].target == t && keys[i].targetId in ids)
    && (forall k :: k in votes && k.target == t && k.targetId in ids ==> k in keys)
  }

  /** Row `i` shows the ledger entry `keys[i]`, and no entry is shown
      twice. */
  ghost predicate RowsFromLedger(batch: seq<VoteRow>, keys: seq<VoteKey>, votes: Votes) {
    && |keys| == |batch|
    && (forall i, j :: 0 <= i < j < |keys| ==> keys[i] != keys[j])
    && (forall i :: 0 <= i < |keys| ==>
          keys[i] in votes && keys[i].targetId == batch[i].targetId && votes[keys[i]] == batch[i].voteType)
  }

  function KeysFor(ks: seq<VoteKey>, votes: Votes, id: Id, vt: VoteType): set<VoteKey> {
    set k | k in ks && k in votes && k.targetId == id && votes[k] == vt
  }

  lemma KeysForSnoc(ks: seq<VoteKey>, k: VoteKey, votes: Votes, id: Id, vt: VoteType)
    requires k !in ks
    ensures |KeysFor(ks + [k], votes, id, vt)|
            == |KeysFor(ks, votes, id, vt)|
               + (if k in votes && k.targetId == id && votes[k] == vt then 1 else 0)
  {
    var hit := k in votes && k.targetId == id && votes[k] == vt;
    assert KeysFor(ks + [k], votes, id, vt)
           == KeysFor(ks, votes, id, vt) + (if hit then {k} else {});
    assert k !in KeysFor(ks, votes, id, vt);
  }

  lemma CountSnoc(s: seq<VoteRow>, b: VoteRow, id: Id, vt: VoteType)
    ensures |Filter(ForTarget(s + [b], id), Direction(vt))|
            == |Filter(ForTarget(s, id), Direction(vt))|
               + (if b.targetId == id && b.voteType == vt then 1 else 0)
  {
    ForTargetSnoc(s, b, id);
    assert Direction(vt)(b) == (b.voteType == vt);
    var before := ForTarget(s, id);
    if b.targetId == id {
      assert ForTarget(s + [b], id) == before + [b];
      FilterSnoc(before, b, Direction(vt));
      assert Filter(before + [b], Direction(vt))
             == Filter(before, Direction(vt)) + (if b.voteType == vt then [b] else []);
    } else {
      assert ForTarget(s + [b], id) == before;
    }
  }

  /** Extending the prefix by one row and its key adds the same amount to
      both counts. */
  lemma PrefixStep(batch: seq<VoteRow>, keys: seq<VoteKey>, votes: Votes, id: Id, vt: VoteType, n: nat)
    requires 0 < n <= |batch| && |keys| == |batch|
    requires keys[n - 1] !in keys[..n - 1]
    requires keys[n - 1] in votes && votes[keys[n - 1]] == batch[n - 1].voteType
    requires keys[n - 1].targetId == batch[n - 1].targetId
    ensures |Filter(ForTarget(batch[..n], id), Direction(vt))| - |Filter(ForTarget(batch[..n - 1], id), Direction(vt))|
            == |KeysFor(keys[..n], votes, id, vt)| - |KeysFor(keys[..n - 1], votes, id, vt)|
  {
    assert batch[..n] == batch[..n - 1] + [batch[n - 1]];
    assert keys[..n] == keys[..n - 1] + [keys[n - 1]];
    CountSnoc(batch[..n - 1], batch[n - 1], id, vt);
    KeysForSnoc(keys[..n - 1], keys[n - 1], votes, id, vt);
  }

  lemma {:induction false} PrefixCounts(batch: seq<VoteRow>, keys: seq<VoteKey>, votes: Votes,
                                        id: Id, vt: VoteType, n: nat)
    requires RowsFromLedger(batch, keys, votes)
    requires n <= |batch|
    ensures |Filter(ForTarget(batch[..n], id), Direction(vt))| == |KeysFor(keys[..n], votes, id, vt)|
    decreases n
  {
    if n > 0 {
      PrefixCounts(batch, keys, votes, id, vt, n - 1);
      assert keys[n - 1] !in keys[..n - 1] by {
        forall m | 0 <= m < n - 1
          ensures keys[m] != keys[n - 1]
        {
        }
      }
      PrefixStep(batch, keys, votes, id, vt, n);
    } else {
      assert KeysFor(keys[..0], votes, id, vt) == {};
    }
  }

  /** When the fetch returns the ledger's rows for the listed ids, every
      item's like and dislike counts are its ledger's up and down voters. */
  lemma CountsMatchLedger(batch: seq<VoteRow>, keys: seq<VoteKey>, votes: Votes,
                          t: TargetType, ids: set<Id>, id: Id)
    requires BatchOf(batch, keys, votes, t, ids)
    requires id in ids
    ensures CountsFor(batch, id)
            == Counts(|Voters(votes, t, id, Up)|, |Voters(votes, t, id, Down)|)
  {
    PrefixCounts(batch, keys, votes, id, Up, |batch|);
    PrefixCounts(batch, keys, votes, id, Down, |batch|);
    assert batch[..|batch|] == batch;
    assert keys[..|keys|] == keys;
    assert KeysFor(keys, votes, id, Up) == Voters(votes, t, id, Up);
    assert KeysFor(keys, votes, id, Down) == Voters(votes, t, id, Down);
  }
}
