/** The vote ledger of the forum (`forum_votes`): at most one vote per
    (target type, target id, voter), each up or down, and the three-way
    transition a new vote request makes on it. */
module Ledger {
  import opened Common

  datatype TargetType = TopicTarget | PostTarget
  datatype VoteType = Up | Down

  /** The unique key of a ledger row. Keying a map by it makes "at most one
      vote per voter and target" hold by construction. */
  datatype VoteKey = VoteKey(target: TargetType, targetId: Id, voter: Id)

  type Votes = map<VoteKey, VoteType>

  datatype Action = Added | Removed | Changed

  /** What one voter adds to a target's score: up +1, down -1, no vote 0. */
  function Contribution(v: Option<VoteType>): int {
    match v
    case None => 0
    case Some(Up) => 1
    case Some(Down) => -1
  }

  function Opposite(v: VoteType): VoteType {
    if v == Up then Down else Up
  }

  /** The ledger row under `key`, if any (`maybeSingle` on the unique key). */
  function Current(votes: Votes, key: VoteKey): Option<VoteType> {
    if key in votes then Some(votes[key]) else None
  }

  /** Insert, overwrite or delete the row under `key`. */
  function Put(votes: Votes, key: VoteKey, v: Option<VoteType>): (r: Votes)
    ensures Current(r, key) == v
    ensures forall k :: k != key ==> Current(r, k) == Current(votes, k)
  {
    match v
    case Some(t) => votes[key := t]
    case None => votes - {key}
  }

  /** The branch taken by a vote request, the label it reports, the signed
      score change and the row left under the key. */
  datatype Transition = Transition(action: Action, delta: int, after: Option<VoteType>)

  /** Add on a first vote, remove when the same direction is repeated,
      change when the direction flips; the deltas are the literal constants
      of each branch. */
  function Decide(existing: Option<VoteType>, requested: VoteType): (t: Transition)
    ensures t.delta == Contribution(t.after) - Contribution(existing)
    ensures existing.None? ==> t.action == Added && t.after == Some(requested)
    ensures existing == Some(requested) ==> t.action == Removed && t.after.None?
    ensures existing == Some(Opposite(requested)) ==> t.action == Changed && t.after == Some(requested)
  {
    match existing
    case None =>
      Transition(Added, if requested == Up then 1 else -1, Some(requested))
    case Some(prior) =>
      if prior == requested then
        Transition(Removed, if requested == Up then -1 else 1, None)
      else
        Transition(Changed, if requested == Up then 2 else -2, Some(requested))
  }

  /** The signed deltas of each branch, as the handler reports them. */
  lemma DeltaByBranch(existing: Option<VoteType>, requested: VoteType)
    ensures var t := Decide(existing, requested);
            && (t.action == Added ==> t.delta == (if requested == Up then 1 else -1))
            && (t.action == Removed ==> t.delta == (if requested == Up then -1 else 1))
            && (t.action == Changed ==> t.delta == (if requested == Up then 2 else -2))
            && (t.delta == 2 || t.delta == -2 <==> t.action == Changed)
  {
  }

  /** One vote request applied to the ledger. */
  datatype Cast = Cast(transition: Transition, votes: Votes)

  function CastVote(votes: Votes, key: VoteKey, requested: VoteType): (c: Cast)
    ensures forall k :: k != key ==> Current(c.votes, k) == Current(votes, k)
    ensures c.transition.delta == Contribution(Current(c.votes, key)) - Contribution(Current(votes, key))
  {
    var t := Decide(Current(votes, key), requested);
    Cast(t, Put(votes, key, t.after))
  }

  /** The same request twice in a row cancels out, unless the voter had
      voted the other way before (then the first request flips the vote and
      the second removes it). */
  lemma RepeatedVoteCancels(votes: Votes, key: VoteKey, requested: VoteType)
    requires Current(votes, key) != Some(Opposite(requested))
    ensures var first := CastVote(votes, key, requested);
            var second := CastVote(first.votes, key, requested);
            && second.votes == votes
            && first.transition.delta + second.transition.delta == 0
  {
    var first := CastVote(votes, key, requested);
    var second := CastVote(first.votes, key, requested);
    forall k
      ensures k in second.votes <==> k in votes
      ensures k in votes ==> second.votes[k] == votes[k]
    {
      assert Current(second.votes, k) == Current(votes, k);
    }
  }

  /** The voters whose vote on the target has direction `vt`. */
  function Voters(votes: Votes, t: TargetType, id: Id, vt: VoteType): set<VoteKey> {
    set k | k in votes && k.target == t && k.targetId == id && votes[k] == vt
  }

  /** The score the ledger implies for a target: up votes minus down votes. */
  function Tally(votes: Votes, t: TargetType, id: Id): int {
    |Voters(votes, t, id, Up)| - |Voters(votes, t, id, Down)|
  }

  lemma VotersAfterPut(votes: Votes, key: VoteKey, v: Option<VoteType>, t: TargetType, id: Id, vt: VoteType)
    ensures var hit := key.target == t && key.targetId == id;
            Voters(Put(votes, key, v), t, id, vt)
            == (Voters(votes, t, id, vt) - {key}) + (if hit && v == Some(vt) then {key} else {})
  {
    var after := Put(votes, key, v);
    forall k | k != key
      ensures k in Voters(after, t, id, vt) <==> k in Voters(votes, t, id, vt)
    {
      assert Current(after, k) == Current(votes, k);
    }
    assert Current(after, key) == v;
  }

  /** Writing one ledger row moves the tally of that row's target by the
      change in the voter's contribution, and no other target's tally. */
  lemma {:induction false} TallyAfterPut(votes: Votes, key: VoteKey, v: Option<VoteType>, t: TargetType, id: Id)
    ensures Tally(Put(votes, key, v), t, id)
            == Tally(votes, t, id)
               + (if key.target == t && key.targetId == id
                  then Contribution(v) - Contribution(Current(votes, key)) else 0)
  {
    var hit := key.target == t && key.targetId == id;
    var prior := Current(votes, key);
    VotersAfterPut(votes, key, v, t, id, Up);
    VotersAfterPut(votes, key, v, t, id, Down);
    var ups := Voters(votes, t, id, Up);
    var downs := Voters(votes, t, id, Down);
    assert key in ups <==> hit && prior == Some(Up);
    assert key in downs <==> hit && prior == Some(Down);
    assert |ups - {key}| == |ups| - (if key in ups then 1 else 0);
    assert |downs - {key}| == |downs| - (if key in downs then 1 else 0);
  }

  /** A sequence of vote requests, applied in order. */
  datatype Request = Request(key: VoteKey, vote: VoteType)

  function CastAll(votes: Votes, rs: seq<Request>): Votes
    decreases |rs|
  {
    if |rs| == 0 then votes
    else CastAll(CastVote(votes, rs[0].key, rs[0].vote).votes, rs[1..])
  }

  /** The sum of the deltas the requests report for one target, each
      computed against the ledger as the earlier requests left it. */
  function DeltaSum(votes: Votes, rs: seq<Request>, t: TargetType, id: Id): int
    decreases |rs|
  {
    if |rs| == 0 then 0
    else
      var c := CastVote(votes, rs[0].key, rs[0].vote);
      (if rs[0].key.target == t && rs[0].key.targetId == id then c.transition.delta else 0)
      + DeltaSum(c.votes, rs[1..], t, id)
  }

  /** Adding up the reported deltas of any run of requests gives exactly
      the change in up-minus-down for every target. */
  lemma {:induction false} DeltasTrackTally(votes: Votes, rs: seq<Request>, t: TargetType, id: Id)
    ensures Tally(CastAll(votes, rs), t, id) == Tally(votes, t, id) + DeltaSum(votes, rs, t, id)
    decreases |rs|
  {
    if |rs| > 0 {
      var c := CastVote(votes, rs[0].key, rs[0].vote);
      TallyAfterPut(votes, rs[0].key, c.transition.after, t, id);
      DeltasTrackTally(c.votes, rs[1..], t, id);
    }
  }
}
