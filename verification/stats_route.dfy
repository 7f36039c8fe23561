/** `/api/forum/stats`: topic, message and active-user counts for the
    forum's front page. */
module StatsRoute {
  import opened Common
  import opened Rows
  import opened Store

  /** Thirty days in milliseconds: the active-user window. */
  const ThirtyDays: nat := 30 * 24 * 60 * 60 * 1000

  datatype Stats = Stats(topics: nat, messages: nat, activeUsers: nat)

  /** The fixed numbers answered when the handler throws. */
  const Fallback: Stats := Stats(25, 150, 12)

  function ActiveSince(cutoff: int): Instant -> bool {
    (t: Instant) => t as int >= cutoff
  }

  /** `gte('updated_at', thirtyDaysAgo)` counted over the users' update
      instants. */
  function ActiveUsers(updatedAts: seq<Instant>, now: Instant): (n: nat)
    ensures n <= |updatedAts|
    ensures n == |set i | 0 <= i < |updatedAts| && updatedAts[i] as int >= now - ThirtyDays|
  {
    var within := ActiveSince(now - ThirtyDays);
    FilterCountsPositions(updatedAts, within);
    assert Positions(updatedAts, within)
           == set i | 0 <= i < |updatedAts| && updatedAts[i] as int >= now - ThirtyDays;
    |Filter(updatedAts, within)|
  }

  /** The answer from the three counts the store reports (`None` for a
      null count) or, when the handler throws, the fallback numbers. */
  function ForumStats(topicsCount: Option<nat>, postsCount: Option<nat>, activeCount: Option<nat>,
                      threw: bool): (s: Stats)
    ensures threw ==> s == Fallback
    ensures !threw ==> s.topics == topicsCount.GetOr(0)
    ensures !threw ==> s.messages == topicsCount.GetOr(0) + postsCount.GetOr(0)
    ensures !threw ==> s.activeUsers == activeCount.GetOr(0)
  {
    if threw then Fallback
    else
      var topics := topicsCount.GetOr(0);
      Stats(topics, topics + postsCount.GetOr(0), activeCount.GetOr(0))
  }

  /** The counts of a store snapshot: every topic, every topic plus every
      post (replies included) as messages, and the users active in the
      window. */
  function StatsOf(f: Forum, updatedAts: seq<Instant>, now: Instant): (s: Stats)
    ensures s.topics == |f.topics|
    ensures s.messages == |f.topics| + |f.posts|
    ensures s.activeUsers <= |updatedAts|
    ensures s.activeUsers == |set i | 0 <= i < |updatedAts| && updatedAts[i] as int >= now - ThirtyDays|
  {
    ForumStats(Some(|f.topics|), Some(|f.posts|), Some(ActiveUsers(updatedAts, now)), false)
  }

  /** A user whose last update is exactly thirty days old still counts; one
      a millisecond older does not. */
  lemma WindowIsInclusive(now: Instant)
    requires now > ThirtyDays
    ensures ActiveUsers([now - ThirtyDays], now) == 1
    ensures ActiveUsers([now - ThirtyDays - 1], now) == 0
  {
    var s1: seq<Instant> := [now - ThirtyDays];
    var s2: seq<Instant> := [now - ThirtyDays - 1];
    assert (set i | 0 <= i < |s1| && s1[i] as int >= now - ThirtyDays) == {0};
    assert (set i | 0 <= i < |s2| && s2[i] as int >= now - ThirtyDays) == {};
  }

  /** A failure cannot be told from a real forum that happens to hold the
      fallback numbers. */
  lemma FallbackLooksReal()
    ensures ForumStats(None, None, None, true) == ForumStats(Some(25), Some(125), Some(12), false)
  {
  }
}
