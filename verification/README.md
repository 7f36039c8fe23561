# Kozmik Yollar forum: a verified model of the decision logic

This project models, in Dafny, the decision logic of the "Kozmik Yollar"
web site. That logic is mostly its forum back-end, plus a few small helpers.
The store is an in-memory snapshot (`Store.Forum`) holding four things:

- the topic table and the post table, each as a `seq` in storage order;
- the vote ledger, `map<VoteKey, VoteType>`, keyed by (target type, target id,
  voter id);
- the per-category topic counters.

Every route handler is a pure function from three inputs: the request fields,
the session oracle (`Session.Sessions`, token to user), and the snapshot. It
returns an HTTP status or a response value, together with the snapshot it
leaves behind (`Store.Handled`).

What is modelled:

- **Votes** (`Ledger`, `VotesRoute`)
  - the add / remove / change state machine and the signed score delta;
  - the score write, including its fallback when the stored score cannot be
    read;
  - the `has_voted` lookup.
- **Topics and posts** (`TopicsRoute`, `PostsRoute`, with `Paging`, `Sorting`
  and `Enrichment`)
  - the list handlers: filter, sort dispatch, page window, pagination block,
    and like/dislike enrichment;
  - the single-topic path;
  - creation, with its length windows and initial fields;
  - deletion, with its ordered checks and deletion sequence.
- **Store-wide invariant** (`Consistency`)
  - "ids are unique and every stored score equals the ledger's up votes minus
    down votes" is proved to survive every write handler, with one exception
    exhibited below.
- **Small routes**
  - forum statistics (`StatsRoute`);
  - the generic query route's allow-list and filter builder (`QueryRoute`);
  - registration (`RegisterRoute`).
- **Client-side logic**
  - the sign-in / sign-up page's checks and error-message classification
    (`AuthPage`);
  - the daily-shares list (`DailyShares`);
  - the image carousel and the testimonials slider (`ImageCarousel`,
    `Testimonials`, both on `Cyclic`);
  - the footer's link helper (`Footer`).

Conventions:

- An empty string stands for a missing, `null` or falsy request field.
- Timestamps are opaque naturals (milliseconds).
- Database sorting is an insertion sort on a rank, proved to give an ordered
  permutation of its input. The order among equal keys is left open.
- The store's `.single()` succeeds only when exactly one row matches.
- The store's `.range(from, to)` yields the rows of the window that exist.
- Failures of the store are parameters where the code branches on them (the
  score read, the vote fetch for enrichment, the query route's store error,
  the statistics exception, the register procedure's answer).
- The session check (`validate_session`) and the counter procedures are not
  part of this model. They are modelled as the oracle map and as a ±1 on the
  named counter (`Store.Bump`).

Three behaviours of the code are easy to miss; the model follows the code:

- Topic deletion authorises by display name, not by user id
  (app/api/forum/topics/route.ts:273-277). This is a row of "## Findings".
- A vote on a missing target is written to the ledger and then answered with
  500, not 404 (app/api/forum/votes/route.ts:99-135). This is a row of
  "## Findings".
- Topic deletion removes the votes cast on the topic and every post of the
  topic, but keeps the votes cast on those posts
  (app/api/forum/topics/route.ts:292-303, `TopicsRoute.DeleteTopicKeepsPostVotes`).
  The leftover ledger rows name posts that no longer exist, so they change no
  stored score and no listed count.

## Model

| member | source | states |
|---|---|---|
| Text.Before | app/api/forum/topics/route.ts:194 | `email.split('@')[0]` is a prefix of the address, holds no `@`, and stops at the first `@` or at the end |
| Text.IncludesIffOccurs | app/forum/auth/page.tsx:81-89 | the position-by-position `includes` scan answers true exactly when the substring occurs at some index |
| Text.Lower | app/api/auth/register/route.ts:22 | lower-casing keeps the length, leaves no upper-case letter, shifts each upper-case letter by 32 and leaves every other character alone |
| Text.LowerIdempotent | app/api/auth/register/route.ts:22 | lower-casing twice is lower-casing once |
| Text.Trim | app/api/auth/register/route.ts:32-34 | the trimmed string is an infix of the input with only white space outside it, neither starts nor ends with white space, and is empty for an all-space input |
| Text.TrimUnique | app/api/auth/register/route.ts:32-34 | any infix with only white space around it and none at its ends is exactly what `trim` returns |
| Text.TrimPadded | app/api/auth/register/route.ts:22 | white space added at either end of a string disappears under `trim` |
| Text.TrimIdempotent | app/api/auth/register/route.ts:32-34 | trimming twice is trimming once |
| Rows.Filter | app/api/forum/topics/route.ts:142-144 | `Array.filter` keeps only elements of the input that satisfy the predicate |
| Rows.FilterMembers | app/api/forum/topics/route.ts:142-144 | an element is in the filtered list exactly when it is in the input and satisfies the predicate |
| Rows.FilterCountsPositions | app/api/forum/topics/route.ts:143-144 | the filtered length is the number of matching positions of the input |
| Rows.FilterKeepsDistinct | app/api/forum/posts/route.ts:260-264 | deleting the rows that match a predicate keeps distinct keys distinct |
| Rows.Single | app/api/forum/topics/route.ts:41-47 | `.single()` yields a row exactly when one row matches, and that row is the only matching row |
| Rows.Update | app/api/forum/posts/route.ts:206-209 | an update by predicate rewrites exactly the matching rows and keeps length and order |
| Session.Authenticate | app/api/forum/votes/route.ts:9-20 | a user is found only for a non-empty token the session oracle knows, and always for such a token |
| Session.DisplayName | app/api/forum/topics/route.ts:194 | the author name is never empty; it is the full name when there is one, otherwise the part of the e-mail before `@`, or the anonymous label |
| Session.Avatar | app/api/forum/topics/route.ts:195 | the avatar is stored exactly when the user has a non-empty one |
| Store.Bump | app/api/forum/topics/route.ts:236-237 | the counter procedure adds `d` to the named category and changes no other |
| Ledger.Put | app/api/forum/votes/route.ts:64-119 | the insert, update or delete leaves the requested row under the key and every other key's row unchanged |
| Ledger.Decide | app/api/forum/votes/route.ts:61-119 | no vote gives `added`, the same direction `removed` (row gone), the opposite direction `changed`; the delta is the new contribution minus the old (up +1, down -1, none 0) |
| Ledger.DeltaByBranch | app/api/forum/votes/route.ts:77-117 | `added` gives +1/-1, `removed` -1/+1, `changed` +2/-2 for up/down, and a delta of ±2 happens only on a change |
| Ledger.CastVote | app/api/forum/votes/route.ts:47-119 | one call touches only the voter's own key, and the reported delta is that key's contribution after minus before |
| Ledger.RepeatedVoteCancels | app/api/forum/votes/route.ts:64-119 | from no vote or the same vote, two identical calls restore the ledger and their deltas sum to zero |
| Ledger.TallyAfterPut | app/api/forum/votes/route.ts:121-130 | writing one ledger row moves the target's up-minus-down tally by that row's contribution change and leaves every other target's tally alone |
| Ledger.DeltasTrackTally | app/api/forum/votes/route.ts:121-130 | over any sequence of votes, the reported deltas for a target add up to the change of its ledger tally |
| Paging.PageWindow | app/api/forum/topics/route.ts:117-118 | the window starts at a non-negative index and covers exactly `limit` indices |
| Paging.PagesTile | app/api/forum/topics/route.ts:117-119 | page `p + 1` starts right after page `p` ends |
| Paging.IndexOnOnePage | app/api/forum/topics/route.ts:117-119 | index `i` lies in the window of page `p` exactly when `p = i div limit + 1`, so no index is on two pages |
| Paging.Slice | app/api/forum/topics/route.ts:119 | `.range(from, to)` returns the rows of the window that exist, in order, and nothing past the end |
| Paging.TotalPages | app/api/forum/topics/route.ts:161 | `ceil(total / limit)` is the least `n` with `total <= n * limit` |
| Paging.Paginate | app/api/forum/topics/route.ts:155-162 | the block echoes page and limit, reports total 0 and 0 pages when the count is absent, and otherwise the count and its ceiling |
| Paging.LastPageHoldsRemainder | app/api/forum/topics/route.ts:117-162 | the last reported page holds `total mod limit` rows (a full page when that is 0), and the page after it is empty |
| Paging.PageFilledIffWithinTotal | app/api/forum/topics/route.ts:117-162 | a page has rows exactly when its number is at most the total page count |
| Sorting.SortBy | app/api/forum/topics/route.ts:102-114 | the `order(...)` result is ordered by the rank and is a permutation of the input |
| Enrichment.TypeCounts | app/api/forum/topics/route.ts:57-59 | the like and dislike counts together account for every fetched row |
| Enrichment.EnrichTopics | app/api/forum/topics/route.ts:128-153 | every topic keeps its place and fields; with a successful fetch it gets the up and down counts of its own rows, and after a failed fetch it gets none |
| Enrichment.ThreadIds | app/api/forum/posts/route.ts:73-75 | the fetched ids include every listed post's id |
| Enrichment.ThreadIdsCoverReplies | app/api/forum/posts/route.ts:74-75 | the fetched ids include every embedded reply's id |
| Enrichment.EnrichReplies | app/api/forum/posts/route.ts:91-104 | replies keep their number and order and each gets the counts of its own id |
| Enrichment.EnrichThreads | app/api/forum/posts/route.ts:84-112 | posts keep their place; each post and each of its replies gets the counts of its own id, and none of them gets counts when the fetch fails; reply lists keep length and order |
| Enrichment.CountsMatchLedger | app/api/forum/topics/route.ts:134-151 | when the fetch returns the ledger rows of the listed ids, an item's likes and dislikes are its numbers of up and down voters |
| VotesRoute.ParseTarget | app/api/forum/votes/route.ts:39-41 | a target type is accepted exactly when it is `topic` or `post` |
| VotesRoute.ParseVote | app/api/forum/votes/route.ts:43-45 | a vote type is accepted exactly when it is `up` or `down` |
| VotesRoute.StoredScore | app/api/forum/votes/route.ts:199-204 | the score read succeeds exactly when one row of the target's table carries the id |
| VotesRoute.NewVoteScore | app/api/forum/votes/route.ts:206-210 | the new score is the stored score plus the change, or the change alone when the read fails |
| VotesRoute.SetScore | app/api/forum/votes/route.ts:122-130 | the score update rewrites the score of exactly the rows of the target's table that carry the id |
| VotesRoute.PostVote | app/api/forum/votes/route.ts:4-146 | 401 without a session, then 400 for a missing or unknown field, leaving the store alone; success exactly when the target row is unique; on success the reported change is the voter's contribution difference, no other ledger row moves, only the target row's `vote_score` changes and it becomes the reported `new_score`, and no counter moves; a target with no row (or several) gives 500 after the ledger write and the same score write |
| VotesRoute.PostVoteReportsTransition | app/api/forum/votes/route.ts:137-141 | the reported action and change are those of the ledger transition |
| VotesRoute.PostVoteNewScore | app/api/forum/votes/route.ts:123-130 | the reported score is the stored score plus the change, or the change alone when the read fails |
| VotesRoute.VoteOnMissingTargetIsRecorded | app/api/forum/votes/route.ts:121-135 | a vote on an id no row carries answers 500 although the ledger row was already written |
| VotesRoute.PostVoteChecked | app/api/forum/votes/route.ts:121-135 | with the existence check moved first, a missing target answers 404, every rejection leaves the store unchanged, and successes are those of the handler as written |
| VotesRoute.GetVote | app/api/forum/votes/route.ts:148-197 | 401 without a session, 400 without type or id, and an answer for every other request; `has_voted` holds exactly when a ledger row for (type, id, user) exists, and `vote_type` is that row's direction or null |
| TopicsRoute.SortTopics | app/api/forum/topics/route.ts:102-114 | a permutation: `popular` by score descending, `oldest` by creation ascending, any other value pinned topics first and then last reply newest first |
| TopicsRoute.Listing | app/api/forum/topics/route.ts:71-114 | a topic is listed exactly when it is stored and, if a category is given, belongs to it |
| TopicsRoute.ListTopics | app/api/forum/topics/route.ts:71-162 | a page holds every existing topic of the `.range(from, to)` window of the listing, in listing order (so at most `limit`), each with the like and dislike counts of its own id when the vote fetch succeeds and none when it fails |
| TopicsRoute.GetTopics | app/api/forum/topics/route.ts:4-168 | with an id: 404 unless exactly one topic carries it, and the counts are those of the fetched rows; without: exactly the list page described for `ListTopics` (the window of the category's ordered topics, enriched), with a pagination block that always says 0 |
| TopicsRoute.GetTopicsReportsNoPages | app/api/forum/topics/route.ts:155-162 | a first page showing a topic reports zero pages |
| TopicsRoute.GetTopicsCounted | app/api/forum/topics/route.ts:155-162 | with the count requested, total is the listing's size and a page is non-empty exactly when it is within the page count |
| TopicsRoute.CountedLastPage | app/api/forum/topics/route.ts:117-162 | with the count requested, the reported last page holds the remainder and the page after it is empty |
| TopicsRoute.CreateTopic | app/api/forum/topics/route.ts:170-244 | 401 without a session; 400 exactly when a field is missing or the title is outside 5..200 or the content outside 10..10000; otherwise the topic is appended with the user's id, name and avatar, zero counters, unpinned, unlocked, and the category counter goes up by one |
| TopicsRoute.DropTopicVotes | app/api/forum/topics/route.ts:292-297 | exactly the votes cast on the topic itself are removed |
| TopicsRoute.RemoveTopic | app/api/forum/topics/route.ts:292-318 | the deletion sequence removes the topic's own votes, all its posts and the matching topic rows, and lowers the category counter by one |
| TopicsRoute.DeleteTopic | app/api/forum/topics/route.ts:246-325 | 400, then 401, then 403 when the session's display name differs from the given name, then 404 unless exactly one topic has the id and name; rejections leave the store alone |
| TopicsRoute.DeleteTopicKeepsPostVotes | app/api/forum/topics/route.ts:292-303 | after a deletion the votes cast on posts all survive, including those on the deleted posts |
| TopicsRoute.NamesakeDeletesTopic | app/api/forum/topics/route.ts:273-286 | a different user with the same display name deletes the topic |
| TopicsRoute.DeleteOwnTopic | app/api/forum/topics/route.ts:246-325 | authorising by the author id: success exactly when the single topic with the id belongs to the session user |
| TopicsRoute.NamesakeRefused | app/api/forum/topics/route.ts:273-286 | under the id rule the same-named other user is refused with 403 |
| PostsRoute.SortPosts | app/api/forum/posts/route.ts:44-56 | a permutation: `newest` by creation descending, `popular` by score descending, any other value by creation ascending |
| PostsRoute.PostListing | app/api/forum/posts/route.ts:18-56 | a post is listed exactly when it is stored, belongs to the topic and has no parent |
| PostsRoute.RepliesOf | app/api/forum/posts/route.ts:32-39 | the embedded replies are exactly the stored posts whose parent is the post |
| PostsRoute.ListPosts | app/api/forum/posts/route.ts:18-124 | a page holds every existing post of the `.range(from, to)` window of the topic's ordered top-level posts (so at most `limit`), each with all its replies in order; posts and replies carry the counts of their own ids when the vote fetch succeeds and no counts when it fails |
| PostsRoute.GetPosts | app/api/forum/posts/route.ts:4-129 | 400 exactly when the topic id is missing; otherwise always an answer, exactly the list page described for `ListPosts`, whose pagination block always says 0 |
| PostsRoute.GetPostsReportsNoPages | app/api/forum/posts/route.ts:116-123 | a first page showing a post reports zero pages |
| PostsRoute.GetPostsCounted | app/api/forum/posts/route.ts:116-123 | with the count requested, total is the number of top-level posts and a page is non-empty exactly when it is within the page count |
| PostsRoute.CreatePost | app/api/forum/posts/route.ts:131-216 | 401; 400 for missing fields or content outside 1..5000; 404 unless one topic has the id; 403 exactly when it is locked; a valid request to an unlocked topic always succeeds: the post is appended with parent or null, score 0, not edited, and only that topic's reply count and last-reply time change |
| PostsRoute.DeletePost | app/api/forum/posts/route.ts:218-279 | 401, then 400, then 404 unless one post has the id, then 403 exactly when it is someone else's; the author's request always succeeds: the post goes and its topic's reply count drops by one |
| PostsRoute.DeletePostOrphansReplies | app/api/forum/posts/route.ts:260-264 | deleting a post leaves its replies stored |
| Consistency.SingleTopic | app/api/forum/posts/route.ts:168-172 | with unique ids, the `.single()` lookup of a stored topic's id finds that topic |
| Consistency.VoteWriteKeepsHealthy | app/api/forum/votes/route.ts:121-130 | a ledger write paired with a score write that adds the contribution change keeps ids unique and scores equal to the ledger tally |
| Consistency.PostVoteKeepsHealthy | app/api/forum/votes/route.ts:4-146 | when the score read succeeds, a vote keeps every stored score equal to its ledger tally |
| Consistency.ReadFailureBreaksScores | app/api/forum/votes/route.ts:206-208 | when the score read fails, the fallback overwrites a correct score with the bare delta |
| Consistency.CreateTopicKeepsHealthy | app/api/forum/topics/route.ts:210-237 | a new topic with a fresh, unvoted id keeps the invariant |
| Consistency.CreatePostKeepsHealthy | app/api/forum/posts/route.ts:182-209 | a new post with a fresh, unvoted id keeps the invariant |
| Consistency.RemoveTopicKeepsHealthy | app/api/forum/topics/route.ts:292-310 | the deletion sequence keeps the invariant for every topic it keeps |
| Consistency.DeleteTopicKeepsHealthy | app/api/forum/topics/route.ts:246-325 | topic deletion as written keeps the invariant |
| Consistency.DeleteOwnTopicKeepsHealthy | app/api/forum/topics/route.ts:246-325 | the id-authorised deletion keeps the invariant |
| Consistency.DeletePostKeepsHealthy | app/api/forum/posts/route.ts:218-279 | post deletion keeps the invariant |
| Consistency.ShownCountsMatchScore | app/api/forum/topics/route.ts:128-153 | under the invariant, a listed topic's likes minus dislikes equal its stored score |
| StatsRoute.ActiveUsers | app/api/forum/stats/route.ts:18-25 | the active count is the number of users updated at or after `now` minus 30 days |
| StatsRoute.ForumStats | app/api/forum/stats/route.ts:4-46 | an exception gives the fixed 25 / 150 / 12; otherwise each absent count is 0 and messages are topics plus posts |
| StatsRoute.StatsOf | app/api/forum/stats/route.ts:8-34 | on a snapshot, topics is the topic count, messages the topic and post counts together, and active users exactly the number of users updated at or after 30 days before now |
| StatsRoute.WindowIsInclusive | app/api/forum/stats/route.ts:19-25 | a user updated exactly 30 days ago counts; one millisecond earlier does not |
| StatsRoute.FallbackLooksReal | app/api/forum/stats/route.ts:36-44 | the fixed fallback is indistinguishable from a real answer for 25 topics and 125 posts |
| QueryRoute.BuildQuery | app/api/supabase/query/route.ts:4-38 | 400 for an unparsable body, 403 for any table but the two allowed; otherwise select defaults to `*`, filters to none, and ordering applies only with a non-empty column |
| QueryRoute.Columns | app/api/supabase/query/route.ts:15 | a `select` list splits into at least one column name, none holding a comma |
| QueryRoute.ColumnsJoinBack | app/api/supabase/query/route.ts:15 | joining the column names with commas gives the `select` list back |
| QueryRoute.Project | app/api/supabase/query/route.ts:15 | `.select(select)` keeps exactly the row's columns named in the list (all of them for `*`), with their values |
| QueryRoute.ProjectAll | app/api/supabase/query/route.ts:7 | with the default `*` every row comes back whole |
| QueryRoute.Selected | app/api/supabase/query/route.ts:15-20 | the rows the query reaches are exactly the table's rows that satisfy every filter |
| QueryRoute.RunQuery | app/api/supabase/query/route.ts:15-34 | 500 exactly on a store error; otherwise one row per selected row, holding exactly its columns named by `select` with their values; with `*`, exactly the rows of the table that satisfy every filter |
| QueryRoute.AddedFilterNarrows | app/api/supabase/query/route.ts:18-20 | each filter entry adds one equality constraint, conjunctively: the rows reached are those reached before that also satisfy it |
| RegisterRoute.NormalEmail | app/api/auth/register/route.ts:22 | the normalised address is the lower-cased input with the white space at both ends cut off: an infix of it with only white space outside, none at its ends, and no upper-case letter |
| RegisterRoute.NormalEmailIdempotent | app/api/auth/register/route.ts:22 | normalising a normalised address changes nothing |
| RegisterRoute.Register | app/api/auth/register/route.ts:4-72 | 400 for a missing field before 400 for a short password; 409 exactly when one stored address equals the normalised one; the procedure gets the normalised address and trimmed name and is called only past those checks, and always once they pass; an empty answer is 500; success maps the user and sets a 7-day, http-only, lax `auth_token` cookie on `/` |
| RegisterRoute.SpellingsAgree | app/api/auth/register/route.ts:22 | an address padded with white space and written in another letter case normalises to the same address |
| RegisterRoute.SpellingVariantConflicts | app/api/auth/register/route.ts:19-34 | once an address is stored normalised, registering it in another letter case or with white space around it gets 409 and never calls the procedure |
| AuthPage.SignInErrorText | app/forum/auth/page.tsx:38-43 | the sign-in toast shows the store's message, or the fixed text when there is none |
| AuthPage.ClassifySignUp | app/forum/auth/page.tsx:79-93 | the first matching substring, in the fixed order, decides the message ("Database error" last, after the rate-limit words); an unmatched non-empty message is echoed; the default text appears exactly when there is no message |
| AuthPage.RateLimitAnywhere | app/forum/auth/page.tsx:87-88 | "rate limit" anywhere in a message not matching the earlier tests selects the rate-limit text |
| AuthPage.Submit | app/forum/auth/page.tsx:29-124 | sign-in never checks the passwords; sign-up is called exactly when the two passwords match and have 6 or more characters, the mismatch reported first; the toast, the redirect and the form reset follow the call's result |
| AuthPage.ToggleMode | app/forum/auth/page.tsx:254-257 | switching mode flips it and clears all four fields |
| AuthPage.ToggleTwice | app/forum/auth/page.tsx:254-257 | switching twice returns to the mode with a cleared form |
| AuthPage.MismatchReportedFirst | app/forum/auth/page.tsx:53-69 | a mismatched short password is reported as a mismatch and nothing is called |
| Cyclic.Succ | components/image-carousel.tsx:57 | `(i + 1) mod n` stays in range and wraps from the last slot to 0 |
| Cyclic.Pred | components/image-carousel.tsx:64 | `(i - 1 + n) mod n` stays in range and wraps from 0 to the last slot |
| Cyclic.SuccPredInverse | components/image-carousel.tsx:57-64 | one step back undoes one step forward, and the other way round |
| Cyclic.StepsLandOn | components/image-carousel.tsx:57 | `k` steps forward from `i` land on `(i + k) mod n` |
| Cyclic.FullTurn | components/image-carousel.tsx:57 | `n` steps forward return to the start |
| ImageCarousel.Next | components/image-carousel.tsx:54-59 | ignored while animating; otherwise one slide forward, in range, and animating |
| ImageCarousel.Prev | components/image-carousel.tsx:61-66 | ignored while animating; otherwise one slide back, in range, and animating |
| ImageCarousel.Settle | components/image-carousel.tsx:58 | the timeout ends the transition without moving |
| ImageCarousel.Jump | components/image-carousel.tsx:157-160 | a dot sets the slide to its own index and leaves the flag alone |
| ImageCarousel.Tick | components/image-carousel.tsx:68-83 | an autoplay tick consults the flag captured when its interval was installed, not the current one |
| ImageCarousel.MountedTickIgnoresGuard | components/image-carousel.tsx:68-76 | mid-transition, an arrow does nothing but the interval installed at mount still advances |
| ImageCarousel.ArrowsCancel | components/image-carousel.tsx:54-66 | next then prev, or prev then next, returns to the same slide |
| ImageCarousel.FivePressesGoRound | components/image-carousel.tsx:54-59 | five settled presses of next return to the starting slide |
| Testimonials.Rotate | components/testimonials-section.tsx:51-57 | the interval step stays in range and wraps from the last item to the first |
| Testimonials.RotationReturns | components/testimonials-section.tsx:53 | three steps return to the starting item |
| Testimonials.LookOf | components/testimonials-section.tsx:76-80 | an item is fully opaque and on top exactly when it is the active one |
| Testimonials.ExactlyOneVisible | components/testimonials-section.tsx:71-80 | exactly one item, the active one, is visible |
| Testimonials.FilledStars | components/testimonials-section.tsx:103-115 | star `i` of five is filled exactly when `i` is below the rating |
| Testimonials.FilledStarsCount | components/testimonials-section.tsx:103-115 | the filled stars are the first ones, as many as the rating clamped to 0..5 |
| Testimonials.ShippedRatings | components/testimonials-section.tsx:21-49 | the shipped testimonials show five and four filled stars |
| Testimonials.PickDot | components/testimonials-section.tsx:136 | a dot makes its item the shown one |
| Footer.LinkFor | components/footer.tsx:6-33 | a plain anchor exactly for `#…` and `/#…` hrefs, the router link otherwise; href and class pass through unchanged |
| Footer.KindsAreExclusive | components/footer.tsx:8-12 | the two anchor kinds exclude each other and the page-link kind, and every page link gets the router |
| Footer.AbsoluteUrlGetsRouterLink | components/footer.tsx:26-31 | an absolute URL is no page link yet gets the router link |
| Footer.FragmentPathGetsRouterLink | components/footer.tsx:10-31 | a page path with a fragment is no page link yet gets the router link |
| Footer.FooterHrefs | components/footer.tsx:47-107 | the footer's social and section hrefs render as anchors, the blog href as a router link |
| DailyShares.ToggleExpanded | components/daily-shares-list.tsx:13-23 | toggling flips the given share's membership and no other |
| DailyShares.ToggleTwice | components/daily-shares-list.tsx:13-23 | toggling twice restores the set |
| DailyShares.TruncateContent | components/daily-shares-list.tsx:25-33 | contents of at most 300 characters and expanded shares show in full; a longer collapsed one shows its first 300 characters followed by `...` |
| DailyShares.TruncatedIsShortPrefix | components/daily-shares-list.tsx:25-33 | a collapsed share never shows more than 303 characters |
| DailyShares.ItemFor | components/daily-shares-list.tsx:72-118 | the toggle appears exactly for contents over 300 characters and says "show less" exactly when expanded; the badge marks the first share's id |
| DailyShares.Render | components/daily-shares-list.tsx:37-65 | loading, then error, then empty; otherwise all shares or the first three, with "show more" exactly for over three collapsed and "show less" exactly for over three expanded |
| DailyShares.OneBoxAtMost | components/daily-shares-list.tsx:63-64 | the two boxes never show together, and one shows exactly when there are more than three shares |
| DailyShares.OnlyFirstIsLatest | components/daily-shares-list.tsx:65-74 | with distinct ids only the first listed share carries the "new" badge |

## Left out

- The database procedures (`validate_session`, `register_user`, the counter
  procedures) are not part of this model. The session check is a map from
  token to user. A counter procedure adds ±1 to the named counter when that
  counter exists.
- Concurrency: the score update's read-modify-write races with concurrent
  voters. Calls are modelled one at a time.
- Partial failures between steps are not modelled: the ledger write before the
  score write, the post insert before the counter bump, the deletes of topic
  deletion. Every step after the checks is taken to succeed, except where a
  parameter says otherwise.
- Store errors that only produce a 500 are not modelled, because they do not
  change the snapshot. This covers:
  - the vote-check error and the insert, update and delete errors of votes;
  - the list query errors;
  - the insert errors of topics and posts;
  - the delete errors.
- A request body that is not JSON gives a 500 in the votes, topics and posts
  handlers. That path is not modelled.
- The register handler's thrown-exception 500 is not modelled.
- `parseInt` yielding `NaN`, and `limit = 0`, are excluded. `page >= 1` and
  `limit >= 1` are preconditions of the list handlers.
- The order of rows with equal sort keys is the database's choice. The model's
  sort picks one, and no contract says which.
- Timestamps are opaque instants. Date formatting, locale rendering and
  daylight-saving effects on the 30-day window are not modelled.
- `toLowerCase` and `trim` are modelled on ASCII letters and the ECMAScript
  white-space set. Non-ASCII case mapping is not modelled.
- String lengths count code points, where JavaScript counts UTF-16 units.
- QueryRoute.RunQuery: ordering of the result is not modelled. Rows come back
  in table order. The `select` list is split at commas and the names are taken
  as written: white space, aliases, casts, embedded resources and the error
  for an unknown column are not modelled.
- QueryRoute.BuildQuery: a `null` `select` and non-string filter values are
  not represented.
- Consistency.PostVoteKeepsHealthy: assumes the score read succeeds. The
  failing read is the counterexample `Consistency.ReadFailureBreaksScores`.
- Animations and timers are out of scope, apart from the index arithmetic of
  the carousel and the testimonials. This covers setInterval and setTimeout
  durations, framer-motion transitions and the canvas effects.
- The React hooks, the rendering-only components and pages, and the thin
  auth and content routes (login, me, logout, update-profile, blog and
  daily-share reads) are plumbing around the logic above.
- PostsRoute.RepliesOf: the handler embeds six columns of each reply (id,
  content, author name and avatar, score, creation time); the model embeds the
  whole row, which holds those six.
- The WhatsApp link builders and the simulated checkout modal are thin
  wrappers over library calls and timers.

## Findings

| source | as written | input that shows it | evidently intended | confidence | as-written member | corrected member |
|---|---|---|---|---|---|---|
| app/api/forum/topics/route.ts:71-162 | the list query requests no count, so `total` and `total_pages` are always 0 | any list request over a non-empty category, page 1 | `select(..., { count: 'exact' })`, so the block reports the real total and page count | high, not executed | TopicsRoute.GetTopicsReportsNoPages | TopicsRoute.GetTopicsCounted |
| app/api/forum/posts/route.ts:18-123 | the same for posts: the pagination block always reports 0 | a topic with one top-level post, page 1 | request the count, so the block reports the number of top-level posts | high, not executed | PostsRoute.GetPostsReportsNoPages | PostsRoute.GetPostsCounted |
| app/api/forum/votes/route.ts:121-135 | a vote on an id no row carries is written to the ledger, then the score update's `.single()` fails and the handler answers 500 | a well-formed vote on `target_id` of a deleted topic | check that the target exists before touching the ledger and answer 404 | medium, not executed | VotesRoute.VoteOnMissingTargetIsRecorded | VotesRoute.PostVoteChecked |
| app/api/forum/topics/route.ts:273-310 | deletion is authorised by comparing display names, so a different user with the same name deletes the topic | users `u1` and `u2` both named "Ali"; `u2` deletes `u1`'s topic | compare the session user's id with the topic's `author_id` | high, not executed | TopicsRoute.NamesakeDeletesTopic | TopicsRoute.DeleteOwnTopic |
