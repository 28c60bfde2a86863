# newsmux, modelled and proved

newsmux crawls posts, filters them into feeds and serves the feeds page by page. This project models the
parts of it in which the code decides something difficult, and proves what those parts keep, over all
inputs and over all runs:

* **Filter expressions** — `DataExpression`, `PostMatching`: a parser that prunes placeholder nodes, and a
  short-circuit evaluator over what is left.
* **Feed paging** — `FeedPaging` (one query), `FeedScroll` and `FeedProgress` (a client's queries), `FeedRuns`
  and `FeedResponses` (publishers, edits and queries overlapping each other), `FeedSort`, `FeedStore`: pages of
  published posts that a query fills up by publishing older posts on demand.
* **The Lambda pool** — `LambdaPool` (all interleavings, as a state machine) and `Executor` (the objects).
* **Tweet threads** — `TweetThreads` (which threads are incomplete), `TweetConversion` (tweets to posts),
  `TweetPosts` (from tweets to stored rows).
* **The crawl scheduler** — `SchedulerJobs` (splitting and naming), `Scheduling` (following the config),
  `ScheduleLoop` (when jobs run).
* **The publisher** — `Publisher` (one delivery as a function of the tables, and all runs), `Processor` (the
  objects, with the cache of known ids), `Deliveries` (what a delivery leads to, from the message), `FeedInserts`
  (its step is the store step of `FeedRuns`).

`Wrappers` and `Sequences` hold what they share. Where the source updates objects in place, the model has a
class whose methods are proved against functions, and the theorems are about those functions.

`dafny verify dfyconfig.toml` checks everything.

## What stands outside

Clocks, cloud calls, random choices, fresh identifiers and case folding are parameters: every theorem holds for
each of their values. Of the database's failures, the publisher's existence check, its reads of subsources while
it builds a post, creating a subsource and the commit may each fail in any delivery; other failing reads and
writes are not part of this model. A nil dereference is an outcome of its own, `Panic` or `Crashed`, apart from
returned errors. The run theorems of `Publisher` hold for any way of judging which feeds a post goes to.

Where it matters, identifiers are taken to do what they are for: names of cloud functions are never used twice and
job ids are distinct among running jobs (`LambdaPool`), new subsource ids are new (`Publisher.FreshIds`), feed
versions grow from edit to edit (`FeedRuns.Enabled`), and — only in `Scheduling.DigestOnlySavesWork` — equal
digests mean equal configs.

## Where the code is not what one expects

Each of these is proved, mostly as an exact condition.

* The string-suffix test for threads is exact if and only if no tweet id is empty or ends in another one
  (`TweetThreads.TestIsExactIff`); ids of one length meet the condition.
* `FilterIncompleteTweet` leaves threads that are pairwise incomparable if and only if every thread that extends an earlier
  one is itself covered by an earlier one (`TweetThreads.ResultIsIncomparableIff`).
* De Morgan's laws hold on a list if and only if it is not empty (`PostMatching.DeMorgan`).
* A printed expression parses back if and only if no node below its root is unset or of unknown kind
  (`DataExpression.RoundTrip`).
* A page can come back empty for ever although an eligible post exists, namely exactly when the next 3300
  candidates miss and nothing is published below (`FeedProgress.StarvedIff`, `ScrollIsCompleteIff`).
* A cursor that no response ever carried can leave a gap (`FeedScroll.KeepsUpwardClosedIff`,
  `MadeUpCursorLeavesGap`), and so can an edit that clears the feed while a query or a publisher is at work
  (`FeedRuns.CommitIff`, `StoreIff`; `FeedResponses.ClearDuringQueryBreaks`, `ClearDuringPublishBreaks`).
* So can a feed that is created and queried while a publisher is at work
  (`FeedResponses.CreationDuringPublishBreaks`).
* The append of a query writes the feed version it had read back into the feed, so an edit in between loses its
  version, and cursors issued before it pass as up to date (`FeedResponses.VersionIff`, `AppendRevivesVersion`).
* The publisher matches a filter against the whole sharing chain, republishing against two posts of it
  (`FeedScroll.ReadersAgreeIff`).
* A failed creation batch deletes cloud functions whose entries stay in the pool; a job runs on a function that
  is gone exactly when that has happened to it (`LambdaPool.RunningOnAliveIff`, `FailedBatchKillsRunningJob`).
* A function that was created but whose creation time cannot be read is forgotten: no rollback and no pass ever
  deletes it (`LambdaPool.UnreadableStays`).
* An edit that changes nothing still clears a feed without subsources (`FeedRuns.ClearsIff`).
* `LambdaFunction.IsStale` answers whether a function is still fresh; its only caller keeps the functions for
  which it holds, so the comment above it, not the pool, is wrong.
* The comment of `model.Post.ReplyThread` says that the thread begins with the post that replies to nothing;
  it begins with the direct parent, so the two agree only on threads of length one
  (`Publisher.ThreadStartsWithParent`).
* The existence check takes a failed read for absence, so an id can get two roots
  (`Publisher.DistinctRootsIff`); while it works, a message whose id is already stored as a shared or replied-to
  post never becomes a post of its own (`Publisher.KnownIdIsARootIff`).
* Channels are pushed to before the commit, so a message whose commit fails is pushed again when it is delivered
  again (`Publisher.PushedTwiceIff`, `PushedOnceCommitted`). The queue is not asked for that: `ReadAndProcessMessages`
  deletes failed messages as well, so another delivery comes from a collector, or from a deletion that failed.
* A job whose interval is not positive, or whose schedule is of unknown kind, runs again and again in one
  instant, also when an edited config does that to a job that was paced before (`ScheduleLoop.SameInstantIff`,
  `PacedIff`).
* A config named like a generated batch name clashes with it, and then the whole config is rejected
  (`SchedulerJobs.AcceptedIff`).

## Model

| member | source | states |
|---|---|---|
| `DataExpression.UnmarshalJSON` | model/data_expression.go:73-149 | the step-by-step parser ends exactly as the function `Unmarshal`: same value, same error, same nil dereference |
| `DataExpression.UnmarshalList` | model/data_expression.go:101-132 | the loop over children keeps their order and drops exactly the empty ones; the first failing child decides how it fails |
| `DataExpression.AcceptsExactlyWellFormed` | model/data_expression.go:73-149 | parsing succeeds if and only if the document has the required shape throughout |
| `DataExpression.PanicsExactlyOnNil` | model/data_expression.go:80-147 | parsing dereferences nil exactly when an id, node, list, child, operand or predicate is missing or null where one is needed, before anything else is wrong |
| `DataExpression.ParsedIsClosed` | model/data_expression.go:101-140 | below the root of a parsed expression no node is unset or of unknown kind |
| `DataExpression.RoundTrip` | model/data_expression.go:10-67 | print then parse gives the same expression, ids included, if and only if the expression is closed |
| `DataExpression.ClosedRoundTrip` | model/data_expression.go:10-67 | closed expressions survive printing and parsing |
| `DataExpression.PrintedForm` | model/data_expression.go:10-67 | the keys and the nesting of the printed form, node by node |
| `DataExpression.ParsePrintParse` | model/data_expression.go:10-149 | a non-empty parsed expression survives printing and parsing, ids included |
| `PostMatching.LiteralMatchIff` | utils/data_expression_utils.go:80-87 | a predicate node matches exactly when its type is LITERAL and its folded text stands somewhere in the folded content; it never errs |
| `PostMatching.MatchIsTruth` | utils/data_expression_utils.go:40-88 | the early-returning evaluator never errs on known nodes and equals the quantifier semantics, empty lists included, in which a literal holds when the content is its text with something before and behind |
| `PostMatching.DeMorgan` | utils/data_expression_utils.go:46-79 | both laws hold if and only if the list is not empty |
| `PostMatching.ParsedAgrees` | model/data_expression.go:80-147 | each parsed node is empty exactly when its raw tree means nothing, and else has its meaning |
| `PostMatching.ParsingPreservesMeaning` | model/data_expression.go:73-149 | evaluating a parsed document never errs and gives the direct reading of the raw tree, where placeholders are no operands and an absent root is true |
| `PostMatching.ChainMatchesSomePost` | utils/data_expression_utils.go:16-38 | the chain matcher is true exactly when some post along the sharing chain satisfies the document; exact error and panic cases |
| `FeedPaging.EligibleIff` | server/resolver/resolver_utils.go:161-190 | a post belongs to a feed exactly when it is of one of its subsources, is not only stored for a post that shares or answers it, and the filter is blank or holds of its content or of the content of the post it shares |
| `FeedPaging.RepublishedIff` | server/resolver/resolver_utils.go:142-196 | which posts a scan finds, one by one, from the rows alone: below the start, belonging to the feed, with fewer than 3300 rows of its subsources and fewer than `limit` wanted ones above; newest first |
| `FeedPaging.RepublishedMisses` | server/resolver/resolver_utils.go:153-192 | a wanted post below the start is missed only below the last one found, and then the limit was reached or 3300 rows lie above it |
| `FeedPaging.ReadPageIff` | server/resolver/resolver_utils.go:79-96 | which published posts a query for older posts reads: those below the cursor with fewer than `limit` published ones between |
| `FeedPaging.MoveCursor` | server/resolver/resolver_utils.go:170-178 | asking again below the cursor of the k-th result gives exactly the results behind it: nothing skipped, nothing twice |
| `FeedPaging.RepublishedIsPrefix` | server/resolver/resolver_utils.go:142-196 | what is republished is a prefix of all eligible posts below the start, and is cut short only at the limit or after 3300 candidates |
| `FeedPaging.PublishedIsPrefix` | server/resolver/resolver_utils.go:79-96 | when publications are upward closed, the published posts below a cursor are a prefix of the eligible ones |
| `FeedPaging.SplitAtLastCursor` | server/resolver/resolver_utils.go:98-103 | what is eligible below the query is the published page followed by what is eligible below its last cursor |
| `FeedPaging.OldPageIsPrefix` | server/resolver/resolver_utils.go:78-110 | the whole OLD page, read and republished, is a prefix of the eligible posts below the cursor, of at most `limit` posts |
| `FeedPaging.RepublishedAreNew` | server/resolver/resolver_utils.go:98-109 | no republished post was published before |
| `FeedPaging.CommitKeepsDbOk` | server/resolver/resolver_utils.go:194-195 | appending what was found below a covered cursor keeps the publications upward closed |
| `FeedPaging.OldKeepsDbOk` | server/resolver/resolver_utils.go:78-110 | an OLD query from a cursor a client can hold keeps the publications upward closed |
| `FeedScroll.ScrollIsPrefix` | server/resolver/resolver_utils.go:78-110 | a client that keeps asking from its least cursor, whatever page sizes it asks for and whatever is published meanwhile, sees a prefix, in order and without repeats, of the posts below the cursor it started from that were eligible when it saw the first |
| `FeedScroll.EmptyPageIff` | server/resolver/resolver_utils.go:153-192 | a page is empty exactly when nothing is published below the cursor and none of the next 3300 candidates matches |
| `FeedScroll.EmptyPageIsStuck` | server/resolver/resolver_utils.go:98-109 | an empty page leaves the database as it was, so asking again gives an empty page again |
| `FeedProgress.StarvedIff` | server/resolver/resolver_utils.go:78-110 | a client sees nothing at all, whatever limits it asks for and however often, exactly when nothing is published below its cursor and the next 3300 candidates all miss |
| `FeedProgress.Starvation` | server/resolver/resolver_utils.go:153-192 | a literal feed and table, for every number of misses from 3300 on, with an eligible post that no client ever sees |
| `FeedProgress.SeenIsWithinReach` | server/resolver/resolver_utils.go:98-109 | every post a scrolling client sees was already published, or fewer than 3300 misses lay between it and the eligible post above |
| `FeedProgress.ScrollIsCompleteIff` | server/resolver/resolver_utils.go:78-110 | a client that scrolls until an empty page has seen everything eligible below its start exactly when no run of 3300 misses hides an eligible post that was not already published |
| `FeedScroll.KeepsUpwardClosedIff` | server/resolver/resolver_utils.go:92-109 | from an arbitrary cursor, publications stay upward closed exactly when the read page is full, or none of the next 3300 candidates matches, or everything eligible from the start of the scan up is published |
| `FeedScroll.MadeUpCursorLeavesGap` | server/resolver/resolver_utils.go:92-109 | a concrete cursor that was never returned breaks it |
| `FeedScroll.NewPageIff` | server/resolver/resolver_utils.go:59-77 | which posts a query for newer posts returns: published ones above the cursor, with fewer than `limit` published ones above them |
| `FeedScroll.NewPageMissesNothingIff` | server/resolver/resolver_utils.go:59-77 | a NEW page holds the newest eligible posts above the cursor, and misses none exactly when there are at most `limit` |
| `FeedScroll.ReadersAgreeIff` | server/resolver/resolver_utils.go:161-179 | the publisher, which reads the whole sharing chain, and republishing, which loads two posts of it, differ exactly when a well-formed filter holds of some post of the chain and of neither of the first two; then only the publisher matches |
| `FeedScroll.TwoLayersAgree` | server/resolver/resolver_utils.go:161-179 | so they agree on chains of at most two posts |
| `FeedScroll.ThirdLayerIsLost` | server/resolver/resolver_utils.go:161-179 | a literal chain of three posts on which they differ |
| `FeedRuns.NoClearKeepsEligibility` | server/resolver/resolver_utils.go:237-252 | publications survive an edit only if it changes the eligibility of no post |
| `FeedRuns.ClearsIff` | utils/utils.go:61-90 | an edit is refused exactly when one filter is broken text and the other is not blank; else it clears exactly when the filters differ, the feed has no subsource, or some subsource is listed differently often, in whatever order |
| `FeedRuns.ClearsOnlyChangesIff` | server/resolver/resolver_utils.go:237-252 | so with lists without repeats and known subsources, an edit of a feed with subsources clears it exactly when it changes what the feed selects |
| `FeedRuns.EditIff` | server/resolver/schema.resolvers.go:60-147 | what an edit leaves: nothing changed if refused; else the new filter, the requested subsources that exist, a new version, and all publications or none |
| `FeedRuns.StoreIff` | publisher/processor.go:313-372 | storing a post, judged by the feed the publisher had read, keeps publications upward closed exactly when it is published just if it is eligible for the feed as it now is, or left out while nothing is published |
| `FeedRuns.CommitIff` | server/resolver/resolver_utils.go:194-195 | appending what a scan found, by whatever feed and from whatever cursor, keeps publications upward closed exactly when all of it is eligible for the feed as it now is and everything eligible from the last of it up is published or found |
| `FeedRuns.StepKeepsInvIff` | server/resolver/resolver_utils.go:56-126 | for every step of a publisher, a user or a query from any cursor, each reading and writing in steps of its own: publications stay upward closed exactly when the step meets its condition, and what is under way, issued or answered stays as it should in any case |
| `FeedRuns.SafeStep` | server/resolver/resolver_utils.go:56-126 | the condition can fail only for a query or publisher that read the feed before it was last cleared, whatever version it has, or a publisher that read before it was created; for a query whose scan starts from a cursor it did not hold, or was overtaken by an eligible post stored unpublished; and for a post on which publisher and republishing differ |
| `FeedRuns.RunsStayUpwardClosedIff` | server/resolver/resolver_utils.go:56-126 | over all interleavings, from a new feed that publishers may have read too early to see, of publishers reading and storing, edits, and queries reading the feed, reading their page and appending: publications are upward closed all the time exactly when each risky step meets its condition |
| `FeedResponses.AnswersOfRuns` | server/resolver/resolver_utils.go:78-110 | in those runs every answer for older posts, from any cursor and whatever happened in between, has at most 300 posts, and is a prefix of the posts below its cursor eligible for the feed it read, unless an edit between reading feed and page changed what is selected |
| `FeedResponses.AnswerIsPublished` | server/resolver/resolver_utils.go:98-110 | when a query appends, all it answers is published unless the feed was cleared since it read its page |
| `FeedResponses.BeginReads` | server/resolver/resolver_utils.go:78-103 | reading its page, a query for older posts answers with the newest `limit` published posts below its cursor if there are that many, and else keeps those it read and scans for the rest |
| `FeedResponses.CommitAnswers` | server/resolver/resolver_utils.go:98-109 | a query that appends answers with what it read first and what its scan found, post by post |
| `FeedResponses.NewerAreIssued` | server/resolver/resolver_utils.go:59-77 | a query for newer posts answers at once and issues exactly the newest `limit` published posts above its cursor |
| `FeedResponses.EveryQueryIsAnsweredOnce` | server/resolver/resolver_utils.go:78-110 | over any run, the queries for older posts that have read their page are as many as the answers given and the scans at work |
| `FeedResponses.AnswersAreIssued` | server/resolver/resolver_utils.go:46-51 | over any run, each post of each answer was issued beside the feed version that the query had read |
| `FeedResponses.PublishersAtWork` | publisher/processor.go:313-372 | over any run, a publisher is at work exactly while it has read the feeds once more than it has finished |
| `FeedResponses.ScrollOfRuns` | server/resolver/resolver_utils.go:78-110 | in those runs a client that keeps asking from its least cursor, while publishers, edits that select the same and other queries overlap its own, sees a prefix, in order and without repeats, of what was eligible when its first post was read |
| `FeedResponses.OpenIsSafeIff` | server/resolver/resolver_utils.go:217-227 | a query opens safe exactly when it is sent with another version or the default cursor, or its cursor is published; cursors that responses carried since the last clear are, and honest queries are safe unless the feed was turned back to a version from before its last clear |
| `FeedResponses.ScanIsSafeIff` | server/resolver/resolver_utils.go:78-103 | its scan begins safe exactly when it read the feed since the last clear, and something is published below its cursor or it held the cursor |
| `FeedResponses.OpenedUntilCleared` | server/resolver/resolver_utils.go:56-78 | between reading feed and page, only an edit that clears the feed makes a safe query risky |
| `FeedResponses.SafeUntilCleared` | server/resolver/resolver_utils.go:78-110 | and after reading the page, only that or an eligible post stored unpublished |
| `FeedResponses.CalmRunsStayUpwardClosed` | server/resolver/resolver_utils.go:56-126 | runs of honest queries with no clear in the middle of a query or publication, no post stored by a publisher that read before the feed was created, and no post on which publisher and republishing differ, are upward closed all the time |
| `FeedResponses.VersionIff` | server/resolver/resolver_utils.go:195-195 | over any run the feed has its newest version exactly when the last write was not the append of a query that had read an older one, and one from before its last clear exactly when it was the append of a query that had read such a one |
| `FeedResponses.ClearDuringQueryBreaks` | server/resolver/schema.resolvers.go:135-145 | a literal run: an edit that clears the feed during a query leaves it publishing a post its filter rejects, under its old version |
| `FeedResponses.ClearDuringPublishBreaks` | publisher/processor.go:313-372 | a literal run: the same when the edit comes between a publisher reading the feed and storing its post |
| `FeedResponses.CreationDuringPublishBreaks` | publisher/processor.go:313-372 | a literal run: a feed created and queried between a publisher reading the feeds and storing its post leaves an eligible post unpublished above a published one |
| `FeedSort.SortFacts` | server/resolver/resolver_utils.go:132-137 | newest first, a permutation, and posts of equal time keep their order |
| `FeedSort.StableSortIsUnique` | server/resolver/resolver_utils.go:132-137 | these facts determine the result: any stable sort gives it |
| `FeedStore.FeedRefreshInput.Sanitize` | server/resolver/resolver_utils.go:208-235 | the error cases; else the limit is the smaller of what was asked and 300, and cursor and direction stay exactly when the query names the version of the feed, and go back to the top otherwise |
| `FeedStore.PanicIsPerFilter` | utils/data_expression_utils.go:21-25 | whether matching panics depends on the filter alone, namely on a nil in its document |
| `FeedStore.Store.RePublishPostsFromCursor` | server/resolver/resolver_utils.go:142-196 | the batched scan with its moving cursor finds exactly the posts that the rows below the start say, newest first, publishes exactly those, and asks at most 11 times, fewer only when it found enough |
| `FeedStore.Store.MatchBatch` | server/resolver/resolver_utils.go:175-190 | after any number of candidates the cursor and the matches are those of the scan as a whole |
| `FeedStore.Store.GetFeedPostsOrRePublish` | server/resolver/resolver_utils.go:56-126 | the response is the NEW or OLD page in display order; a NEW query publishes nothing, and after an OLD one what it answered is published and nothing else that was not before |
| `LambdaPool.AgeingSplits` | panoptic/modules/lambda_executor.go:355-369 | ageing keeps every function, in the pool or in the stale pool, never in both |
| `LambdaPool.AgeingIsExact` | panoptic/modules/lambda_executor.go:163-166 | a function stays exactly when, at the moment it was examined, it was younger than its span; every other one is the one that expires under its name |
| `LambdaPool.AgeingAtOnceIsFilter` | panoptic/modules/lambda_executor.go:355-369 | at one instant ageing is the order-preserving filter of the fresh functions |
| `LambdaPool.StepKeepsInv` | panoptic/modules/lambda_executor.go:237-422 | every step of maintenance, Execute and the cloud keeps the invariant of the pool |
| `LambdaPool.RunsAreSafe` | panoptic/modules/lambda_executor.go:318-422 | over all interleavings the pool never exceeds its size, each function is in exactly one place, and pending jobs are exactly the running ones |
| `LambdaPool.FillEndsFull` | panoptic/modules/lambda_executor.go:372-387 | when a batch ends, pool size plus failed creations is the configured size |
| `LambdaPool.StepMovesForward` | panoptic/modules/lambda_executor.go:355-402 | a step moves a function at most one stage on, never back |
| `LambdaPool.RunMovesForward` | panoptic/modules/lambda_executor.go:355-402 | over a run a function never moves back |
| `LambdaPool.RemovedIsFinal` | panoptic/modules/lambda_executor.go:389-422 | a function is removed only without running jobs, and never gets one or comes back afterwards |
| `LambdaPool.VisitRemovesIff` | panoptic/modules/lambda_executor.go:389-402 | a visit removes a function exactly when it is stale and no job runs on it, and touches no other |
| `LambdaPool.PassRemovesIdle` | panoptic/modules/lambda_executor.go:389-402 | a pass removes every function that is stale and without a job when the pass begins, whatever finishes meanwhile |
| `LambdaPool.RoundIsComplete` | panoptic/modules/lambda_executor.go:318-336 | a round of maintenance is over only after a creation batch and a pass of deletions, also after failures |
| `LambdaPool.CloudIff` | panoptic/modules/lambda_executor.go:202-294 | over any run a function exists in the cloud exactly when it was created and no call that deletes it succeeded |
| `LambdaPool.UnreadableStays` | panoptic/modules/lambda_executor.go:219-228 | a function whose creation time cannot be read stays in the cloud for ever, outside of both pools |
| `LambdaPool.StoppedIff` | panoptic/modules/lambda_executor.go:186-194 | the process gives up exactly when a rollback ended before any round of maintenance began, so only after its first batch |
| `LambdaPool.TrackedIsAliveIff` | panoptic/modules/lambda_executor.go:261-273 | over any run, a function of the active or stale pool is alive in the cloud exactly when no rollback of its batch deleted it |
| `LambdaPool.RunningOnAliveIff` | panoptic/modules/lambda_executor.go:261-273 | so a running job is on a living function exactly when no rollback deleted that function |
| `LambdaPool.NoFailureAllAlive` | panoptic/modules/lambda_executor.go:237-276 | in runs without a failed creation every job runs on a living function |
| `LambdaPool.FailedBatchKillsRunningJob` | panoptic/modules/lambda_executor.go:261-273 | from every state with two functions to refill, a run leads to a job on an active function that is deleted in the cloud |
| `Executor.LambdaFunction.IsRemovable` | panoptic/modules/lambda_executor.go:155-160 | true exactly without pending jobs |
| `Executor.LambdaFunction.AddPendingJob` | panoptic/modules/lambda_executor.go:169-174 | the job is added to the function's pending jobs and nothing else changes |
| `Executor.LambdaFunction.DeletePendingJob` | panoptic/modules/lambda_executor.go:176-181 | the job is gone from the pending jobs and nothing else changes |
| `Executor.LambdaExecutor.AddLambdaFunctions` | panoptic/modules/lambda_executor.go:202-276 | created functions join the pool even when another creation failed or could not be read back; then all names that joined, and only those, are deleted and none is returned |
| `Executor.BatchIsSteps` | panoptic/modules/lambda_executor.go:237-259 | a batch taken one creation at a time, as its goroutines do, adds the same functions in the same order and knows the same names and failures |
| `Executor.LambdaExecutor.FillLambdaPool` | panoptic/modules/lambda_executor.go:372-387 | the pool never exceeds its size and is full exactly when no creation failed |
| `Executor.LambdaExecutor.MarkStaleFunctions` | panoptic/modules/lambda_executor.go:355-369 | the in-place loop leaves the kept functions in order and adds exactly the expired ones to the stale pool |
| `Executor.LambdaExecutor.CutExpired` | panoptic/modules/lambda_executor.go:359-368 | the same, for the function objects themselves |
| `Executor.LambdaExecutor.DeleteRemovableFunctions` | panoptic/modules/lambda_executor.go:389-402 | exactly the stale functions without pending jobs are removed |
| `Executor.LambdaExecutor.GetRandomActiveFunction` | panoptic/modules/lambda_executor.go:405-422 | the job is registered on the chosen active function in the same step; nil exactly without active functions |
| `TweetThreads.CalcTweetSignature` | collector/instances/twitter_utils.go:240-247 | the builder loop gives the concatenation of the ids of the thread, newest first |
| `TweetThreads.IsTweetIncluded` | collector/instances/twitter_utils.go:227-237 | true exactly when some given thread's signature ends in the needle's |
| `TweetThreads.FilterIncompleteTweet` | collector/instances/twitter_utils.go:216-225 | comparing only with what was kept, it keeps exactly the threads that no earlier input thread covers |
| `TweetThreads.KeptIff` | collector/instances/twitter_utils.go:216-237 | a thread is kept exactly when it stands somewhere in the input where no signature before it ends in its own |
| `TweetThreads.CoveredByKept` | collector/instances/twitter_utils.go:216-225 | every input thread is covered by a kept one |
| `TweetThreads.KeptAreIrredundant` | collector/instances/twitter_utils.go:216-225 | no kept thread is covered by an earlier kept one |
| `TweetThreads.FilterIsIdempotent` | collector/instances/twitter_utils.go:216-225 | filtering again changes nothing |
| `TweetThreads.ResultIsIncomparableIff` | collector/instances/twitter_utils.go:213-225 | kept threads are pairwise incomparable exactly when every thread that extends an earlier one is itself covered by an earlier one |
| `TweetThreads.KeptAreMaximal` | collector/instances/twitter_utils.go:203-225 | for input as the comment demands, a thread is kept, up to equal signatures, exactly when nothing properly extends it |
| `TweetThreads.TestIsExactIff` | collector/instances/twitter_utils.go:227-247 | the suffix test on concatenated ids decides thread containment for all threads over a set of ids exactly when none of them is empty or ends in another |
| `TweetThreads.SameLengthIdsAreExact` | collector/instances/twitter_utils.go:227-247 | ids of one positive length meet that condition |
| `TweetThreads.CoversIsThreadContainment` | collector/instances/twitter_utils.go:227-237 | then a tweet is found included exactly when its thread is the end of another's |
| `TweetConversion.LayeredIff` | collector/instances/twitter_utils.go:116-169 | when a tweet converts by itself: profiles of its author and of the author of what it repeats, or else quotes, which must be there; and when it dereferences nil instead |
| `TweetConversion.ConvertTweetToCrawledPost` | collector/instances/twitter_utils.go:116-137 | a retweet wins over a quote; both are converted at the tweet's own depth |
| `TweetConversion.ConvertTweetTreeToCrawledPostInternal` | collector/instances/twitter_utils.go:177-201 | the chain keeps length and order, the counter numbers the tweets from the oldest; the oldest tweet that does not convert decides the failure, and where the counter stops |
| `TweetConversion.ConvertTweetTreeToCrawledPost` | collector/instances/twitter_utils.go:171-175 | conversion succeeds exactly when every tweet of the chain has its profile and, as a retweet or quote, the other tweet and that one's profile |
| `TweetConversion.TimesAndIds` | collector/instances/twitter_utils.go:82-169 | the post of a tweet with k ancestors has its id, its author and its time plus 5k seconds, and so has the post it shares, which is the retweeted one or else the quoted one |
| `TweetConversion.TimesIncreaseIff` | collector/instances/twitter_utils.go:86-88 | times increase strictly along the chain exactly when no tweet is 5 seconds or more older than its parent; not decreasing is enough |
| `TweetConversion.OneSharingLayer` | collector/instances/twitter_utils.go:124-135 | a produced post shares at most one other, which neither shares nor replies |
| `TweetConversion.WholeThreadIsConvertedIff` | collector/instances/twitter_utils.go:183-188 | conversion follows the same thread as the filter exactly when every tweet with a parent is flagged as a reply |
| `TweetPosts.StoredThreadMirrorsTweets` | publisher/processor.go:185-253 | a stored root post and its reply thread are the tweet's reply chain, with ids, times and sharing, and tweet times that do not decrease give strictly increasing post times |
| `SchedulerJobs.BatchNameIsInjective` | panoptic/modules/scheduler_job.go:86-89 | name and batch number can be read back from a generated name |
| `SchedulerJobs.DecimalReadsBack` | panoptic/modules/scheduler_job.go:86-89 | the number in a generated name consists of digits, without leading zeros, and reads back |
| `SchedulerJobs.SplitIsExact` | panoptic/modules/scheduler_job.go:63-101 | ceil(n / b) jobs whose lists concatenate to the original, all full but the last, which is not empty; named by the config's name, a dash and their number from 0; other settings kept; one unchanged job without a batch size |
| `SchedulerJobs.AllBatchesInOrder` | panoptic/modules/scheduler_job.go:42-48 | the jobs of a list of configs are those of its parts, in order |
| `SchedulerJobs.ClashIff` | panoptic/modules/scheduler_job.go:86-89 | when exactly two configs produce a job of the same name |
| `SchedulerJobs.AcceptedIff` | panoptic/modules/scheduler_job.go:42-48 | a config file yields distinct job names exactly when no two of its configs clash |
| `SchedulerJobs.MaybeSplitIntoMultipleSchedulerJobs` | panoptic/modules/scheduler_job.go:63-101 | the index loop cuts as specified, into new jobs, and its 64-bit index never wraps around, for every 64-bit batch size |
| `SchedulerJobs.NewSchedulerJobs` | panoptic/modules/scheduler_job.go:42-48 | the jobs of all configs in order, none of them run or cancelled |
| `SchedulerJobs.SchedulerJob.UpdateLastAndNextTime` | panoptic/modules/scheduler_job.go:138-150 | last and next time, or nothing at all on an unknown schedule |
| `Scheduling.ValidateJobs` | panoptic/modules/scheduler.go:29-38 | valid exactly when no two jobs share a name |
| `Scheduling.Scheduler.VisitOne` | panoptic/modules/scheduler.go:118-131 | one pass of the reconciling loop moves it on by one existing job, in the list and in the heap |
| `Scheduling.Scheduler.Reconcile` | panoptic/modules/scheduler.go:116-131 | the list becomes the order-preserving filter of the existing jobs; those take their new config, the others are cancelled, and the index keeps exactly the new names |
| `Scheduling.Scheduler.AppendNew` | panoptic/modules/scheduler.go:133-136 | the new jobs join, each once, in whatever order the map yields |
| `Scheduling.Scheduler.UpsertJobs` | panoptic/modules/scheduler.go:105-137 | the list then holds exactly the new configs; jobs with a wanted name, and only they, stay, as the same objects, first and in their order, and exactly the others are cancelled |
| `Scheduling.UpsertLists` | panoptic/modules/scheduler.go:105-137 | survivors and additions together list every wanted config once |
| `Scheduling.Scheduler.ParseAndUpsertJobs` | panoptic/modules/scheduler.go:192-215 | it reschedules exactly on a reading with another digest and no clash; otherwise no job and no digest changes |
| `Scheduling.Scheduler.WatchConfig` | panoptic/modules/scheduler.go:283-295 | over any readings, the list holds exactly the last accepted config; an old job is still there exactly when no accepted config dropped its name, is cancelled exactly otherwise, and the old jobs that are left come first in their old order |
| `Scheduling.NextRescheduleIff` | panoptic/modules/scheduler.go:192-215 | over any readings, which of them reschedule: the next that can be read, has no clash, and has another digest than the one that did last |
| `Scheduling.DigestOnlySavesWork` | panoptic/modules/scheduler.go:198-201 | with digests that tell configs apart, what is followed is always the last valid reading |
| `ScheduleLoop.HasRunBeforeIff` | panoptic/modules/scheduler_job.go:112-117 | over any run of a new job, it has run before exactly when a run was recorded |
| `ScheduleLoop.RunTime` | panoptic/modules/scheduler_job.go:125-150 | every turn runs the job once, at the later of its due time and the moment the loop looks, plus its lateness, and records it exactly on a schedule of known kind; it is due an interval after a recorded run, at once after an unrecorded one that a recorded one precedes, and while no run is recorded an interval after the look |
| `ScheduleLoop.RunsAreSpaced` | panoptic/modules/scheduler.go:228-256 | over restarts, config changes and delays, an execution, recorded or not, is followed no sooner than by the interval that its config gives it |
| `ScheduleLoop.RecordedRunsAreSpaced` | panoptic/modules/scheduler.go:228-256 | and any later execution, whatever ran in between, keeps that distance too |
| `ScheduleLoop.RateIsBounded` | panoptic/modules/scheduler.go:228-256 | a window of length w holds at most w / d + 1 executions when every interval in it is at least d |
| `ScheduleLoop.SteadyLoopIsExact` | panoptic/modules/scheduler.go:237-254 | a loop that is back in time skips no run, and lags by exactly the sum of its latenesses |
| `ScheduleLoop.PromptLoopIsExact` | panoptic/modules/scheduler.go:239-254 | n turns of a loop that is never late take exactly n intervals, and no time if the interval is not positive or the kind of schedule unknown, after any history of runs and configs |
| `ScheduleLoop.SameInstantIff` | panoptic/modules/scheduler.go:239-254 | so after any turn of any such job, any number of further turns happens in the same instant exactly when the new config has no positive interval |
| `ScheduleLoop.PacedIff` | panoptic/modules/scheduler_job.go:138-164 | a config keeps all executions of a job at least d apart in every run exactly when its interval, as computed in 64 bits, is known and at least d |
| `ScheduleLoop.BeginIff` | panoptic/modules/scheduler.go:228-236 | beginning a loop runs the job at once exactly when no run of it was ever recorded and its config says so, and otherwise not at all |
| `ScheduleLoop.ExecutionsOfLoop` | panoptic/modules/scheduler.go:228-256 | a loop runs its job once a turn, and once more if it starts it immediately |
| `ScheduleLoop.FirstRunWaits` | panoptic/modules/scheduler.go:230-238 | a job that does not start immediately first runs when its interval has passed |
| `ScheduleLoop.ScheduleSingleJob` | panoptic/modules/scheduler.go:228-256 | the loop over the job object takes exactly these steps, and executes the job once a turn and once more if it starts immediately |
| `Publisher.IdsIff` | publisher/processor.go:125-128 | an id is found exactly when some stored row has it: a root, a post along its shared ones, or one of a thread |
| `Publisher.MatchIff` | publisher/processor.go:255-289 | how a filter answers on the post built from a message, by the contents of the message and of the posts it shares: yes, no, error or nil dereference |
| `Publisher.PlacedIff` | publisher/processor.go:156-213 | once subsources are prepared, building the post fails exactly when the database refused a subsource that one of its rows needs |
| `Publisher.OneStep` | publisher/processor.go:297-375 | a delivery leaves the posts alone or appends one root post with the message's id, which had no row before unless the check for it failed; the cache stays within the stored ids |
| `Publisher.StoredIff` | publisher/processor.go:297-375 | when exactly a message is stored: it is not found, no read fails, every subsource that a row needs exists or is created, the filter of every feed that is asked is blank or well-formed, and the commit holds |
| `Publisher.PushedTwiceIff` | publisher/processor.go:347-372 | a message and its immediate redelivery are both pushed, and then to the same channels, exactly when the first is pushed and the second does not find it stored; while checks work, exactly when the first is pushed and not committed |
| `Publisher.PushedLaterIff` | publisher/processor.go:304-356 | over any run, whatever comes in between, a later delivery of an id is pushed exactly when it has a channel to go to and is not found stored; after one that was stored, not found means that its check fails and it is not cached |
| `Publisher.PushedOnceCommitted` | publisher/processor.go:347-372 | so while checks work, an id is pushed again only after a push whose commit failed |
| `Publisher.DistinctRootsIff` | publisher/processor.go:125-140 | over any run of deliveries and restarts, two roots have one id exactly when at some step the check failed for the id of a root that was not cached, and nothing else kept the message out: no other read failed, no needed subsource was refused, every filter asked could be read, and the commit held |
| `Publisher.OneRootPerId` | publisher/processor.go:304-310 | while no check fails, at most one root post has an id |
| `Publisher.KnownIdIsARootIff` | publisher/processor.go:125-128 | an id with any row, also of a shared or replied-to post, becomes a root exactly when at some step its check failed, it was not cached, and nothing else kept its message out |
| `Publisher.NothingIsLost` | publisher/processor.go:297-375 | an id that was processed without error has a row ever after |
| `Publisher.RedeliveryChangesNothingIff` | publisher/processor.go:304-310 | a redelivery after success is a duplicate that changes and pushes nothing exactly when its id is cached or its check works, whatever happened in between |
| `Publisher.CacheIsInvisible` | publisher/processor.go:116-124 | unless a check fails for a stored id, posts, subsources, result and pushes do not depend on what is cached |
| `Publisher.CachedIff` | publisher/processor.go:116-141 | over any run, an id is cached exactly when a delivery of it was found to be a duplicate since the process began |
| `Publisher.ExactlyOnce` | publisher/processor.go:76-88 | dropping any deliveries found to be duplicates leaves the same posts and subsources, as long as no check of the others fails for a stored id |
| `Publisher.ThreadIsChain` | publisher/processor.go:185-206 | the thread's rows are the ancestors in order, each built as a post of the chain |
| `Publisher.ThreadStartsWithParent` | publisher/processor.go:185-206 | the thread starts with the direct parent and ends with the oldest; its first post replies to nothing exactly when it is alone |
| `Deliveries.StoredFeedsIff` | publisher/processor.go:313-372 | a stored post is published to exactly those of its subsource's feeds, the last of each id, whose filter is blank or holds of the message or a post along the ones it shares; none if the subsource is new |
| `Deliveries.PushedChannelsIff` | publisher/processor.go:347-356 | and a post that reaches the commit is pushed to exactly the channels of these feeds; nothing else is ever pushed |
| `Deliveries.ResultIff` | publisher/processor.go:297-375 | how every delivery ends, from the message, the tables, the failures and the filters of the feeds that are asked |
| `Deliveries.SubSourcesIff` | publisher/processor.go:156-183 | which subsources exist after a delivery: those before, and those that a post of a message names which is not a duplicate, unless refused |
| `Deliveries.StoredRowsAreCopies` | publisher/processor.go:185-253 | what is written for a message: the post, the posts it shares and one row for every ancestor, parent first, with their ids, contents and times, under existing subsources and marked as shared where they are |
| `Processor.CrawlerMessageProcessor.constructor` | publisher/processor.go:116-124 | a restarted processor has an empty, hence correct, cache |
| `Processor.CrawlerMessageProcessor.IsPostExist` | publisher/processor.go:116-141 | the answer is right exactly unless the check fails for a stored id that is not cached; the cache stays within the stored ids |
| `Processor.CrawlerMessageProcessor.UpsertSubSource` | server/resolver/resolver_utils.go:254-322 | an existing subsource keeps its id; a new one is returned even when its row was refused |
| `Processor.CrawlerMessageProcessor.PrepareSubSourceRecursive` | publisher/processor.go:156-183 | every post of the message is marked with its subsource, and all missing ones are added |
| `Processor.CrawlerMessageProcessor.PreparePostChainFromMessage` | publisher/processor.go:208-253 | the post with all it is stored with, or the error exactly when a subsource is missing or cannot be read |
| `Processor.CrawlerMessageProcessor.PrepareReplyThreadFromMessage` | publisher/processor.go:185-206 | the thread, or the error exactly when a subsource of it is missing or cannot be read |
| `Processor.CrawlerMessageProcessor.PrepareFeedCandidates` | publisher/processor.go:143-154 | exactly the ids of the list, each with the last feed that has it |
| `Processor.CrawlerMessageProcessor.MatchMessageWithFeeds` | publisher/processor.go:255-289 | in whatever order the goroutines end: crash, error, or exactly the feeds that match |
| `Processor.CrawlerMessageProcessor.PushToChannels` | publisher/processor.go:347-356 | every channel of a matched feed is pushed to, once |
| `Processor.CrawlerMessageProcessor.ProcessOneCralwerMessage` | publisher/processor.go:297-375 | tables, cache, result and pushes are those of the step the runs are made of, and no channel is pushed to twice |
| `Processor.CrawlerMessageProcessor.ReadAndProcessMessages` | publisher/processor.go:64-90 | the loop ends with the tables, the life and the success count of handling one message after the other; nothing is handled after a crash |
| `Processor.BatchIsRun` | publisher/processor.go:76-88 | a batch of one process leaves the posts and subsources of the run of all its messages, or of those up to the one that crashed it, and counts as successes exactly those stored or found stored |
| `FeedInserts.StoredIsInsert` | publisher/processor.go:297-375 | storing a message is the store step of the state machine of each feed, by the feed as the publisher read it: published exactly when its filter holds; and a filter that fails stores nothing |

## Left out

- SQL, GORM, Redis, SQS, SNS, S3, AWS Lambda, GitHub, Slack, HTTP and gRPC themselves; they are state or parameters.
- The scraping collectors, generated protobuf and GraphQL code, flags, logging and the cmd entry points.
- JSON as characters: documents are trees, keys match exactly (Go also accepts other cases), and syntax errors are one case.
- Tweet text, URLs and images, and the subsource's display data; text and author are parameters or values.
- Scheduling.Scheduler.UpsertJobs: takes batches with distinct names only, as its caller has just validated them.
- Executor.LambdaExecutor.AddLambdaFunctions: takes the creations of a batch in one step; that they can be taken one by one is `Executor.BatchIsSteps`, and their interleaving with Execute is in `LambdaPool`.
- FeedRuns.StepKeepsInvIff: takes an upsert of a feed as one step, where the source reads the feed, runs a transaction and then clears posts; and lets the up to 11 batches of one scan read the post table as of one moment (reading the feed, reading the page, scanning and appending may lie apart).
- FeedRuns.RunsStayUpwardClosedIff: is about one feed; a publisher that fails because of another feed's filter takes no store step.
- FeedPaging.OldPageIsPrefix: compares feed versions as they are stored; the source compares whole seconds, so two edits within one second look alike.
- Publisher.StoredIff: does not cover a failed read while a subsource is looked up to be updated; the source takes it for absence and creates a second subsource of the same name, to which no feed belongs.
- DataExpression.RoundTrip: lists are never nil here; a nil slice, which the parser never makes, would be printed as null.
- Posts whose cursor is the largest 32-bit integer, which the default cursor does not reach.
- "At most one live loop per job": ScheduleSingleJob reads the job's context anew in every pass, so a cancelled loop can survive a refresh; `ScheduleLoop` takes the loops of one job one after the other.
- Liveness: that the timer fires, that maintenance runs again, that signals arrive.
- Concurrent processors: two of them can both find an id missing; `Processor` handles messages one after the other, as ReadAndProcessMessages does.
- Messages with a post or shared post that has no subsource, or configs without task parameters, which dereference nil.
- Semantic hashes, which fail softly, the mark for subsources that are only shared from, read flags, and CreatePost.
- Deleted posts: nothing the model covers deletes a post.
- Shutdown, a second Init, and the job's own outcome in Execute.
