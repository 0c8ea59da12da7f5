# Verified model of Allama's algorithmic core

A Dafny 4.11 model of the parts of Allama that transform data or keep state by rules of
their own, with proofs of what those rules promise. `dafny verify dfyconfig.toml` checks
everything.

| file | part of the system |
|---|---|
| `Messages.dfy`, `History.dfy`, `Truncation.dfy` | the agent's message history: orphan cleaning, budget trimming, size-limiting of tool outputs |
| `Ids.dfy`, `ScoreBoards.dfy`, `Ranker.dfy`, `RankerTheorems.dfy`, `RankerScoring.dfy`, `RankerFields.dfy`, `RankItems.dfy` | multi-pass ranking by a language model |
| `PathTree.dfy`, `PathCodec.dfy`, `PathObjects.dfy` | flattening nested objects to dotted paths and rebuilding them |
| `GraphMigration.dfy`, `GraphRoundTrip.dfy`, `GraphEdges.dfy` | the workflow graph migration in both directions |
| `Saml.dfy` | SAML login and assertion consumer over the stored-request table |
| `Registration.dfy` | concurrent user registration and the first superuser |
| `MembershipCache.dfy` | the per-request membership cache |
| `Base62.dfy`, `Slugs.dfy`, `StringCodecs.dfy`, `KnownHosts.dfy`, `Decimal.dfy` | base62 and API key previews, unique slugs, string decoders, SSH hosts, decimal rendering |
| `Prelude.dfy` | options and the elements of sequences |

Code that works step by step is modelled by methods with loops or by classes, each proved
against a specification function or relation; the theorems are about those. What the
code does not decide is a parameter that the theorems quantify over: the token count of a
message, the replies of the language model, shuffles and the enumeration order of sets
(`Ranker.World`), the verdict of the SAML library, clock readings, domain checks, SQL row
orders and the output of the key scanner. Integers are unbounded as in Python. Averages
and the refinement ratio are reals.

## Main results

- Orphan cleaning, which looks ahead in its input and behind in its own output, equals a
  rule about neighbours in the input; its output is well paired. Trimming keeps the
  longest suffix that a safe cut leaves, stays well paired, keeps the system prompt and is
  idempotent.
- Whatever the model replies, multi-pass ranking terminates and ranks every distinct id
  once. Every id gets one score per pass exactly if the ids are distinct. The depth is
  bounded, with distinct ids also the total work; a consistent model gets exactly its own
  order, and a model that is never shown the ids it is judged by has no say at all.
- Rebuilding and flattening are inverse to each other under exact conditions. Where no path
  is another's ancestor, any values can be rebuilt, in any order.
- The graph migration round trips in both directions, again under exact conditions.
- Over all runs, no stored SAML request is accepted twice, every acceptance matches a live
  login with its relay state, and a live login can be answered; only the designated first
  user can be promoted, and every stored user was admitted; and the membership cache never
  grants what the database would refuse.

## Where the code does less than its documentation

The model follows the code. Each of these comes with the exact condition under which the
expected property holds, and most with an input or a run that breaks it.

- Trimming is documented to trim until the history fits the budget
  (`allama/agent/context.py:192-197`). It fits exactly when the whole history fits or a
  safe cut exists (`History.TrimFits`); a single message that is too long does not
  (`History.SingleMessageStays`).
- Truncated tool outputs exceed the limit by the marker, and a second pass truncates them
  again unless the excess was 30 characters (`Truncation.TruncatingTwice`); repeated
  passes settle on the marker for 30 after an exact number of them
  (`Truncation.PassesSettle`).
- The ranker lets the caller name the id field, but reads replies against the values under
  "id" (`allama/ai/ranker.py:359-360`). Replies have no influence on the averages exactly
  when no value under the id field is also one under "id", for batches of two or more, and
  when no item has the same value under both, for batches of one
  (`RankerFields.ModelHasNoSayIff`, for distinct values under the id field). An item that
  cannot share a batch with its value under "id" gets only worst scores
  (`RankerFields.UnseenScoresWorst`).
- `rank_items_pairwise` takes a minimum that has no effect, and its maximum is not applied
  to a single item (`RankItems.RankItemsPairwise`).
- Rebuilding a flat dictionary loses or refuses pairs when one path is another's ancestor,
  and a path with a leading dot or a list as value does not come back
  (`PathCodec.RebuildFlattenRoundTrip`); "a" and "a.b" show both losses
  (`PathCodec.AncestorAndDescendant`). Flattening loses objects with dots in their keys,
  lists, empty inner objects or an object under an empty top key
  (`PathCodec.FlattenRebuildRoundTrip`).
- An upgrade of a graph loses the edges whose target is no listed action with a node of its
  own (`GraphEdges.UpgradeDowngradeEdges`, `GraphEdges.LostEdge`), the nodes of unlisted
  actions (`GraphEdges.UpgradeDowngradeNodes`), and the viewport of an object without a
  trigger (`GraphEdges.UpgradeDowngradeView`); a downgrade and upgrade rewrites rows that
  are not canonical, such as one without a handle
  (`GraphRoundTrip.DowngradeUpgradeRoundTrip`, `GraphRoundTrip.MissingHandleIsFilledIn`).
- The first user is documented to become the superuser
  (`allama/auth/users.py:208-213`). It does exactly when no second user was stored before
  its check ran (`Registration.SuperuserIffAloneAtCheck`); otherwise nobody ever does
  (`Registration.NobodyPromoted`, `Registration.MissedForGood`).
- A loaded membership cache refuses memberships created since. The lookups of a run that
  answer otherwise than the database are exactly those for the user of the loading lookup
  and a membership missing then (`MembershipCache.AnswerAfterLoad`), and a run of two
  lookups gets there (`MembershipCache.JoiningIsMissed`).
- The tool name conversion is not invertible for names with a double underscore or with a
  non-final component ending in an underscore (`StringCodecs.ToolNameRoundTrip`): "a_.b"
  becomes "a._b" (`StringCodecs.UnderscoreMoves`).
- Adding a host to the known hosts again changes nothing, whatever a second scan returns,
  exactly where it was known before or a line of the scan is known after the rewriting, in
  particular a line for the host that stays readable (`KnownHosts.AddHostTwice`,
  `KnownHosts.RewrittenIsKnown`); a host with a comma is added again every time
  (`KnownHosts.CommaIsAddedAgain`).

## Model

| member | source | states |
|---|---|---|
| Messages.AnswersSeparates | allama/agent/context.py:103-122 | an answered message makes calls and holds no returns; its answer holds returns and makes no calls |
| Messages.AnswersInParts | allama/agent/context.py:103-122 | one message answers another exactly if a call part and a return part of them share an id |
| History.CleanOrphanedToolMessages | allama/agent/context.py:132-185 | the stateful loop computes the stateless neighbour rule `Cleaned` |
| History.LastKept | allama/agent/context.py:166-180 | looking behind in the output decides like looking behind in the input; a last kept message with a call is the input message just before |
| History.KeptPrefixPaired | allama/agent/context.py:132-185 | at every point of the scan all kept calls and returns are paired with their neighbours, the last call with the next input message |
| History.CleanedIsWellPaired | allama/agent/context.py:135-140 | every kept call is directly followed by an answer, every kept return directly preceded by a call it answers |
| History.CleanedFixedPoint | allama/agent/context.py:132-185 | cleaning changes a history exactly when it is not well paired, and is idempotent |
| History.CleaningKeepsThePaired | allama/agent/context.py:132-185 | on the parts: exactly the messages stay, in order, whose calls the next message returns or whose returns the message before calls for, or that have neither |
| History.BudgetCut | allama/agent/context.py:233-245 | the backward scan finds the first index whose suffix is within the available budget |
| History.TrimHistory | allama/agent/context.py:188-285 | the result is the cleaned history when it fits or has no safe cut, otherwise the head and the longest suffix a safe cut can leave |
| History.TrimIsWellPaired | allama/agent/context.py:247-282 | trimming keeps a history well paired |
| History.TrimKeepsSystemPrompt | allama/agent/context.py:204-212 | a leading system prompt message stays first |
| History.TrimFits | allama/agent/context.py:217-285 | the result fits the budget exactly when the cleaned history fits or a safe cut exists, in particular whenever anything was dropped |
| History.TrimmedAtFirstFit | allama/agent/context.py:188-285 | on the parts: a history over the budget is cut at the first message without tool parts from which on it fits together with its system prompt, or stays if there is none |
| History.CostIsSum | allama/agent/context.py:225-233 | the cost of a history is the sum over its messages |
| History.SingleMessageStays | allama/agent/context.py:217-285 | a history of one message without tool parts costing more than the budget is left as it is and does not fit |
| History.TrimIdempotent | allama/agent/context.py:188-285 | trimming a trimmed history, with cleaning, changes nothing |
| Truncation.TruncateToolReturns | allama/agent/context.py:56-100 | the rebuild-if-needed loop equals the part-wise map |
| Truncation.TruncationPreserves | allama/agent/context.py:30-100 | responses, parts, order, ids and texts up to the limit stay; a longer text of a tool output keeps its first `maxChars` characters, followed by the notice with the number removed |
| Truncation.TruncationCommutesWithCleaning | allama/agent/context.py:56-185 | truncating tool outputs commutes with orphan cleaning, on every prefix of the scan |
| Truncation.TruncatingTwice | allama/agent/context.py:30-37 | a second pass changes nothing exactly when the text fits or exceeds the limit by 30 |
| Truncation.PassesSettle | allama/agent/context.py:30-37 | for texts of any size k passes give the same prefix and the marker for 30 exactly if k is more than the number of steps the excess takes to reach 30 |
| Truncation.SettlesWithinThreePasses | allama/agent/context.py:30-37 | the text is settled after three passes exactly while the removed count has at most 71 digits |
| Truncation.TruncatingHistoryTwice | allama/agent/context.py:56-100 | the whole history is stable under a second pass exactly when each of its tool outputs is |
| Ids.SanitizeIds | allama/ai/ranker.py:293-329 | the filter loop computes `Sanitized` |
| Ids.SanitizedSpec | allama/ai/ranker.py:297-302 | the result has no duplicates and holds exactly the valid ids that some returned value normalises to |
| Ids.SanitizedIdentity | allama/ai/ranker.py:322-329 | a duplicate-free list of valid ids whose values normalise to themselves is returned as it is, in order |
| Ids.SanitizedInOrder | allama/ai/ranker.py:322-329 | for any reply the results stand in the order of first appearance |
| Ids.NormalizeSpells | allama/ai/ranker.py:304-320 | white space and one pair of backticks are dropped; the rest is the id it spells if valid, else the number it denotes if valid |
| Ids.NormalizeRecovers | allama/ai/ranker.py:304-320 | a valid id is recovered from its backtick-quoted form |
| ScoreBoards.ScoreBoard.Append | allama/ai/ranker.py:581-584 | one score is added, creating the entry at the end of the key order if needed |
| ScoreBoards.ScoreBoard.AssignWorstScores | allama/ai/ranker.py:281-290 | every listed id gets the worst score, in list order |
| ScoreBoards.ScoreBoard.AssignPositions | allama/ai/ranker.py:579-584 | the ids get their positions as scores |
| ScoreBoards.ScoreBoard.AverageScores | allama/ai/ranker.py:266-278 | exactly the scored ids get an average, and average times number of scores is the sum of the scores |
| RankerScoring.SumAppend | allama/ai/ranker.py:266-278 | one more score adds to the sum |
| ScoreBoards.SortBySorted | allama/ai/ranker.py:604-605 | the ids come sorted by average, the same ids as before, without new duplicates |
| ScoreBoards.SortByStable | allama/ai/ranker.py:604-605 | ids with equal averages keep the order in which they were first scored |
| Ranker.AnyRepliesAreFair | allama/ai/ranker.py:514-531 | the assumptions on shuffles and set orders admit every reply behaviour |
| Ranker.CreateBatches | allama/ai/ranker.py:255-263 | the slicing loop computes `Batches` |
| Ranker.BatchesPartition | allama/ai/ranker.py:255-263 | the batches partition the items in order, all but the last full and none empty |
| Ranker.ScoreBatch | allama/ai/ranker.py:533-599 | one batch result, failed, partial, duplicated or hallucinated, is recorded as specified |
| Ranker.ScorePass | allama/ai/ranker.py:514-599 | one pass records all its batches and sends every item once |
| Ranker.RunPassesKeys | allama/ai/ranker.py:510-605 | after one pass or more exactly the item ids have scores, each at least one |
| Ranker.RefinementShrinks | allama/ai/ranker.py:607-619 | the refined items carry exactly the top ids, strictly fewer than before |
| Ranker.MultiPassRank | allama/ai/ranker.py:471-636 | the recursive method terminates, computes `Ranked` and sends `Placements` items |
| RankerTheorems.RankingIsPermutation | allama/ai/ranker.py:498-636 | every distinct id is ranked exactly once whatever the model replies; items are lost only without any pass |
| RankerTheorems.LevelOfRanking | allama/ai/ranker.py:601-636 | ids sorted by average, ties as first scored; the first max(1, whole part of n * ratio) of them ranked again with half the passes, unless that is all |
| RankerTheorems.RefinementKeepsBottom | allama/ai/ranker.py:607-636 | the top places, as many as are ranked again, go to the best averages, and everything below stays in score order |
| RankerTheorems.WorkBound | allama/ai/ranker.py:514-529 | with distinct ids and a ratio below 1 at most passes * n / (1 - ratio) placements are sent over all levels |
| RankerTheorems.DepthBound | allama/ai/ranker.py:608-634 | with a ratio up to one half there are at most 1 + log2 n levels for n different ids, and at most log2 n if no two items share an id |
| RankerScoring.PassShare | allama/ai/ranker.py:533-599 | for any items a pass gives every id at least one score and at most one per item with it, between 0 and the batch size, whatever the model replies |
| RankerScoring.BatchScores | allama/ai/ranker.py:533-599 | in a batch of distinct ids a named item gets the number of items of the batch named before it; all others, and all of a failed batch, get its size |
| RankerScoring.ScoresPerPass | allama/ai/ranker.py:512-602 | for any items, after all passes every id has at least one score per pass and at most one per pass and item with it |
| RankerScoring.OneScorePerPass | allama/ai/ranker.py:512-602 | every id has one score per pass for all replies and shuffles exactly if the ids are distinct |
| RankerScoring.UnanimousRanking | allama/ai/ranker.py:514-636 | if one batch holds all items and the model answers every batch the run sends it by one strict order, the ranking is that order for any shuffles, passes and ratio |
| RankerFields.UnseenScoresWorst | allama/ai/ranker.py:533-599 | an item, of any items, whose id cannot stand in a batch with it gets nothing but the sizes of its batches, whatever the replies |
| RankerFields.ModelHasNoSayIff | allama/ai/ranker.py:359-602 | for distinct values under the id field, any two models with the same shuffles give the same averages exactly when no value under the id field is one under "id", or, for single-item batches, no item has both alike |
| RankItems.RankItemsOnce | allama/ai/ranker.py:186-252 | the sanitised reply, of which a maximum leaves the first or a negative one drops the last; an error for more than 100 items or a failed request |
| RankItems.RankItemsPairwise | allama/ai/ranker.py:364-468 | a prefix of the ranking, cut by the maximum unless there is one item; an error exactly for more than 100 items or a missing id field, naming the first item without one |
| PathTree.LeavesDetermine | allama/parse.py:35-49 | a plain nested object is determined by its leaves |
| PathTree.InsertKeepsPlain | allama/parse.py:13-19 | any successful insertion keeps the object plain and adds no leaf but its own |
| PathTree.InsertSetsLeaf | allama/parse.py:13-19 | an insertion that meets no obstacle sets exactly its own leaf |
| PathTree.IncomparableFits | allama/parse.py:13-19 | a path comparable to no existing leaf path meets no obstacle |
| PathTree.InsertionsCommute | allama/parse.py:13-19 | insertions of any values at paths of which none leads through the other commute, failures included |
| PathTree.InsertFails | allama/parse.py:13-19 | an insertion fails exactly where a value that is no object stands on the way |
| PathCodec.YieldsScalars | allama/parse.py:35-49 | for any value, lists and empty objects included, the pairs yielded are exactly its scalars with their locations |
| PathCodec.LocationGrows | allama/parse.py:40-47 | a key follows a dot unless it comes first, a list position stands in brackets |
| PathCodec.LeafIsYielded | allama/parse.py:35-49 | in any value, a scalar reached by keys alone is yielded under its joined path |
| PathCodec.RebuildHoldsValues | allama/parse.py:22-32 | an input of any values in which no path is another's ancestor rebuilds without error to an object with every value at its path, a list of one element standing for the element |
| PathCodec.RebuildFlattenRoundTrip | allama/parse.py:13-49 | for any distinct paths, rebuilding then flattening is the identity exactly when all values are scalars, no path is another's ancestor and none has a leading dot |
| PathCodec.AncestorAndDescendant | allama/parse.py:13-32 | "a" before "a.b" is refused, after it replaces it |
| PathCodec.RebuildOrderIrrelevant | allama/parse.py:22-32 | where no path is another's ancestor the order of the pairs does not affect the rebuilt object, whatever the values |
| PathCodec.FlattenRebuildRoundTrip | allama/parse.py:13-49 | flattening any object then rebuilding is the identity exactly when its keys have no dots, it holds no lists or empty inner objects, and no object stands under an empty top key |
| PathObjects.NestedDict.SetDefault | allama/parse.py:17-18 | an existing entry is left alone, a missing one becomes a new empty dictionary |
| PathObjects.NestedDict.InsertByPath | allama/parse.py:13-19 | insertion of any value into nested mutable dictionaries, also below objects assigned before, keeps them a tree and computes `InsertAt`, failing exactly where it does |
| PathObjects.ReconstructObj | allama/parse.py:22-32 | the insertion loop over pairs with any values computes `Rebuild`, with the same failures |
| GraphMigration.BuildUpstream | alembic/versions/9079ae19374b_add_action_graph_fields.py:145-164 | one row per edge into the action, in order: source, type and, for actions, the handle "error" exactly if the camel-case field says so, or the snake-case one where that is missing or empty |
| GraphMigration.Tables.MigrateTriggers | alembic/versions/9079ae19374b_add_action_graph_fields.py:116-136 | trigger nodes set trigger position and viewport of the workflow row, if there is one |
| GraphMigration.Tables.MigrateActions | alembic/versions/9079ae19374b_add_action_graph_fields.py:138-178 | udf nodes set position and upstream rows of their action rows |
| GraphMigration.Tables.Upgrade | alembic/versions/9079ae19374b_add_action_graph_fields.py:108-178 | the data step over all workflows computes `ApplyGraphs` |
| GraphMigration.DowngradeGraph | alembic/versions/9079ae19374b_add_action_graph_fields.py:219-267 | the object is `ToGraph`: the trigger node, a node with id, position and title per action, an edge per row, the viewport |
| GraphRoundTrip.Downgrade | alembic/versions/9079ae19374b_add_action_graph_fields.py:203-272 | every workflow gets its own object |
| GraphRoundTrip.RewrittenCanonical | alembic/versions/9079ae19374b_add_action_graph_fields.py:148-164 | a row that went down and up is canonical, and unchanged exactly if it was |
| GraphRoundTrip.MissingHandleIsFilledIn | alembic/versions/9079ae19374b_add_action_graph_fields.py:148-164 | a row without a handle comes back with the default one |
| GraphRoundTrip.IncomingOfActions | alembic/versions/9079ae19374b_add_action_graph_fields.py:246-262 | the edges built for all actions give each action back its own rows in order and nothing else |
| GraphRoundTrip.DowngradeUpgradeRoundTrip | alembic/versions/9079ae19374b_add_action_graph_fields.py:108-272 | down and up restores all workflows and actions exactly when all upstream rows are canonical |
| GraphEdges.ApplyNodesSpec | alembic/versions/9079ae19374b_add_action_graph_fields.py:138-178 | every row a udf node names gets position and edges of the last such node; no other row changes |
| GraphEdges.EdgesOfRows | alembic/versions/9079ae19374b_add_action_graph_fields.py:246-262 | rows that took up the edges into a set of actions give back exactly these edges, normalised, as a multiset |
| GraphEdges.UpgradeActionRow | alembic/versions/9079ae19374b_add_action_graph_fields.py:108-178 | over all workflows every action row keeps title and workflow and gets position and edge rows of the last object with a udf node for it |
| GraphEdges.UpgradedColumns | alembic/versions/9079ae19374b_add_action_graph_fields.py:29-136 | the columns of a workflow hold its last trigger and viewport, missing numbers being 0 and a missing zoom 1; without trigger, and for actions without node, they keep these defaults |
| GraphEdges.NormalFields | alembic/versions/9079ae19374b_add_action_graph_fields.py:148-262 | what an edge becomes on the way up and down, field by field |
| GraphEdges.UpgradeCarries | alembic/versions/9079ae19374b_add_action_graph_fields.py:29-178 | the rows of each workflow carry its own object and the column defaults where it says nothing, where its object is the last with udf nodes for each of its actions that any object has nodes for |
| GraphEdges.UpgradeDowngradeNodes | alembic/versions/9079ae19374b_add_action_graph_fields.py:138-244 | a udf node comes back exactly for every listed action, at its position, or at the origin if it had none |
| GraphEdges.UpgradeDowngradeView | alembic/versions/9079ae19374b_add_action_graph_fields.py:116-270 | the position of the last trigger comes back; the viewport does exactly if there is a trigger or it is the default one |
| GraphEdges.UpgradeDowngradeEdges | alembic/versions/9079ae19374b_add_action_graph_fields.py:138-262 | the edges that come back are the normalised ones into listed actions with a udf node, as a multiset; all of them exactly when all end in one |
| GraphEdges.UpgradeDowngrade | alembic/versions/9079ae19374b_add_action_graph_fields.py:29-270 | over all workflows, up and down keeps of each object exactly these nodes, viewport and edges |
| GraphEdges.LostEdge | alembic/versions/9079ae19374b_add_action_graph_fields.py:138-164 | an object whose only edge has no target, or a listed action without a node as target, loses it on the way up and down |
| Saml.RequestStore.Login | allama/auth/saml.py:358-366 | a new id gets a row with its relay state that expires in 300 seconds, every other row stays; a stored id is refused |
| Saml.RequestStore.ReadRequests | allama/auth/saml.py:418-431 | the outstanding queries are the rows read no later than their expiry with their relay states, the rest is marked expired |
| Saml.RequestStore.SsoAcs | allama/auth/saml.py:399-523 | one call of the consumer is the step `AcsStep` |
| Saml.AcceptanceCondition | allama/auth/saml.py:472-523 | a response is accepted exactly when it comes from the UI service and answers a row alive at its reading and at the check with its relay state |
| Saml.AcsConsumes | allama/auth/saml.py:399-523 | past the service check exactly the living rows stay other than the one the response names; what is not accepted fails |
| Saml.AcceptedAtMostStored | allama/auth/saml.py:521-523 | in every run the acceptances of an id and its pending row never exceed the times it was stored |
| Saml.AcceptedAtMostOnce | allama/auth/saml.py:521-523 | with fresh request ids no id is accepted twice |
| Saml.AcceptedMatchesLogin | allama/auth/saml.py:358-523 | every acceptance answers an earlier, unanswered login with its relay state within its 300 seconds |
| Saml.LoginCanBeAnswered | allama/auth/saml.py:358-523 | in every run a valid response to an unanswered login with its relay state is accepted within its 300 seconds |
| Registration.UserManager.ValidateEmail | allama/auth/users.py:114-144 | on an empty table exactly the configured email passes, later exactly an email of an allowed domain |
| Registration.UserManager.CreateUser | allama/auth/users.py:172-183 | a user with a new email is stored last, without privileges |
| Registration.UserManager.CheckFirst | allama/auth/users.py:209-214 | the check records whether exactly one user is stored |
| Registration.UserManager.PromoteUser | allama/auth/users.py:216-220 | an attempt that found itself first makes its user superuser |
| Registration.UserManager.AddToOrganization | allama/auth/users.py:223-229 | the last step makes the user member or owner of the default organization |
| Registration.UserManager.OnAfterRegister | allama/auth/users.py:203-229 | without interleaving, the hook is those three steps |
| Registration.StepKeepsInvariant | allama/auth/users.py:114-229 | unique emails, ownership of users by attempts and the promotion rule survive every step of every attempt |
| Registration.OnlyDesignatedUserPromoted | allama/auth/users.py:208-229 | in every interleaving the first user has the designated email, and superuser and owner is nobody else |
| Registration.SuperuserIffAloneAtCheck | allama/auth/users.py:203-229 | in every interleaving the first user ends up superuser exactly when it was the only stored user at its check |
| Registration.StoredUserWasAdmitted | allama/auth/users.py:114-183 | in every interleaving each stored email was admitted by its validation: the configured one on an empty table, one of an allowed domain otherwise |
| Registration.OwnerIffSuperuser | allama/auth/users.py:203-229 | in every interleaving a user joining an organization ends as its owner if superuser, as a member if not |
| Registration.RegisteredHasCheck | allama/auth/users.py:203-229 | every attempt that registered has made its check in the run |
| Registration.FirstCheckDecides | allama/auth/users.py:212-214 | the check says yes exactly when one user is stored |
| Registration.MissedForGood | allama/auth/users.py:212-229 | a promotion missed once is never made up for |
| Registration.NobodyPromoted | allama/auth/users.py:114-229 | two overlapping attempts that leave no superuser |
| MembershipCache.RequestState.FindMembership | allama/auth/credentials.py:213-297 | the branches over the cache compute `Lookup`; only an unloaded cache changes, and then holds all memberships of the user |
| MembershipCache.LookupAgainstQuery | allama/auth/credentials.py:219-297 | what is found is the stored row with its organization; nothing is found exactly if there is none or the loaded cache refuses it |
| MembershipCache.CachedRunEqualsQueries | allama/auth/credentials.py:213-307 | over unchanged tables every lookup of a run over any users and workspaces answers like the direct query |
| MembershipCache.CachedRunIsSound | allama/auth/credentials.py:213-307 | over changing tables no lookup grants what the direct query refuses |
| MembershipCache.RefusalIsStale | allama/auth/credentials.py:238-281 | after a run the cache refuses exactly the memberships of the loading user that did not exist at the load |
| MembershipCache.LoadsUpToLimit | allama/auth/credentials.py:238-255 | a lookup can load the cache exactly for users with at most 1000 memberships |
| MembershipCache.AnswerBeforeLoad | allama/auth/credentials.py:219-237 | up to the load every answer is that of the direct query |
| MembershipCache.AnswerAfterLoad | allama/auth/credentials.py:213-297 | after it an answer differs from the direct query exactly for the loading user and a membership missing at the load that exists now |
| MembershipCache.JoiningIsMissed | allama/auth/credentials.py:213-297 | a run of two lookups whose second one refuses a membership created in between |
| Base62.Encode | allama/base62.py:8-31 | the divide-and-reverse loop renders the number; negative numbers are refused |
| Base62.Decode | allama/base62.py:34-52 | the decode loop computes the value, refusing foreign characters |
| Base62.DigitsAreAlphabet | allama/base62.py:1-5 | the digits are the numerals, the small letters and the capitals, in this order |
| Base62.ValueOfConcat | allama/base62.py:34-52 | strings are read most significant digit first |
| Base62.DecodeEncode | allama/base62.py:8-52 | decoding undoes encoding |
| Base62.EncodeDecode | allama/base62.py:8-52 | encoding undoes decoding exactly on "0" and strings without a leading zero |
| Base62.EncodedLength | allama/base62.py:8-31 | k digits suffice exactly below 62 to the k |
| Base62.TokenLength | allama/auth/crypto.py:17-19 | 32 random bytes give at most 43 characters after the prefix |
| Base62.TokenDecodes | allama/auth/crypto.py:6-19 | a token is its prefix and digits that decode to the random number |
| Base62.PreviewOfKey | allama/auth/api_keys.py:29-47 | a preview exists exactly for keys with the prefix and four characters more, and shows prefix, dots and the last four |
| Base62.PreviewOfToken | allama/auth/api_keys.py:42-47 | the preview of a generated key exists exactly from 62 to the 3 on, and shows its last four characters |
| Slugs.CandidatesDistinct | alembic/versions/f4695a7728a8_custom_mcp_providers.py:55-72 | the candidates are pairwise different |
| Slugs.IntegrationTable.GenerateUniqueSlug | alembic/versions/f4695a7728a8_custom_mcp_providers.py:53-72 | the base if it is free, else the base with the first free suffix counted from 1, after at most one probe more than the owner has slugs |
| Slugs.IntegrationTable.InsertAll | alembic/versions/f4695a7728a8_custom_mcp_providers.py:136-167 | owner and slug stay unique, and every known integration gets one row with the slug first free at its turn |
| Slugs.MigratedRows | alembic/versions/f4695a7728a8_custom_mcp_providers.py:136-167 | the old rows stay in front, and the known integrations follow in order with owner, id and a slug new to the owner |
| Decimal.RenderReads | alembic/versions/f4695a7728a8_custom_mcp_providers.py:63-70 | numbers are rendered by decimal digits without leading zeros that read as the number |
| Slugs.MigratedUnique | alembic/versions/f4695a7728a8_custom_mcp_providers.py:136-167 | these conditions determine the table |
| Slugs.NumberedWithoutGaps | alembic/versions/f4695a7728a8_custom_mcp_providers.py:53-72 | after the first n candidates of a base comes the next one |
| StringCodecs.UnescapeEscape | allama/parse.py:98-112 | unescaping undoes escaping on every string |
| StringCodecs.EscapesAre | allama/parse.py:98-112 | what the four escapes stand for; every other character and backslash stands for itself |
| StringCodecs.EscapeUnescape | allama/parse.py:98-112 | escaping undoes unescaping exactly on fully escaped strings |
| StringCodecs.ToolNameRoundTrip | allama/agent/tools.py:372-383 | dots survive the double-underscore form exactly in names without a double underscore and without a non-final component ending in an underscore |
| StringCodecs.NamesAre | allama/agent/tools.py:372-383 | dots become two underscores, and the first two underscores a dot |
| StringCodecs.UnderscoreMoves | allama/agent/tools.py:372-383 | "a_.b" comes back as "a._b" |
| KnownHosts.SplitFormatted | allama/ssh.py:109-127 | splitting the bracketed form gives host and port back exactly for hosts without a closing bracket |
| KnownHosts.SplitInBrackets | allama/ssh.py:112-119 | a bracketed url: host, host with port, or the whole url |
| KnownHosts.SplitElsewhere | allama/ssh.py:121-127 | any other url has a port exactly if digits follow its only colon |
| KnownHosts.FormattedSplitsTheSame | allama/ssh.py:109-127 | formatting what was split loses nothing, exactly for hosts without a closing bracket |
| KnownHosts.AddHost | allama/ssh.py:147-212 | a known host changes nothing; otherwise every scanned line is appended, with a port the host at its beginning replaced by its bracketed form and all the rest kept |
| KnownHosts.ColumnIsFirstWord | allama/ssh.py:163-167 | the host column is the first word of a line; blank lines and comments have none |
| KnownHosts.MatchStep | allama/ssh.py:168-177 | the hosts of the column are tried one by one |
| KnownHosts.EmptyEntryHides | allama/ssh.py:169-184 | an empty host that is looked for hides the hosts after it |
| KnownHosts.RewrittenIsKnown | allama/ssh.py:159-208 | a scanned line for the host is recognised after the rewriting exactly if the host has no comma and the bracketed form is not prefixed to itself |
| KnownHosts.AddHostTwice | allama/ssh.py:130-214 | for any scan, adding again changes nothing where the host was known or a scanned line for it stays readable; where no line is known after the rewriting it appends or fails like the first time |
| KnownHosts.CommaIsAddedAgain | allama/ssh.py:164-208 | no line whatsoever makes "a,b:22" known |

## Left out

- Messages other than requests and responses with the listed parts; token counting itself, which is any function to naturals; the limit for tool outputs is a natural number.
- The lookup of a model's context limit: the budget is a parameter.
- Prompts, agent construction and retries of the ranker; batch sizes below 1; items without "id", on which the request fails.
- Rounding of averages and of the refinement count to floating point.
- Ids.NormalizeRecovers: white space and `int()` are parameters, because their Unicode tables are the interpreter's.
- PathObjects.NestedDict.InsertByPath: descends by recursive calls where the source moves a variable down in a loop. An assigned dictionary is copied where the source would share it with the input.
- Schema changes of the migrations, explicit nulls inside graph objects.
- SAML library, XML parsing, the user lookup after acceptance and the session cookie; each call is one step.
- Registration.UserManager.OnAfterRegister: runs its three steps in a row; the theorems are about runs that interleave the steps freely. Workspace creation, passwords and other user updates are not modelled.
- Requests without a membership cache, which query directly; role checks and role construction after the lookup; the process-wide cache of workspace organizations.
- Key hashing, random number generation, and `slugify`, which is any function.
- KnownHosts.AddHost: works on lines, so a file without a final line end, onto whose last line the scan would be appended, is not covered; white space and digits are ASCII.
- `build_agent_tools`: one pass of filtering and counting, which would add only easy members.
- Service authentication, executor tokens, audit logs, pagination, the other migrations and everything in the frontend.
