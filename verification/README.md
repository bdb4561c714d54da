# OctoNexus, verified

OctoNexus is a gateway in front of language-model providers. A client asks for a *group* by name; a
group holds *items*, each a *grant* (a model of a channel used with one of the channel's keys) or
another group; *channels* are upstream sites with keys, models and grants. Around this core the
gateway rewrites model names, limits request rates, collects balances with declarative packs, imports
proxy nodes and backups, and reports on its own traffic.

This project models the algorithms and the stateful parts of `internal/op`, `internal/collector` and
`internal/clashcfg` and proves what they promise. Where a stated intention does not hold of the code,
the model keeps the code as it is, shows an input on which it fails, and proves exactly when it holds.

`dafny verify dfyconfig.toml` checks everything. The modules, and what each one settles:

- `EditDistance`, `GroupSuggest`: the two-row distance with its early exits is the exact edit distance
  or -1; the suggestion list is the best few candidates and does not depend on the order of the table.
- `Wildcard`, `ModelMapping`: the glob search with a single backtrack point decides the recursive
  relation on exactly those subjects that contain no `*`; a name is rewritten by the first enabled rule
  that applies.
- `GroupNesting`, `GroupFlatten`, `GroupReach`: the memoised check accepts exactly when every walk from
  a requested child is short and avoids the written group; accepted writes keep the whole graph free
  of cycles, and keep the depth bound on all groups exactly when every way down to the written group
  leaves room for what is put below it; flattening yields exactly the grant items reachable by a simple
  route, each once, in the order and with the tier of its first trail.
- `Reconcile`, `Database`, `GroupStore`, `ChannelSync`, `AutoGroups`, `ChildGroups`, `ChannelCache`,
  `GatewayStore`: the tables behind groups and channels, the one way rows are replaced by a submitted list,
  cascading deletes, automatic groups, which child groups outlive a channel write, and the caches. Over
  every run of group and channel operations the graph stays acyclic, the active item of a group is one of
  its own, and lookups in the caches find what the tables hold; only a submitted list of items can end the
  depth bound, and only a submitted channel a child group.
- `RateLimit`: the sliding windows, compacted in place, against the full history; no 60-second window of
  any run lets through more calls under a limit than the limit, and no call is refused before that.
- `ApiKeys`: the two-map index, right after every step of a run exactly when no step writes a string
  twice or deletes past a live empty one.
- `Template`, `CollectorPack`, `CollectorRun`, `CollectorSent`: templates, the static check of a pack, its
  interpreter, and what a run sends and where it ends, told request by request.
- `Backup`, `BackupImport`, `BackupWritten`, `BackupRepeat`: orphan filtering keeps the greatest part that
  can stand; which dumped channels and groups can make an import fail for a missing parent or leave a
  dangling child reference; what an import writes; a backup brings back what was lost; a second import is idle exactly when every kept row comes in again as it is,
  which can be read off the rows.
- `ClashParse`, `ProxyImport`: names given to parsed nodes, when they are distinct, told by the file alone,
  which of several nodes of one name its row ends with, and when a second import is idle.
- `Analytics`, `AnalyticsSeries`, `AnalyticsOverview`, `AnalyticsFigures`, `Latency`, `Balance`: counting
  every row, sample and unit of money exactly once.
- `Common`, `Text`, `Sorting`, `Sums`, `Bags`: what the others share.

Code that changes state is modelled as methods and classes that change state; each is proved against a
specification function or relation, and the lemmas are about those. A database transaction is a value
of the tables that is committed or dropped. Foreign keys are enforced, as the program turns them on. Map
iteration order is arbitrary: methods take the order as a parameter or read rows by key, and results are
proved not to depend on it. A lemma named `...InFull` or `...Exactly` says what an operation does by the
columns it reads and writes, without the specification function it is computed by.

Found on the way, each with its exact condition in the table below: a write of a group can leave a group
above it deeper than the bound; a subject with `*` is never matched by some pattern that fits it; three nodes of one name get two equal names; pruning an emptied automatic
group leaves dangling references in groups that have it as a child, and deletes empty groups although the
comment says it leaves them; a new API key's address list is cached but not stored; a loaded pack can
still stop at a missing variable; the "counted" mark of a second subscription of a channel is wrong; a
dumped channel or group whose name is taken under another id is skipped, yet the orphan filter counts it
as there, so that a row of it makes the whole import fail, and a child reference to such a group is
imported and dangles; a backup with rows that have no id, or with an id twice, can enter rows again or be
refused the second time, although a repeated import is meant to change nothing; of several proxy nodes of
one name the last need not win, since what is known of the name is not brought up to date; a model literally
named like the merged rest loses its usage in the trimmed series.

## Model

| member | source | states |
|---|---|---|
| EditDistance.DistanceIsCheapest | internal/op/group_suggest.go:142-163 | the table's recurrence gives the cost of a cheapest insert/delete/replace script: some script costs that much and none costs less |
| EditDistance.LengthGap | internal/op/group_suggest.go:122-129 | the difference of the lengths is a lower bound, which makes the first prune safe |
| EditDistance.RowNeverRecovers | internal/op/group_suggest.go:156-161 | once every entry of a row is above the budget, so is every later entry: the early exit loses nothing |
| EditDistance.NextRow | internal/op/group_suggest.go:142-158 | filling `curr` from `prev` in place yields the next row of the table and its minimum |
| EditDistance.EditDistanceWithin | internal/op/group_suggest.go:111-169 | the exact distance when it is within the budget, -1 otherwise; equal strings give 0 under every budget |
| EditDistance.AnswersExactlyWithinBudget | internal/op/group_suggest.go:111-114 | "distance or -1, by the budget" holds for all strings exactly when the budget is not negative |
| GroupSuggest.ScoreGroup | internal/op/group_suggest.go:69-87 | a group's score is by case-insensitive equality, then containment either way, then true edit distance up to 2 |
| GroupSuggest.GroupSuggestSimilar | internal/op/group_suggest.go:43-105 | the names of the best candidates, as many as asked for (3 when the limit is not positive), nothing for a blank name |
| GroupSuggest.CandidateInFull | internal/op/group_suggest.go:69-87 | a group is a candidate if and only if it has a name that overlaps with the given one or is at most two edits away, letter case and outer spaces aside |
| GroupSuggest.RankedInFull | internal/op/group_suggest.go:75-95 | equal names come before overlapping ones, those before the others, the others by their edits, and what is left by the name |
| GroupSuggest.NothingCloserIsLeftOut | internal/op/group_suggest.go:90-103 | only candidates are listed, and a candidate that is not listed is no closer than any that is |
| GroupSuggest.SameNameFirst | internal/op/group_suggest.go:75-79 | when some group has the name but for letter case, the list starts with such a group |
| GroupSuggest.RankedIgnoresOrder | internal/op/group_suggest.go:90-95 | the ranking is the same for every order in which the table is read |
| Wildcard.OldStarForgotten | internal/op/model_mapping.go:203-208 | at a new star every match that restarts behind the old star is also a match from here: one backtrack point is enough |
| Wildcard.ScanSound | internal/op/model_mapping.go:197-224 | whatever state the search accepts from, a match is still possible there, on every subject |
| Wildcard.ScanComplete | internal/op/model_mapping.go:197-224 | without `*` in the subject the search accepts wherever a match is possible |
| Wildcard.StarInSubjectIsMissed | internal/op/model_mapping.go:198-203 | for every subject with a `*` there is a pattern that fits it and is rejected, because equality is tested before the star |
| Wildcard.RightExactlyWithoutStars | internal/op/model_mapping.go:192-224 | the search decides the glob relation for all patterns on a subject exactly when the subject contains no `*` |
| Wildcard.MatchLowered | internal/op/model_mapping.go:195-224 | the loop over four indices terminates and returns what the search from the start does |
| Wildcard.MatchWildcard | internal/op/model_mapping.go:192-224 | letter case aside, true only for matches, and for every match when the subject has no `*` |
| ModelMapping.MappingCache.Refresh | internal/op/model_mapping.go:42-77 | the cache becomes the rows in priority order, with exactly the regular expressions that compile |
| ModelMapping.MappingCache.Resolve | internal/op/model_mapping.go:98-115 | the deciding rule is enabled, applies and precedes every other such rule; without one the name stays as it is |
| ModelMapping.AppliesInFull | internal/op/model_mapping.go:171-188 | an exact rule applies to its own letters in any case, a wildcard rule to what its pattern fits, a regular expression only if it compiles, and a rule of another kind never |
| GroupNesting.Validator.Walk | internal/op/group.go:395-425 | for any stored graph, cyclic or not: accepted means every walk below fits depth bound and target; a rejection has a walk that shows why; pruning on a deeper record is sound |
| GroupNesting.ValidateChildRefs | internal/op/group.go:377-433 | accepted if and only if every requested child exists, is another group, and every walk from it meets at most 8 groups and never the written one |
| GroupNesting.NoReturn | internal/op/group.go:408-410 | after an accepted write no walk leads from the written group back to it |
| GroupNesting.WriteKeepsAcyclic | internal/op/group.go:374-433 | an accepted write closes no cycle anywhere in the graph |
| GroupNesting.DepthHoldsWhenWritten | internal/op/group.go:403-407 | at the moment it is written a group starts no chain of more than 8 groups below it |
| GroupNesting.DepthHoldsExactly | internal/op/group.go:393-394 | where the bound held, it holds after an accepted write exactly when every walk from there to the written group, joined with every walk from a new child of it, stays within the bound: both are walks of the stored graph |
| GroupNesting.BoundedExactly | internal/model/group.go:223-225 | a bound that holds on the whole graph survives an accepted write if and only if all such joins stay within it |
| GroupNesting.DepthCanFailAbove | internal/op/group.go:393-394 | the failing side: a concrete acyclic graph, a write that passes the check, and a chain from a group above the written one that is then too deep |
| GroupFlatten.Flattener.FlattenInto | internal/op/group.go:546-583 | the recursive walk with its shared `seen` set appends exactly the leaves whose ids are new, first occurrences in order |
| GroupFlatten.FlattenWithTopCounts | internal/op/group.go:515-544 | the list equals flattening at once, and the counts cut it into the contributions of the top items and add up to its length |
| GroupFlatten.TrailsInOrder | internal/op/group.go:558-582 | the walk meets trails in dictionary order of the positions they take |
| GroupFlatten.FlatIsFirstTrails | internal/op/group.go:555-583 | each item is the end of the first trail to its id; told by the items at the positions of that trail, it is the last of them, with the tier of the last one that declares a tier, or none; no id twice; every trail's end is there |
| GroupReach.CutLoop | internal/op/group.go:562-568 | cutting a loop out of a route leaves a route to the same items, so pruning at groups on the path loses none |
| GroupReach.FlatHoldsExactlyReachable | internal/op/group.go:534-583 | an id is in the flattened list if and only if a grant item with it is reachable by a route of at most 8 distinct groups |
| RateLimit.RateWindow.Compact | internal/op/ratelimit.go:36-47 | moving live entries to the front of the two parallel lists leaves exactly the live ones there, and their sum |
| RateLimit.RateWindow.Admit | internal/op/ratelimit.go:27-58 | admits exactly when what is live stays below the limit, and records only then |
| RateLimit.WindowStore.AllowRate | internal/op/ratelimit.go:27-63 | a request is admitted exactly when fewer than the limit were admitted in the last 60 000 ms; other keys are untouched |
| RateLimit.WindowStore.AllowAll | internal/op/ratelimit.go:27-63 | calls for one key, one after the other, leave the history of the run that the window bound is proved of, and each is answered by what was admitted before it |
| RateLimit.WindowStore.RecordKeyUsage | internal/op/ratelimit.go:66-99 | records at least one token for a key with an id and nothing else |
| RateLimit.WindowStore.AllowKeyTPM | internal/op/ratelimit.go:102-126 | true exactly when the tokens recorded at the times of the last minute add up to less than the limit |
| RateLimit.LiveOfLive | internal/op/ratelimit.go:36-52 | evicting earlier and filtering now equals filtering the whole history |
| RateLimit.NoWindowAboveLimit | internal/op/ratelimit.go:27-58 | over every run whose clock does not go back, no 60 000 ms window lets through more calls under a limit than the largest limit of the run; calls without one are not counted |
| RateLimit.RefusedExactlyWhenFull | internal/op/ratelimit.go:27-58 | by the calls and the answers alone: a call is let through if and only if it has no limit, or fewer calls under a limit than its own limit were let through in the 60 000 ms that end with it |
| RateLimit.LiveTokensExactly | internal/op/ratelimit.go:113-125 | what a token limit is compared with is the sum of what was recorded at the times of the last 60 000 ms |
| RateLimit.EvictionInvisibleExactlyForward | internal/op/ratelimit.go:36-52 | early eviction goes unnoticed for all histories exactly when the clock has not gone back |
| Reconcile.Sync | internal/op/group.go:319-371 | rows are replaced by a submitted list exactly when no reference is in it twice: what stays keeps its id, what is new is submitted, what is not asked for goes |
| Database.EdgesExactly | internal/op/group.go:415-418 | the child references read row by row are exactly those of the stored items |
| Database.WithoutItemsIntact | internal/op/group.go:470-493 | clearing choices and deleting items keeps every table invariant |
| Database.WithoutGrantsIntact | internal/op/channel.go:780-788 | grants can go, with their items, once the choices of those items are cleared |
| GroupStore.SyncGroupItems | internal/op/group.go:309-372 | succeeds exactly for submittable lists, and then replaces the items of the group and nothing else |
| GroupStore.SubmittableInFull | internal/op/group.go:374-433 | a list can be written exactly when each item refers to one thing, a grant that exists or another existing group from which no chain is longer than eight groups or leads back, and no target is there twice |
| GroupStore.SubmittedInOrder | internal/op/group.go:304-352 | for each submitted item the group has one row with its target, its place from 1 and its tier, and no others; resubmitted items keep their ids; other groups are untouched |
| GroupStore.ReplacedIntact | internal/op/group.go:309-372 | replacing items keeps the graph acyclic, the active item valid and child references on existing groups |
| GroupStore.ReplacedBoundedExactly | internal/op/group.go:370-433 | on the tables: replacing the items of a group keeps the depth bound on all groups exactly when, before the write, there was room above the group |
| GroupStore.CheckedBeforeItExists | internal/op/group.go:435-446 | checking a new group under id 0 is as good as checking it under the id it gets |
| GroupStore.UpdateGroup | internal/op/group.go:234-302 | name, items and choice in that order; refused as a whole when a part is refused; a choice of a surviving item is never refused; the depth bound on all groups survives exactly when there was room above the group, or no items were submitted |
| GroupStore.DeletedIntact | internal/op/group.go:470-493 | deleting a group together with the items that refer to it keeps the tables intact |
| GroupStore.DeletedInFull | internal/op/group.go:470-493 | what goes with a group: the items in it and the items that refer to it; another group loses its choice exactly when that was such an item |
| ChannelSync.SyncChannelKeys | internal/op/channel.go:578-640 | succeeds exactly for distinct names; keys become the submitted ones, their lost grants and items go along |
| ChannelSync.KeyAfter | internal/op/channel.go:598-620 | a resubmitted key keeps its id and counters and has the submitted secret, is on unless switched off, and has the submitted proxy node if positive; the operator's stop is left alone unless a column changed, and is then the opposite of enabled |
| ChannelSync.KeyIsNew | internal/op/channel.go:621-627 | a new key has the columns of a submitted one, a new id, no operator's stop and no counters |
| ChannelSync.SyncChannelModels | internal/op/channel.go:644-676 | succeeds exactly for distinct names; models become the submitted ones, their lost grants and items go along |
| ChannelSync.ModelAfter | internal/op/channel.go:653-657 | a resubmitted model is not touched, counters included |
| ChannelSync.ProtocolsInFull | internal/model/channel.go:10-24 | a grant's protocols are at least one of the bits 1 to 5 and no other |
| ChannelSync.ResolveGrants | internal/op/channel.go:722-735 | succeeds exactly when every model and key name is the channel's and the protocol bits are defined and not empty |
| ChannelSync.SyncChannelGrants | internal/op/channel.go:681-763 | succeeds exactly for resolvable, pairwise distinct grants, and keeps the tables intact |
| ChannelSync.GrantsAfter | internal/op/channel.go:677-763 | afterwards the channel has a grant by these names and protocols if and only if it was submitted |
| ChannelSync.SyncChannelChildren | internal/op/channel.go:239-249 | goes through exactly for acceptable submissions; the channel then holds exactly what was submitted; keys and models submitted again keep ids and counters, keys take the submitted columns; a grant stays, under its id, exactly when its model and key were submitted together; items go exactly with their grant, choices exactly with their item; other channels are untouched |
| ChannelSync.GrantThroughAll | internal/op/channel.go:578-763 | through all three steps a grant of the channel is there in the end if and only if the names of its model and key were submitted as a pair, and it then has the references it had |
| ChannelSync.WithoutChannelIntact | internal/op/channel.go:266-285 | deleting a channel takes exactly the grants of its models along and keeps the tables intact |
| ChannelSync.WithoutChannelInFull | internal/op/channel.go:266-285 | of keys, models and grants exactly those of other channels are left, as they were, and items and choices follow |
| ChannelSync.ClearedThenCascaded | internal/op/channel.go:271-284 | clearing the choices of the channel's grants and then letting the database cascade comes to the same as taking all of it out at once |
| AutoGroups.AppendMissing | internal/op/group.go:170-190 | appends exactly the missing grants, each right behind the largest priority of the group and without a tier; complete groups are left as they are |
| AutoGroups.EnsureAutoGroup | internal/op/group.go:144-190 | one model's group is created only when missing, ends up complete, and nothing else is added |
| AutoGroups.EnsureModels | internal/op/group.go:98-191 | every submitted model with grants has its complete group; a new group has the automatic name of a submitted model and a new item is one of its grants in that group; nothing is removed or changed; priorities strictly increase; no duplicate group or item |
| AutoGroups.Inspect | internal/op/group_prune.go:97-130 | a group is skipped exactly when it has a foreign item; otherwise its stale items are found, and all are stale exactly when no live own item is left |
| AutoGroups.PruneStaleAutoGroups | internal/op/group_prune.go:37-150 | the row-by-row deletion equals dropping stale items and empty groups of untouched candidates in one step; with an item among the candidates an untouched one survives exactly when it keeps a live own item, and every other group loses nothing |
| AutoGroups.PrunedTwice | internal/op/group_prune.go:37-150 | pruning again changes nothing |
| AutoGroups.ChildrenExistExactly | internal/op/group_prune.go:143-147 | pruning keeps all child references on existing groups exactly when no item refers to a group that goes |
| AutoGroups.PruneLeavesDangling | internal/op/group_prune.go:143-147 | concrete tables in which an emptied automatic group goes although a group has it as a child |
| ChildGroups.OutcomeFilled | internal/op/channel.go:106-171 | told from the tables before and the submission: an item stays exactly when it is a child group, a grant of another channel or a pair submitted again; a new one is in the automatic group of a submitted grant; a group goes exactly when pruning starts, its name is of the pattern and it is left without items, and one that stays loses nothing but a choice that went |
| ChildGroups.SparedExactly | internal/op/group_prune.go:143-147 | after a channel write with models every child group exists exactly when pruning does not start, or no item refers to a group with a name of the pattern that is left without items, all told before the write |
| AutoGroups.EnsureAutoGroups | internal/op/group.go:98-195 | filling in the groups of the submitted models and pruning end at rest, and at rest change nothing: a second run is the identity |
| ChannelCache.LookupAgrees | internal/op/channel.go:339-358 | with caches tied to the tables, a lookup finds a grant exactly when it, its model and its key are stored and the key is enabled, and returns the stored grant, names and key columns |
| ChannelCache.Caches.ReloadChannelChildren | internal/op/channel.go:447-513 | rows that stay keep their counters, other channels' entries are untouched, and caches that were in step before the write are in step after the reload |
| ChannelCache.CountersKept | internal/op/channel.go:475-485 | a reloaded key or model has its stored columns, and its cached counters if it was cached |
| ChannelCache.LeftOverExactly | internal/op/channel.go:505-512 | the raw grant map keeps a grant the tables lost exactly when its model is gone too |
| ChannelCache.ReloadTies | internal/op/channel.go:447-513 | stale grants stay unobservable, because model ids are not given out twice |
| ChannelCache.Caches.ForgetChannel | internal/op/channel.go:271-311 | removing a channel from the caches keeps them in step with the tables without it |
| ChannelCache.GrantIDsExactly | internal/op/channel.go:566-574 | the grant ids of a channel by the caches are those of the tables, left-over grants notwithstanding |
| ChannelCache.Caches.ChannelGrantGet | internal/op/channel.go:339-358 | finds a grant exactly when it, its model and its enabled key are there, and what the tables hold when in step |
| GatewayStore.Store.GroupCreate | internal/op/group.go:199-231 | succeeds exactly for a free name and a submittable list; the new group has that name, no choice and the submitted items in order; the depth bound holds for it and survives on all others; keeps the store sound |
| GatewayStore.Store.GroupUpdate | internal/op/group.go:234-302 | all or nothing; the written group has the submitted items in order; the depth bound holds for it, and survives on all groups exactly when there was room above it before; keeps the store sound |
| GatewayStore.Store.GroupDelete | internal/op/group.go:450-493 | removes the group, its items and all references to it, and nothing else; the depth bound survives |
| GatewayStore.Store.ChannelCreate | internal/op/channel.go:72-101 | goes through exactly for writable submissions; the new channel holds them, key columns included; the fate of every item and group is told from the tables before, and with it whether all child groups exist still; the depth bound survives; the caches agree with the tables |
| GatewayStore.Store.ChannelUpdate | internal/op/channel.go:106-171 | goes through exactly for writable submissions; the channel holds what was submitted, and what was submitted again keeps its id, grants and items included; new groups and items are automatic ones of submitted models; the fate of every item and group is told from the tables before, and with it whether all child groups exist still; the depth bound survives |
| GatewayStore.Store.ChannelDelete | internal/op/channel.go:266-315 | choices are cleared by the cached grant ids, then the database cascades: the channel goes with everything that hangs on it, in the tables and in the caches; child groups and the depth bound survive |
| GatewayStore.Store.Perform | internal/op/group.go:199-493 | over every run: the graph stays acyclic, active items are 0 or own items, cached lookups agree with the tables; in a run without channel writes every child group exists, and in one without updates that submit items the depth bound stays |
| ApiKeys.CreateRightExactly | internal/op/apikey.go:20-29 | after a create lookups are right exactly when no live key had the string |
| ApiKeys.UpdateRightExactly | internal/op/apikey.go:31-47 | after an update lookups are right exactly when no other live key has the string that is written |
| ApiKeys.DeleteRightExactly | internal/op/apikey.go:77-96 | after a delete lookups are right exactly when no other live key has the empty string; the stale index entry does no harm |
| ApiKeys.RightExactlyWhenClear | internal/op/apikey.go:20-96 | over every run, lookups by string find exactly the live key with it after each step if and only if each step was clear |
| ApiKeys.EmptyStringIsLost | internal/op/apikey.go:78-95 | a concrete run in which deleting another key hides a live key with an empty string |
| ApiKeys.CachedExactlyUnlessDropped | internal/op/apikey.go:20-47 | after any run a cached key equals its row exactly when its row was not last written by a create that dropped an address list |
| ApiKeys.AddressListIsDropped | internal/op/apikey.go:20-29 | a key created with an address list is restricted until the caches are filled from the table again |
| ApiKeys.FilledRightExactly | internal/op/apikey.go:98-108 | caches filled in any order are right exactly when no two rows share a string |
| ApiKeys.WrittenExactly | internal/op/apikey.go:20-96 | on the table and the cache: a create enters the submitted key, its row without the address list; an update makes row and copy the submitted key, with the old string when none is submitted; a delete removes both; every other id keeps what it has |
| ApiKeys.Store.APIKeyUpdate | internal/op/apikey.go:31-47 | row and cached copy become the submitted key, address list and columns included, an empty string keeps the stored one, every other id keeps what it has, and the index follows |
| ApiKeys.Store.APIKeyDelete | internal/op/apikey.go:77-96 | the row and the cached key go; the index loses the empty string |
| ApiKeys.Store.APIKeyGetByAPIKey | internal/op/apikey.go:61-75 | in a right state it finds key k exactly when k is live and has that string |
| Template.NameInFull | internal/collector/pack.go:109-113 | a name is made of small letters, digits and underscores and does not start with a digit |
| Template.LeadingExactly | internal/collector/pack.go:110 | a text starts with a placeholder exactly when it starts with a well-formed name in braces |
| Template.JoinedPieces | internal/collector/pack.go:335-345 | taking a text apart into placeholders and characters loses nothing |
| Template.RenderTemplate | internal/collector/pack.go:335-350 | rendering succeeds exactly when every name has a value; otherwise it reports exactly the names without one |
| Template.RendersFromLeft | internal/collector/pack.go:335-350 | what rendering comes to, from the left: a name in braces becomes its value, any other character stays |
| Template.RendersToItself | internal/collector/pack.go:335-350 | a text renders to itself when every name stands for its own placeholder, so also when it asks for nothing |
| CollectorPack.ValidateLogin | internal/collector/pack.go:219-265 | accepts exactly valid logins and says which fields they make known; an interactive login makes none known |
| CollectorPack.LoginInFull | internal/collector/pack.go:219-265 | a form login loads like a request that knows nothing yet; an interactive one exactly when its page, if it has one, is on a declared host; no other login does |
| CollectorPack.RuleInFull | internal/collector/pack.go:267-290 | a rule loads exactly when its field is a name of at most 32 characters and its source is a status, or has the path or the expression it needs |
| CollectorPack.ValidateSteps | internal/collector/pack.go:173-212 | accepts exactly well-shaped steps whose names come from the login, earlier steps or the allowed list |
| CollectorPack.Validate | internal/collector/pack.go:139-217 | returns the cleaned-up pack if and only if it is valid: hosts, scoping, and a balance or quota to read; the clean-up touches nothing that is read, sent or taken |
| CollectorPack.CleanPackTwice | internal/collector/pack.go:139-265 | a pack that was cleaned up is cleaned up: loading it again changes nothing |
| CollectorRun.DoRequest | internal/collector/runner.go:430-453 | only 2xx replies get through, so the retry on status 401 at the caller is never reached |
| CollectorRun.LookupThrough | internal/collector/pack.go:353-377 | looking up a joined path is looking up its second part in what the first one finds |
| CollectorRun.LookupOne | internal/collector/pack.go:353-377 | a path of one segment finds the field of that name, or the item at the place the segment reads as |
| CollectorRun.TakesExactly | internal/collector/runner.go:480-520 | what a rule takes by its source: the status, a header that is not empty, a text, number or boolean, the first group of a match when none is asked for, or all of it when there is none; what is absent ends the run |
| CollectorRun.ExtractFields | internal/collector/runner.go:480-520 | the loop over the rules computes the extraction, and stops at the first absent value |
| CollectorRun.ExtractedKeys | internal/collector/runner.go:496-503 | a successful extraction has all fields from headers, matches and statuses, and no field without a rule |
| CollectorRun.LastRuleWins | internal/collector/runner.go:480-520 | a field has the value of the last rule for it that took one |
| CollectorRun.RunStep | internal/collector/runner.go:378-392 | render, send, extract: the outcome of one request |
| CollectorRun.RunLogin | internal/collector/runner.go:352-375 | a login without cookie and value is refused |
| CollectorRun.LoadedNeverMisses | internal/collector/runner.go:224-293 | a loaded pack whose login is not skipped never stops at a missing variable, if the token is there where used and every JSON rule that the run applies lands on a string, number or boolean |
| CollectorRun.NeverMissesExactly | internal/collector/runner.go:224-293 | for all answers, a loaded pack never stops at a missing variable if and only if every name asked for is given at the start or taken before from a header, a match or a status |
| CollectorRun.TokenPackMisses | internal/collector/pack.go:114-122 | a loaded pack that stops in an empty session: checking allows the token everywhere |
| CollectorRun.ValuePackMisses | internal/collector/runner.go:496-503 | a loaded pack that stops when the value its second step asks for turns out to be an object |
| CollectorRun.ApplyFields | internal/collector/runner.go:316-341 | balance, used and quota as they parse; quota less used stands for a missing balance; OK exactly when balance or quota parses |
| CollectorRun.Session.RunVia | internal/collector/runner.go:224-341 | the result is that of the run; the account has its figures as they parse; the session keeps what was extracted exactly when every step went through |
| CollectorSent.RequestsExactly | internal/collector/runner.go:233-288 | every request is that of its step, with each name replaced by the value taken last before it, or by the one given: the session's, else the site or the part of the credentials of that name |
| CollectorSent.PlaceholderSent | internal/collector/runner.go:233-243 | a body that is one placeholder is sent as the value its name stands for |
| CollectorSent.OutcomeExactly | internal/collector/runner.go:245-341 | a run ends at the first step that fails, with the reason its answer gives, at the first that asks for a name that stands for nothing, or behind its last step; it keeps each name taken, with the value taken last |
| CollectorSent.OnlySentMatters | internal/collector/runner.go:224-314 | nothing else is sent: the outcome depends on no answer but those to the requests of the run |
| CollectorSent.OnlyDeclaredHosts | internal/collector/pack.go:292-314 | a loaded pack sends nothing to a host it does not declare |
| Backup.SanitizedStands | internal/op/backup.go:433-526 | what is kept is part of the dump and every foreign key in it hits a kept or an existing row |
| Backup.SanitizedIsGreatest | internal/op/backup.go:433-526 | any part of the dump that can stand is kept |
| Backup.ChildrenKeptExactly | internal/op/backup.go:433-526 | a key or model is kept exactly when its channel is dumped or there, statistics exactly when their API key is |
| Backup.GrantsKeptExactly | internal/op/backup.go:433-526 | a grant is kept exactly when its model and its key are kept or there |
| Backup.ItemsKeptExactly | internal/op/backup.go:433-526 | an item is kept exactly when its group, and its child if it has one, is dumped or there, and its grant, if it has one, is kept or there |
| Backup.SanitizedInOrder | internal/op/backup.go:447-520 | the order of the dump is kept and parent tables are left alone |
| Backup.Dump.SanitizeOrphanRows | internal/op/backup.go:433-526 | the filtering in place, with kept plus skipped equal to what was there for each table |
| BackupImport.RawCreate | internal/op/backup.go:607-637 | rows one by one, skipped or overwritten on a conflict; the first one that the database refuses ends it |
| BackupImport.Instance.DBImportIncremental | internal/op/backup.go:206-430 | parents first, then orphans are dropped against what is there, then the children; a refused import changes nothing |
| BackupImport.AllLandExactly | internal/op/backup.go:259-275 | the dumped channels or groups are there after the skipping insert exactly when each id is known or some row enters under it, as followed down the list beforehand |
| BackupImport.LandsExactlyIfFree | internal/op/backup.go:259-275 | for the rows of a dumped table: exactly when the names of the rows with new ids are taken by no row of the database and by no other such row |
| BackupImport.FreeNamesLand | internal/op/backup.go:259-275 | enough for every list: each id is known, or its name is held by no row of the database and by no earlier dumped row |
| BackupImport.SharedNameCanLand | internal/op/backup.go:259-275 | that is not needed: an earlier row may hold the name and be skipped itself |
| BackupImport.NeverMissingExactly | internal/op/backup.go:423-526 | for given channels and groups no import is refused for a missing parent, whatever else is dumped, if and only if all of them land |
| BackupImport.NeverMissingByNames | internal/op/backup.go:423-526 | the same for dumped tables, by ids and names alone |
| BackupImport.ImportKeepsSound | internal/op/backup.go:256-320 | an import that goes through keeps primary keys, unique indexes, foreign keys and the owners of statistics in order |
| BackupImport.DanglesExactly | internal/op/backup.go:256-320 | after it the only references that dangle are child references, and those exactly to a skipped group |
| BackupImport.StaysIntactExactly | internal/op/backup.go:256-320 | for given channels and groups no import that goes through leaves a dangling reference if and only if all the groups land |
| BackupWritten.ImportWrites | internal/op/backup.go:256-320 | channels, groups, items and API keys that are there are untouched; of keys, models, grants and statistics the last kept row of each id is written over what was there |
| BackupWritten.KeptItemsThere | internal/op/backup.go:256-320 | for every kept item there is one of its id, or of its group and target, afterwards |
| BackupWritten.GrantTwiceExactly | internal/op/backup.go:607-637 | an overwriting row is refused as a duplicate exactly when another row has its model and key |
| BackupWritten.ChildTwiceExactly | internal/op/backup.go:607-637 | the same for keys and models: another row has its channel and name |
| BackupWritten.ItemEntersExactly | internal/op/backup.go:607-637 | an item enters exactly when neither its id nor, within its group, its grant or its child is taken |
| BackupImport.BackupRestores | internal/op/backup.go:20-117 | importing a dump of a database where rows of it are missing goes through, brings all of them back and changes nothing else: into an empty database, or into the same one |
| BackupRepeat.SecondImportIsIdleExactly | internal/op/backup.go:246-320 | a second import of the same dump goes through and changes nothing if and only if, of the rows kept the first time, keys, models, grants and API keys have ids, an item has an id or refers to something, and no key, model or grant runs into another row of the list when written over again |
| BackupRepeat.ReplayExactly | internal/op/backup.go:607-637 | an accepted list is accepted again by the table it left exactly when no row of it has the unique columns that a row of another id, coming first behind it, ends with |
| BackupRepeat.KeyedIsRepeatable | internal/op/backup.go:246-320 | so for every dump whose rows have ids of their own |
| BackupRepeat.RowWithoutIdComesAgain | internal/op/backup.go:528-536 | the failing side: an API key without an id enters twice |
| BackupRepeat.RepeatedIdDoesNotReplay | internal/op/backup.go:607-637 | the failing side for ids: a list with one id twice that goes in once and is refused the second time |
| ClashParse.GivenOutIsFilled | internal/clashcfg/parse.go:123-145 | as long as the names given out are distinct, they are those that the names of the file are seen to fill |
| ClashParse.DistinctExactly | internal/clashcfg/parse.go:123-145 | the names given out are distinct exactly when no position of the file finds both its name and the `-2` form of it filled by the positions before it |
| ClashParse.ThreeOfAKindCollide | internal/clashcfg/parse.go:139-143 | A, A, A becomes A, A-2, A-2 |
| ClashParse.DistinctIfPairs | internal/clashcfg/parse.go:123-145 | enough: no name three times, and no repeated name beside its own `-2` form |
| ClashParse.RenamedFacts | internal/clashcfg/parse.go:139-144 | renaming changes nothing but names, and those become the names given out |
| ClashParse.TakenInFull | internal/clashcfg/parse.go:122-145 | the nodes taken are the complete entries that are no notices, each once and in order |
| ClashParse.NoticesInFull | internal/clashcfg/parse.go:122-145 | the notices are the names of the other complete entries, in order |
| ClashParse.Parse | internal/clashcfg/parse.go:122-145 | usable nodes in order under the names given out; notices apart |
| ProxyImport.NodeTable.ProxyNodeImport | internal/op/proxy_node.go:272-335 | the loop over the parsed nodes equals the import function on table, lookup map and counters |
| ProxyImport.RowsExactly | internal/op/proxy_node.go:296-333 | a name without a node keeps its row; what is known of a name is its row at the start or the row of its first node, and the row ends with the content of the last node of the name that differs from what is known, under its number and switch, or as known when none does |
| ProxyImport.LastWinsExactly | internal/op/proxy_node.go:296-320 | the row says what the last node of its name says exactly when that node differs from what was known, or no node of the name does |
| ProxyImport.MiddleStays | internal/op/proxy_node.go:296-320 | two contents, then the first again, under one new name: the second stays |
| ProxyImport.CountsExactly | internal/op/proxy_node.go:282-335 | one row is imported for each new name, one update counted for each node that differs from what is known of its name, the others are skipped |
| ProxyImport.SecondImportIsIdleExactly | internal/op/proxy_node.go:282-335 | importing the same nodes again imports and updates nothing if and only if nodes of one name have one content |
| ProxyImport.DistinctNamesAgree | internal/op/proxy_node.go:282-335 | distinct names suffice |
| Analytics.FaultCounts.ApplyFaultCount | internal/op/relay_stats.go:118-138 | a row counts in its own class and in no other |
| Analytics.FaultCountsAddUp | internal/op/relay_stats.go:48-50 | the six classes add up to the number of rows |
| AnalyticsFigures.ClassInFull | internal/op/relay_stats.go:118-138 | a row is a success or canceled by its status, any other is attributed by the kind of its fault, and one of no known kind is unclassified |
| Analytics.AccumulateDimension | internal/op/analytics.go:238-256 | the usage per value stays that of the rows seen |
| AnalyticsFigures.UsageInFull | internal/op/analytics.go:238-256 | by the columns of the rows: requests, successes, tokens of each kind, costs and milliseconds of a value are what its rows add up to |
| Analytics.DimensionCountsEveryRow | internal/op/analytics.go:230-256 | every row is counted once in each dimension |
| Analytics.AccumulateModelChain | internal/op/analytics.go:403-426 | per channel requests = reported + silent and reported = matched + mismatched, each the count of its rows |
| AnalyticsFigures.ChainInFull | internal/op/analytics.go:403-426 | by the columns: a row without a reported model is silent, any other matched or mismatched by its mark |
| AnalyticsSeries.AddToBucket | internal/op/analytics.go:369-396 | a row is filed in the bucket of its hour, totals and breakdowns alike |
| AnalyticsFigures.BucketInFull | internal/op/analytics.go:369-396 | by the columns: totals and breakdowns of a bucket are what its rows add up to |
| AnalyticsFigures.HourInFull | internal/op/analytics.go:373-374 | the hour of a row is the last full one that is not later |
| AnalyticsSeries.PartsAddUp | internal/op/analytics.go:380-396 | tokens and costs by model add up to the bucket's totals |
| AnalyticsSeries.RollUpAnalyticsBuckets | internal/op/analytics.go:600-635 | rolling hours up gives the buckets that filing by day would have given |
| AnalyticsSeries.BucketsCountEveryRow | internal/op/analytics.go:600-635 | every row is in exactly one bucket, hourly or daily |
| AnalyticsSeries.TrimAnalyticsSeries | internal/op/analytics.go:639-679 | the top eight models stay, the rest is merged under one name, totals untouched |
| AnalyticsSeries.TrimKeepsTotalExactly | internal/op/analytics.go:639-679 | trimming keeps a breakdown's total exactly when the merged rest is zero, or positive and does not overwrite a kept model of its own name |
| AnalyticsSeries.RestOverwrites | internal/op/analytics.go:639-679 | a kept model with the name of the merged rest loses its own usage |
| AnalyticsOverview.RankDimension | internal/op/analytics.go:683-713 | every value once, by rank |
| AnalyticsFigures.TopInFull | internal/op/analytics.go:639-713 | names come by requests, then by name; the time line keeps eight models, or all there are, and none that is left out has more requests than one of them |
| AnalyticsOverview.AnalyticsOverviewStats | internal/op/analytics.go:292-400 | counters, dimensions, chains and series of all rows |
| AnalyticsOverview.ShownBreakdownsAddUp | internal/op/analytics.go:502-580 | in each bucket shown the breakdowns add up, for rows that are not negative and no top model named like the rest |
| Latency.PercentRankIsCeiling | internal/op/channel_latency.go:155-157 | for whole percentages the rank is the exact ceiling, over the reals and in integers |
| Latency.RoundsUpExactly | internal/op/channel_latency.go:155-157 | adding 0.999999 and cutting off rounds up exactly unless the fraction lies strictly between 0 and 0.000001 |
| Latency.Percentile | internal/op/channel_latency.go:148-166 | the sample at the clamped nearest rank, found in a sorted copy |
| Latency.RanksAreOrdered | internal/op/latency_dist.go:177-195 | a higher rank is a sample at least as large |
| Latency.QuantilesOf | internal/op/latency_dist.go:177-195 | min and max bound all samples, each percentile is the sample at its exact rank, and min <= P50 <= P90 <= P95 <= P99 <= max |
| Latency.TailOf | internal/op/latency_dist.go:197-213 | slow and over-a-minute counts are exact |
| Latency.HistogramOf | internal/op/latency_dist.go:215-241 | each bucket counts exactly the samples between its bounds |
| Latency.BucketInFull | internal/op/latency_dist.go:215-241 | a bucket counts the positions whose sample is below its bound and not below the one before it |
| Latency.CountsInFull | internal/op/latency_dist.go:197-213 | counts are numbers of positions, at or above a threshold, below it, or between two |
| Latency.BucketsCountEverySample | internal/op/latency_dist.go:215-241 | no sample is lost or counted twice |
| Latency.HistogramAgreesWithTail | internal/op/latency_dist.go:124-138 | the last bucket is the over-a-minute count, the last two are the slow ones |
| Balance.DaysLeft | internal/model/manual_subscription.go:81-94 | -1 exactly without a date, 0 exactly when the date is reached; otherwise a started day counts in full |
| Balance.RowInFull | internal/op/manual_subscription.go:146-182 | a subscription can be used when it is enabled and its date, if it has one, is not reached; its own unit comes before the general one |
| Balance.ManualSubscriptionRows | internal/op/manual_subscription.go:146-182 | one row for every subscription, by channel and id |
| Balance.ManualSubscriptionByChannel | internal/op/manual_subscription.go:188-199 | the first usable bound row of each channel |
| Balance.FirstHasLowestId | internal/op/manual_subscription.go:176-199 | that row has the lowest id among the usable ones |
| Balance.AddChannel | internal/op/balance.go:43-108 | one channel adds its money from exactly one origin, or a reason |
| Balance.MoneyInFull | internal/op/balance.go:50-108 | a channel's money is its reading, in currency or in points; without one, the first usable subscription bound to it; without one, the points entered by hand; without any, nothing |
| Balance.BalanceSummaryGet | internal/op/balance.go:24-144 | total = money of all channels + usable unbound subscriptions; known + unknown = channels; reason counts add up to unknown |
| Balance.UnboundInFull | internal/op/balance.go:112-133 | what the rows add by themselves: the balances of those that are enabled, not expired and bound to no channel |
| Balance.TotalIgnoresOrder | internal/op/balance.go:43 | the sum does not depend on the order of the channels |
| Balance.MarkedExactlyIfEntered | internal/op/balance.go:112-133 | the "counted" mark says what is in the total exactly when no channel paid from a subscription has two usable ones |
| Balance.SecondIsMarkedToo | internal/op/balance.go:112-133 | a second usable subscription of a channel is marked as counted and is in no sum |

## Left out

- Everything behind a library call: HTTP, proxies, cookies, SMTP and webhooks, SQL text and GORM, the
  regular-expression engine, YAML and JSON decoding, URL parsing, encryption. A web answer is an arbitrary
  function of the request; sealing is an opaque pair that opens to what was sealed; the rest are parameters.
- Interleavings: the operations run under locks and are modelled as atomic.
- Floating point: amounts are reals, counts and times are integers; rounding is not modelled.
- Letter case and white space are those of ASCII; full Unicode folding is not modelled.
- The relay engine, background jobs and HTTP handlers are not part of this model.
- Group modes, relay configuration and most channel columns: they are stored and read without logic here.
- The group cache and its name index: existence is looked up in the tables instead.
- GatewayStore.Store.Perform: says nothing about child groups after channel writes, since pruning can leave dangling references, and about the depth bound after updates that submit items, since groups above are not checked; the exact condition of each is proved for the single write.
- Route cooldowns, log filters, latency grouping, group usage, settings, the CLI export and the front end would
  add easy members only.
- GatewayStore.Store.ChannelUpdate: leaves out the remaining columns of a channel and their caches.
- AutoGroups.PruneStaleAutoGroups: the name pattern is a parameter; wildcards inside a channel's name are not modelled.
- BackupImport.Instance.DBImportIncremental: channel statistics, settings, logs, proxies and accounts are left out, as are unique indexes across them.
- CollectorPack.Validate: error texts and their order are left out; group numbers of rules are natural numbers, while the code takes any integer and a negative one ends in a crash.
- CollectorRun.ExtractFields: how a path segment reads as a number is a parameter.
- CollectorRun.Session.RunVia: the texts of steps and failures, currency, user name and note are left out.
- Template.RenderTemplate: the missing names are reported in order of occurrence, not sorted.
- ProxyImport.NodeTable.ProxyNodeImport: parameters that are blank before sealing are left out, as a parsed node never has them.
- ClashParse.Parse: which names are notices is a parameter; note texts are left out.
- AnalyticsOverview.AnalyticsOverviewStats: rates, averages and active hours are left out.
- Latency.TailOf: how thresholds are chosen is left out.
- Balance.BalanceSummaryGet: names, key counts and the rows of API keys are left out.
- ApiKeys.Store.APIKeyDelete: the statistics of a key are left out.
