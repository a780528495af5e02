# flag-it: a verified model

flag-it serves feature flags: a Go server evaluates flags for contexts from an in-memory cache, replicas keep their
caches equal to one database by broadcasting changes, clients follow changes over event streams, and a few background
workers apply scheduled changes, deliver webhooks and count evaluations. This project models that behaviour in Dafny
and proves what it promises, for every input, every reachable state or every run. `dafny verify dfyconfig.toml` checks
all of it.

| module | models |
|---|---|
| `Models`, `Float64`, `Int64`, `Bucketing`, `Segments`, `SegmentMeaning`, `SegmentCycles`, `Evaluation`, `TargetingMeaning`, `Prerequisites`, `Validation`, `ValidationMeaning` | the evaluation engine: rollouts by hash in floating point, weights summed in 64 bits, nested segments and prerequisites over possibly cyclic graphs, the targeting order, validation |
| `Edits`, `Sharing`, `Instructions`, `FlagStore`, `EditMeaning` | the instruction editor: the pure edit, what a copy's edits do to the storage it shares, the program over arrays that computes both, and the stored configurations |
| `Replication`, `ReplicaSafety`, `Convergence`, `Service`, `Streams`, `StreamProgress`, `ReplicaStreams` | the replica cache protocol, the flag service's own fields, and the wakeups of event streams, each protocol with its safety and its progress, and both protocols together |
| `EventStream`, `ClauseText`, `Text` | server-sent events as written and as two SDKs read them; the dashboard's value editor |
| `Scheduler`, `Webhooks`, `SdkCache`, `Analytics` | the background machines and the SDK-key cache |
| `Transitions`, `Lists`, `MapSums` | runs of a step relation, lists without repeats, sums over maps |

Where the source changes things step by step the model does too: arrays compacted in place, a class per object with
fields, a mutable set of marks undone on every exit, loops with invariants. Each such method is proved equal to a
function of its inputs, and the lemmas below are about those functions. What the functions compute is said a second
time, in terms of contexts, stored values, hashed texts and single rows, in the modules with Meaning in their names and
in the lemmas with Means in theirs. Protocols are step relations whose steps interleave freely. In particular a reload
is two queries and an install, a scheduler tick is a listing and then one attempt after another, a lookup in the SDK-key
cache is a read and a later put, and a flush writes row by row. Points and bucket edges are rounded where the program
rounds them.

The model takes as given a hash of texts into 60 bits and the outcome of one operator on one pair of values (`World`),
the number syntax and white space of the JavaScript runtime (`Runtime`), the clock, the answers of the database, and
the random ids the server draws.

## Where the code differs from what it says

These follow the code. Each is a theorem, with a lemma at an input or a run that shows the difference.

- A bucket is said to lie in [0,1) (`internal/flags/targeting_eval.go:11-13`, `:168`). It is 1 exactly for the 64 largest
  hashes, because the denominator and those hashes round to 2^60: `BucketIsOneExactly`. The last-entry fallback is
  reached exactly from the last edge on (`ZeroWeightServedExactly`), and the rounded sum of the weights can fall short of
  1 (`TenTenthsFallShort`). An accepted rollout that serves an entry of weight 0: `WeightlessEntryIsServed`.
- The weights of a rollout are said to add up to 100000 (`internal/flags/validate.go:70-80`), but they are added in 64
  bits and none of them is bounded: `WrappedSumIsAccepted` is an accepted rollout of larger weights. Acceptance means a
  true sum exactly if no partial sum leaves the 64-bit range, that is, if none is computed negative:
  `AcceptedSumIsFullExactly`.
- Moving weight towards earlier entries can move a context to a later one. An edge whose total stays the same but is
  split differently can round down: `RampUpMovesLaterExactly` says for which points, and
  `RampUpMovesSomeoneLater` gives two rollouts and a hash.
- `ApplyInstructions` is said to work on a copy (`internal/flags/instructions.go:45`), but the copy shares the storage of
  its lists. The last clause of `ApplyInstructions` says what the caller's configuration holds after any list of
  instructions; `OneInstructionSparesExactly` says for each kind of instruction exactly when that is what it held before;
  `ForeignEditSparesCaller` gives a condition for whole lists. `RemoveThenAddIsSeen`: two instructions that each spare
  the caller, and together do not. `PatchFlagConfig` drops its original, so stored configurations are not affected.
- Replicas always converge exactly if instance ids are distinct, no fault occurs, and no install brings content older than
  is cached, as when reloads of one environment on one replica do not overlap: `ConvergesExactly`. A fault is a reload or
  a broadcast that fails, or a request that ends after it has written and before it reloads anything, because listing the
  environments or adding their rows fails (`internal/flags/service.go:313-325`, `:402-408`, `:414-425`). Nothing in
  `internal/flags/service.go:129-157` keeps older content out. `SettledHasSeenTheDatabase` says of every run what remains
  true without these conditions; the failing runs are `OverlappingReloadsLoseUpdates`, `FailedReloadLosesUpdates`,
  `AbandonedRequestLosesUpdates` and `SharedIdLosesUpdates`.
- A change cancelled while it waits in a batch already listed is applied all the same, and keeps the status cancelled
  (`internal/governance/scheduled.go:96-118`): `CancelledIsAttemptedExactlyIfListed`, `CancelledChangeIsApplied`.
- Flushing the SDK-key cache is said to make a revoke take effect now (`internal/catalog/catalog.go:132`). A lookup that
  read the key before the revoke can still put it back: `FlushTakesEffectExactly`, `RevokedKeyIsAdmitted`.
- The Go reader delivers an event that the end of the body cuts short of its blank line, the JavaScript reader does
  not (`sdk/go/flagit.go:315-336`, `sdk/javascript/src/index.ts:393-417`): `ReadersAgreeExactly`, `CutOffBodyIsReadByOne`.
  It also stops at a line of one mebibyte, so the two read the same payloads exactly if every data line is shorter:
  `BothClientsReadThePayloads`.
- The cycle guard of segments computes the documented meaning on every graph in which no risky reference lies on a cycle
  (`GuardedMembershipIsConsistent`, `GuardedMembershipIsTheMeaning`). A reference is risky for a context if it is negated
  and stands in a rule that admits the context, or if it is plain and stands in a rule that does not admit it and that
  other rules follow. So cycles are harmless for every context unless they pass through a negated reference or a weighted
  rule that is not the last (`SafeForEveryContext`). With such a cycle the answers need not satisfy the meaning:
  `ComplementaryCycleRejectsEveryone` for negation, `WeightedCycleHasNoMeaning` for weights. On a ring of segments whose
  one rule has one clause on the next segment, any number of these negated, the guard puts the context in all of them if
  that number is odd and in none if it is even (`RingAnswers`). If nothing else is stored, some membership satisfies the
  meaning exactly if it is even, and the answers do exactly if it is 0 (`RingExactly`).
- Saving a flag definition can drop variations without looking at stored targeting (`internal/flags/service.go:307-329`).
  No evaluation changes if the stored targeting is accepted for the variations kept (`AcceptedShrinkingChangesNothing`);
  the condition is exact for off-flags (`ShrinkingOffFlagExactly`), for flags with targets and a fixed variation for
  everyone else (`ShrinkingTargetsExactly`), and for flags with targets and a rollout (`ShrinkingRolloutExactly`). A flag
  that serves null: `ShrinkingServesNull`.
- A saved configuration can repeat the id of a rule, which no instruction brings about: `SavingMayRepeatRuleIds`,
  `EveryRunStaysWellFormed`.
- A number too large for a double is read as infinite and printed as null: `EditingSurvivesExactly`, `OverflowIsLost`.

## Model

| member | source | states |
|---|---|---|
| `Models.ResolvePath` | internal/models/context.go:150-164 | walking a nested attribute reference yields the value at the end of the path, or nothing as soon as a step is not an object holding the field |
| `Models.PlainReferenceMeans` | internal/models/context.go:132-148 | a plain reference: "key" and "kind" are reserved, any other is an attribute, and the kind "" is "user" |
| `Models.PathReferenceMeans` | internal/models/context.go:132-164 | "/a" is attribute a, and "/p/b" is field b of what "/p" refers to |
| `Text.ItoaSpells` | internal/flags/targeting_eval.go:151-153 | a number is hashed as the decimal digits that spell it, without leading zeros, and a minus sign if negative |
| `Bucketing.Bucket` | internal/flags/targeting_eval.go:146-166 | the accumulating loop serves the first entry whose rounded cumulative weight lies above the context's rounded point, else the last entry, and 0 for an empty rollout |
| `Bucketing.PickIsTheOwner` | internal/flags/targeting_eval.go:158-165 | for weights that are not negative and any point below the last edge, the entry served is the one and only owner of the point, and never has weight 0 |
| `Bucketing.ZeroWeightServedExactly` | internal/flags/targeting_eval.go:158-165 | the fallback is reached if and only if the point is not below the last edge, and an entry of weight 0 is served if and only if that is so and the last entry has weight 0 |
| `Bucketing.BucketIsOneExactly` | internal/flags/targeting_eval.go:184-188 | the point never exceeds 1, and is 1 if and only if the hash is one of the 64 largest |
| `Bucketing.EdgeIsNear` | internal/flags/targeting_eval.go:158-160 | every edge up to the full weight lies where the exact weights put it, up to three units of 2^-53 for each weighted entry |
| `Bucketing.EdgeIsBeyond` | internal/flags/targeting_eval.go:158-160 | once the weights add up to more than 100000 the rounded edge lies beyond every point |
| `Bucketing.ShareIsProportional` | internal/flags/targeting_eval.go:158-165 | for every accepted rollout, the number of the 2^60 hashes sent to an entry differs from the share of what it covers of the first 100000 units by at most 258 and 768 for each weighted entry, all rounding included; with a true sum of 100000 that is its weight |
| `Bucketing.ServedExactly` | internal/flags/targeting_eval.go:158-165 | some hash is served an entry if and only if the entry begins on the line and has weight or is the last |
| `Bucketing.AcceptedSumIsFullExactly` | internal/flags/validate.go:70-80 | the weights of an accepted rollout add up to 100000 if and only if no partial sum leaves the 64-bit range, and if and only if no partial sum is computed negative |
| `Bucketing.WrappedSumIsAccepted` | internal/flags/validate.go:70-80 | three entries of weights in range that add up to 2^64 + 100000 are accepted, and everyone is served the first |
| `Bucketing.NeverMovesLaterExactly` | internal/flags/targeting_eval.go:158-165 | no point moves to a later entry if and only if no rounded edge moves back |
| `Bucketing.RampUpMovesLaterExactly` | internal/flags/targeting_eval.go:158-165 | between accepted rollouts of which the second has no smaller cumulative weights, a point moves to a later entry if and only if the edge after its entry keeps its total, rounds lower than before, and leaves the point in the gap, which is as narrow as the two rounding errors |
| `Bucketing.RampUpMovesSomeoneLater` | internal/flags/targeting_eval.go:158-165 | moving weight from the second to the first of three entries, 10000, 20000, 70000 to 15000, 15000, 70000, moves a hash from the second entry to the third |
| `Bucketing.RampUpNeverMovesLater` | internal/flags/targeting_eval.go:158-165 | so if every entry begins where it did, with the same weights before it, or at least one unit later, no context moves to a later entry: one unit outweighs every rounding |
| `Bucketing.TwoWayRampUpKeepsMembers` | internal/flags/targeting_eval.go:146-166 | ramping up a two-way rollout keeps everyone who already had the first variation |
| `Bucketing.UnhashableGetsFirstBucket` | internal/flags/targeting_eval.go:168-181 | a context whose bucketing value is missing or not hashable is served the first entry with any weight, whatever the hash |
| `Bucketing.WeightlessEntryIsServed` | internal/flags/targeting_eval.go:161-165 | an accepted rollout serves its entry of weight 0 to the 64 largest hashes and to no other |
| `Bucketing.TenTenthsFallShort` | internal/flags/targeting_eval.go:158-160 | ten entries of weight 10000 end at 1 - 2^-53 |
| `Segments.ContextInSegment` | internal/flags/segments.go:11-36 | the recursion through the shared marks decides guarded membership, terminates on every graph and leaves the marks as it found them |
| `Segments.MatchClauses` | internal/flags/segments.go:54-61 | all clauses must match and an empty list matches nothing, stopping at the first failure; marks restored |
| `Segments.MatchClause` | internal/flags/targeting_eval.go:93-132 | one clause: segment references, missing attributes, arrays matched by any element, negation; marks restored |
| `Segments.SegmentDecidesInOrder` | internal/flags/segments.go:11-36 | excluded loses always, then included wins, and then membership is whether the first rule that holds admits by weight |
| `Segments.ClauseOrderIrrelevant` | internal/flags/segments.go:54-61 | permuting a rule's clauses never changes whether it matches |
| `Segments.MarkedSegmentsAreInvisible` | internal/flags/segments.go:12-16 | what is stored under a key already being decided never influences a decision |
| `Segments.RaisingWeightKeepsMembers` | internal/flags/segments.go:25-35 | storing a segment with a heavier rule removes no member from it, on any graph, cyclic ones included |
| `SegmentMeaning.StratifiedExactly` | internal/flags/segments.go:12-16 | segments can be ranked so that risky references lead strictly down and all others not up, if and only if no cycle passes through a risky one: a negated reference in a rule that admits the context, or a plain one in a rule that does not and that others follow |
| `SegmentMeaning.DecideIsMonotone` | internal/flags/segments.go:18-36 | a larger membership decides for the context wherever a smaller one does, if risky references are answered alike |
| `SegmentMeaning.HigherMarksAreIrrelevant` | internal/flags/segments.go:12-16 | marks on segments of higher rank change no decision |
| `SegmentMeaning.MarksOnlyCost` | internal/flags/segments.go:12-16 | marks at a segment's own rank can only cost it members |
| `SegmentMeaning.MarkingANonMemberIsFree` | internal/flags/segments.go:12-16 | marking a segment that does not have the context costs no other of its rank a member |
| `SegmentMeaning.GuardedMembershipIsConsistent` | internal/flags/segments.go:11-36 | on every graph with no risky reference on a cycle, the guarded answers satisfy the guard-free definition |
| `SegmentMeaning.SafeForEveryContext` | internal/flags/segments.go:11-36 | they do for every context if no cycle passes through a negated reference or a reference in a weighted rule that others follow |
| `SegmentMeaning.MembersAreForced` | internal/flags/segments.go:11-36 | every membership that satisfies the definition, and agrees at lower ranks, has at least the guarded members |
| `SegmentMeaning.GuardedMembershipIsTheMeaning` | internal/flags/segments.go:11-36 | on those graphs a membership satisfies the definition and is least rank by rank if and only if it is the one computed |
| `SegmentMeaning.PositiveMembershipIsLeast` | internal/flags/segments.go:11-36 | where no reference is risky, as with neither negation nor a weight before another rule, on any graph, the guarded answers are contained in every membership that satisfies the definition |
| `SegmentMeaning.AcyclicMembershipIsUnique` | internal/flags/segments.go:11-36 | without cycles a membership satisfies the definition if and only if it is the one computed, negated clauses included |
| `SegmentMeaning.ComplementaryCycleRejectsEveryone` | internal/flags/targeting_eval.go:107-110 | negation on a cycle: two segments defined as each other's complement both reject everyone, which satisfies neither definition |
| `SegmentMeaning.WeightedCycleHasNoMeaning` | internal/flags/segments.go:29-33 | a weighted rule before another on a cycle: on a graph without negation all segments accept the user, and no membership at all satisfies the definition |
| `SegmentCycles.LinkAnswers` | internal/flags/segments.go:11-36 | under the guard, a segment that relays another answers what the other answers with one more mark, or the opposite |
| `SegmentCycles.RingAnswers` | internal/flags/segments.go:12-16 | on any ring of segments that each relay the next, negated or not, whatever else is stored, the context is in each of them if and only if an odd number of the references is negated |
| `SegmentCycles.OddRingHasNoMeaning` | internal/flags/segments.go:11-36 | with an odd number of negated references on such a ring no membership satisfies the definition, whatever else is stored |
| `SegmentCycles.RingExactly` | internal/flags/segments.go:11-36 | on a ring by itself some membership satisfies the definition if and only if an even number of references is negated, and then exactly two do; the computed one does if and only if none is negated |
| `Evaluation.EvaluateFlag` | internal/flags/targeting_eval.go:28-30 | evaluating a flag is guarded evaluation from an empty guard |
| `Evaluation.EvaluateVisited` | internal/flags/targeting_eval.go:32-75 | the recursion through the shared marks computes guarded evaluation, terminates on every prerequisite graph and restores the marks on every exit |
| `Evaluation.CheckPrerequisites` | internal/flags/targeting_eval.go:41-56 | the loop passes if and only if every prerequisite is stored, unmarked, on, not failed and serving the required variation |
| `Evaluation.ServeFlag` | internal/flags/targeting_eval.go:59-74 | what an on-flag serves, each of its rules starting from fresh marks |
| `Evaluation.TargetingOrder` | internal/flags/targeting_eval.go:59-74 | targets come before rules and rules before the fallthrough; the first match of each kind gives variation and reason |
| `TargetingMeaning.AttributeClauseMeans` | internal/flags/targeting_eval.go:112-132 | a clause on an attribute: on a value that is no array it holds if the operator relates it to a listed value, on an array if that is so of some element, negated if not, and neither way where the attribute is missing |
| `TargetingMeaning.AllPassExactly` | internal/flags/segments.go:54-61 | clauses hold together if and only if there are some and each passes, said of members, listed values and the operator alone |
| `TargetingMeaning.RolloutMeans` | internal/flags/targeting_eval.go:146-182 | a rollout serves the first entry whose edge lies above the point of the hash of one text: the seed, or the flag's key and salt, then a dot and the context's value |
| `TargetingMeaning.SeededRolloutIgnoresFlag` | internal/flags/targeting_eval.go:150-156 | with a seed the flag's key and salt play no part |
| `TargetingMeaning.HashedTextDecides` | internal/flags/targeting_eval.go:150-182 | a context with a textual value is served the owner of the point of that one hash |
| `TargetingMeaning.OtherHashesDoNotMatter` | internal/flags/targeting_eval.go:182-188 | two hash functions that agree on that text serve it alike |
| `TargetingMeaning.AdmitsExactly` | internal/flags/segments.go:25-35 | a weighted segment rule admits if and only if the point of the hash of the segment's key and salt and the context's value lies below the weight |
| `TargetingMeaning.SegmentMeans` | internal/flags/segments.go:18-36 | a segment has a context if and only if it does not list it as excluded, and lists it as included or the first rule whose clauses all pass admits it |
| `TargetingMeaning.EvaluationMeans` | internal/flags/targeting_eval.go:32-75 | the off variation for an off-flag and for an unmet prerequisite; else the variation of the first target naming the context, the serve of the first rule whose clauses all pass, or the fallthrough; with the value stored for it |
| `Prerequisites.EvaluationMeansDerivation` | internal/flags/targeting_eval.go:32-75 | a flag passes if and only if a finite derivation, with no guard in it, shows that it and all it depends on are on and serve what is required; it then serves its own targeting, and otherwise its off variation with the right reason |
| `Prerequisites.PassHasDerivation` | internal/flags/targeting_eval.go:38-57 | under any guard, a pass has a derivation |
| `Prerequisites.DerivationPasses` | internal/flags/targeting_eval.go:38-57 | a derivation that keeps clear of the guard is a pass: the guard never rejects wrongly |
| `Prerequisites.DerivablePathHasNoRepeat` | internal/flags/targeting_eval.go:42-44 | under a derivation no prerequisite path visits a flag twice |
| `Prerequisites.ReachingACycleFails` | internal/flags/targeting_eval.go:42-44 | any on-flag from which prerequisites lead into a cycle, however deep, fails and serves its off variation |
| `Prerequisites.PrerequisiteOrderIrrelevant` | internal/flags/targeting_eval.go:41-56 | permuting the prerequisites of every flag of an environment changes no result |
| `Validation.ValidateVOR` | internal/flags/validate.go:56-87 | accepts if and only if exactly one of variation and rollout is set, in range, with weights not negative whose sum in 64 bits is 100000; the error named is the first one present |
| `Validation.ValidateConfig` | internal/flags/validate.go:24-52 | accepts if and only if the configuration is fit for the number of variations, sums taken in 64 bits; a rejection names the first error in checking order |
| `ValidationMeaning.ServeErrorIsTheFirst` | internal/flags/validate.go:56-87 | a serve is accepted if and only if nothing is wrong with it at any place, and the error names what is wrong at the first |
| `ValidationMeaning.AcceptedIfNothingIsWrong` | internal/flags/validate.go:24-52 | a configuration is accepted if and only if nothing is wrong with it at any stage |
| `ValidationMeaning.ConfigErrorIsTheFirst` | internal/flags/validate.go:24-52 | the error names what is wrong first, by stage and by place in the list |
| `Validation.AcceptedConfigServesAVariation` | internal/flags/validate.go:21-24 | an accepted configuration serves, for every context, environment and guard, an index in range together with that variation's value |
| `Validation.ServedIndexIgnoresVariations` | internal/flags/targeting_eval.go:32-75 | changing what the variations of any flags are changes no served index and no reason, prerequisites at any depth included |
| `Validation.ShrinkingServesAsBeforeExactly` | internal/flags/service.go:307-329 | after variations are dropped from a definition, the flag serves the same index for the same reason, and what it served if and only if that index survives or the value was null |
| `Validation.ShrinkingLeavesOtherFlags` | internal/flags/service.go:307-329 | no other flag is evaluated differently |
| `Validation.AcceptedShrinkingChangesNothing` | internal/flags/service.go:307-329 | if the stored targeting is accepted for the variations kept, no evaluation of any flag changes, in any world, for any context and guard |
| `Validation.ShrinkingOffFlagExactly` | internal/flags/service.go:307-329 | an off-flag is served as before if and only if its off variation survives |
| `Validation.ShrinkingTargetsExactly` | internal/flags/service.go:307-329 | a flag with targets only serves every context as before if and only if its fallthrough variation and those of all reachable targets survive |
| `Validation.ShrinkingRolloutExactly` | internal/flags/service.go:307-329 | a flag with targets and a rollout for everyone else serves every context as before, whatever the hashes, if and only if the variations of all entries that can be served and of all reachable targets survive |
| `Validation.ShrinkingServesNull` | internal/flags/service.go:307-329 | an accepted flag that serves null after its last variation is dropped |
| `Edits.SharedListSurvivesCompaction` | internal/flags/instructions.go:183-191 | after compacting shared storage, its first cells read as before if and only if everything removed lay behind everything kept |
| `Edits.ReorderingKeepsRules` | internal/flags/instructions.go:193-215 | a successful reordering keeps the multiset of rules and puts the ids in the requested order |
| `Edits.ReplacesFirstWithId` | internal/flags/instructions.go:170-181 | updating rewrites exactly the first rule with the id, in its place, and fails if and only if there is none |
| `Edits.ReplacingKeepsIds` | internal/flags/instructions.go:170-181 | updating a rule leaves every id where it was |
| `Edits.AddingTargets` | internal/flags/instructions.go:136-144 | adding targets a pair of kind and variation at exactly the values it had and those given, and no other pair |
| `Edits.RemovingTargets` | internal/flags/instructions.go:146-168 | removing takes exactly the values given from exactly the pair given |
| `Edits.RemovingUndoesAdding` | internal/flags/instructions.go:136-168 | removing values just added, none of them there before, gives back the very same list of targets |
| `Edits.StepKeepsWellFormed` | internal/flags/instructions.go:59-134 | every instruction keeps rule ids distinct and one target per kind and variation, and adds no id but the fresh one |
| `Edits.FoldKeepsWellFormed` | internal/flags/instructions.go:47-57 | so does every successful list of instructions, given new and distinct ids |
| `Edits.EditingComposes` | internal/flags/instructions.go:47-57 | applying two lists one after the other is applying their concatenation, in success and in failure |
| `Sharing.OneInstructionSparesExactly` | internal/flags/instructions.go:45-57 | for every kind of instruction: after it is applied to a copy, the caller's configuration is as before if and only if the instruction fails or meets the condition for its kind |
| `Sharing.AddingSparesExactly` | internal/flags/instructions.go:136-144 | adding targets leaves the shared cells as they were if and only if the first target for the pair, if there is one, equals its deduplicated union with the values: all are there and none is repeated |
| `Sharing.PruningSparesExactly` | internal/flags/instructions.go:146-168 | removing targets does if and only if from the first target that loses a value on all are lost entirely |
| `Sharing.UpdatingSparesExactly` | internal/flags/instructions.go:172-181 | updating a rule does if and only if it rewrites the rule to itself |
| `Sharing.RemovingSparesExactly` | internal/flags/instructions.go:183-191 | removing rules or prerequisites does if and only if everything removed lay behind everything kept |
| `Sharing.ForeignEditSparesCaller` | internal/flags/instructions.go:47-57 | a whole list that names no rule, prerequisite or target of the caller's leaves the caller's configuration as it was, whether it succeeds or fails and whatever room the storage has |
| `Sharing.RemoveThenAddIsSeen` | internal/flags/instructions.go:97-117 | removing the last rule and adding one each spare the caller; one after the other, the caller sees the new rule |
| `Instructions.UnionStrings` | internal/flags/instructions.go:227-237 | first occurrences of both lists, in order |
| `Instructions.CompactRules` | internal/flags/instructions.go:183-191 | in-place compaction leaves the filtered list in front, what lay beyond the list untouched, and states the whole of the storage in between |
| `Instructions.CompactPrerequisites` | internal/flags/instructions.go:217-225 | the same for prerequisites |
| `Instructions.CompactTargets` | internal/flags/instructions.go:146-168 | in-place compaction leaves exactly the pruned targets in front and the cells behind them as they were |
| `Instructions.DrawInOrder` | internal/flags/instructions.go:196-215 | drawing from the consumed index succeeds if and only if ids are distinct and the request is a permutation of them, with no assumption on the stored ids |
| `Instructions.FlagConfig.Decode` | internal/store/flags.go:180-191 | a configuration read from the store has storage of its own |
| `Instructions.FlagConfig.Share` | internal/flags/instructions.go:47 | a configuration passed by value has fields of its own and shares all list storage |
| `Instructions.FlagConfig.AddTargets` | internal/flags/instructions.go:136-144 | computes the pure edit: merged into the first target for the pair, or appended; and says where in the storage |
| `Instructions.FlagConfig.UpdateRule` | internal/flags/instructions.go:172-181 | computes the pure edit in place, or reports that the id is unknown and changes nothing |
| `Instructions.FlagConfig.ReorderRules` | internal/flags/instructions.go:196-215 | succeeds if and only if the request is a permutation of distinct ids; otherwise the right error and no change |
| `Instructions.FlagConfig.ApplyInstruction` | internal/flags/instructions.go:59-134 | every kind of instruction computes the pure edit, or reports its error and changes nothing; and every list is either written in place or left for new storage |
| `Instructions.ApplyInstructions` | internal/flags/instructions.go:47-57 | the loop over shared storage refines the pure fold, with the index and cause of a failure; and the caller's own configuration afterwards is exactly what the shared storage then shows |
| `Instructions.ApplyShared` | internal/flags/instructions.go:51-55 | one instruction on a copy, and exactly what it does to the storage of the original |
| `Instructions.EditCopy` | internal/flags/instructions.go:45-57 | run on a stored configuration, one instruction leaves the original as it was if and only if it fails or spares it |
| `FlagStore.Store.SaveFlagConfig` | internal/flags/service.go:333-347 | unknown flag and invalid configuration are refused without a change, anything else is stored at the next version, and then its environment is propagated |
| `FlagStore.Store.EnsureFlagConfigs` | internal/store/flags.go:99-114 | every environment reached has a row afterwards, the default one where there was none, and no row changes; it succeeds if and only if the database answers for all |
| `FlagStore.Store.SaveFlag` | internal/flags/service.go:307-325 | an empty key and a definition without variations are refused, in that order; any other is stored with default rows and all environments propagated, or with fewer rows and none propagated when the database fails on the way; stored targeting is not looked at |
| `FlagStore.Store.PatchFlagConfig` | internal/flags/service.go:355-365 | load, edit in shared storage and save equal the pure patch of the tables; the environment is propagated if and only if the patch is saved |
| `FlagStore.PatchIsAllOrNothing` | internal/flags/service.go:355-365 | a patch fails if and only if it changes nothing; otherwise the whole fold is stored, accepted, one version on, and no other row changes |
| `FlagStore.DefiningKeepsAcceptedExactly` | internal/flags/service.go:307-325 | saving a definition keeps all stored configurations acceptable if and only if those of the flag fit the new number of variations |
| `FlagStore.PerformingKeepsAccepted` | internal/flags/service.go:333-365 | patches, saves and such definitions keep every stored configuration acceptable |
| `FlagStore.EveryRunStaysAccepted` | internal/flags/service.go:307-365 | so does every run of them, to any flags |
| `FlagStore.EveryRunServesVariations` | internal/flags/service.go:307-365 | after every such run every flag serves one of its variations to every context |
| `FlagStore.PerformingKeepsWellFormed` | internal/flags/service.go:307-365 | patches, definitions and saves of configurations that are so keep rule ids distinct and one target per kind and variation, when drawn ids are new |
| `FlagStore.EveryRunStaysWellFormed` | internal/flags/service.go:307-365 | so does every run of them, drawn ids being new against all ids drawn or saved before |
| `FlagStore.SavingMayRepeatRuleIds` | internal/flags/service.go:333-347 | a configuration with two rules of one id is accepted |
| `FlagStore.SavingMeans` | internal/flags/service.go:333-347 | a save is refused if and only if the flag is unknown or the configuration does not fit it; else it is stored at version 1 or one version on, and no other row is touched |
| `FlagStore.NewFlagIsOff` | internal/store/flags.go:99-114 | a flag new to an environment is off there and serves its first variation to everyone |
| `FlagStore.DefiningKeepsRows` | internal/flags/service.go:307-325 | saving a definition touches no stored row and adds rows only for that flag in the environments listed |
| `EditMeaning.SwitchMeans` | internal/flags/instructions.go:61-64 | after a saved list ending in turnFlagOff everyone gets the off variation because the flag is off, after turnFlagOn nobody does |
| `EditMeaning.OffVariationMeans` | internal/flags/instructions.go:65-69 | after updateOffVariation an off-flag, and one with an unmet prerequisite, serves that variation |
| `EditMeaning.FallthroughMeans` | internal/flags/instructions.go:70-79 | after updateFallthroughVariation or updateFallthroughRollout whoever no target names and no rule matches gets that variation, or the one the rollout places them at |
| `EditMeaning.AddedPrerequisiteMeans` | internal/flags/instructions.go:120-124 | after addPrerequisite an on-flag fails exactly where it failed before or that one is not met |
| `EditMeaning.RemovedPrerequisiteMeans` | internal/flags/instructions.go:125-129 | after removePrerequisite the flag depends on exactly the other prerequisites |
| `EditMeaning.AddedRuleMeans` | internal/flags/instructions.go:90-101 | after addRule the new rule is last, whoever fell through and matches it gets its serve, and everyone else is served as before |
| `EditMeaning.UpdatedRuleMeans` | internal/flags/instructions.go:102-112 | after updateRule the first rule with the id has the clauses and serve given, and whoever it is the first to match gets that |
| `EditMeaning.RemovedRuleMeans` | internal/flags/instructions.go:113-117 | after removeRule exactly the other rules are there, and whoever no removed rule had matched first is served as before |
| `EditMeaning.ReorderedRulesMean` | internal/flags/instructions.go:118-119 | after reorderRules the same rules stand in the order asked for |
| `EditMeaning.AddedTargetsMean` | internal/flags/instructions.go:80-84 | after addTargets whoever is addressed, and no other target names, gets the variation as individually targeted |
| `EditMeaning.RemovedTargetsMean` | internal/flags/instructions.go:85-89 | after removeTargets whoever is addressed, if only targets for the pair had named them, is no longer individually targeted |
| `EditMeaning.OtherFieldsStay` | internal/flags/instructions.go:59-134 | every kind of instruction changes one field and leaves all others alone |
| `EditMeaning.AcceptedExactly` | internal/flags/instructions.go:47-134 | a list is accepted if and only if no instruction lacks anything when its turn comes |
| `EditMeaning.ErrorsNameTheLack` | internal/flags/instructions.go:59-134 | each error names what is lacking |
| `ReplicaSafety.WriteKeepsAccounts` | internal/flags/service.go:344-349 | a write leaves every cell of every replica accounted for: its content installed before, being read, still owed, or kept away by a fault |
| `ReplicaSafety.StartReloadKeepsAccounts` | internal/flags/service.go:434 | so does starting a local reload |
| `ReplicaSafety.QueryKeepsAccounts` | internal/flags/service.go:130-137 | so does each of the two queries of a reload |
| `ReplicaSafety.InstallKeepsAccounts` | internal/flags/service.go:149-151 | so does installing what was read, whatever was written or installed since |
| `ReplicaSafety.PublishKeepsAccounts` | internal/pubsub/redis.go:91-101 | so does broadcasting to every replica's queue |
| `ReplicaSafety.DeliverKeepsAccounts` | internal/flags/service.go:162-177 | so does taking an event, skipping one's own included |
| `ReplicaSafety.FailReloadKeepsAccounts` | internal/flags/service.go:434-437 | so does a failed reload, which is only logged |
| `ReplicaSafety.FailPublishKeepsAccounts` | internal/flags/service.go:438-441 | so does a failed broadcast, which is only logged and reaches no other replica |
| `ReplicaSafety.AbandonKeepsAccounts` | internal/flags/service.go:402-425 | so does a request that ends after writing without reloading or broadcasting anything |
| `ReplicaSafety.StepKeepsInv` | internal/flags/service.go:128-177 | every step keeps the invariant, reloads overlapping or not, faults included |
| `ReplicaSafety.TheProgramDoesNotWait` | internal/flags/service.go:129-177 | the program starts reloads, installs them and takes events without waiting for any other reload |
| `ReplicaSafety.SettledHasSeenTheDatabase` | internal/flags/service.go:159-161 | in every run with distinct ids: where nothing is on its way and no fault is unrepaired, the current content has been installed, and is still there if and only if nothing older was installed after it; skipping one's own events is safe |
| `ReplicaSafety.RunsStayOrderly` | internal/flags/service.go:129-151 | if reloads of one environment on one replica do not overlap, nothing older than what is cached is ever installed |
| `ReplicaSafety.SharedIdLosesUpdates` | internal/pubsub/redis.go:38-45 | two replicas with one instance id can stay stale for good |
| `ReplicaSafety.OverlappingReloadsLoseUpdates` | internal/flags/service.go:129-151 | two overlapping reloads that install in the opposite order of their reads leave the older content with nothing on its way |
| `ReplicaSafety.FailedReloadLosesUpdates` | internal/flags/service.go:434-437 | a replica whose own reload fails stays stale with nothing on its way |
| `ReplicaSafety.AbandonedRequestLosesUpdates` | internal/flags/service.go:402-425 | a request that ends after writing leaves every replica stale with nothing on its way |
| `ReplicaSafety.ConvergesExactly` | internal/flags/service.go:128-177 | in every reachable state whatever is settled is current, if and only if instance ids are distinct, no reload or broadcast fails, no request ends between writing and reloading, and no install brings older content than is cached |
| `ReplicaSafety.QuietReplicasHaveSeenTheDatabase` | internal/flags/service.go:430-443 | with requests finished, queues empty, no reload in progress and no fault unrepaired, every replica has had the database's content, and still has it where nothing older is installed |
| `Convergence.StepWorks` | internal/flags/service.go:430-443 | every step but a write, overlapping reloads and faults included, lowers a measure of the work left |
| `Convergence.WriteFreeRunsAreBounded` | internal/flags/service.go:430-443 | a run without writes takes no more steps than that measure |
| `Convergence.StuckIsSettled` | internal/flags/service.go:430-443 | the protocol only stops when nothing is on its way anywhere, even if reloads had to wait for each other: no deadlock |
| `Convergence.ReplicasConverge` | internal/flags/service.go:128-177 | once writing stops, every schedule ends within the bound; where it ends every replica has had the final content wherever no fault is unrepaired, and still has it where nothing older is installed |
| `Service.IndexRows` | internal/flags/service.go:138-147 | the content built from the rows of a reload |
| `Service.IndexIsUnique` | internal/flags/service.go:138-147 | that content is determined by the rows, and everything in it is stored under its own key |
| `Service.IndexOneMore` | internal/flags/service.go:138-147 | one more row takes its key, whatever was there |
| `Service.SubscribingMeans` | internal/flags/service.go:51-60 | subscribing adds one subscriber, with an empty channel, under a number not given out again |
| `Service.CancellingMeans` | internal/flags/service.go:61-68 | cancelling removes one subscriber, and an environment whose last one it was |
| `Service.WakingMeans` | internal/flags/service.go:73-82 | notifying leaves a wakeup for everyone in the environment and for no one else |
| `Service.ReloadMeans` | internal/flags/service.go:129-157 | a reload fails if and only if a query does, and then changes nothing; else the environment holds what was read, its subscribers have a wakeup, and nothing else changes |
| `Service.WakeAll` | internal/flags/service.go:76-81 | after signalling, every subscriber's channel holds a wakeup, in whatever order they are visited |
| `Service.FlagService.SubscribeEnv` | internal/flags/service.go:51-70 | a new subscriber under a number never given out, with an empty channel |
| `Service.FlagService.Cancel` | internal/flags/service.go:61-68 | the subscriber is gone, and its environment too when it was the last |
| `Service.FlagService.NotifyEnv` | internal/flags/service.go:73-82 | wakes every subscriber of the environment and no other |
| `Service.FlagService.ReloadEnv` | internal/flags/service.go:129-157 | installs exactly the rows read, each under its own key, and wakes the environment's subscribers; a failed query changes nothing |
| `Service.FlagService.OnEvent` | internal/flags/service.go:162-177 | own events change nothing, a changed environment is reloaded and notified unless a query fails, a removed one dropped in silence |
| `Service.FlagService.Evaluate` | internal/flags/service.go:181-190 | one flag from the cache, or none when it is missing or not offered |
| `Service.FlagService.EvaluateAll` | internal/flags/service.go:195-212 | exactly the stored flags of one snapshot, without those not marked available to clients if clients ask, each with its evaluation |
| `Service.OneAndAllAgree` | internal/flags/service.go:181-212 | a flag is answered for if and only if it is stored and, when clients ask, marked available to them; asking for one and asking for all give the same |
| `Streams.StepKeepsAwake` | internal/flags/service.go:51-82 | every step keeps every open stream either up to date or certain to send again |
| `Streams.EveryRunKeepsAwake` | internal/server/stream.go:64-78 | and so does every interleaving of installing, notifying, subscribing, taking, evaluating, sending and cancelling |
| `Streams.NoLostWakeup` | internal/flags/service.go:149-152 | in every run, a stream at rest has sent the content installed in its environment |
| `Streams.NewStreamIsServed` | internal/server/stream.go:55-79 | a stream can open in every reachable state and be sent what is installed |
| `Streams.SilentChangeIsNoticedOnlyIfVoid` | internal/flags/service.go:172-176 | a change of the cache that notifies no one leaves a stream at rest up to date if and only if its content did not change |
| `StreamProgress.StepWorks` | internal/server/stream.go:55-79 | every step but installing and opening lowers a measure of the work left and leaves the cache alone |
| `StreamProgress.SettlingRunsAreBounded` | internal/server/stream.go:64-78 | a run without new reloads and new streams takes no more steps than that measure |
| `StreamProgress.StreamsCatchUp` | internal/flags/service.go:51-82 | from every reachable state, once reloads stop every schedule ends within the bound, and where it ends every open stream has sent the installed content |
| `ReplicaStreams.InstallKeepsLinked` | internal/flags/service.go:149-152 | an install leaves what the streams of its replica see equal to what the protocol has cached there |
| `ReplicaStreams.StepKeepsInv` | internal/flags/service.go:51-177 | every step of replicas and streams together keeps the invariants of both and that link |
| `ReplicaStreams.StreamAtRestHasTheDatabase` | internal/flags/service.go:149-177 | in every run where nothing older is installed, a stream at rest in a settled environment without an unrepaired fault has sent what the database holds |
| `ReplicaStreams.EveryStreamGetsTheDatabase` | internal/server/stream.go:55-79 | once writing stops and no stream opens, every schedule of replicas and streams ends within a bound, and where it ends every open stream on every replica has sent what the writes left in the database, given that no older content is installed and no fault kept its environment from reloading there |
| `EventStream.DrainBuffer` | sdk/javascript/src/index.ts:404-415 | the inner loop delivers every complete event and keeps the rest |
| `EventStream.ReadChunks` | sdk/javascript/src/index.ts:400-416 | however the text is cut into chunks, payloads and rest are those of the text read at once |
| `EventStream.ReadLines` | sdk/go/flagit.go:315-336 | the line loop delivers what its lines spell, each without one final carriage return, up to the first line of a mebibyte, and the unfinished event at the end; it reports a line that is too long |
| `EventStream.DrainInTwo` | sdk/javascript/src/index.ts:403-415 | reading a text in two pieces is reading it whole |
| `EventStream.LinesAgreeUpToTheRest` | sdk/go/flagit.go:324-335 | reading any text by its lines delivers what reading it by its blank lines does, and then what follows the last one |
| `EventStream.RestIsAfterLastBlank` | sdk/javascript/src/index.ts:403-415 | what the JavaScript reader leaves over is the text after the last blank line, but for one line break |
| `EventStream.ReadersAgreeUpToTheRest` | sdk/go/flagit.go:315-336 | on every text, the Go client reads what the JavaScript client would of the scanned lines, those before the first of a mebibyte without one final carriage return each, and then what follows their last blank line |
| `EventStream.ShortTextsAreReadToTheEnd` | sdk/go/flagit.go:315-336 | with short lines only, that is the text itself but for carriage returns at line ends |
| `EventStream.ReadersAgreeExactly` | sdk/go/flagit.go:331-335 | with short lines and no carriage returns at line ends they agree if and only if no data follows the last blank line |
| `EventStream.ReadersAgreeOnCompleteStreams` | sdk/go/flagit.go:315-336 | they agree on every such stream that ends in a blank line |
| `EventStream.CutOffBodyIsReadByOne` | sdk/go/flagit.go:331-335 | a body that is one data line without a line break, with any payload of one line that fits: one client delivers it, the other leaves it over |
| `EventStream.FramesInLetters` | internal/server/stream.go:58-76 | the letters of a put and of a keepalive |
| `EventStream.DataLineMeans` | sdk/go/flagit.go:328-330 | a line carries data if and only if it begins with "data:", and one space after that is not part of it |
| `EventStream.TwoDataLinesAreOnePayload` | sdk/javascript/src/index.ts:406-412 | several data lines are one payload with line breaks in between, for both readers |
| `EventStream.FrameIsOneEvent` | internal/server/stream.go:58-63 | each frame written is read as exactly its payload, a keepalive as nothing, whatever follows |
| `EventStream.FramesRoundTrip` | internal/server/stream.go:74-76 | every sequence of frames is read back as exactly its payloads, with nothing left over |
| `EventStream.GoReadsUpToLong` | sdk/go/flagit.go:315-336 | the Go client reads exactly the payloads put before the first whose line is too long |
| `EventStream.BothClientsReadThePayloads` | internal/server/stream.go:58-78 | the JavaScript client reads exactly what was put, from any chunks; the Go client does if and only if every data line fits its buffer |
| `Scheduler.AttemptsAreOrderedAndUnique` | internal/governance/scheduled.go:96-118 | in every run, with scheduling and cancelling in the middle of ticks, changes are attempted in order of their times, at most once and never early |
| `Scheduler.FinalStatusStays` | internal/store/scheduled_changes.go:107-131 | applied, failed and cancelled are final |
| `Scheduler.AttemptDecidesStatus` | internal/governance/scheduled.go:102-114 | in every run an attempt of a pending change makes it applied if it succeeds and failed if not, for good, and touches no other |
| `Scheduler.CancelledIsAttemptedExactlyIfListed` | internal/store/scheduled_changes.go:90-105 | a cancelled change stays cancelled, and is attempted all the same if and only if the tick had already listed it |
| `Scheduler.CancelledChangeIsApplied` | internal/governance/scheduled.go:96-118 | a run in which a change is listed, cancelled and then applied |
| `Scheduler.TickTakesBatch` | internal/governance/scheduled.go:13-15 | a tick takes min(n, 100) of n due changes out of the backlog |
| `Scheduler.AnswerExists` | internal/store/scheduled_changes.go:67-88 | for every table, time and limit there are soonest due changes to list |
| `Scheduler.ListingServesWaiting` | internal/store/scheduled_changes.go:63-88 | each listing takes min(n, 100) of the n changes waiting since any earlier moment, before all others |
| `Scheduler.BacklogDrainsExactly` | internal/governance/scheduled.go:96-118 | in every run, whatever is scheduled, cancelled or falls due in between: of n waiting changes k ticks leave at most n - 100 k, exactly that many when nothing is cancelled, and otherwise fewer by at most the number of cancellations |
| `Scheduler.NobodyWaitsLonger` | internal/governance/scheduled.go:96-118 | so once k ticks can hold them and the last batch is done none of them is pending, and without cancellations not before |
| `Scheduler.DoneKeepsAccepted` | internal/governance/service.go:104-115 | a change that fails leaves the flags alone, one that succeeds does not, and either keeps stored configurations acceptable |
| `Scheduler.TickKeepsAccepted` | internal/governance/scheduled.go:96-118 | so does a whole tick |
| `Scheduler.WorkTouchesOneRow` | internal/governance/service.go:104-115 | the work of a change fails for an unknown key, and otherwise patches that flag in that environment and nothing else |
| `Scheduler.TickMarksByEffect` | internal/governance/scheduled.go:102-114 | after a tick each listed change that was pending is applied if its attempt changed the flags, and failed if it did not |
| `Scheduler.ChangeStore.AttemptDue` | internal/governance/scheduled.go:102-114 | one attempt does the work, and a pending change becomes applied if and only if the flag tables changed, and else failed |
| `Scheduler.ApplyWork` | internal/governance/service.go:104-115 | the flag is looked up by its key and its configuration patched; an unknown flag is a failure |
| `Scheduler.ChangeStore.CancelScheduledChange` | internal/store/scheduled_changes.go:92-105 | cancels a pending change, and otherwise reports not found and changes nothing |
| `Scheduler.ChangeStore.ScheduleChange` | internal/governance/scheduled.go:33-55 | refuses an empty change and a time not in the future, in that order, without a change |
| `Scheduler.ChangeStore.ApplyDue` | internal/governance/scheduled.go:96-118 | one undisturbed tick does the work of all listed changes in order and marks each pending one by whether it had an effect |
| `Webhooks.BackoffIsCappedDoubling` | internal/webhooks/deliverer.go:132-139 | for every attempt, however far the 64-bit shift overflows, the delay is 30 seconds doubled each time and capped at ten minutes |
| `Webhooks.ManyShiftsAreNotBelieved` | internal/webhooks/deliverer.go:134-137 | from 30 shifts on no overflow lands on a positive value within the cap |
| `Webhooks.EveryLifeIsBounded` | internal/webhooks/deliverer.go:58-90 | in every life at most five sends, the fifth at least 450 seconds after the first and final, and nothing final is due again |
| `Webhooks.RefusedDeliveryIsSentFiveTimes` | internal/webhooks/deliverer.go:78-81 | a delivery nobody accepts is tried again until the fifth attempt and fails exactly then |
| `Webhooks.LastAttemptDecides` | internal/webhooks/deliverer.go:58-90 | in every life the last attempt decides: success if and only if the webhook exists and answers 200 to 299, failure if and only if it is gone or did not at the fifth attempt, else another attempt after exactly the backoff; and what came back is recorded |
| `Webhooks.AnswerExists` | internal/webhooks/deliverer.go:45-54 | for every table, time and limit there are soonest due deliveries to list |
| `Webhooks.SoonestComeFirst` | internal/webhooks/deliverer.go:45-54 | each delivery listed is a soonest of those not listed before it |
| `Webhooks.SendsAreAttempts` | internal/webhooks/deliverer.go:66-67 | the payload is sent once at each attempt |
| `Webhooks.TickDecides` | internal/webhooks/deliverer.go:45-54 | after a tick each listed delivery is as its attempt decided and no other has changed |
| `Webhooks.Deliverer.AttemptDelivery` | internal/webhooks/deliverer.go:58-90 | one attempt: failed when the webhook is gone, success, retry after the backoff, or failed at the fifth; with response status, error text and time of delivery |
| `Webhooks.Deliverer.DeliverDue` | internal/webhooks/deliverer.go:45-54 | each of the at most 50 soonest due deliveries is attempted once and no other changes |
| `SdkCache.WithPut` | internal/catalog/sdkcache.go:47-57 | a put never takes the cache beyond 100000 entries |
| `SdkCache.AnswersAreRecent` | internal/catalog/catalog.go:138-155 | in every run every answer was the store's at some moment not long ago: from a cache in the last ttl plus the time a lookup takes, after a miss in that time |
| `SdkCache.PutIsServedUntilItExpires` | internal/catalog/sdkcache.go:34-57 | in every run without a flush or an overfull cache, an answer put is served until its time to live is over, if no other lookup of the key was on its way |
| `SdkCache.NothingIsKeptWhenOff` | internal/catalog/sdkcache.go:34-57 | with caching off nothing is kept in any run |
| `SdkCache.RevokedIsRefusedEverywhere` | internal/catalog/catalog.go:128-155 | after that time no replica admits a revoked key, from its cache or from a lookup |
| `SdkCache.RefusedStaysRefused` | internal/catalog/catalog.go:128-134 | a replica that neither caches nor is looking up a revoked key never admits it again |
| `SdkCache.FlushTakesEffectExactly` | internal/catalog/catalog.go:132 | after a flush the replica can still admit a revoked key if and only if a lookup that read it as active is on its way |
| `SdkCache.RevokedKeyIsAdmitted` | internal/catalog/catalog.go:128-155 | a run in which a replica flushes after a revoke and admits the key all the same |
| `SdkCache.SdkKeyCache.Get` | internal/catalog/sdkcache.go:34-45 | hits exactly on an unexpired entry, and never when caching is off |
| `SdkCache.SdkKeyCache.ActiveSdkKey` | internal/catalog/catalog.go:138-155 | answers from the cache without a change, or from the store, keeping its answer unless the store failed otherwise |
| `SdkCache.SdkKeyCache.RevokeSdkKey` | internal/catalog/catalog.go:128-134 | drops all cached answers if the store revokes the key, and changes nothing if it fails |
| `Analytics.StepKeepsBalance` | internal/analytics/recorder.go:95-123 | every step keeps buffered + in flight + stored = recorded + repeated, for every counter |
| `Analytics.CountsAreNeverLost` | internal/analytics/recorder.go:95-123 | in every interleaving of recording and flushing no count is lost, and a counter is exact if and only if no failed batch had written its row |
| `Analytics.FlushLandsInItsWindow` | internal/analytics/recorder.go:95-123 | whatever is recorded meanwhile, a flush that does not fail adds all it took, each count to its counter's row in the window in which the flush began, and changes no other row |
| `Analytics.RecordingIsCounted` | internal/analytics/recorder.go:70-77 | recording is possible at any time and counts for one counter |
| `Analytics.EverythingCanBeStored` | internal/analytics/recorder.go:95-123 | from every reachable state without a flush in progress a run leads to one in which everything recorded is stored and the buffer is empty |
| `Analytics.AddAll` | internal/analytics/recorder.go:117-119 | folding back adds every count to what was recorded since, in whatever order the keys come |
| `Analytics.Recorder.RecordN` | internal/analytics/recorder.go:70-77 | adds to one counter; counts not positive are ignored |
| `Analytics.Recorder.TakeSnapshot` | internal/analytics/recorder.go:96-103 | takes the whole buffer and leaves an empty one, or nothing when it is empty |
| `Analytics.Recorder.FoldBack` | internal/analytics/recorder.go:114-120 | the buffer regains the whole snapshot on top of its own counts |
| `Analytics.StatsTable.UpsertEvalStats` | internal/store/analytics.go:13-25 | writes rows one at a time, so the rows before a failure stay written |
| `ClauseText.ReadBack` | web/src/lib/clauses.ts:42-44 | printed values read back as they were, except that an infinite number comes back as the text null |
| `ClauseText.TrimMeans` | web/src/lib/clauses.ts:33-40 | trimming takes the white space on both sides and nothing else |
| `ClauseText.ReadingMeans` | web/src/lib/clauses.ts:21-40 | one value with white space around it: the literals true and false are the booleans, a number literal is that number, everything else is text |
| `ClauseText.CommasSeparate` | web/src/lib/clauses.ts:33-40 | what stands on either side of a comma is read on its own, and white space alone is nothing |
| `ClauseText.PrintingMeans` | web/src/lib/clauses.ts:42-44 | what each value is printed as, with a comma and a space in between |
| `ClauseText.ReadValuesArePlain` | web/src/lib/clauses.ts:33-40 | whatever is read from text is free of commas and outer white space, and no text that reads as a number or boolean |
| `ClauseText.ListSurvivesExactly` | web/src/lib/clauses.ts:33-44 | a list of values survives printing and reading if and only if every value does: finite numbers, booleans, and trimmed non-empty texts without commas that are no literals |
| `ClauseText.EditingSurvivesExactly` | web/src/lib/clauses.ts:33-44 | for every text, reading, printing and reading again gives the same values if and only if no number in it overflows |
| `ClauseText.OneSurvives` | web/src/lib/clauses.ts:33-44 | a runtime in which number syntax is faithful, and a number that survives |
| `ClauseText.OverflowIsLost` | web/src/lib/clauses.ts:42-44 | an overflowing number that comes back as the text null |

## Left out

- Bucketing.Bucket: exponents of floating point have no end, which no hash or weight in the int64 range comes near; a weight outside that range cannot be decoded and is not modelled.
- Bucketing.UnhashableGetsFirstBucket: whole numbers outside the int64 range count as not hashable, because what Go's conversion yields for them depends on the platform.
- Segments.MatchClause: operators are an uninterpreted predicate on one pair of values, because regular expressions, semantic versions and dates are library matters.
- SegmentMeaning.GuardedMembershipIsConsistent: of graphs with a risky reference on a cycle, the rings of `SegmentCycles` are covered exactly, and the weighted one by a counterexample; for others nothing general is said, because whether they go wrong depends on the memberships of the context elsewhere.
- Validation.AcceptedShrinkingChangesNothing: is one way for flags with rules or prerequisites; whether a rule ever serves a dropped variation depends on what operators can hold together. It is exact for all flags without either.
- Instructions.ApplyInstructions: value lists, clauses and rollout pointers inside a list element are values, because the program replaces them whole.
- FlagStore.Store.SaveFlagConfig: names the environment to reload and broadcast; what these do, and that their failures are only logged, is in `Replication`.
- FlagStore.Store.PatchFlagConfig: one patch at a time; two concurrent patches can overwrite each other, because the save does not compare versions.
- Service.FlagService.ReloadEnv: takes what its queries return; the interleaving of queries and install with other steps is in `Replication` and `Streams`.
- ReplicaSafety.ConvergesExactly: replicas are up and subscribed; events lost between warming and subscribing, removed environments and writes outside the flag service (`internal/catalog/catalog.go:101-103`) are not steps.
- Convergence.ReplicasConverge: says of a schedule that it ends, and what holds when nothing but a write is left to do. Where an older install is left, the program goes on and does it; such a run is beyond the assumption that older content is never installed, and `ReplicaSafety.SettledHasSeenTheDatabase` says what it leaves.
- Streams.NoLostWakeup: covers changes installed by reloads; warming and removal notify no one and are in `Streams.SilentChangeIsNoticedOnlyIfVoid`.
- Scheduler.AttemptsAreOrderedAndUnique: one scheduler and store updates that succeed; checking the time and inserting a change are one step.
- Scheduler.ChangeStore.ApplyDue: nothing else touches the flags during the tick.
- Webhooks.EveryLifeIsBounded: one deliverer, store updates that succeed and a clock that does not run backwards; `sends` is a record of the model.
- SdkCache.AnswersAreRecent: the time between a lookup's read and its put is at most the parameter `lag`, because the code sets no bound of its own.
- Analytics.CountsAreNeverLost: counts are unbounded, not int64, and the process does not stop with counts in its buffer.
- EventStream.ReadLines: a character is a byte; decoding of UTF-8 is not modelled.
- EventStream.ReadersAgreeExactly: with carriage returns at line ends or long lines the readers are compared by `EventStream.ReadersAgreeUpToTheRest`, because only one of them strips the former and stops at the latter.
- ClauseText.ListSurvivesExactly: null and object values and the sign of zero; number syntax and white space are parameters of which only faithful printing is assumed.
- Decoding of JSON: variations, contexts and configurations are taken decoded.
- HTTP handlers, authentication, roles, settings, logging, SQL text and the Redis client.
- Change requests, and the contexts recorder, whose fold-back is a weaker copy of the one here.
- Lifecycle status, trigger actions, the rest of the dashboard, the Python SDK and the reconnect loops of the SDKs.
