# revoco and recoup: a verified model

revoco decides whether an agent may make a tool call, on whose authority, and whether the call can
be undone. It records what it decided in a ledger that outsiders can check. recoup compiles revoco's
policies into bundles for a small Go enforcer, analyses them, and keeps a transparency log. This
project models the parts of the two whose correctness does not show from single runs, and proves
their promises for all inputs and all runs.

**Logs.** `Hashing`, `MerkleTree`, `InclusionProofs`, `ConsistencyProofs` and `TransparencyLog` model
the tree of RFC 6962 with its two kinds of proof. The verifier of inclusion proofs is the shifting
loop of section 2.1.3.2 of RFC 9162, proved to agree with the recursive generator on every tree. The
hash function is uninterpreted, with outputs of 32 bytes. Every soundness result of the tree ends in
"or here is a break", and the lemma returns it: two different byte strings with one SHA-256 value, one
of them hashed for a named node of the true tree. That needs the hashes in a proof to be 32 bytes
long, which the decoder and the verifying command check, and the counterexamples without the check
are lemmas. `Ledger`, `Checkpoint` and `DurableLedger` model the hash-chained ledger, its Merkle
checkpoint and the order prepare, persist, append, with the reversal journal beside it.

**Policies.** One first-match language has three evaluators: `PolicyEngine` on live rules, `Bundles`
on compiled ones, `GoDecision` in the enforcer. `Compiler` and `InverseRegistry` model the compiler
and what it reads. `Glob` is Python's matcher, `GlobRegex` the translation into Go's regular
expressions together with a reader for them, and `GlobLimits` shows where the two matchers part.
`PatternWitnesses`, `CallSpace` and `PolicyAnalysis` model the analyser, which tries finitely many
calls and speaks about all: `CallSpace.SmallModel` is the reason it may. `AnalysisLimits` has a
policy for each condition that the reason needs, and `RoleCap` says exactly what the cap on role
combinations costs. `TrafficAnalysis` models the policy drafted from observed traffic and the replay
of traffic against a policy.

**Authority.** `Scopes`, `GrantStore`, `ChainCheck`, `AuthorityEngine` and `ControlPlane` model
delegated authority as a state machine: register, issue, delegate, record, revoke, contain.
Invariants are about every reachable store. `Redaction` models the masking of arguments as a value,
`SharedArguments` the same on dictionaries as objects.

`Outcomes`, `Floats`, `Postures` and `Ordering` are shared: results, floating-point numbers with their
infinities and the value that is no number, the five reversal postures, and ascending lists.

Objects whose methods update fields are classes (`Log`, `LedgerObject`, `Recorder`, `Matcher`,
`Enforcer`, `Engine`, `Plane`, `Dict`), loops that update variables are methods with loops, and each is proved
against a function or a predicate about which the lemmas speak.

## Where the code differs from what is said about it

- The analyser is said to answer "exactly" (`recoup/recoup/prove.py:24`). It does when the fillers are
  matched by no other pattern by accident and each rule's role combination survives the cap. Both can
  fail while the report calls itself complete, and then live rules are accused and holes go unreported:
  see `AnalysisLimits`, and `RoleCap.CapHidesExactly` for when the cap does it. The reading of freshness that is
  exact for one field is `PatternWitnesses.FreshExactly`.
- The translation of globs is said to match Python's matcher. A class that holds `[:` is copied as it
  is, and if a class ends in a colon there or later, Go reads a named class up to that colon:
  `[x[:alpha:][y]` then accepts every letter, and an allow rule is widened (`GlobLimits`,
  `GoDecision.WidenedRuleAllows`). `GlobRegex.ReadsBackExactly` says when this happens.
- The inclusion and consistency verifiers put hashes of any length side by side. Given a hash of 31
  and one of 33 bytes they accept what is not in the tree (`InclusionProofs.UnevenSplitIsAccepted`,
  `ConsistencyProofs.UnevenOldRootIsAccepted`). Callers are safe who read hashes through `DecodeHashes`
  and check the width of the roots, as `recoup/cmd/recoup-verify/main.go:60-95` does.
- A receipt's index and size are read only through the turns they stand for, so both can be wrong in
  an accepted receipt (`InclusionProofs.WrongPositionIsAccepted`); the entry is still in the log.
- A verdict is stored and its strike counted before it is put on record. When the record fails, a plane
  that fails open answers "allowed" for a call it has stored as refused
  (`ControlPlane.StoredVerdictIsTheAnswer`).
- A rule called `__default__` shares its entry among the holes with the default, and the analysis can end
  in a missing key (`AnalysisLimits.NameOfTheDefaultCollides`; the exact condition is in
  `PolicyAnalysis.Search`).
- A drafted policy lists observed names as patterns. A name with glob characters need not match itself,
  and may match others (`TrafficAnalysis.DraftFitsExactly` is the exact condition).
- Size zero is consistent with everything: a consistency check with m = 0 and n > 0 looks at neither
  root nor proof (`ConsistencyProofs.SizeZeroAcceptsAnything`).
- The Merkle checkpoint does not fix the number of entries by itself, since the last hash of an odd
  level is paired with itself. It does for ledgers that verify, because their entries carry their
  positions (`Checkpoint.MerkleRootBindsLedger`).
- A child is said never to outlive its parent (`src/revoco/authority/engine.py:187`). A lifetime that is
  not a number passes the clamp and every check after it, and the sub-grant never expires
  (`GrantStore.NanLifetimeOutlives`; `GrantStore.EndsWithinParentsExactly` is the exact condition). The
  same holds of an endless lifetime counted from minus infinity.
- The tightest cap of a chain is said to bind (`src/revoco/authority/scope.py:181-187`). A cap that is
  not a number is contained in every cap and hides those above it
  (`Scopes.NanCapLetsEverythingThrough`; `Scopes.EffectiveCapBindsExactly` is the exact condition).
- Redaction is said to mask the listed paths. The copy keeps a dictionary that stands in two places one
  dictionary, so a mask is read at both (`SharedArguments.SharedDictionaryIsMaskedTwice`;
  `SharedArguments.MaskStaysOnItsPath` is the exact condition).
- `contains` is not transitive on numeric caps. Attenuation of caps over a chain holds through
  `effective_constraints`, and `Scopes.ContainsTwiceExactly` says when two hops are one.
- The compiler accepts a rule that states both a floor and a set, and the enforcer then refuses the
  bundle (`GoDecision.WhatTheCompilerEmitsLoads`). The policy loader never produces such a rule.
- A drafted policy repeats a rule id, which the policy loader refuses, when callers without an id and
  an agent named `unattributed` both get a rule (`TrafficAnalysis.DraftIdsClashExactly`).
- Chain reconstruction does not look at expiry, nor at whether the actor is the grant's subject; the
  detectors do, and are an input here.

## Model

| member | source | states |
|---|---|---|
| Hashing.EncodeInjective | recoup/internal/translog/translog.go:54-73 | No leaf is hashed as a node and no node splits in two ways: the prefixed byte strings of two different inputs differ |
| Hashing.CollisionOnBytes | recoup/internal/translog/translog.go:60-73 | Two tree inputs with one digest are a collision of the byte hash itself, on two different byte strings |
| Hashing.EncodesAs | recoup/internal/translog/translog.go:54-73 | The bytes hashed are those of RFC 6962: nothing, 0 and the entry, 1 and the two hashes |
| Hashing.UnevenSplit | recoup/internal/translog/translog.go:64-73 | Two digests cut in another place give the same bytes to hash: a node’s encoding is readable at full width only |
| Hashing.DecodeHashes | recoup/internal/translog/translog.go:374-389 | Hashes from outside are refused at the first that is no hexadecimal or not 32 bytes, with its place and its fault; what is let in is of full width, unchanged and in order |
| MerkleTree.SplitIsTheLargestPower | recoup/internal/translog/translog.go:135-142 | The split point is a power of two, the largest below n, and the only one with k < n <= 2k |
| MerkleTree.LargestPowerOfTwoBelow | recoup/internal/translog/translog.go:136-142 | The doubling loop returns that split point for every n > 1 |
| MerkleTree.RootOfView | recoup/internal/translog/translog.go:120-133 | The root over a slice depends on the leaves in the slice alone, so it survives every append |
| MerkleTree.RootOfLongPrefix | recoup/internal/translog/translog.go:120-133 | A prefix reaching past the split point of its tree is split at the same point |
| MerkleTree.LogRootSpelledOut | recoup/internal/translog/translog.go:120-133 | The root over byte strings is the tree hash that section 2.1 of RFC 6962 defines, cut at the largest power of two |
| MerkleTree.RootBindsView | recoup/internal/translog/translog.go:120-133 | Equal roots of two slices of any lengths mean equal entries, or a second preimage, of full width, of a named node of the second log |
| MerkleTree.RootBindsLog | recoup/internal/translog/translog.go:120-133 | Two logs with one root hold the same entries and equally many, or two different byte strings have one SHA-256 value, one of them hashed for a named view of the second log |
| MerkleTree.ForgedNodeOnBytes | recoup/internal/translog/translog.go:60-73 | A second preimage of a node, at full width, is a collision of SHA-256 on two different byte strings |
| InclusionProofs.SidesAreFew | recoup/internal/translog/translog.go:175-190 | An audit path is at most ceil(log2 n) hashes long |
| InclusionProofs.ShiftSidesOfLeftPart | recoup/internal/translog/translog.go:192-238 | Below a full left subtree the fn/sn loop reads the same turns for the ragged tree as for the full subtree, plus one sibling on the right |
| InclusionProofs.ShiftSidesOfRightPart | recoup/internal/translog/translog.go:192-238 | Setting the top bit of fn and sn adds exactly one left sibling at the root end |
| InclusionProofs.ShiftSidesMatchTree | recoup/internal/translog/translog.go:192-238 | The turns the bit-shifting loop takes are the turns of the recursion, on every tree, ragged or not |
| InclusionProofs.VerifyInclusion | recoup/internal/translog/translog.go:192-238 | The loop accepts, or rejects with the right one of its four errors, exactly as climbing the recursive tree would |
| InclusionProofs.PathClimbsToRoot | recoup/internal/translog/translog.go:175-190 | Climbing the generated path from the true leaf hash gives the true root |
| InclusionProofs.InclusionComplete | recoup/internal/translog/translog.go:163-238 | For every log, size and index the generated path is accepted and has at most ceil(log2 n) hashes |
| InclusionProofs.ClimbSound | recoup/internal/translog/translog.go:192-238 | An accepted climb over hashes of full width is the true leaf and the true path, or a named node of the true tree has a second preimage of full width |
| InclusionProofs.InclusionSound | recoup/internal/translog/translog.go:192-238 | If the verifier, given hashes of full width, accepts against the true root, the leaf hash is the one at the index and the proof is the generated path, or two different byte strings have one SHA-256 value, one of them hashed for a named node |
| InclusionProofs.UnevenSplitIsAccepted | recoup/internal/translog/translog.go:192-238 | Without the width check the verifier accepts a false leaf with no hash broken, for every hash function and every log of two entries |
| InclusionProofs.ClimbFromEntry | recoup/internal/translog/translog.go:209-233 | Climbing from an entry to the root of a view by any turns at all shows the entry to be in the view, or gives a second preimage |
| InclusionProofs.EntryInclusionSound | recoup/internal/translog/translog.go:192-238 | A receipt accepted at any index and size is for an entry of the log, and at the log’s own size for the entry at that index, or two different byte strings have one SHA-256 value |
| InclusionProofs.PositionsWithOneVerdict | recoup/internal/translog/translog.go:192-238 | Positions with the same turns get the same verdict on every proof |
| InclusionProofs.WrongPositionIsAccepted | recoup/internal/translog/translog.go:192-238 | In every log of two entries the receipt of the second is accepted as index 2 of 3 |
| ConsistencyProofs.WalkOverGenerated | recoup/internal/translog/translog.go:254-362 | The walk over a generated proof rebuilds both roots and leaves exactly the hashes that followed it |
| ConsistencyProofs.ConsistencyLength | recoup/internal/translog/translog.go:254-277 | A consistency proof has at most ceil(log2 n) + 1 hashes |
| ConsistencyProofs.ConsistencyComplete | recoup/internal/translog/translog.go:241-362 | For all m <= n the generated proof is accepted with every hash consumed, within ceil(log2 n) + 1 hashes |
| ConsistencyProofs.WalkSound | recoup/internal/translog/translog.go:322-362 | A walk over hashes of full width that arrives at the true new root rebuilt the true old root from exactly the generated hashes, or a named node has a second preimage of full width |
| ConsistencyProofs.ConsistencySound | recoup/internal/translog/translog.go:285-362 | For 1 <= m <= n and hashes of full width an accepted old root is the root of exactly the first m leaves and the proof is the generated one, or two different byte strings have one SHA-256 value, one of them hashed for a named node |
| ConsistencyProofs.UnevenOldRootIsAccepted | recoup/internal/translog/translog.go:285-362 | Without the width check a false old root is accepted with no hash broken, for every hash function and every log of two entries |
| ConsistencyProofs.AcceptedHistoryIsAPrefix | recoup/internal/translog/translog.go:285-362 | Whoever saw entries behind an accepted old head saw exactly the first m entries of the log, or two different byte strings have one SHA-256 value; the number of entries seen need not be assumed to be m |
| ConsistencyProofs.SizeZeroAcceptsAnything | recoup/internal/translog/translog.go:285-320 | Every proof and every pair of roots is accepted exactly for m == 0 and n > 0: the bound m >= 1 is needed and is the only one |
| ConsistencyProofs.TrivialSizes | recoup/internal/translog/translog.go:285-305 | Sizes that are no prefix are refused, one size needs an empty proof and equal roots, size zero is a prefix of everything |
| TransparencyLog.Log.constructor | recoup/internal/translog/translog.go:90-96 | A new log is empty |
| TransparencyLog.Log.Append | recoup/internal/translog/translog.go:99-104 | Appending adds one leaf hash at the end and returns its index |
| TransparencyLog.Log.HeadAt | recoup/internal/translog/translog.go:145-160 | The head at size n is the head of the log that held only the first n entries; sizes outside the log are refused |
| TransparencyLog.Log.InclusionProof | recoup/internal/translog/translog.go:163-173 | Refuses exactly the sizes and indices outside the log; what it hands out is accepted for the entry at that index |
| TransparencyLog.Log.ConsistencyProof | recoup/internal/translog/translog.go:241-252 | Refuses exactly the pairs that are no prefixes; what it hands out is accepted for the two heads |
| Ledger.BuildExtendsChain | src/revoco/ledger.py:152-171 | The entry built for a valid chain extends it to a valid chain |
| Ledger.PrefixIsValid | src/revoco/ledger.py:229-247 | Every prefix of a valid chain is valid: truncation cannot be seen from the chain alone |
| Ledger.ValidSpelledOut | src/revoco/ledger.py:229-247 | A chain is valid exactly when each entry is numbered by its place, links to the hash before it or to 64 zeros, and carries the hash of what it holds |
| Ledger.HeadBindsChain | src/revoco/ledger.py:229-262 | Two chains that verify and share a head hash are identical, length included, or two entries at named places collide, or a named entry hashes to the genesis value |
| Ledger.ReloadRestoresChain | src/revoco/ledger.py:186-193 | From the rows of a valid chain, in any order, sorting by sequence number gives the chain back |
| Ledger.SortBySeqIsStable | src/revoco/ledger.py:186-193 | For all rows, tampered ones included, sorting keeps every row, puts the numbers in order and keeps the order of rows with one number |
| Ledger.StableOrderIsUnique | src/revoco/ledger.py:186-193 | No other list does: ascending numbers and given rows for each number determine the list |
| Ledger.LedgerObject.Prepare | src/revoco/ledger.py:140-150 | Computes the next entry and leaves the chain as it was |
| Ledger.LedgerObject.AppendPrebuilt | src/revoco/ledger.py:195-198 | Extends the chain by the given entry |
| Ledger.LedgerObject.Append | src/revoco/ledger.py:173-184 | Extends the chain by the entry built for it, and keeps a valid chain valid |
| Ledger.LedgerObject.LoadEntries | src/revoco/ledger.py:186-193 | The chain becomes an ascending, stable permutation of the rows, whatever the rows are |
| Ledger.LedgerObject.VerifyIntegrity | src/revoco/ledger.py:229-247 | Accepts exactly the valid chains; otherwise names the first faulty entry and the fault tested first there |
| Ledger.LedgerObject.VerifyAgainstHead | src/revoco/ledger.py:249-262 | Accepts exactly the valid chains with the witnessed head |
| Checkpoint.HeightIsTheFirstLevelOfOne | src/revoco/ledger.py:273-281 | The level loop stops at the height of the tree and not before |
| Checkpoint.ComputeMerkleRoot | src/revoco/ledger.py:264-281 | The loop that rewrites the level list computes the root of the recursive tree in which a level of odd size pairs its last hash with itself |
| Checkpoint.MerkleRootSpelledOut | src/revoco/ledger.py:264-281 | 64 zeros for no hash, one hash for itself, otherwise the root of the list in which neighbours are hashed together and an odd last one with itself |
| Checkpoint.WalkToLeaf | src/revoco/ledger.py:264-281 | From two nodes with one hash every leaf below the second is found under the first, or two differing texts with one hash are named |
| Checkpoint.RootCoversEntry | src/revoco/ledger.py:264-281 | Under one root every entry of the second valid ledger stands at its own place in the first, or a collision is named |
| Checkpoint.MerkleRootBindsLedger | src/revoco/ledger.py:264-281 | Two ledgers that verify and share a Merkle root are the same ledger, whatever their lengths, or the hash was broken at a named place |
| Checkpoint.RootBindsHashesOfOneSize | src/revoco/ledger.py:264-281 | Two hash lists of one length with one root are equal, or a named node of both trees hashes two different pairs alike |
| Checkpoint.ClashOnTexts | src/revoco/ledger.py:264-281 | A clash between two ledgers that verify is two different texts with one SHA-256 value |
| Checkpoint.RootBindsWideHashes | src/revoco/ledger.py:264-281 | Two lists of one length of 64-digit hashes with one root are equal, or two different texts have one SHA-256 value |
| Ledger.SomeCanon | src/revoco/ledger.py:84-95 | What is assumed of canonical JSON can be met: a function that tells entries apart and starts with a brace |
| Checkpoint.UnevenRowsShareARoot | src/revoco/ledger.py:264-281 | Rows taken up unverified can hold hashes of other lengths: any two cuts of one text into two hashes have one root |
| Checkpoint.RepeatedLastHashIsInvisible | src/revoco/ledger.py:276-279 | For every list of odd length from three on, appending the last hash again leaves the root unchanged: the root alone does not fix the length |
| DurableLedger.StepKeepsSafe | src/revoco/controlplane.py:235-258 | Every step of prepare, persist, extend, store failure, crash and restart keeps the two copies in step and loses nothing durable |
| DurableLedger.RunsAreSafe | src/revoco/controlplane.py:235-258 | Every state of every run is safe |
| DurableLedger.DurableChainIsAlwaysAhead | src/revoco/controlplane.py:235-258 | In every state of every run the durable chain verifies and the memory chain is a prefix of it, at most one entry shorter |
| DurableLedger.DurableEntriesStay | src/revoco/controlplane.py:235-258 | What is durable at one moment of a run is a prefix of what is durable at any later moment |
| DurableLedger.JournalSpeaksForTheLedger | src/revoco/store/sqlite.py:294-333 | In every state of every run a journal row is what the last ledger entry about it says, at the place the row names, and no ledger entry about a journal entry is without its row |
| DurableLedger.ReplayedHasTheLast | src/revoco/store/sqlite.py:294-317 | Upserting along the ledger leaves, for each journal entry described anywhere, exactly its last description |
| DurableLedger.PreparedEntryIsFree | src/revoco/controlplane.py:252-256 | The single writer never meets a taken sequence number |
| DurableLedger.Recorder.constructor | src/revoco/controlplane.py:190-194 | A restart takes up the stored rows in sequence order, unverified; from a valid store the memory chain equals the durable one |
| DurableLedger.Recorder.Append | src/revoco/controlplane.py:235-258 | Both copies grow by the same entry and the journal takes up what it describes, or the store refuses and nothing changes; without a store only the memory chain grows |
| Glob.ClassEnd | recoup/internal/decision/fnmatch.go:52-62 | A class ends strictly inside the pattern, after at least one member |
| Glob.ClassEndIs | recoup/internal/decision/fnmatch.go:52-62 | A class ends at the first closing bracket that is not its first member, a negation aside, and is unclosed exactly when there is none |
| Glob.LiteralMatchesItself | recoup/recoup/bundle.py:172-176 | A name without glob characters, read as a pattern, matches itself and nothing else |
| Glob.OneStarMatches | recoup/recoup/bundle.py:172-176 | A pattern with one star matches exactly the names that start with its head and, without overlap, end with its tail; slashes are ordinary |
| Glob.QuestionMarkMatches | recoup/recoup/bundle.py:172-176 | A question mark matches any one character |
| Glob.ClassMatches | recoup/recoup/bundle.py:172-176 | A class matches one character: a member or, after an exclamation mark, anything else |
| GlobRegex.ScanClass | recoup/internal/decision/fnmatch.go:52-62 | The inner scan stops at the closing bracket, or at the end of the pattern if there is none |
| GlobRegex.Translate | recoup/internal/decision/fnmatch.go:37-85 | The index-driven loop writes the concatenation of the pieces of the pattern’s tokens |
| GlobRegex.AcceptsIsMatches | recoup/internal/decision/fnmatch.go:93-111 | What the regular expression accepts by choosing where each star ends is what backtracking over the glob accepts |
| GlobRegex.ClassReadBack | recoup/internal/decision/fnmatch.go:67-76 | The text written for a class, edge hyphens and brackets included, reads back as that class if it opens no named class |
| GlobRegex.ClassMisread | recoup/internal/decision/fnmatch.go:67-76 | If it does open one, Go reads a named class in it or refuses the expression |
| GlobRegex.ClosingIsVisible | recoup/internal/decision/fnmatch.go:37-85 | The written text holds the closing `:]` of a named class exactly where a class of the pattern ends in a colon |
| GlobRegex.ReadsBackExactly | recoup/internal/decision/fnmatch.go:37-85 | For every pattern without ranges Go reads the tokens of the glob back exactly when no class opens a named class |
| GlobRegex.TranslationPreservesMeaning | recoup/internal/decision/fnmatch.go:37-111 | For every pattern without class ranges that opens no named class, the Go matcher accepts exactly the names Python’s matcher accepts |
| GlobRegex.Matcher.FnMatch | recoup/internal/decision/fnmatch.go:93-111 | The shared cache never changes an answer |
| GlobRegex.Matcher.MatchAny | recoup/internal/decision/fnmatch.go:114-121 | True exactly when some pattern matches |
| GlobLimits.NamedClassWidens | recoup/internal/decision/fnmatch.go:67-76 | `[x[:alpha:][y]` is two classes for Python and one for Go, which accepts `q` where Python does not |
| GlobLimits.UnknownNameSilences | recoup/internal/decision/fnmatch.go:93-111 | `[x[:q:]` matches `x` in Python and nothing in Go, which refuses the name |
| GlobLimits.TrapCanBeHarmless | recoup/internal/decision/fnmatch.go:67-76 | A whole family of patterns that Go reads otherwise and yet matches alike: the condition for reading alike is not necessary for matching alike |
| GlobLimits.RefusedExactly | recoup/internal/decision/fnmatch.go:93-111 | Where Go refuses the expression, the matchers agree on all names exactly when the pattern holds a class without characters |
| Bundles.FirstMatch | recoup/recoup/bundle.py:195-221 | The rule found matches and no earlier rule does |
| Bundles.Classify | recoup/recoup/bundle.py:127-135 | The scan gives the exact name’s kind, else that of the first matching glob, else the fallback |
| Bundles.Matches | recoup/recoup/bundle.py:196-214 | The early exits accept exactly the calls that meet every clause of the rule, each spelled out |
| Bundles.Evaluate | recoup/recoup/bundle.py:191-230 | The verdict is that of the first matching rule, and that of the default only when none matches |
| PolicyEngine.Matches | src/revoco/gate/engine.py:52-97 | The early exits accept exactly the calls that meet every clause of the rule, each spelled out: globs, roles, postures, scores, condition and budget |
| PolicyEngine.Evaluate | src/revoco/gate/engine.py:100-147 | The decision is that of the first matching rule, with its masks and its reason, and that rule’s condition holds and its budget is not exceeded; or that of the default when none matches |
| PolicyEngine.OnlyRulesInForceDecide | src/revoco/gate/engine.py:86-147 | The decision is that of the policy from which rules with a failing condition or an exceeded budget are taken out and the rest stripped of both |
| PolicyEngine.OverBudgetIsNotDecidedBy | src/revoco/gate/engine.py:86-96 | A call over a rule’s budget, or failing its condition, is never decided by that rule |
| InverseRegistry.Put | src/revoco/reversal/registry.py:48-55 | A dictionary assignment keeps every other name and keeps the names distinct |
| InverseRegistry.RegisteredIsWellFormed | src/revoco/reversal/registry.py:48-55 | Whatever is registered, exact names stay unique and apart from the globs |
| Compiler.CompileBundle | recoup/recoup/bundle.py:56-124 | The loop over the registry and the rules builds the specified bundle or returns its refusal; every field of a rule but condition and budget arrives, masks included |
| Compiler.CompilesExactly | recoup/recoup/bundle.py:56-73 | A policy compiles exactly when no rule carries a condition or a budget |
| Compiler.RefusalNamesTheFirstOffender | recoup/recoup/bundle.py:56-73 | The refusal names the first offending rule, and its condition before its budget |
| Compiler.GlobsKeepTheirOrder | recoup/recoup/bundle.py:101-114 | The bundle’s globs are the registry’s, in registration order |
| Compiler.BundleClassifiesLikeRegistry | recoup/recoup/bundle.py:127-135 | The bundle gives every tool the posture the registry gives it |
| Compiler.PosturesAgree | recoup/recoup/bundle.py:204-208 | The floor test and the set test on posture names agree with those on live postures |
| Postures.PosturesAreOrdered | src/revoco/reversal/model.py:62-122 | Each posture ranks above the one before, and has its name on the wire |
| Compiler.CompilationPreservesMeaning | recoup/recoup/bundle.py:56-230 | For every policy that compiles, every call, posture, argument and session, the bundle’s effect, rule, reason and permission are the live engine’s |
| Compiler.BundleOfRulesInForce | recoup/recoup/bundle.py:56-230 | A live policy with conditions and budgets decides, at each moment, as the bundle compiled from its rules in force |
| GoDecision.Load | recoup/internal/decision/decision.go:122-162 | Loads exactly the bundles of schema 2 with a default and without a fault, spelled out, and unchanged; otherwise names the first faulty rule and its fault |
| GoDecision.WhatTheCompilerEmitsLoads | recoup/internal/decision/decision.go:137-160 | A compiled bundle loads exactly when no rule has an empty id or states both a floor and a set |
| GoDecision.Enforcer.Classify | recoup/internal/decision/decision.go:195-205 | Exact name, then globs in order through the pattern cache, then the fallback |
| GoDecision.Enforcer.Matches | recoup/internal/decision/decision.go:227-266 | The early returns accept exactly the calls that meet every clause of the rule |
| GoDecision.Enforcer.Evaluate | recoup/internal/decision/decision.go:270-296 | The scan answers as specified while it fills the pattern cache |
| GoDecision.FloorsAgree | recoup/internal/decision/decision.go:244-255 | The two runtimes’ floor tests agree on every pair of strings, posture names or not |
| GoDecision.RuntimesAgree | recoup/internal/decision/decision.go:270-296 | On every bundle whose patterns hold no range and open no named class, and every call, the Go verdict is the reference evaluator’s: effect, rule, reason and posture |
| GoDecision.EnforcerDecidesAsTheEngine | recoup/internal/decision/decision.go:227-296 | The Go enforcer’s answer for a compiled policy with such patterns is the live engine’s decision, on every call |
| GoDecision.WidenedRuleAllows | recoup/internal/decision/decision.go:270-296 | With a pattern that opens a named class an allow rule is widened: the enforcer allows a call that the reference evaluator denies |
| PatternWitnesses.SimpleMatches | recoup/recoup/prove.py:58-60 | What a simple pattern matches, in terms of its two ends |
| PatternWitnesses.FilledMatches | recoup/recoup/prove.py:112-113 | A filled pattern is one of the names the pattern matches |
| PatternWitnesses.CoversIsSound | recoup/recoup/prove.py:20-22 | A pattern that covers another matches everything the other matches |
| PatternWitnesses.CoversIsComplete | recoup/recoup/prove.py:20-22 | And only then: coverage read off two patterns is inclusion of what they match |
| PatternWitnesses.GlobWitnesses | recoup/recoup/prove.py:96-118 | Returns in ascending order the literals, one filled name per simple pattern and the catch-all name, and as problems exactly the patterns that are not simple |
| PatternWitnesses.SimpleSpelledOut | recoup/recoup/prove.py:60 | Simple patterns are exactly those of the regular expression: characters of its class, at most one star, and perhaps a final line feed |
| PatternWitnesses.FilledIsMostGeneral | recoup/recoup/prove.py:112-117 | With fresh fillers, whatever pattern matches a filled name matches every name of its pattern |
| PatternWitnesses.FreshExactly | recoup/recoup/prove.py:96-118 | One name stands for its whole class exactly when no filler is matched by accident |
| PatternWitnesses.TamePatternsAreFresh | recoup/recoup/prove.py:112-117 | No pattern is matched by accident if none holds `Z` or `7` and none with a star ends in `g` |
| CallSpace.Thresholds | recoup/recoup/prove.py:121-135 | Returns in ascending order zero and each stated bound with its neighbours, negatives dropped |
| CallSpace.MarksSpelledOut | recoup/recoup/prove.py:121-135 | The risks and threat scores tried are zero and each bound some rule states with its two neighbours, when not negative |
| CallSpace.MarkStandsFor | recoup/recoup/prove.py:121-135 | The largest tried value not above a score is on the same side of every bound as the score |
| CallSpace.ChooseRoles | recoup/recoup/prove.py:138-153 | The loop collects, sorts and caps the role combinations as specified, for every cap |
| CallSpace.CombosAreSorted | recoup/recoup/prove.py:145-153 | The combinations are the empty one, each rule’s sorted requirement and all roles together, each once and in order |
| CallSpace.NoRolesIsTried | recoup/recoup/prove.py:146-153 | The cap never drops the empty combination |
| CallSpace.FewCombosAreCovered | recoup/recoup/prove.py:146-153 | When there are no more combinations than the cap, what each rule asks for is tried, for every cap |
| CallSpace.Witnesses | recoup/recoup/prove.py:180-198 | The enumeration yields exactly the product of the tried names, roles, scores and postures |
| CallSpace.OneEnumeration | recoup/recoup/prove.py:180-198 | The order of the search is fixed by the policy |
| CallSpace.SmallModel | recoup/recoup/prove.py:16-25 | Under fresh simple patterns, for every call whose roles, or those its rule asks for, are tried some tried call with the same posture reaches the same rule first, or the default |
| PolicyAnalysis.FiringIsExact | recoup/recoup/prove.py:239-243 | A rule id fires in the search exactly when some call at all reaches a rule with that id |
| PolicyAnalysis.HolesAreExact | recoup/recoup/prove.py:244-281 | A hole is reported under a name exactly when some irreversible or unclassified call is allowed under it |
| PolicyAnalysis.ExactOverTriedRoles | recoup/recoup/prove.py:138-153 | Without any bound on role combinations the search is exact, for fired ids and for holes, over the calls whose roles are one of the tried combinations |
| PolicyAnalysis.DefaultIsExact | recoup/recoup/prove.py:270-283 | The default is reported reachable exactly when some call reaches it, however many role combinations there are |
| PolicyAnalysis.RoomMakesExact | recoup/recoup/prove.py:138-153 | With room for every role combination the search is exact for fired ids, holes and the default, on every policy with fresh simple patterns |
| PolicyAnalysis.UnreachableMeansDead | recoup/recoup/prove.py:289-299 | With distinct ids a rule is reported unreachable exactly when no call reaches it first |
| PolicyAnalysis.NoHolesMeansGuarded | recoup/recoup/prove.py:35-38 | A report without holes means that every irreversible or unclassified call the evaluator allows is allowed by a rule exempted by name |
| PolicyAnalysis.Search | recoup/recoup/prove.py:239-281 | Ends in the missing-key error exactly when the default’s entry comes first under `__default__` and a direct hole by a rule of that name follows; otherwise collects the fired ids, whether the default was hit, and for each hole the first call the registry would classify so, or else the first call |
| PolicyAnalysis.FindProblems | recoup/recoup/prove.py:226-233 | The fields the search cannot cover, each with exactly its patterns that are not simple |
| PolicyAnalysis.Analyse | recoup/recoup/prove.py:212-301 | The error of the search, never for a policy without a rule called `__default__`; or the report: the number of calls tried, the patterns not covered, complete exactly when there are none and accusing no rule otherwise; every hole shown is a real call; exact over all calls for searchable policies |
| PolicyAnalysis.ReportedHolesSpelledOut | recoup/recoup/prove.py:244-281 | The holes reported are exactly the ids under which the evaluator allows some irreversible or unclassified call, by a rule not exempted or by the default |
| PolicyAnalysis.AccusedRulesSpelledOut | recoup/recoup/prove.py:286-299 | With distinct ids a rule is accused exactly when each call it matches is matched by an earlier rule |
| AnalysisLimits.AccidentHidesAHole | recoup/recoup/prove.py:112-117 | A one-rule policy whose filler is matched by accident: a hole over all calls, none reported, report complete |
| AnalysisLimits.CapDropsTheLast | recoup/recoup/prove.py:146-153 | Five single-role rules make seven combinations, and the sorted prefix of six drops the last rule’s own |
| AnalysisLimits.CapAccusesALiveRule | recoup/recoup/prove.py:146-153 | That rule is reached by a call and yet no tried call reaches it |
| AnalysisLimits.CapHidesAHole | recoup/recoup/prove.py:146-153 | That rule allows irreversible work, and the search does not report the hole |
| RoleCap.CapAccusesExactly | recoup/recoup/prove.py:138-153 | For every positive cap and list of role requirements: some policy with them has a live rule that the search accuses exactly when one requirement, as a set, is left out of the combinations tried |
| RoleCap.CapHidesExactly | recoup/recoup/prove.py:138-153 | Under the same condition, and only then, some policy with them has a hole that the search misses |
| AnalysisLimits.SharedIdHidesADeadRule | recoup/recoup/prove.py:289-299 | With one id on two rules a rule that no call reaches goes unreported |
| AnalysisLimits.NameOfTheDefaultCollides | recoup/recoup/prove.py:256-281 | A policy with a rule called `__default__` on which the analysis ends in the missing-key error |
| TrafficAnalysis.Profiles | recoup/recoup/analyse.py:163-176 | The streaming pass leaves, for each agent, exactly how often each tool and action was observed, the highest risk and the one-way tools |
| TrafficAnalysis.Suggest | recoup/recoup/analyse.py:163-222 | The draft: an approval rule for the tools seen one-way, then one allow rule per agent in order, with exactly its usable tools, its actions and its highest risk |
| TrafficAnalysis.ApprovalSpelledOut | recoup/recoup/analyse.py:178-194 | The approval clause is there exactly if something was seen as irreversible or unknown, and lists exactly the tools that were |
| TrafficAnalysis.AllowSpelledOut | recoup/recoup/analyse.py:196-209 | An agent’s clause lists its tools never seen irreversible or unknown in its hands, its actions and its highest risk, and nothing else |
| TrafficAnalysis.ClausesSpelledOut | recoup/recoup/analyse.py:196-209 | An agent has a clause exactly if it has such a tool, and every such tool is in it |
| TrafficAnalysis.DraftDecides | recoup/recoup/analyse.py:163-222 | The draft decides every call, seen or not, whatever characters the names hold: approval where a one-way tool’s name matches, allow where the clause of some agent does, deny otherwise |
| TrafficAnalysis.DraftFitsExactly | recoup/recoup/analyse.py:163-222 | For names of any kind the draft fits all its observations exactly when each one-way tool is matched by the name of a one-way tool, and each other observation by none and by some agent’s clause |
| TrafficAnalysis.LiteralNamesFit | recoup/recoup/analyse.py:163-222 | Names without glob characters always meet that condition |
| TrafficAnalysis.DraftFitsItsEvidence | recoup/recoup/analyse.py:163-222 | With names free of glob characters the draft, replayed on its own observations, holds back exactly the calls to tools ever seen one-way and allows the rest |
| TrafficAnalysis.CompiledDraftFitsItsEvidence | recoup/recoup/analyse.py:248-275 | The draft compiles, and the bundle evaluator allows exactly what the draft’s own clauses say, for names and postures of any kind; on observations that fit, exactly those whose tool was never seen one-way |
| TrafficAnalysis.PostureIsIdle | recoup/recoup/bundle.py:191-230 | Without clauses on postures the verdict is the same for whatever posture a call carries |
| TrafficAnalysis.DraftIdsClashExactly | recoup/recoup/analyse.py:201-203 | The draft repeats a rule id, and so does not load, exactly when nameless callers and an agent called `unattributed` both get a rule |
| TrafficAnalysis.PatternNamesBreakTheFit | recoup/recoup/analyse.py:201-209 | An observed tool name that reads as a class does not fit: the draft made from it denies it |
| TrafficAnalysis.OneWayPatternHoldsBack | recoup/recoup/analyse.py:201-209 | A one-way tool called `a*` does not fit either: the draft holds back the reversible tool `ab` |
| TrafficAnalysis.BumpKeepsTally | recoup/recoup/analyse.py:277-285 | One more changed verdict keeps the rows an exact tally: one row per kind of call, its count the number of such calls |
| TrafficAnalysis.Simulate | recoup/recoup/analyse.py:248-305 | The observations that were allowed and would not be, and the other way round, are counted exactly, roles and risk included, and with the unchanged ones add up to all; the rows tally the changed verdicts |
| TrafficAnalysis.RowCountSpelledOut | recoup/recoup/analyse.py:277-285 | A row counts exactly the observations of its tool, action and agent whose verdict changes |
| TrafficAnalysis.RowShowsSpelledOut | recoup/recoup/analyse.py:277-285 | A row shows the recorded and the new effect of such an observation |
| Scopes.TokensContainedIsInclusion | src/revoco/authority/scope.py:134-150 | The syntactic wildcard and subset test is exactly inclusion of the tokens allowed |
| Scopes.ContainsExactly | src/revoco/authority/scope.py:134-177 | For a child that permits something, containment is exactly: what it permits the parent permits, what postures it accepts the parent accepts, and no value it states for a number of the parent’s is beyond it |
| Scopes.LeafBoundedByAncestors | src/revoco/authority/scope.py:117-177 | Along a chain of contained scopes whatever the leaf permits every ancestor permits, and the leaf’s floor is within every ancestor’s |
| Scopes.EffectiveCapsAreUnique | src/revoco/authority/scope.py:179-192 | The effective caps are determined by the chain |
| Scopes.EffectiveConstraints | src/revoco/authority/scope.py:179-192 | The loop returns, for exactly the keys capped anywhere in the chain, a cap stated there with none below it, and no number exactly when the cap nearest the leaf is none |
| Scopes.TightestExactly | src/revoco/authority/scope.py:179-192 | The effective cap is at most every cap stated for the key exactly when all of these are numbers |
| Scopes.EffectiveCapBindsExactly | src/revoco/detect.py:380-405 | Whatever exceeds some cap of the chain exceeds the effective one exactly when the cap nearest the leaf is a number, or no cap stated can be exceeded |
| Scopes.NanCapLetsEverythingThrough | src/revoco/authority/scope.py:165-192 | A parent with a cap of 500 contains a child whose cap is not a number, and the effective cap of the two lets every amount through |
| Scopes.EffectiveFloor | src/revoco/authority/scope.py:194-206 | The loop returns a floor at least as strict as every floor of the chain and, for a contained chain, the leaf’s |
| Scopes.ContainsTwiceExactly | src/revoco/authority/scope.py:134-177 | Two hops of containment are containment exactly when no cap escapes through a middle scope that leaves it out or restates it as a flag or as no number |
| Scopes.ContainsIsNotTransitive | src/revoco/authority/scope.py:134-177 | Three scopes for which it is not |
| GrantStore.StepGrows | src/revoco/authority/engine.py:99-256 | No step changes or removes a principal, a grant, an action or a revocation; a registered key never changes |
| GrantStore.NewRootIsGood | src/revoco/authority/engine.py:124-153 | A root grant that is stored was issued by a registered human and carries a signature that verifies; it never expires exactly when its time or its lifetime ends at no time |
| GrantStore.IssueRootAsAsked | src/revoco/authority/engine.py:124-153 | The root stored has exactly the id, issuer, subject, scope, purpose and time asked for and ends at now plus lifetime; with finite times it is stored exactly when the stated tests pass |
| GrantStore.SubDelegateAsAsked | src/revoco/authority/engine.py:155-206 | The sub-grant stored has exactly the fields asked for and ends with its lifetime or its parent, whichever is earlier; with finite times it is stored exactly when the stated tests pass |
| GrantStore.NewGrantIsGood | src/revoco/authority/engine.py:155-206 | A stored sub-grant hangs below its parent with matching subject and issuer and a contained scope, and ends no later than the parent exactly when the lifetime asked for ends at some time |
| GrantStore.ClampKeepsWithin | src/revoco/authority/engine.py:187-190 | The clamp keeps every lifetime that ends within the parent’s, and lets through unclamped one that ends at no time |
| GrantStore.StepKeepsWellFormed | src/revoco/authority/engine.py:124-256 | Every step keeps every grant of the store well issued and linked to an earlier one or to a human |
| GrantStore.RunKeepsWellFormed | src/revoco/authority/engine.py:124-256 | Every run does |
| GrantStore.EveryGrantHasALineage | src/revoco/authority/engine.py:124-206 | In every reachable store the parent links of every grant lead to a root issued by a human, with matching subject and issuer and containment at every hop, and an end no later than the parent’s unless it is at no time |
| GrantStore.LeafSpeaksForTheChain | src/revoco/authority/delegation.py:51-52 | What the leaf permits every ancestor permits, and an unexpired leaf that ends at some time means every ancestor is unexpired |
| GrantStore.LeafExpiresFirstExactly | src/revoco/authority/delegation.py:51-52 | At every time an unexpired leaf means every ancestor is unexpired, exactly when the leaf ends at some time or the root ends at none |
| GrantStore.EndsWithinParentsExactly | src/revoco/authority/engine.py:155-206 | In a reachable store every grant ends no later than its parent exactly when every sub-grant stored was asked for with a lifetime that ends |
| GrantStore.NanLifetimeOutlives | src/revoco/authority/engine.py:187-190 | A grant of sixty seconds delegated onward with a lifetime that is not a number: the sub-grant never expires, the grant above it does |
| ChainCheck.ClimbPassesThrough | src/revoco/authority/engine.py:269-289 | Every grant found downward from another has that other on its way up |
| ChainCheck.ClimbHasNoCycle | src/revoco/authority/engine.py:323-333 | A way up that ends meets no grant twice |
| ChainCheck.AuthorisedExactly | src/revoco/authority/engine.py:292-387 | In a reachable store an action is authorised exactly when its actor is registered, unrevoked and the signer, its chain has at most 64 grants and none of them nor any issuer is revoked |
| ChainCheck.AuthorityNeeds | src/revoco/authority/engine.py:292-387 | Authority needs, clause by clause: a registered, unrevoked actor whose key verifies the action, and at most 64 stored, unrevoked and verifying grants from the action’s to a human root, each issued by its parent’s subject within the parent’s scope |
| ChainCheck.AuthoritySuffices | src/revoco/authority/engine.py:292-387 | And nothing more |
| ChainCheck.RevokedGrantBlocks | src/revoco/authority/engine.py:323-379 | No action below a revoked grant is authorised |
| ChainCheck.RevocationIsPermanent | src/revoco/authority/revocation.py:65-90 | After a revocation and any further steps no action below the grant is authorised, grants delegated afterwards included |
| AuthorityEngine.Engine.RegisterPrincipal | src/revoco/authority/principals.py:103-115 | Registers a new principal as given, returns the stored one for a known id with the same key, refuses a known id with another key and a name that is empty or over 256 characters |
| AuthorityEngine.Engine.IssueRootDelegation | src/revoco/authority/engine.py:124-153 | Stores exactly the grant asked for, field by field, signed with the caller’s key, or refuses and changes nothing |
| AuthorityEngine.Engine.Delegate | src/revoco/authority/engine.py:155-206 | Stores exactly the sub-grant asked for, field by field, ending with its lifetime or its parent, or refuses and changes nothing |
| AuthorityEngine.Engine.Record | src/revoco/authority/engine.py:217-256 | Records the signed action exactly when its grant exists and its fields are valid |
| AuthorityEngine.Engine.RevokeTarget | src/revoco/authority/revocation.py:65-87 | The first revocation of a target stands; a second changes nothing and returns the first |
| AuthorityEngine.Engine.DescendantDelegations | src/revoco/authority/engine.py:269-289 | Ends on every store, cyclic ones included, and returns the start and exactly the grants reachable downward, each once |
| AuthorityEngine.Engine.WalkToRoot | src/revoco/authority/engine.py:320-379 | The bounded walk with its cycle guard collects no error exactly when the chain is authorised, and then returns that chain and its human root |
| AuthorityEngine.Engine.ReconstructChain | src/revoco/authority/engine.py:292-387 | Says ok exactly for authorised actions, on any store; what ok stands for is spelled out, signature by signature; an action whose signature does not verify is answered with that error; the reported caps are the effective ones of the chain and the floor is the leaf’s |
| AuthorityEngine.HopErrors | src/revoco/authority/engine.py:370-378 | No error exactly when the parent’s subject issued the child and the parent’s scope contains the child’s |
| ControlPlane.Plane.Finalize | src/revoco/controlplane.py:581-589 | Stores the verdict and counts a strike exactly for a refusal that was not a person declining, against that actor alone |
| ControlPlane.Plane.Authorize | src/revoco/controlplane.py:282-592 | Gives the answer that the lemmas below spell out, records the action, stores the verdict reached and counts its strike even when the ledger append then raises; a gate that refuses is overruled only by a failure on a plane that fails open; a plane that fails closed allows nothing at or below a revoked grant |
| ControlPlane.AllowedExactly | src/revoco/controlplane.py:282-592 | Allowed exactly when nothing raises and the gate, the budget, the chain and the detectors all agree, or when something raises on a plane told to fail open, whatever they said |
| ControlPlane.RefusalIsAttributed | src/revoco/controlplane.py:282-592 | A refusal is attributed to the first stage that refused, a failure to the engine; an exception leaves exactly for an unknown delegation or a failure that cannot be put on record |
| ControlPlane.AllowedSpelledOut | src/revoco/controlplane.py:282-592 | When nothing raises, allowed exactly when the grant is known, the decision is not deny, an approval asked for was given, the budget and the detectors do not object and the chain holds; and what each failure answers |
| ControlPlane.StagesSpelledOut | src/revoco/controlplane.py:388-530 | The stage named is enforce exactly for a denial or an approval not given, then budget, authority and detectors in that order |
| ControlPlane.StoredVerdictIsTheAnswer | src/revoco/controlplane.py:564-592 | The verdict stored is the one answered exactly when the ledger append does not raise; if it does, the failure mode decides |
| ControlPlane.RevokedIsNeverAllowed | src/revoco/controlplane.py:282-348 | On a plane that fails closed an action at or below a revoked grant is not allowed |
| ControlPlane.Plane.Contain | src/revoco/controlplane.py:763-795 | Revokes exactly the grant and everything below it, and every action in the reported radius is no longer authorised |
| ControlPlane.ContainmentHolds | src/revoco/controlplane.py:763-789 | After containment, in every later state, no action whose chain passes through the grant is authorised, grants delegated afterwards included |
| ControlPlane.ContainedIsNeverAllowed | src/revoco/controlplane.py:282-348 | After containment and whatever follows, a plane that fails closed never allows an action at or below the contained grant, under any decision, detector or failure |
| ControlPlane.RevokingReachesEveryId | src/revoco/controlplane.py:786-788 | Revoking a list revokes each of its grants and keeps the store well formed |
| Redaction.SplitDots | src/revoco/gate/engine.py:185-192 | The parts of a dotted path hold no dot and join to the path again |
| Redaction.RedactArguments | src/revoco/gate/engine.py:204-224 | On arguments as a value, the loop over the field list applies each mask in turn |
| Redaction.MasksCommute | src/revoco/gate/engine.py:204-224 | Two masks can be applied in either order |
| Redaction.OrderDoesNotMatter | src/revoco/gate/engine.py:204-224 | Any reordering of the field list gives the same result |
| Redaction.MaskSeenFrom | src/revoco/gate/engine.py:204-224 | One mask seen from any path: the marker at it, nothing below it, everything unrelated as it was |
| Redaction.RedactionSeenFrom | src/revoco/gate/engine.py:204-224 | A listed path that existed reads as the marker, or is gone below another listed one that existed; every path unrelated to a listed one reads as before; no path appears |
| SharedArguments.MaskOne | src/revoco/gate/engine.py:214-223 | The walk and the write on dictionaries as objects: exactly the entry that the path leads to becomes the marker, and no other dictionary changes |
| SharedArguments.RedactCopy | src/revoco/gate/engine.py:204-224 | The loop over the field list applies each mask in turn to the dictionaries of the copy, and changes nothing else |
| SharedArguments.MaskInSeenFrom | src/revoco/gate/engine.py:204-224 | One mask on any dictionaries, shared or cyclic: a path that never looks up the masked entry reads as before, one that comes to it last reads the marker, and beyond it there is nothing |
| SharedArguments.MaskStaysOnItsPath | src/revoco/gate/engine.py:204-224 | A mask changes nothing outside its path exactly when the dictionary that holds the entry cannot be reached in another way |
| SharedArguments.SharedDictionaryIsMaskedTwice | src/revoco/gate/engine.py:204-224 | One dictionary under two keys: masking an entry under the first masks it under the second |
| SharedArguments.RedactionByValue | src/revoco/gate/engine.py:204-224 | Where no dictionary stands in two places, redacting the dictionaries is redacting the value |

## Left out

- SHA-256, Ed25519, canonical JSON and hex: uninterpreted functions; where texts are compared, canonical JSON is assumed to tell entries apart and to start with a brace. Signing round trips are not assumed; a grant is stored only if its signature verifies, as in the source.
- Floating point: finite numbers are exact, so rounding and overflow are not modelled: after rounding in `now + (expires - now)` a child's end could exceed its parent's by a rounding step.
- Machine integers: lengths, indices and scores are unbounded, so `k << 1` does not overflow and JSON numbers are not truncated.
- Locks and goroutines: every public operation is one atomic step.
- Input and output: files, sockets, HTTP handlers, command lines, clocks. Times, new identifiers, the threat score, the approval of a person, the verdict of the detectors and of the budget are parameters. New identifiers are assumed not to repeat.
- Character ranges in glob classes: `GlobRegex.RangeFree` excludes them, while hyphens at either end of a class are in. Go's regular expressions are modelled by a reader for the texts the translation can write, its ASCII class names included; about a text with repetition or group operators outside a class nothing is said, and only a pattern that opens a named class can lead to one.
- GlobRegex.TranslationPreservesMeaning: holds under the condition that is exact for reading alike; for matching alike it is sufficient and not necessary, as `GlobLimits.TrapCanBeHarmless` shows. For expressions that Go refuses `GlobLimits.RefusedExactly` is exact, and refusals are those that the reader finds in classes.
- SharedArguments.RedactCopy: starts from the deep copy, which the library makes; that it has the shape of the arguments and shares no dictionary with them is not modelled. Dictionaries inside lists are plain values there, as no path leads into a list.
- DurableLedger.DurableChainIsAlwaysAhead: assumes, as the source does, one writer and a store whose transactions are atomic.
- Ledger.LedgerObject.Append: does not model the `on_append` hook, whose failures the source swallows.
- PolicyAnalysis.Analyse: does not model the order of the reported holes and the wording of the report.
- PolicyAnalysis.FiringIsExact: needs fresh fillers and covered role combinations, and speaks of calls with the five postures and scores that are not negative; outside these the two directions can fail, as `AnalysisLimits` shows for the first two.
- PolicyAnalysis.HolesAreExact: has the same hypotheses. That they suffice is proved, that each is necessary for a given policy is not: an accidental match can be harmless.
- AuthorityEngine.Engine.WalkToRoot: does not model the source's closing message that a chain did not end at a human root, which only repeats an earlier error.
- AuthorityEngine.Engine.Record: leaves out the fields of an action that take no part in the checks: parameter digest, session, plan.
- ControlPlane.Plane.Contain: leaves out the rollback that follows the revocations, and reports the radius as a set rather than a list.
- ControlPlane.Plane.Authorize: takes classification, planning, the journal and the two ledger appends as inputs that may raise, and leaves out what is not read by a check: the arguments kept, the sequence number put into the verdict. It requires an action identifier not used before.
- ControlPlane.Plane.Finalize: leaves the ledger append that follows to `ControlPlane.Plane.AuthorizeInner`.
- TrafficAnalysis.Suggest: leaves out the notes and the evidence counts, which decide nothing.
- TrafficAnalysis.Simulate: leaves out the rounded percentage and the sorting of rows by count.
- PolicyEngine.Evaluate: conditions and budgets are arbitrary predicates on the arguments and the session; committing and releasing a budget after the call is not modelled.
- Compiler.CompileBundle: registries hold the posture of a tool only, not its inverse.
- `DependsOnAgentIdentity`, `inventory`, `dependencies`, `consequence_budget`: each would add an easy member.
- The reversal engine, its horizon and budget, drills, validation, calibration, the threat scanner, the SQLite store, adapters, the benchmark, the console and the reports.
