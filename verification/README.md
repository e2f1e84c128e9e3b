# Verified model of the workspace engines

A Dafny model of six parts of the server, with proofs. `dafny verify dfyconfig.toml` checks it.

- **Canonical JSON** (`Unicode`, `Decimal`, `CanonicalJson`, `CanonicalEquality`, `CanonicalMeaning`, `CanonicalWalk`): the digest input behind every audit
  and evidence binding. Strings are UTF-16 code units, numbers are the sign, digits and exponent of their shortest serialisation,
  values are trees; `CanonicalWalk` is the walk over objects that may share or contain each other.
- **Graphs, boards and the lock** (`CycleCheck`, `TaskBoard`, `TaskMoves`, `PromiseLock`): workflow steps, work items with dependencies and work
  limits, and the promise-chain mutex as a state machine over every interleaving.
- **FairLaunch** (`DrawSampling`, `Contest`, `ContestRuns`, `ContestEffects`, `ContestDraws`, `ContestScan`, `ContestStore`): weighted sampling,
  contests from registration to the winner proof, which frozen contests can be drawn, and the record store's listings and quota.
- **E-signature** (`Esign`, `EsignRuns`, `EsignEffects`, `EsignCertificates`, `EsignRecords`, `EsignProgress`, `EsignCompletion`, `EsignLimits`, `EsignCompletable`,
  `EsignWitness`, `EsignDesk`, `EsignRetries`): templates, envelopes, sessions, field facts and certificates; which envelopes can be completed and which never; and the
  engine behind its idempotency receipts.
- **Letterline** (`Letterline`, `LetterlineRuns`, `LetterlineEffects`, `LetterlineOrigins`, `LetterlineReturn`, `LetterlineDesk`): consent, suppression and the campaign chain.
- **Receipts and membership** (`Receipts`, `ReceiptGrounds`, `Membership`, `MembershipEffects`, `MembershipEngine`): idempotency receipts over any engine, and the member lists
  copied onto the records of meetings, courses and spaces.

`Sorting` and `Options` are shared. Each engine has a store, a `Step` that is one atomic command (a refused command changes nothing), an
invariant kept by every step, and a class whose methods update the store field by field and are proved to do what `Step` says. A class is
`Valid` in sound states; for the two desks that is a store some run of commands leaves, so every result about runs is one about them. Main
results are about every run from the empty store, or from any sound one. For each command two results stated on the stores alone, without
`Step`'s branches and helpers, say exactly when it is accepted (`…Exactly`) and what it leaves (`…Leaves`).

Conventions: a digest is kept as the value it digests; clocks are integers given to each command; a fresh record id, token or random
value is a parameter, refused if it is taken; a referral code is an arbitrary function of contest and key, so collisions are covered;
a text order that only has to be fixed is the order of numbers. Boards, e-signature and Letterline refuse a command whose listing holds
more than 100,000 records (10,000 on boards), and the model counts what each listing holds.

Some things a reader may expect do not hold of the code as it stands, and the model follows the code.

- Work limits are not checked when an item is created, so the initial state can exceed its limit (`TaskBoard.InitialLimitCanBeExceeded`;
  exactly when, `TaskBoard.InitialLimitSurvivesIffRoom`).
- A proposal queued in meetings or learning about a record of another module is never synchronised (`Membership.CrossModuleProposalGoesStale`; exactly
  when, `Membership.ProposalFollowsIffSameModule`).
- A template may have a role without fields, and its envelopes can be declined or voided but never completed
  (`EsignWitness.RoleWithoutFieldIsReachable`). Sessions are never deleted, so a workspace can come to hold more than can be listed, and an
  active envelope without a live session then cannot even be voided (`EsignWitness.SaturationIsReachable`, `EsignLimits.StuckForever`).
  Exactly which active envelopes can still be completed says `EsignCompletable.CompletableIff`.
- A fraud signal can be recorded after the freeze, when no decision can resolve it; the draw is then blocked until an entrant withdraws
  (`ContestDraws.BlockedUntilWithdrawal`; exactly when a frozen contest can be drawn, `ContestDraws.DrawableIff` and `ContestStore.StoreDrawableIff`).
- A hard bounce or complaint does not block reactivation for good (`LetterlineRuns.NoSuppressionIsPermanent`; exactly who can return,
  `LetterlineReturn.ReturnIff`).
- The growth engine's listings stop at 5,000,000 records without an error. That loses nothing only because no plan allows a workspace more
  records than that (`ContestScan.StoreRunsAreRuns`).

## Model

| member | source | states |
|---|---|---|
| `Unicode.ScanAcceptsExactly` | src/server/ai-result.ts:73-86 | The scan accepts a UTF-16 string exactly when it is well-formed (section 2 of RFC 2781) and holds no U+0000; otherwise it names the defect. |
| `Unicode.AssertUnicodeScalarString` | src/server/ai-result.ts:73-86 | The index loop, one code unit at a time and two over a surrogate pair, returns the verdict of that scan. |
| `Unicode.ScanNamesTheDefect` | src/server/ai-result.ts:73-86 | The defect named is the first one there is: before the NUL or the unpaired surrogate it names, the string is well-formed without U+0000. |
| `Unicode.Utf8OrderIsCodePointOrder` | src/server/ai-result.ts:112-114 | Comparing two strings by their UTF-8 bytes (section 3 of RFC 3629) gives the order of their code points. |
| `Unicode.CompareUtf8IsCodePointOrder` | src/server/ai-result.ts:112-114 | On accepted keys the comparator is code-point order, zero only on equal keys. |
| `Unicode.EncodeInjective` | src/server/ai-result.ts:88-92 | Two accepted strings with the same UTF-8 bytes are the same string. |
| `Unicode.DecodeUtf8Prefix` | src/server/ai-result.ts:88-92 | A UTF-8 decoder recovers the string from its bytes, whatever bytes follow. |
| `Decimal.PlainTextKeepsValue` | src/server/ai-result.ts:94-110 | For every sign, integer, fraction and exponent the regular expression can match, shortest or not, the output has no exponent and denotes the same rational; how short it is for numbers says CanonicalNumberIsMinimal. |
| `Decimal.JsonTextMatches` | src/server/ai-result.ts:95-99 | The text that number serialisation produces (section 6.1.6.1.20 of ECMA-262), with or without point and exponent, matches the regular expression in exactly one way, and its groups read back as the number: sign, digits, exponent and value. |
| `Decimal.StringifyKeepsValue` | src/server/ai-result.ts:94-110 | The groups of a serialised number denote the number's own rational. |
| `Decimal.NumberValueInjective` | src/server/ai-result.ts:94-110 | Two numbers in shortest form with the same value have the same sign, digits and exponent. |
| `Decimal.CanonicalNumberExact` | src/server/ai-result.ts:94-110 | Exactly the non-finite numbers have no canonical decimal; a canonical decimal denotes its number, and two are equal exactly when the rationals are, so only 0 and -0 coincide. |
| `Decimal.CanonicalNumberIsMinimal` | src/server/ai-result.ts:94-110 | The canonical decimal of a number is the one minimal text that denotes it: no leading zero before another digit, no zero at the end after a point, no exponent, no -0; whatever is minimal and denotes the number is that text. |
| `CanonicalJson.DecodeOfRender` | src/server/ai-result.ts:116-155 | A decoder written against the format recovers the value from its tokens, whatever text follows. |
| `CanonicalJson.RenderPrefixFree` | src/server/ai-result.ts:116-155 | No value's tokens are a proper prefix of another's, and equal tokens come from equal values. |
| `CanonicalEquality.AcceptsExactlyTheDomain` | src/server/ai-result.ts:116-155 | A value has a canonical form exactly when it is in the JSON domain: clean strings and keys, finite numbers, dense arrays, plain objects. |
| `CanonicalEquality.RecordKeysAscend` | src/server/ai-result.ts:145-149 | The entries of an object come in strictly ascending code-point order, whatever order its keys were added in. |
| `CanonicalMeaning.NormalIsTheForm` | src/server/ai-result.ts:116-155 | The form a value is given is the only one that represents it, by a relation stated independently of the encoder: same kind, same truth value, same characters, the minimal decimal of the number, elements and defined properties one for one, keys ascending; and it is given exactly to the values in the domain. |
| `CanonicalMeaning.RefusalsAreTrue` | src/server/ai-result.ts:116-155 | A refused value has the defect that the error names, somewhere in it: a NUL, an unpaired surrogate, a non-finite number, a hole, an object that is not plain, or something that is not JSON. |
| `CanonicalEquality.NormalEqualIffSame` | src/server/ai-result.ts:116-155 | Two values have the same canonical form exactly when they are equal up to key order, undefined properties and the sign of zero. |
| `CanonicalEquality.EqualTextIffSame` | src/server/ai-result.ts:164-166 | Two accepted values have the same canonical text, or one text starts with the other, exactly when they are equal in that sense. |
| `CanonicalEquality.TextDecodes` | src/server/ai-result.ts:164-166 | From any canonical text followed by any suffix the decoder returns the normalised value and the suffix. |
| `CanonicalMeaning.TextSaysTheValue` | src/server/ai-result.ts:164-166 | What the decoder reads from a value's canonical text represents that value. |
| `CanonicalWalk.Canonicalizer.CanonicalJsonValue` | src/server/ai-result.ts:116-155 | The recursive walk over objects that may share or contain each other, adding to and deleting from the ancestors set, leaves the set as it was and returns the specified text or error. |
| `CanonicalWalk.Canonicalizer.CanonicalItems` | src/server/ai-result.ts:127-134 | The array loop stops at the first undefined or refused element and otherwise joins the elements' tokens. |
| `CanonicalWalk.WalkOfUnfolding` | src/server/ai-result.ts:116-155 | On values that unfold to a finite tree the ancestors set never interferes: the walk gives the tree's canonical form, sharing included. |
| `CanonicalWalk.WalkAcceptsExactlyFiniteTrees` | src/server/ai-result.ts:125-126 | The ancestors set refuses circular values and nothing else. |
| `CanonicalWalk.CanonicalJsonText` | src/server/ai-result.ts:164-166 | The entry point returns the text of the tree the value unfolds to, and returns a text only for such values. |
| `CycleCheck.AllFinishedNoCycle` | src/server/core-business-engine.ts:234 | When every node has been finished with its successors before it, the graph has no cycle. |
| `CycleCheck.ClosesCycle` | src/server/core-business-engine.ts:234 | Meeting a node that is still being visited exhibits a cycle. |
| `CycleCheck.Search.Visit` | src/server/core-business-engine.ts:234 | One depth-first visit with its seen and visiting sets terminates, throws only on a real cycle, and otherwise finishes everything reachable. |
| `CycleCheck.ContainsCycle` | src/server/core-business-engine.ts:234 | The whole search throws if and only if the graph has a cycle. |
| `TaskBoard.CheckWorkflow` | src/server/core-business-engine.ts:230-234 | A workflow version is accepted exactly when keys are distinct, no dependency list is given empty, dependencies name other declared steps, and no step depends on itself through others. |
| `TaskBoard.EdgesContainCycle` | src/server/core-business-engine.ts:280-284 | The adjacency map built from stored edges and the new one leads to a throw exactly when the edges have a cycle. |
| `TaskBoard.LinkRefusedIffPathBack` | src/server/core-business-engine.ts:284 | A link is refused as cyclic exactly when the stored dependencies already lead from its successor back to its predecessor. |
| `TaskBoard.StepKeepsInv` | src/server/core-business-engine.ts:280-285 | Every command keeps each project's dependencies acyclic over its own items and every limited state but the initial one within its limit. |
| `TaskBoard.BoardsStayAcyclicAndLimited` | src/server/core-business-engine.ts:280-285 | On every board that a run of commands from the empty one makes, each project's dependencies are acyclic and within it, and every limited state but the initial one is within its limit. |
| `TaskBoard.InitialLimitCanBeExceeded` | src/server/core-business-engine.ts:283 | A reachable board on which the initial state holds more items than its limit: creation does not check it. |
| `TaskBoard.InitialLimitSurvivesIffRoom` | src/server/core-business-engine.ts:283 | A command keeps the initial state within its limit if and only if it does not create an item while that state is full. |
| `TaskMoves.ProjectExactly` | src/server/core-business-engine.ts:282 | A project is accepted exactly with two different states and positive limits on states of its own; its states are those named, each once, in the order in which they were first named. |
| `TaskMoves.ItemExactly` | src/server/core-business-engine.ts:283 | A new item is the first version, in its project's first state, and nothing else changes. |
| `TaskMoves.LinkExactly` | src/server/core-business-engine.ts:284 | A link is accepted exactly between two different items of the project when no way leads back, and adds that edge and nothing else. |
| `TaskMoves.TransitionExactly` | src/server/core-business-engine.ts:285 | A transition is accepted exactly when the new state is the one before the item's or the one after it, in the second case only if every dependency stored into the item has its predecessor in the last state, the new state has room, and the version is current; it moves the item and nothing else. |
| `TaskMoves.ForwardOnlyAfterPredecessors` | src/server/core-business-engine.ts:285 | On every run, for each state that an item is beyond, there was a moment at which it went on from there, and at that moment all its stored predecessors were in the last state. |
| `TaskBoard.TaskEngine.DependencyLink` | src/server/core-business-engine.ts:284 | The command changes the board as specified, running the depth-first check on the stored edges plus the new one. |
| `TaskBoard.TaskEngine.WorkItemTransition` | src/server/core-business-engine.ts:285 | The command checks adjacency, predecessors, limit and version in order and moves one item: it does what the specification does, of which TransitionExactly says when it accepts. |
| `PromiseLock.StartEnabledIffHead` | src/server/core-business-engine.ts:33-37 | A waiting call may run exactly when every earlier call on its key has been released. |
| `PromiseLock.MutualExclusion` | src/server/core-business-engine.ts:33-37 | Under every interleaving at most one call per key runs at a time. |
| `PromiseLock.FirstComeFirstServed` | src/server/core-business-engine.ts:33-37 | Calls on a key run in the order they were made, each after the one before it was released. |
| `PromiseLock.NeverSticks` | src/server/core-business-engine.ts:33-37 | Whenever calls wait on a key and none runs, the first of them is enabled, also after work that threw. |
| `PromiseLock.EntryExactlyWhileInUse` | src/server/core-business-engine.ts:33-37 | The map holds a key exactly while a call on it is unreleased, and then the last such call; an entry is deleted only when nothing is queued behind it. |
| `PromiseLock.ReleasedHaveRun` | src/server/core-business-engine.ts:33-37 | Whoever runs was started, and whoever is released was started and then finished: a gate is opened in no other way. |
| `DrawSampling.Scan` | src/server/first-party-growth-engine.ts:394-397 | The cumulative find resolves exactly for numbers below the total, to the position that owns the number. |
| `DrawSampling.SelectWinner` | src/server/first-party-growth-engine.ts:382-400 | The draw takes the first of a thousand hashes below the limit, reduces it and finds its owner, or reports a bad total or no convergence; its last error branch is unreachable. |
| `DrawSampling.DrawIsReproducible` | src/server/first-party-growth-engine.ts:382-400 | Weights and hashes determine the draw: anyone who recomputes it gets the same winner, index and counter. |
| `DrawSampling.CountChoosing` | src/server/first-party-growth-engine.ts:393-397 | Of any first n numbers, a position is chosen by its weight per full round plus its share of the incomplete one. |
| `DrawSampling.RejectionSamplingIsExact` | src/server/first-party-growth-engine.ts:385-396 | Of the accepted values each candidate is chosen by exactly its weight times the integer quotient of 2^256 by the total. |
| `DrawSampling.DrawnByItsShare` | src/server/first-party-growth-engine.ts:385-397 | A draw selects a candidate exactly when the first hash below the limit is one of those counted as that candidate's. |
| `DrawSampling.FewRejected` | src/server/first-party-growth-engine.ts:385-386 | Fewer values than the total weight are rejected, and every remainder has exactly one owner. |
| `DrawSampling.BucketsMatchWeights` | src/server/first-party-growth-engine.ts:245-254 | Of the total number of buckets each variant gets exactly its weight. |
| `DrawSampling.Allocate` | src/server/core-business-engine.ts:322 | The variant allocators always resolve on a non-empty list of positive weights, to the owner of hash modulo total. |
| `DrawSampling.AllocationIsExactIff` | src/server/first-party-growth-engine.ts:245-254 | Without rejection the split over n equally likely hashes is exactly proportional if and only if the total divides n or there is one variant. |
| `ContestRuns.SameCandidates` | src/server/first-party-growth-engine.ts:360-380 | The candidate list depends only on the contest's entries, their receipts and the decisions on them. |
| `ContestRuns.StepKeepsInv` | src/server/first-party-growth-engine.ts:402-519 | Every contest command keeps entries, receipts, contests, snapshots, proofs and frozen candidate lists consistent. |
| `ContestRuns.KeysAndCodesUnique` | src/server/first-party-growth-engine.ts:427-434 | Over all entries ever made, revoked ones included, participant keys and referral codes are unique per contest. |
| `ContestScan.ListingIsComplete` | src/server/suite-store.ts:471-480 | A listing that stops at 5,000,000 records shows all of them while all records together are no more than that. |
| `ContestScan.StoreRunsAreRuns` | src/server/suite-store.ts:535-549 | Because creating a record is refused at the plan's quota, at most 5,000,000, no listing is ever cut short: whatever the store is asked, on whatever plans, its contests are those of a run in which every command sees every record. |
| `ContestScan.StoreKeepsKeysAndLists` | src/server/first-party-growth-engine.ts:195-197 | So in the store keys stay unique, and a frozen list equals the one drawn up afresh through the listings. |
| `ContestScan.KeyIsFoundIffListed` | src/server/first-party-growth-engine.ts:426-427 | The duplicate check finds a key exactly if the one entry holding it was listed, so without the quota a key could enter twice. |
| `ContestRuns.ClampIsIdentity` | src/server/first-party-growth-engine.ts:375 | An eligible entry's weight is always in [1, 1 + cap], so the clamp in the candidate list never changes it. |
| `ContestRuns.FrozenDrawNeverDrifts` | src/server/first-party-growth-engine.ts:502-512 | In every reachable frozen contest revealing with the right entropy succeeds exactly when all signals are reviewed and the sampler resolves; the digest mismatch never occurs. |
| `ContestRuns.OneWinnerPerContest` | src/server/first-party-growth-engine.ts:502-519 | A contest has at most one winner proof over any run, and it was not drawn from an invalidated snapshot. |
| `ContestRuns.DrawnIsFinal` | src/server/first-party-growth-engine.ts:504-519 | Once drawn, a contest and its proof never change. |
| `ContestRuns.WinnerIsSound` | src/server/first-party-growth-engine.ts:508-517 | The winner is the frozen candidate owning the drawn index, and at the draw an eligible entry of that contest whose consent stands. |
| `ContestRuns.RevocationIsForever` | src/server/first-party-growth-engine.ts:443-451 | A consent revocation is never undone, not even by a later eligibility decision. |
| `ContestRuns.RevokedCannotWin` | src/server/first-party-growth-engine.ts:443-519 | An entry whose consent was revoked at any earlier time is never the winner. |
| `ContestRuns.NoEntryAfterFreeze` | src/server/first-party-growth-engine.ts:420-463 | With a clock that does not run backwards nobody enters a contest after its first freeze, although a revocation reopens its state. |
| `ContestDraws.BlockedUntilWithdrawal` | src/server/first-party-growth-engine.ts:464-476 | A fraud signal recorded after the freeze blocks the draw: until an entrant of the contest withdraws, contest and signal stay as they are, and a withdrawal voids the frozen list. |
| `ContestDraws.DrawableIff` | src/server/first-party-growth-engine.ts:476-519 | A frozen contest can still be drawn from the list it froze, by some run, if and only if no fraud signal on an entrant is unreviewed and the weights on the list add up to a safe positive integer. |
| `ContestStore.StoreDrawableIff` | src/server/first-party-growth-engine.ts:476-519 | In every store the contests come to, the weights on a frozen list are a safe total: a frozen contest can be drawn if and only if no fraud signal on an entrant is unreviewed, and the store makes the draw if and only if, besides, the largest plan has room for the proof and a receipt. |
| `ContestRuns.Giveaways.EntryRegister` | src/server/first-party-growth-engine.ts:420-442 | Registration checks contest, consent, key, code and referrer, then stores receipt and entry and pays the referrer: the store it leaves is the one that RegisterLeaves describes. |
| `ContestRuns.Giveaways.EntryConsentRevoke` | src/server/first-party-growth-engine.ts:443-463 | Revocation withdraws the receipt, zeroes the weight, takes back the referrer's bonus before the draw and invalidates an undrawn snapshot. |
| `ContestRuns.Giveaways.EligibilityDecide` | src/server/first-party-growth-engine.ts:473-488 | A decision is refused once a snapshot exists, and otherwise records its reviewed signals and sets state and weight. |
| `ContestRuns.Giveaways.DrawSnapshotFreeze` | src/server/first-party-growth-engine.ts:489-501 | Freezing needs a closed published contest without snapshot, all signals reviewed and a non-empty list, and stores the list. |
| `ContestRuns.Giveaways.WinnerDrawReveal` | src/server/first-party-growth-engine.ts:502-519 | Revealing rechecks entropy and candidates, draws with rejection and stores the proof. |
| `ContestEffects.OpeningExactly` | src/server/first-party-growth-engine.ts:405-419 | A contest is created exactly with a close time to come and a cap of at most 20, and published exactly as a draft with these rules before it closes. |
| `ContestEffects.OpeningLeaves` | src/server/first-party-growth-engine.ts:405-419 | A contest begins as a draft with its rules and the commitment to its entropy; publishing changes its state and version only. |
| `ContestEffects.RegisterExactly` | src/server/first-party-growth-engine.ts:420-434 | A registration is accepted exactly while the contest is open, with consent to its policy for its administration, for a key nobody standing holds and a code nobody holds, and with a referral code, if any, that an eligible entry of the contest holds. |
| `ContestEffects.RegisterLeaves` | src/server/first-party-growth-engine.ts:435-442 | An accepted registration leaves the referrer it names with the smaller of the old weight plus one and one plus the cap, if the cap is positive, every other old entry as it was, the new entry with weight 1, and its consent; nothing else changes. |
| `ContestEffects.RevokeExactly` | src/server/first-party-growth-engine.ts:443-446 | A withdrawal is accepted exactly for an entry that was not withdrawn. |
| `ContestEffects.RevokeLeaves` | src/server/first-party-growth-engine.ts:447-463 | An accepted withdrawal leaves the entry revoked with no weight and its consent withdrawn, the referrer with the larger of 1 and the old weight minus one, if the contest is not drawn, a frozen list void and its contest published again; nothing else changes. |
| `ContestEffects.SignalExactly` | src/server/first-party-growth-engine.ts:464-472 | A signal is recorded on any entry, and changes nothing else. |
| `ContestEffects.DecideExactly` | src/server/first-party-growth-engine.ts:473-483 | A decision is accepted exactly on a published contest without frozen list, for the entry's current version, reviewing signals on that entry only. |
| `ContestEffects.DecideLeaves` | src/server/first-party-growth-engine.ts:484-488 | An accepted decision is recorded with its signals and leaves the entry eligible with its weight, but at least 1, or excluded with none. |
| `ContestEffects.FreezeExactly` | src/server/first-party-growth-engine.ts:489-496 | A freeze is accepted exactly on a published contest that has closed, when every signal on its entries is reviewed and some entry stands. |
| `ContestEffects.FreezeLeaves` | src/server/first-party-growth-engine.ts:360-380 | The list an accepted freeze stores names exactly the entries that are eligible, never withdrawn and with a standing consent, each once in order, with its own weight, consent and latest decision. |
| `ContestEffects.RevealExactly` | src/server/first-party-growth-engine.ts:502-508 | A reveal is accepted exactly on the frozen list its contest awaits a draw from, with the committed entropy, all signals reviewed, and hashes that select someone from the list's weights. |
| `ContestEffects.RevealLeaves` | src/server/first-party-growth-engine.ts:508-519 | The proof an accepted reveal stores names the candidate whom the hashes select from the weights on the frozen list, with index and counter, and the contest is drawn; nothing else changes. |
| `ContestEffects.TicketsAreEarned` | src/server/first-party-growth-engine.ts:435-463 | On every run, until its contest is drawn, an entry weighs at most one more than the number of entries that it referred and that were not withdrawn. |
| `EsignRuns.RouteFromTemplate` | src/server/esign-engine.ts:260-272 | Signers who match a validated template number off 1, 2, 3, … without gap, each with an own id, role and order, and every field's role has a signer. |
| `EsignRuns.TurnIsNext` | src/server/esign-engine.ts:389-390 | A signer who has not completed and is preceded only by completed ones is the next one of the route. |
| `EsignRuns.StepKeepsInv` | src/server/esign-engine.ts:306-510 | Every command keeps the envelope invariant: route order, one open session, fact ownership, coverage, and certificates of the current manifest. |
| `EsignRuns.SignersCompleteInOrder` | src/server/esign-engine.ts:382-442 | In every reachable envelope the completed signers are exactly a prefix of the route, and the only session that can be open is the next signer's. |
| `EsignRuns.CompletesOnce` | src/server/esign-engine.ts:407-442 | A signer completes at most once, and only as the next one of the route. |
| `EsignRuns.CompletedIsExactCover` | src/server/esign-engine.ts:407-442 | An envelope is completed exactly when all its signers are; then every required field has a fact; no field ever has two; each fact fits its field's kind and comes from a finished session of the signer holding its role. |
| `EsignRuns.TerminalIsFinal` | src/server/esign-engine.ts:444-510 | Completed, declined and voided envelopes never change again, have no open session, and always yield the same manifest, which lists what ExportLeaves says. |
| `EsignRuns.OneCertificate` | src/server/esign-engine.ts:500-510 | An envelope gets at most one certificate over any run; a repeated export leaves the store as it is. |
| `EsignCertificates.ExportExactly` | src/server/esign-engine.ts:500-506 | A certificate is exported exactly for a terminal envelope of the current version while all records can be listed. |
| `EsignCertificates.ExportLeaves` | src/server/esign-engine.ts:491-510 | The certificate an accepted export leaves lists exactly the stored facts of the envelope, each as often as it is stored and in the order of their fields, and exactly its sessions and events; it is new unless there was one, and nothing else changes. |
| `EsignCertificates.CertificatesSayAll` | src/server/esign-engine.ts:491-510 | Whatever certificate a run has stored lists exactly the facts, sessions and events its envelope has at any later time, and for a completed envelope exactly one fact for each required field. |
| `EsignEffects.VersionExactly` | src/server/esign-engine.ts:306-322 | A template version is accepted exactly with distinct roles whose orders are 1, 2, 3, … and fields with distinct ids, on the page, for these roles, on the template's current version; never refused as a duplicate. |
| `EsignEffects.VersionLeaves` | src/server/esign-engine.ts:306-322 | The new version is the next number, with these roles and fields, and the template counts it; nothing else changes. |
| `EsignEffects.DocumentExactly` | src/server/esign-engine.ts:324-332 | A document version is registered exactly if it was not registered before. |
| `EsignEffects.DraftExactly` | src/server/esign-engine.ts:334-357 | An envelope is drafted exactly with its document's hash, fields on existing pages, distinct signers and keys, a one-to-one assignment of signers to the template's roles with their orders, and a deadline to come. |
| `EsignEffects.DraftLeaves` | src/server/esign-engine.ts:334-357 | The draft holds the document's hash, the template's fields, the signers and the deadline it was given; nobody has completed. |
| `EsignEffects.DispatchExactly` | src/server/esign-engine.ts:367-380 | A draft is dispatched exactly on a preview of everything it now holds, before its deadline, and becomes ready with that plan. |
| `EsignEffects.IssueExactly` | src/server/esign-engine.ts:382-392 | A session is issued exactly to a signer who has not completed, whom everyone earlier in the route precedes as completed, with no other live session of theirs, ending no later than the envelope. |
| `EsignEffects.IssueLeaves` | src/server/esign-engine.ts:393-405 | The new session is open, with the signer's key, role and token, and this signer's outdated open sessions are expired; no other session changes. |
| `EsignEffects.CompleteExactly` | src/server/esign-engine.ts:407-433 | A completion is accepted exactly with the token of a live session, inputs for distinct fields of the signer's role, all its required ones among them, each of a fitting kind and made since the session began; never refused because a fact exists. |
| `EsignEffects.CompleteLeaves` | src/server/esign-engine.ts:434-442 | Each input is recorded as one fact, in order, with its field's kind; the session is finished, the signer counted, and the envelope completed with the last signer; nothing else changes. |
| `EsignEffects.DeclineExactly` | src/server/esign-engine.ts:444-453 | Declining needs exactly the token of a live session of the signer and current versions. |
| `EsignEffects.DeclineLeaves` | src/server/esign-engine.ts:454-458 | Declining records signer and reason, ends that session and the envelope, and changes nothing else. |
| `EsignEffects.VoidExactly` | src/server/esign-engine.ts:460-463 | Any envelope that is not terminal can be voided while its sessions can be listed. |
| `EsignEffects.VoidLeaves` | src/server/esign-engine.ts:464-472 | Voiding cancels exactly the open sessions of the envelope and records the reason; nothing else changes. |
| `EsignEffects.RemindExactly` | src/server/esign-engine.ts:474-489 | A reminder is planned exactly for a signer who has not completed, before the deadline and on a current preview, and changes nothing but the plans. |
| `EsignProgress.NextSessionCanBeIssued` | src/server/esign-engine.ts:382-405 | While an envelope is active and unexpired and no session on it is live, there is a next signer, and a session is issued to them if and only if at most 100,000 sessions are stored and, under a quota, two more records fit. |
| `EsignProgress.SessionCanBeCompleted` | src/server/esign-engine.ts:407-442 | The holder of a live session whose role has a field completes it if and only if at most 100,000 facts are stored and, under a quota, the facts and a receipt fit. |
| `EsignProgress.CompletedNeedsAFieldPerRole` | src/server/esign-engine.ts:407-442 | An envelope with a signer whose role has no field is never completed in any run. |
| `EsignCompletable.CompletableIff` | src/server/esign-engine.ts:282-442 | Under any record quota an active, unexpired envelope can be completed by some calls from now on if and only if every signer's role has a field, no open session whose token is also another's lasts until the envelope expires, the sessions still to be issued fit the scan limit, so do the facts that must be recorded before the last signer, and the records of all that remains fit the quota. |
| `EsignLimits.StuckForever` | src/server/esign-engine.ts:382-472 | Once more than 100,000 sessions are stored, an active envelope without a live session never changes again: it is not completed, not declined, and cannot be voided. |
| `EsignWitness.RoleWithoutFieldIsReachable` | src/server/esign-engine.ts:260-272 | Five accepted calls from the empty store make an active, unexpired envelope that no further calls complete, because one role was given no field. |
| `EsignWitness.SaturationIsReachable` | src/server/esign-engine.ts:176-179 | A run of accepted calls leads to a stuck envelope whose roles all have fields, before its deadline. |
| `EsignRecords.VersionsNumberOff` | src/server/esign-engine.ts:306-322 | On every run the versions of a template number off from 1 to its current one, each once; so the refusal of an exact duplicate is never given. |
| `EsignRecords.EnvelopesStayBound` | src/server/esign-engine.ts:334-357 | Template versions and documents never change, and every envelope keeps the hash, fields, signers and deadline it was drafted with: its document's hash, existing pages, exactly its version's fields and roles. |
| `EsignDesk.Desk.SessionForToken` | src/server/esign-engine.ts:282-288 | Finds the one open, unexpired session with that token for that envelope and signer, and refuses an ambiguous token. |
| `EsignDesk.Desk.RetireSessions` | src/server/esign-engine.ts:393-399 | The loop closes exactly this signer's expired open sessions on the envelope. |
| `EsignDesk.Desk.PushFacts` | src/server/esign-engine.ts:434-438 | The loop stores one fact per input, in order, after the facts there are. |
| `EsignDesk.Desk.RevokeSessions` | src/server/esign-engine.ts:464-469 | The loop revokes exactly the open sessions of the voided envelope. |
| `EsignDesk.ReachableIsSound` | src/server/esign-engine.ts:614-652 | Every store a desk can be in is one a run leaves, so it has the envelope invariant, a field for everyone who completed, sessions that end by their envelope's deadline, numbered versions and bound envelopes. |
| `EsignRetries.OneCallPerReceipt` | src/server/esign-engine.ts:631-652 | Whatever requests are sent, and however often, the store is that of a run with exactly one command per receipt. |
| `EsignRetries.RetriesKeepInv` | src/server/esign-engine.ts:631-652 | The envelope invariant holds after every history of requests, retries included. |
| `EsignRetries.RetryStoresNothing` | src/server/esign-engine.ts:211-224 | A retry with a new clock, record id and session token stores nothing. |
| `LetterlineRuns.StepKeepsSubscribers` | src/server/email-engine.ts:295-362 | Every command keeps the suppression flag equal to its definition, binds the consent clock to its receipt and keeps addresses unique. |
| `LetterlineRuns.ApplyKeepsSubscribers` | src/server/email-engine.ts:338-348 | Applying a suppression leaves its subscriber suppressed, also when the identical evidence was stored before and nothing is written. |
| `LetterlineRuns.BothSuppressionTestsAgree` | src/server/email-engine.ts:357-362 | In every reachable state the flag says exactly that some suppression is no older than the current consent, so both tests coincide. |
| `LetterlineRuns.PlanRecipientsHaveNewerConsent` | src/server/email-engine.ts:458-507 | A new plan's recipients are exactly the audience members whose receipted consent is strictly newer than all of their suppressions, in sorted order. |
| `LetterlineRuns.StepKeepsCampaigns` | src/server/email-engine.ts:398-507 | Every command keeps the chain of review, approval, schedule and plan for the current version and content. |
| `LetterlineRuns.OnlyReviewedContentIsReleased` | src/server/email-engine.ts:409-456 | An approved, scheduled or planned campaign rests on an approval and a positive review of exactly its current version and hash; the hash's content is pinned by ReleasedContentWasReviewed. |
| `LetterlineRuns.PlansKeepTheirChain` | src/server/email-engine.ts:478-507 | Every plan ever made keeps its chain of schedule, approval and positive review, however often the campaign is redrafted. |
| `LetterlineOrigins.ReleasedContentWasReviewed` | src/server/email-engine.ts:398-456 | The content of a campaign that is approved, scheduled or planned was given to an accepted draft call, then to an accepted positive review of that version, then to an accepted approval on that review, in this order and of this run. |
| `LetterlineOrigins.VersionsWereDrafted` | src/server/email-engine.ts:398-407 | Every stored version was made by an accepted draft call for its campaign, and its hash digests that call's content with the campaign and its audience. |
| `LetterlineOrigins.ReviewsWereGiven` | src/server/email-engine.ts:416-427 | Every stored review was given by an accepted call with its verdict, on a version that was stored with that hash. |
| `LetterlineOrigins.ApprovalsWereGiven` | src/server/email-engine.ts:429-441 | Every stored approval was given by an accepted call on a stored positive review of that version and hash. |
| `LetterlineEffects.DraftLeaves` | src/server/email-engine.ts:398-407 | An accepted draft stores the digest of the command's content, the campaign and its audience as the campaign's next version, makes it current, and forgets review, approval, schedule and plan; nothing else changes. |
| `LetterlineEffects.ReviewExactly` | src/server/email-engine.ts:416-427 | A review is accepted exactly on the current version of a draft, and records its verdict on that version and hash. |
| `LetterlineEffects.ApproveExactly` | src/server/email-engine.ts:429-441 | An approval is accepted exactly on the positive review the campaign now has, of its current version and hash. |
| `LetterlineEffects.ScheduleExactly` | src/server/email-engine.ts:443-456 | A schedule is accepted exactly for an approved campaign and a time to come, and binds both. |
| `LetterlineEffects.PlanExactly` | src/server/email-engine.ts:478-507 | A plan is accepted exactly for a scheduled campaign at its scheduled time, while somebody may receive it and members and suppressions can be listed. |
| `LetterlineEffects.PlanLeaves` | src/server/email-engine.ts:478-507 | The plan binds version, hash, audience and schedule, and the campaign counts it; nothing else changes. |
| `LetterlineRuns.ReactivationIsNewest` | src/server/email-engine.ts:322-336 | A reactivation's consent is strictly newer than every suppression of the subscriber, not only the latest one it is compared with. |
| `LetterlineRuns.ConsentClocksRise` | src/server/email-engine.ts:295-348 | Over any run a subscriber keeps the address and the audiences, no suppression is lost, and the consent clock never moves backwards, although a reactivation does not compare with it. |
| `LetterlineRuns.NoSuppressionIsPermanent` | src/server/email-engine.ts:322-348 | From every sound state in which a subscriber is suppressed, for whatever reason, a later manual suppression and a newer reconfirmed consent make them active again. |
| `LetterlineEffects.OptInExactly` | src/server/email-engine.ts:295-314 | An opt-in is accepted exactly with good consent to the audience's policy, if whoever has the address is not suppressed and did not consent later. |
| `LetterlineEffects.OptInLeaves` | src/server/email-engine.ts:295-314 | A new address becomes a subscriber with this consent; a known one gets the audience and the newer consent; nothing else changes. |
| `LetterlineEffects.ReactivateExactly` | src/server/email-engine.ts:322-336 | A reactivation is accepted exactly with a reconfirmed, doubly opted consent that is newer than everything held against the subscriber, if the last of it is an unsubscription or manual. |
| `LetterlineEffects.ReactivateLeaves` | src/server/email-engine.ts:322-336 | The subscriber is active again with that consent in that audience; no suppression is removed. |
| `LetterlineEffects.SuppressExactly` | src/server/email-engine.ts:350-355 | A suppression is accepted exactly if it is not older than the consent and not in the future; then the subscriber is suppressed with that evidence, stored once. |
| `LetterlineEffects.IngestExactly` | src/server/email-engine.ts:509-536 | A provider's report is accepted exactly for a recipient of the plan, at credible times, once per event id or with the same evidence, and suppresses only on a hard bounce, complaint or unsubscription. |
| `LetterlineReturn.ReturnIff` | src/server/email-engine.ts:322-348 | A suppressed subscriber can become active in some run under a given record quota if and only if another consent can be recorded, the suppressions can be listed, after one more if the latest is a bounce, a complaint or a legal block, and the quota has room for the audience, suppression and consent this takes and their receipts. |
| `LetterlineDesk.Desk.LatestSuppression` | src/server/email-engine.ts:316-320 | Finds the suppression that comes first by time and then id, in one pass. |
| `LetterlineDesk.Desk.ProviderReceiptIngest` | src/server/email-engine.ts:509-536 | Accepts an event id once, returns it for identical evidence, refuses it for other evidence, and suppresses on bounce, complaint and unsubscribe. |
| `LetterlineDesk.Desk.EligibleRecipients` | src/server/email-engine.ts:458-476 | The loop that sorts members into eligible and excluded yields the same manifest whatever order the store lists them in. |
| `LetterlineDesk.SameManifest` | src/server/email-engine.ts:474 | Any list of the eligible recipients, each once, sorts to the same manifest. |
| `Receipts.RunsStayUnambiguous` | src/server/esign-engine.ts:202-205 | Over any run no two receipts share a command key, and no two committed commands share an approval decision. |
| `Receipts.KeyIsBoundForever` | src/server/esign-engine.ts:211-224 | Once a command was answered, the same command returns the original record ids and changes nothing; another actor or another input on its key is refused. |
| `Receipts.RetryStutters` | src/server/email-engine.ts:233-255 | Wherever a repeat of an answered command is inserted, the run ends in the same world and every other reply is the same. |
| `Receipts.RepeatsChangeNothing` | src/server/core-business-engine.ts:139-151 | A list of requests ends in the world of the list without its repeats: those for which the list has an earlier request with the same command that was answered. |
| `Receipts.ReplayedIffRepeat` | src/server/core-business-engine.ts:139-151 | Starting without receipts, a request is answered from a receipt exactly when the list has an earlier request with the same command that was answered, and then with that request's record ids. |
| `ReceiptGrounds.AppliedExactly` | src/server/esign-engine.ts:202-224 | A request is applied exactly when its key is unbound, its approval is not invalid and was not used before, and the engine commits it; then the store is the engine's and one receipt of exactly this request is filed; in every other case nothing changes. |
| `ReceiptGrounds.BoundReplies` | src/server/esign-engine.ts:211-224 | On a bound key the same request gets the receipt's ids, and another actor's or another input's is refused. |
| `ReceiptGrounds.ReceiptsHaveGrounds` | src/server/additive-business-engine.ts:266-321 | Every receipt of a run was left by a request that the engine committed then, whose approval was not invalid and had not been used before. |
| `Receipts.Desk.Execute` | src/server/additive-business-engine.ts:266-321 | One command: replay, approval check, scan for a used decision, execution, receipt. |
| `Membership.StepKeepsInv` | src/server/additive-business-engine.ts:682-1023 | Every command keeps each parent and every record below it in agreement with the parent's active memberships, and every hash current. |
| `Membership.MembershipAgrees` | src/server/additive-business-engine.ts:384-440 | After any run each meeting, course and space, and every record below it including proposals of its module, carries exactly the sorted references of its active memberships, each once. |
| `Membership.ProposalFollowsIffSameModule` | src/server/additive-business-engine.ts:412-419 | When somebody new joins, an up-to-date proposal stays so if and only if it belongs to the module of the record it is about. |
| `Membership.CrossModuleProposalGoesStale` | src/server/additive-business-engine.ts:960-1023 | A reachable state in which a meetings proposal about a course misses a learner. |
| `Membership.CommunityProposalsStayUpToDate` | src/server/additive-business-engine.ts:963-966 | Community proposals, which may be about community spaces only, carry their space's current members after every run. |
| `Membership.HashIdentifiesRecord` | src/server/additive-business-engine.ts:463-492 | Over any run a record's version, and equally its content hash, is what it was exactly when the whole record is. |
| `MembershipEffects.EverythingNamesItsMembers` | src/server/additive-business-engine.ts:384-440 | After any run whatever belongs to a meeting, course or space names exactly those who have an active membership in it, each once and in order. |
| `MembershipEffects.JoinExactly` | src/server/additive-business-engine.ts:684-701 | A join is accepted exactly for a meeting, course or space whose members are all still in the workspace, by somebody in it who is not a member yet, or in a meeting also by a guest. |
| `MembershipEffects.JoinLeaves` | src/server/additive-business-engine.ts:684-701 | The new membership, the parent, and every record under it whose list differed are given the members and the new one; nothing else changes. |
| `MembershipEffects.UpdateExactly` | src/server/additive-business-engine.ts:483-496 | An update is accepted exactly for a membership or child record of a meeting, course or space whose members are all present, on its current version if one is expected. |
| `MembershipEffects.UpdateLeaves` | src/server/additive-business-engine.ts:483-492 | An update stores the new text and, but for memberships, the new state, with the parent's members, one version more and the hash of exactly that; the old text is gone, and nothing else changes. |
| `MembershipEffects.ProposalExactly` | src/server/additive-business-engine.ts:960-1003 | A proposal is queued exactly about an existing record, in the community module one of its space, whose members are all present. |
| `MembershipEffects.ProposalLeaves` | src/server/additive-business-engine.ts:997-1023 | A queued proposal is for exactly the members who see its target, and changes nothing else. |
| `MembershipEngine.Engine.Update` | src/server/additive-business-engine.ts:483-492 | Updates a record object in place: next version, hash of the new content, marked for persistence, no other record touched. |
| `MembershipEngine.Engine.ActiveMembershipRefs` | src/server/additive-business-engine.ts:384-410 | One pass collects the active members' references, refuses a reference that left the workspace, and returns each once in order. |
| `MembershipEngine.Engine.Synchronize` | src/server/additive-business-engine.ts:421-440 | The pass over all records updates the parent and exactly the records below it whose copy differs. |
| `MembershipEngine.Engine.AddMembership` | src/server/additive-business-engine.ts:684-701 | Synchronises the parent and everything below it, then stores the membership with the same list. |
| `MembershipEngine.Engine.Execute` | src/server/additive-business-engine.ts:252-321 | Runs one command and leaves in the dirty set exactly the records it created or changed. |

## Left out

- Error texts and value paths: a refusal carries a reason, not its message. Schema validation (lengths, patterns, blank strings) is left out, as are campaign content checks and the contents of prompts.
- Dry runs and previews: they make the same checks and change nothing. Approval validity (attribution, freshness) is a parameter of the receipts model.
- Roles, scopes, plans and record visibility: every caller is taken to see all records. The privacy gates of meetings, courses and spaces only refuse commands and are not modelled.
- The store's own tables, indexes and transactions: a command is atomic, and what it wrote before a refusal is gone. The additive engine's reloading of records from the store is not modelled.
- The record quota of a plan is modelled for contests, e-signature and Letterline, as a bound on a module's own records; boards and memberships, and the storage quota, are without. A command the store refuses for want of quota changes nothing, so every history is still a run, one without that command.
- EsignWitness.SaturationIsReachable: its run makes more than 200,000 records, which only the two larger plans allow.
- SHA-256, random bytes, e-mail normalisation and public-URL checks are abstract; so is the text the draw's seed is built from, which appears as the stream of hashes it yields.
- DrawSampling.Allocate: sums weights exactly; the sum of very large safe integers, which the script rounds, is not modelled.
- EsignRuns.TerminalIsFinal: the manifest lists facts in the order of their fields and keeps sessions and events as maps; the order in which these are listed is not modelled.
- Letterline: the audit of consent purposes is limited to their being distinct; analytics, exports and subscriber listing are left out.
- MembershipEngine.Engine.Synchronize: the copies that the engine hands to its callers, and aliasing with them, are not modelled.
- Learner references on attempts and credentials, space keys, lesson positions and credential previews are left out; they do not touch member lists.
- Contest exports, aggregate events, testimonials, brand pages, the remaining core modules, billing, hosting and the AI worker are left out.
