# Reconciliation engine: a verified model

This project models the decision logic of a bank reconciliation engine and proves its promises with Dafny 4.11.
Every module corresponds to a source file or to the laws about one.

The engine holds internal (ledger) and external (bank) transactions, pairs and groups them in stages, lets people
review, make and undo matches, settles simple exceptions by itself and records everything on hash chains. The model
has six parts.

- **The match ledger** (`Ledger`, `LedgerInvariant`, `LedgerLaws`). Transactions, match rows and claims as one value, and
  every operation on them as a step. An invariant is kept by every step; from it follow the exclusivity of claims, the
  meaning of each status, the permanence of rejections and the fact that undoing a match restores what was there.
- **The services on it** (`Database`, `Review`, `AutoResolver`, `Repository`). A session class with the three tables and
  the methods that change them row by row. Each method's contract gives its answers with their exact conditions and
  the ledger step it amounts to.
- **The matching stages** (`Stages`, `ExactMatching`, `ExactLaws`, `SetBasedExact`, `SqlEquivalence`, `CrossCurrency`,
  `SubsetSum`, `References`, `GroupMatching`, `GroupStrategy`, `GroupLaws`, `GroupRaises`, `GroupTolerance`,
  `GroupExamples`, `GroupCompleteness`, `Blocking`, `FuzzyMatching`, `FuzzyStrategy`, `RuleMatching`, `RuleStrategy`,
  `RunAccounting`, `RunSpec`, `Orchestrator`, `RunMeaning`, `RunJustified`). Each strategy's loops are proved against a
  specification without indexes, chunks or caches, and the specification has laws of its own. The orchestrator's run
  does exactly what its stages specify, each on the store it finds, and is one run of ledger steps with exact
  accounting; and every step of it is justified by the transactions as they were when it began.
- **The audit chain** (`AuditChain`, `AuditAppend`). Verification, tamper evidence, and the lock protocol of the append
  over all interleavings.
- **Exact algorithms** (`FxConvert`, `PeakWindow`, `RollingStats`, `BusinessCalendar`, `AmountText`,
  `StatementBalance`). Conversion with one rounding, the two-pointer window, Welford's recurrence, business days and
  amounts as text.
- **The run protocol** (`RunProtocol`). Start, replay, activate, reap and finish under two uniqueness constraints.

`dafny verify dfyconfig.toml` checks the whole project.

## Where the code and its description differ

- src/recon/matching/strategies/group.py:17-20 says a group is claimed only if the solution is unique. The code takes a whole linked set that settles in full without looking further (src/recon/matching/strategies/group.py:287-288). The model follows the code; `GroupLaws.WholeSetUniqueIff` says exactly when such a set is the only solution and `GroupExamples.WholeSetMayBeAmbiguous` gives a ledger with one that is not. Searched groups are always unique.
- A bank's FX tolerance only has to be positive (src/recon/config/models.py:79). The window the group search uses is the tolerance only below 200 percent (`FxConvert.WindowExactIff`).
- The CSV writer loses the sign of amounts strictly between minus one and zero rupees when a thousands separator is configured (`AmountText.CsvRoundTripIff`).
- peak_window raises IndexError for a window that is not positive (`PeakWindow.FindPeak`); its configuration excludes that.
- _finish overwrites whatever status it finds, so a run reaped as FAILED can become COMPLETED (`RunProtocol.TerminalChangesIff`, `RunProtocol.ReapedRunMayComplete`); what does hold is that no run re-enters RUNNING.
- src/recon/matching/strategies/group.py:20 says same-currency sums must agree within tolerance_minor. They do when all linked candidates are in that currency (`GroupTolerance.OneCurrencyIsClose`). When one of them is not, the whole comparison is in INR with the FX tolerance, even if the chosen subset is in one currency (src/recon/matching/strategies/group.py:328-347): `GroupExamples.LooseGroupIsChosen` is a group 1,000 cents apart, and `GroupTolerance.ForeignGroupsStayIff` says for which amounts and tolerances the promise is kept.
- Out of such a mixed list a rupee amount settled by rupee candidates has no foreign leg, and the look-up of the FX details raises IndexError (src/recon/matching/strategies/group.py:359-360), which ends the run: `GroupExamples.RupeeGroupEndsTheRun`; `GroupRaises.GroupsGoThrough` says exactly when.
- check_statement counts what it cannot read as unparseable, except infinities and NaNs, which Decimal accepts and int() does not (src/recon/ingestion/balances.py:69-73): they raise (`StatementBalance.CheckStatement`). normalise_amount passes them on in the same way.

## Model

| member | source | states |
|---|---|---|
| `SubsetSum.FindUniqueSubset` | src/recon/matching/subset_sum.py:40-78 | For all inputs: raises for a reversed window or impossible sizes, reports TOO_COMPLEX exactly when more than the allowed number of (size, total) states is reachable, and otherwise answers NONE, UNIQUE or AMBIGUOUS exactly when no, one or several index sets of positive amounts and allowed size sum into the window; a UNIQUE answer is that set with its true total |
| `SubsetSum.IndexSetMeans` | src/recon/matching/subset_sum.py:54-62 | What an index set of the search is, position by position: strictly increasing positions holding positive amounts |
| `SubsetSum.MergeDescribes` | src/recon/matching/subset_sum.py:81-91 | Merging an entry into the table adds exactly the index sets that reach its key to what the table counts, with counts capped at two and a real witness kept |
| `SubsetSum.ExtendTally` | src/recon/matching/subset_sum.py:58-60 | Extending a counted entry by one amount counts exactly the index sets that end with that amount |
| `SubsetSum.AbsorbAll` | src/recon/matching/subset_sum.py:62-63 | Folding the additions of one amount into the states makes the table describe every index set over the longer prefix |
| `SubsetSum.Conclude` | src/recon/matching/subset_sum.py:67-78 | Reading the hits off a complete table gives the right outcome in all three cases |
| `LedgerInvariant.StepKeeps` | src/recon/matching/claims.py:49-124 | Every step that matching, review, manual work, auto-resolution, voiding or ingestion takes keeps the ledger valid: rows, groups, claims and statuses agree |
| `LedgerInvariant.PairKeeps` | src/recon/matching/claims.py:74-92 | Writing a pair on two free transactions keeps the ledger valid |
| `LedgerInvariant.GroupKeeps` | src/recon/matching/claims.py:94-107 | Writing a group on free transactions keeps the ledger valid |
| `LedgerInvariant.UnmatchKeeps` | src/recon/matching/manual.py:131-189 | Undoing a match, all rows of its group included, keeps the ledger valid |
| `LedgerInvariant.ConfirmKeeps` | src/recon/matching/review.py:59-95 | Confirming a pending row keeps the ledger valid |
| `LedgerInvariant.RejectIsUnmatch` | src/recon/matching/review.py:97-116 | Rejecting a pending row has the same effect on the ledger as undoing that row |
| `LedgerLaws.EveryRunKeepsTheClaimLaw` | src/recon/matching/claims.py:49-124 | In every state of every run: at most one ACTIVE claim per transaction; MATCHED exactly under an AUTO_MATCHED or CONFIRMED row; UNMATCHED with a claim exactly under PENDING_REVIEW; VOIDED holds none |
| `LedgerLaws.EveryRunExtends` | src/recon/matching/claims.py:116-124 | No run deletes, reassigns or revives anything: rejected rows, released claims and voided transactions stay as they are |
| `LedgerLaws.RejectedForGood` | src/recon/persistence/repositories/matching.py:84-99 | Once a pairing is rejected, no automatic step of the rest of any run makes or confirms it |
| `LedgerLaws.ManualMayRepeatARejection` | src/recon/matching/manual.py:63-129 | The manual service is exempt: a concrete run in which a person makes a pairing that a person rejected |
| `LedgerLaws.UnmatchUndoesPair` | src/recon/matching/manual.py:131-189 | Writing a pair and undoing it restores every transaction and every vacancy; only the rejection of that pairing stays behind |
| `LedgerLaws.UnmatchUndoesGroup` | src/recon/matching/manual.py:131-189 | Undoing any one row of a group undoes the whole group, and rejects exactly its pairings |
| `LedgerLaws.PendingIsConsistent` | src/recon/matching/review.py:118-150 | The consistency check of confirm never fails in a state a run can reach |
| `LedgerLaws.StepInDetail` | src/recon/matching/claims.py:49-124 | Row by row what each step writes to rows, claims and transactions, and that it writes nothing else: sides and roles of a pair or group, all rows of an undone match and their claims, the original of a voided copy |
| `Database.InsertClaims` | src/recon/matching/claims.py:49-107 | A batch of claims goes in completely, or not at all exactly when a transaction of it is claimed already or named twice |
| `Database.ClaimAll` | src/recon/matching/claims.py:74-107 | claim_pair and claim_group: all claims, unattached, or a conflict and no change |
| `Database.WritePair` | src/recon/matching/strategies/exact.py:78-105 | Claim both sides, write the row, attach the claims and mark both MATCHED unless the pair awaits review; on a conflict nothing changes |
| `Database.ReleaseAll` | src/recon/matching/manual.py:155-180 | Releases exactly the ACTIVE claims of the given rows and keeps every claim on record |
| `Review.ConfirmMatch` | src/recon/matching/review.py:59-95 | Every answer and its exact condition; on success the new ledger is the confirm step; in a valid ledger the state error cannot occur |
| `Review.RejectMatch` | src/recon/matching/review.py:97-116 | Every answer and its exact condition; on success both sides are free again |
| `Review.CreateManual` | src/recon/matching/manual.py:63-129 | Every answer and its exact condition, in the order the checks are made; on success one CONFIRMED pair |
| `Review.UnmatchMatch` | src/recon/matching/manual.py:131-189 | Every answer and its exact condition; on success all rows of the match are rejected and its sides returned |
| `Review.UnmatchVacates` | src/recon/matching/manual.py:155-189 | After an undo every side of the match is UNMATCHED and unclaimed |
| `AutoResolver.Resolver.Run` | src/recon/excmgmt/autoresolve/resolver.py:78-107 | The loop over the chosen exceptions leaves the ledger, the exceptions, the adjustments and the counts that handling them one after the other specifies |
| `AutoResolver.Resolver.SettlePair` | src/recon/excmgmt/autoresolve/resolver.py:159-215 | Settles by confirming a pending row, by nothing when the row is live, or by pairing two free transactions that were never rejected; otherwise escalates and changes nothing |
| `AutoResolver.Resolver.VoidDuplicate` | src/recon/excmgmt/autoresolve/resolver.py:143-157 | Voids exactly a free copy; otherwise nothing changes |
| `AutoResolver.ResolverTakesLedgerSteps` | src/recon/excmgmt/autoresolve/resolver.py:78-215 | A whole resolver run is a run of allowed ledger steps, so it keeps everything the ledger promises |
| `AutoResolver.EveryExceptionIsSettled` | src/recon/excmgmt/autoresolve/resolver.py:78-131 | Every open tier 1 exception of the bank (and run) ends RESOLVED or at tier 2 and is counted once; every other exception is untouched |
| `AutoResolver.EachIsSettledInTurn` | src/recon/excmgmt/autoresolve/resolver.py:111-215 | In a reachable ledger it is RESOLVED exactly when the ledger its turn finds allows it (an unused copy; a group; for the five kinds with a rule a row that is not REJECTED, or two idle sides never rejected together), by exactly the one step that settles it; otherwise the ledger stays as it was |
| `AutoResolver.OneAdjustmentPerFee` | src/recon/excmgmt/autoresolve/resolver.py:217-242 | Each resolved fee deduction has exactly one adjustment, for the distance between the two amounts |
| `AutoResolver.LiveRowsAreSettled` | src/recon/excmgmt/autoresolve/resolver.py:159-215 | In a valid ledger an exception naming a row is escalated for it exactly when the row is REJECTED |
| `Repository.FindUnmatched` | src/recon/persistence/repositories/matching.py:23-65 | The pool: exactly the UNMATCHED transactions of the bank, the source and the inclusive dates that hold no ACTIVE claim, by date, then line, then id |
| `Repository.PoolIsUnique` | src/recon/persistence/repositories/matching.py:44-65 | The order leaves no choice: two lists of the same pool are equal |
| `Repository.RejectedPairs` | src/recon/persistence/repositories/matching.py:84-99 | Reading in chunks gives exactly the rejected pairings of the given internals |
| `Stages.RunTouches` | src/recon/matching/orchestrator.py:123-195 | Over a stage: what it takes was free before, no two of its steps share a transaction, and exactly the rest is free afterwards |
| `Stages.PoolAfter` | src/recon/matching/orchestrator.py:254-261 | Fetching a pool again after a stage gives the pool before less what the stage took |
| `ExactMatching.RunExact` | src/recon/matching/strategies/exact.py:47-136 | Writes exactly the pairs of an index-free scan of the externals in order, each with its choice among the internals left; counts keyless rows; no conflict on unclaimed pools |
| `ExactMatching.BuildIndex` | src/recon/matching/strategies/exact.py:110-122 | The index holds, for every key, the internals with that key in order |
| `ExactMatching.ConsumeIndexed` | src/recon/matching/strategies/exact.py:96-98 | Removing the matched internal from its bucket keeps the index the index of what is left |
| `ExactLaws.ChosenIsClosest` | src/recon/matching/strategies/exact.py:124-136 | Every pair has a usable reference and agrees in reference, amount, currency and direction, was never rejected, and its internal is at most as many days away as any other that agrees and was left |
| `ExactLaws.EarlierIsFarther` | src/recon/matching/strategies/exact.py:124-136 | Among internals equally near the first in the pool is taken: one that agrees, was left and comes before the chosen one is farther away |
| `ExactLaws.PairsAreInOrder` | src/recon/matching/strategies/exact.py:59-73 | The externals take their turns in the order of their pool |
| `ExactLaws.SkippedAreUnkeyed` | src/recon/matching/strategies/exact.py:60-64 | The number skipped is that of the transactions with no usable reference |
| `ExactLaws.FitMeansSameKey` | src/recon/matching/keys.py:36-48 | Two transactions have the same key exactly when they agree in a reference that is not blank, in amount, currency and direction |
| `ExactLaws.UnmatchedHadNothingLeft` | src/recon/matching/strategies/exact.py:59-73 | An external left over had every internal that agrees with it in those four fields used up |
| `ExactLaws.EveryKeyIsFilled` | src/recon/matching/strategies/exact.py:47-108 | With no rejected pairing every key gets exactly min(internals, externals) matches |
| `SetBasedExact.RunSetBased` | src/recon/matching/strategies/exact_set_based.py:22-145 | Writes the selected pairs and nothing else; two claims and two updates per pair |
| `SqlEquivalence.SelectedIffSoleFit` | src/recon/matching/strategies/exact_set_based.py:22-80 | A pair is selected exactly when its sides agree in reference, amount, currency and direction, were not rejected, and each is the other's only counterpart in the two pools |
| `SqlEquivalence.SqlThenExactIsExact` | src/recon/matching/strategies/exact_set_based.py:1-12 | The set-based stage followed by the keyed stage on fresh pools makes the same set of pairs as the keyed stage alone |
| `SqlEquivalence.ScanOutside` | src/recon/matching/strategies/exact.py:47-108 | Keys do not interfere: the pairs of some keys are the scan of the rows of those keys |
| `SqlEquivalence.PoolOutside` | src/recon/matching/strategies/exact_set_based.py:23-37 | After the set-based stage each pool is the old list without the settled keys, in the old order |
| `FxConvert.ConversionRoundTrip` | src/recon/fx/convert.py:19-32 | There and back is off by at most 1/2 + 1/(2k), and exact for every amount if and only if one minor unit is worth at least one paisa |
| `FxConvert.OneUnitIsWorthTheRate` | src/recon/fx/convert.py:19-24 | One whole unit of any known foreign currency (1, 100 or 1000 minor units) converts to its rate in rupees, rounded once |
| `FxConvert.LegIsWorth` | src/recon/fx/convert.py:19-24 | The INR value of a transaction is its amount over the minor units of its currency at the rate of its own day, to the nearest paisa and the even one of two; a rupee amount is itself |
| `FxConvert.DifferenceMeans` | src/recon/fx/convert.py:35-41 | The relative difference is within a percentage exactly when 200 times the gap is at most that percentage of the sum |
| `FxConvert.HalfEvenIsUnique` | src/recon/fx/convert.py:24 | Rounding half to even is determined by its two defining clauses |
| `FxConvert.WindowExactIff` | src/recon/matching/strategies/group.py:343-347 | The whole-number window agrees with the relative difference for every non-negative member sum if and only if the tolerance is below 200 percent |
| `FxConvert.WindowIsExact` | src/recon/matching/strategies/group.py:343-347 | Below 200 percent: inside the window exactly when relative_difference_percent is within the tolerance, ceiling, floor and zero included |
| `FxConvert.WideWindowIsWrong` | src/recon/config/models.py:79 | From 200 percent on, a concrete member sum the tolerance admits and the window does not |
| `FxConvert.WindowReversedIff` | src/recon/matching/strategies/group.py:345-346 | The window comes out reversed, so that the search raises, if and only if a positive target meets a tolerance above 200 percent or a negative target one below |
| `CrossCurrency.RunCrossCurrency` | src/recon/matching/strategies/cross_currency.py:67-108 | Writes exactly the specified pairs in order, with all five counts |
| `CrossCurrency.PairedIffSolePeer` | src/recon/matching/strategies/cross_currency.py:81-107 | A pair is made exactly when neither side is claimed, the internal is the only one left with the external's reference and direction, another currency, a near date and no rejection, and the two are worth the same within the tolerance at the rates of their days |
| `CrossCurrency.EachExternalIsCounted` | src/recon/matching/strategies/cross_currency.py:81-107 | Each external is counted by its counterparts left: none, several as ambiguous, one as lacking a rate, out of tolerance, in conflict or matched |
| `CrossCurrency.PeersByReference` | src/recon/matching/strategies/cross_currency.py:72-91 | Looking peers up by reference finds the same list as filtering all internals |
| `References.StemMeans` | src/recon/matching/strategies/group.py:101-111 | The stem is what precedes the last separator, exactly when the suffix is plain and short and the stem long enough |
| `References.StemKeysMean` | src/recon/matching/strategies/group.py:114-124 | The keys of a reference are its cleaned text and what precedes the last of the four separators when at most six characters follow, each if long enough |
| `References.CleanIsCut` | src/recon/matching/strategies/group.py:106 | Cleaning takes off the blanks around the text, no more, and puts it in upper case |
| `References.PartsShareTheStem` | src/recon/matching/strategies/group.py:114-124 | The parts of a split share a key with the single side that carries their stem as its whole reference |
| `GroupMatching.AttemptChooses` | src/recon/matching/strategies/group.py:214-299 | What an attempt chooses are between two and the maximum of distinct candidates of the pool |
| `GroupLaws.EveryMemberQualifies` | src/recon/matching/strategies/group.py:194-233 | Every member of every group of a run has the direction of the single side, a date within the window, a stem key or counterparty prefix in common with it and a pairing nobody rejected; a split has at most max_split_members and a netted group at most max_netted_members |
| `GroupStrategy.RunGroups` | src/recon/matching/strategies/group.py:149-192 | Both passes record exactly the specified groups in order, with all counts; an exception stops the run where it is |
| `GroupStrategy.FitCandidates` | src/recon/matching/strategies/group.py:270-361 | One fit: the whole linked set if it settles in full, else nothing beyond the search limit, else the answer of the subset search; and the exception of the FX details when the candidates are in several currencies and no leg chosen is foreign |
| `GroupStrategy.FindCandidates` | src/recon/matching/strategies/group.py:194-233 | Probing the link index, filtering and sorting gives exactly the linked candidates in (date, id) order |
| `GroupStrategy.RecordGroup` | src/recon/matching/strategies/group.py:396-474 | Claims, one row per member, the single side's claim on the first row and all statuses; or a conflict and no change |
| `GroupLaws.EveryGroupIsSound` | src/recon/matching/strategies/group.py:165-192 | Every group: among all transactions left that are linked to the single side in one way, of its direction, near in date and never rejected, its members sum to the single side within tolerance_minor, or in paise within the FX tolerance when currencies differ, and are all of them if those settle it, otherwise the only subset that fits |
| `GroupCompleteness.UngroupedHadNothing` | src/recon/matching/strategies/group.py:165-321 | When a run goes through, every transaction without a group had, in its turn, no linked set left that settles it: not as a whole and not as the only fitting subset within the search limits |
| `GroupCompleteness.GroupsAreInOrder` | src/recon/matching/strategies/group.py:149-192 | The groups come in the order of their turns: first those with an internal single side, in the order of the internals, then those with an external one, in the order of the externals |
| `GroupCompleteness.StemGoesFirst` | src/recon/matching/strategies/group.py:235-268 | A group whose members share no stem with its single side was recorded only because nothing linked by a stem settled |
| `GroupCompleteness.SearchAnswers` | src/recon/matching/strategies/group.py:286-309 | A fit that does not take the whole set answers too complex, ambiguous or nothing exactly when the candidates or sums exceed their limits, several subsets fit, or none does |
| `GroupCompleteness.MissingFxIff` | src/recon/matching/strategies/group.py:328-342 | A fit lacks a rate exactly when the legs are in several currencies and one of them cannot be valued |
| `GroupCompleteness.GroupsAreCounted` | src/recon/matching/strategies/group.py:149-192 | The two counters of a run are the numbers of its split and its netted groups |
| `GroupLaws.GroupsAreDisjoint` | src/recon/matching/strategies/group.py:149-163 | The groups of a run, over both passes, share no transaction |
| `GroupLaws.WholeSetUniqueIff` | src/recon/matching/strategies/group.py:287-288 | A whole set that fits is the only fitting choice if and only if it has two members or no member can be left out without falling below the window |
| `GroupLaws.WideAmountsAreUnique` | src/recon/matching/strategies/group.py:287-288 | In particular when every amount exceeds the width of the window |
| `GroupExamples.WholeSetMayBeAmbiguous` | src/recon/matching/strategies/group.py:17-20 | A concrete ledger on which the fit chooses the whole linked set although a smaller set of its members settles the amount as well |
| `GroupTolerance.OneCurrencyIsClose` | src/recon/matching/strategies/group.py:329-332 | When the single side and all linked candidates are in one currency, whatever is chosen sums to within tolerance_minor of the single amount |
| `GroupTolerance.ForeignGroupsStayIff` | src/recon/matching/strategies/group.py:20 | When candidates are in several currencies, every group that is in one foreign currency stays within tolerance_minor if and only if an amount one minor unit further off than tolerance_minor lies outside the FX window of the single amount; for every rate at which a minor unit is whole paise |
| `GroupTolerance.RoundedGroupsStay` | src/recon/matching/strategies/group.py:342-347 | The same promise at any steady rate, when the window leaves half a paisa of rounding room for each leg |
| `GroupExamples.LooseGroupIsChosen` | src/recon/matching/strategies/group.py:328-347 | At the default settings 400 and 590 dollars are chosen for 1,000 dollars with a tolerance of one cent, because a linked candidate is in rupees |
| `GroupRaises.FitRaisesIff` | src/recon/matching/strategies/group.py:270-361 | One fit raises if and only if its window divides by zero, its search is called with a maximum below two or a reversed window, or a rupee amount is settled by rupee candidates out of a list in several currencies |
| `GroupRaises.RunRaisesIff` | src/recon/matching/strategies/group.py:149-192 | A whole run of both passes raises if and only if the turn of some transaction meets one of these guards |
| `GroupRaises.GroupsGoThrough` | src/recon/matching/strategies/group.py:340-361 | With an FX tolerance below 200 percent, no negative tolerance_minor, room for two members and no negative amount, a run raises if and only if the turn comes of a rupee amount that rupee candidates settle out of a list in several currencies |
| `GroupExamples.RupeeGroupRaises` | src/recon/matching/strategies/group.py:349-361 | A concrete ledger: 40 and 60 rupees are the selection for 100 rupees, a linked candidate is in dollars, and the fit raises |
| `GroupExamples.RupeeGroupEndsTheRun` | src/recon/matching/strategies/group.py:149-192 | On that ledger a run at the default settings ends with the exception and no group |
| `Blocking.Generate` | src/recon/matching/blocking/candidates.py:60-85 | Without duplicates; not truncated: exactly the internals the plain filter admits; truncated exactly when they exceed the cap, and then the first of the ordered union; raises exactly for unusable bucket settings |
| `Blocking.UnionIsTheFilter` | src/recon/matching/blocking/candidates.py:87-117 | The ordered union of the three index lookups lists each internal that satisfies pass A, B or C once, and no other |
| `Blocking.UnionIsOrdered` | src/recon/matching/blocking/candidates.py:60-81 | The union is ordered by the first pass that offers an internal and then as the internals are, so that the cap keeps those near in amount and date |
| `RunJustified.BlockedIsComparable` | src/recon/matching/blocking/candidates.py:87-117 | Two transactions share a block exactly when bank, currency and direction agree and amount and date lie in one cell, or the references begin alike, or the counterparties begin alike and the dates lie in one cell |
| `Blocking.KeysMeanBlocked` | src/recon/matching/blocking/buckets.py:12-51 | Two transactions have the same blocking key exactly when they lie in the same cells or share the prefix |
| `Blocking.BuildIndexes` | src/recon/matching/blocking/candidates.py:52-58 | The three indexes list every internal under its keys, in order; raises exactly when there is an internal and a setting is unusable |
| `FuzzyMatching.EachGetsTheBestLeft` | src/recon/matching/strategies/fuzzy.py:75-90 | The choice of each external is the most confident candidate it is offered among those left, AUTO_MATCHED exactly when its score decides AUTO_MATCH and PENDING_REVIEW exactly when it decides REVIEW; there is none only when nothing offered can match |
| `FuzzyMatching.BestIsFirst` | src/recon/matching/strategies/fuzzy.py:167-182 | Among equally confident candidates the one offered first wins |
| `FuzzyMatching.OfferedAreTheFirst` | src/recon/matching/blocking/candidates.py:60-85 | An external is offered all internals it shares a block with, or as many as the cap allows and then none that comes before one of them is left out |
| `FuzzyMatching.ChoicesAreApart` | src/recon/matching/strategies/fuzzy.py:64-90 | The chosen pairs have distinct internals and distinct externals and none was rejected |
| `FuzzyStrategy.RunFuzzy` | src/recon/matching/strategies/fuzzy.py:60-120 | For any chunk size exactly the chosen pairs with both sides unclaimed are written, in order, each with the status of its decision; the counters are the numbers of written AUTO_MATCH and REVIEW decisions and of conflicts |
| `FuzzyStrategy.WriteChunk` | src/recon/matching/strategies/fuzzy.py:122-148 | A chunk is written as a whole, or not at all exactly when one of its sides is claimed |
| `FuzzyStrategy.WriteSome` | src/recon/matching/strategies/fuzzy.py:98-101 | A chunk, or its redo one by one after a conflict, writes exactly the pairs with both sides unclaimed |
| `FuzzyStrategy.RowsThenStatuses` | src/recon/matching/strategies/fuzzy.py:102-114 | Writing all rows and then setting all statuses is the same as writing the pairs one after the other |
| `RuleMatching.PairedIffSoleHit` | src/recon/matching/strategies/rule_based.py:71-116 | A pair is made exactly when neither side is claimed and the internal is the only accepted candidate left in a list that was not cut |
| `RuleMatching.PairsAreAsRated` | src/recon/matching/strategies/rule_based.py:95-123 | Every pair is AUTO_MATCHED exactly when the rule's confidence, to three decimals half to even, is above the threshold, and held for review otherwise; the two counters add up to the pairs |
| `RuleMatching.EachExternalIsCounted` | src/recon/matching/strategies/rule_based.py:57-123 | Each external is counted by what is accepted of its candidates: nothing, several or a cut list as ambiguous, one as a conflict, matched or held for review |
| `RuleStrategy.RunRules` | src/recon/matching/strategies/rule_based.py:57-123 | Writes exactly the specified pairs with their statuses, in order, with all counts; raises exactly for unusable bucket settings, before writing |
| `Orchestrator.RunMatching` | src/recon/matching/orchestrator.py:123-217 | The steps of a run are the exact pairs, each written once, then those of the cross-currency, group, fuzzy and rule stages, each as specified on the pools of the store it finds; the store ends where these steps lead; every counter and pool size of the report is that of its stage, and matched, pending and remaining are exact; no report exactly when a stage raises; FAST writes the exact pairs only and never raises |
| `Orchestrator.ExactStages` | src/recon/matching/orchestrator.py:128-154 | Set-based or not, the exact stage writes the pairs of the keyed strategy alone, each once, and counts the rows without a key as it would |
| `RunMeaning.StagesOfARun` | src/recon/matching/orchestrator.py:123-261 | In a run that returns a report groups and rules take part exactly in FULL mode with rules, cross-currency exactly if there are rates besides (three days apart, the configured tolerance), fuzzy in every FULL run; they act in that order, each on the pools the one before left, and their steps, counters and pool sizes are the run's |
| `RunJustified.EveryStepIsJustified` | src/recon/matching/orchestrator.py:123-217 | Whatever the stage, both sides of every pairing were waiting in the run's pools when it began and had never been rejected together; and each kind of match has its grounds on the fields of the two transactions and the settings |
| `RunSpec.SetBasedMakesNoDifference` | src/recon/matching/orchestrator.py:9-12 | A run with the set-based stage and one without it end in stores with the same transactions, claims and rejections, take the same later steps and give the same report |
| `RunSpec.LaterKeepsView` | src/recon/matching/orchestrator.py:156-189 | The later stages see of the store only its transactions, what is claimed and what is rejected: stores equal in these are led through the same steps to stores equal in these |
| `RunAccounting.Accounting` | src/recon/matching/orchestrator.py:191-195 | Conservation: the initial external pool is what is MATCHED now, what awaits review and what is still available |
| `RunAccounting.StagesShareNothing` | src/recon/matching/orchestrator.py:156-189 | No two steps of a run, whatever their stages, touch the same transaction |
| `RunAccounting.NoStageRepeatsARejection` | src/recon/matching/orchestrator.py:123-189 | No step of any stage makes a pairing that was rejected when the run began |
| `RunAccounting.RunSettles` | src/recon/matching/orchestrator.py:191-195 | After a run an external is untouched, held for review with its status unchanged, or MATCHED, by what the steps did with it |
| `AuditChain.VerifyChain` | src/recon/audit/verifier.py:105-134 | Passes exactly the good chains (with an expected head: exactly those with that head); otherwise reports the first bad row, the entries checked before it and the first reason it is bad |
| `AuditChain.CheckRow` | src/recon/audit/verifier.py:137-153 | Which reason is reported, in order of precedence |
| `AuditChain.GoodChainMeans` | src/recon/audit/canonical.py:1-12 | What passes: numbers from 1, version 1, each row naming the hash before it, timestamps with a timezone, no float in any part of the states, and every hash that of its row |
| `AuditChain.StableMeans` | src/recon/audit/canonical.py:47-76 | A state is accepted exactly when none of its parts, at any depth, is a float or of an unknown type and no object among them has a key that is not text |
| `AuditChain.SameHeadSameHistory` | src/recon/audit/verifier.py:105-153 | Two chains that verify and have the same head are equal in every field of every row |
| `AuditChain.ExpectedHeadPinsHistory` | src/recon/audit/verifier.py:128-133 | Rows verify against the head of a good chain if and only if they are that chain |
| `AuditChain.TruncationNeedsAHead` | src/recon/audit/verifier.py:10-12 | Dropping the newest entries leaves a good chain, with a different head |
| `AuditChain.EditIsNoticed` | src/recon/audit/verifier.py:137-153 | Any change to one row of a good chain makes that row or the next one bad, or changes the head |
| `AuditAppend.AuditLogger.Append` | src/recon/audit/logger.py:33-94 | One more row, linked to the last and holding the given entry, and every chain still verifies; or an exception, exactly for an unacceptable or unserialisable entry, and no change |
| `AuditAppend.EveryChainVerifies` | src/recon/audit/logger.py:51-61 | For every interleaving of locks, reads, writes, commits and rollbacks every committed chain verifies, its rows belong to it and their numbers strictly increase |
| `AuditAppend.EventKeepsSafe` | src/recon/audit/logger.py:51-61 | Each event keeps exclusive locks, and keeps every transaction's view of every chain verifiable with the head it read still the head |
| `AuditAppend.UnlockedChainCanBeWritten` | src/recon/audit/logger.py:51-86 | A new session that finds a chain unlocked can append and commit; that adds one row with the entry if it is acceptable, and changes nothing else |
| `AuditAppend.CommittedOnlyGrows` | src/recon/audit/logger.py:33-94 | Over any interleaving, the rows committed after its first n events stay the first rows of their chain, unchanged, at its end |
| `AuditAppend.NotedHeadPinsTheBeginning` | src/recon/audit/verifier.py:128-133 | Rows that verify against a head noted at any moment of a run are the beginning of the chain committed at its end |
| `PeakWindow.FindPeak` | src/recon/anomaly/rules.py:58-71 | For a positive window no half-open interval of that length holds more timestamps than the count, the returned start attains it and no earlier timestamp does; IndexError exactly for a non-positive window on a non-empty list |
| `PeakWindow.SortCounts` | src/recon/anomaly/rules.py:63 | Sorting changes no interval's count, duplicates included |
| `RollingStats.WelfordIsExact` | src/recon/anomaly/stats.py:40-58 | Folding any history gives the true mean and the true sum of squared deviations from it |
| `RollingStats.VarianceIsSound` | src/recon/anomaly/stats.py:25-28 | m2 is never negative and the variance is the textbook sample variance, zero for one observation |
| `RollingStats.ActiveDaysAreDistinct` | src/recon/anomaly/stats.py:44-58 | Active days never exceed the distinct days and equal them when days do not go backwards |
| `BusinessCalendar.Calendar.Between` | src/recon/calendar.py:41-52 | The number of business days after the earlier and up to the later date, whichever comes first |
| `BusinessCalendar.Calendar.Add` | src/recon/calendar.py:54-63 | Ends for every finite set of holidays; the result has exactly that many business days behind it and is the earliest such day; raises exactly for a negative number |
| `BusinessCalendar.Calendar.Additive` | src/recon/calendar.py:41-52 | Business days add up over an intermediate date |
| `BusinessCalendar.Calendar.SevenDaysHaveFive` | src/recon/calendar.py:38-39 | Any seven days in a row without a holiday have five business days, Monday to Friday |
| `BusinessCalendar.Calendar.AddUndoesBetween` | src/recon/calendar.py:41-63 | Adding back the days between two dates reaches the later one exactly when it is a business day (or the dates are equal), else the last business day before it |
| `AmountText.PlainRoundTrip` | src/recon/samples/entries.py:42-46 | Every printed amount, alone or with a power of ten behind it, is read back as that many units in that place |
| `AmountText.BalanceTextRoundTrip` | src/recon/ingestion/balances.py:65-73 | The balance reader undoes the printer for every amount in every known currency and any separator that cannot be mistaken for a digit or the sign |
| `AmountText.ScientificIsRead` | src/recon/ingestion/balances.py:65-73 | An amount with a power of ten behind it is read as so many times the amount |
| `AmountText.FinerAmountsAreRounded` | src/recon/ingestion/balances.py:73 | An amount with more decimals than its currency has is read as the nearest number of minor units, the even one of two |
| `AmountText.CurrencyInAnyCase` | src/recon/ingestion/balances.py:70 | A currency code is known in any case of its letters, with the minor units of its currency |
| `AmountText.BlanksAroundAreIgnored` | src/recon/ingestion/balances.py:69 | Blanks around an amount change nothing |
| `AmountText.PowerInEitherCase` | src/recon/ingestion/balances.py:69 | Either case of the letter marks the power of ten |
| `AmountText.NonFiniteFails` | src/recon/ingestion/balances.py:65-73 | NaN, sNaN, Inf and Infinity, with or without a sign, pass the parser and raise at int() |
| `AmountText.PlusAndUnderscores` | src/recon/ingestion/balances.py:69 | A plus sign in front and underscores anywhere inside change nothing of what is read |
| `AmountText.CsvRoundTripPlain` | src/recon/normalisation/amounts.py:29-53 | Without a thousands separator every amount written to CSV is normalised back to itself |
| `AmountText.CsvRoundTripIff` | src/recon/samples/entries.py:97-104 | With one, an amount comes back if and only if it is not strictly between minus one and zero rupees |
| `AmountText.CsvGroupedReads` | src/recon/samples/entries.py:97-104 | In that range it comes back with the sign lost |
| `AmountText.GroupsOfThree` | src/recon/samples/entries.py:102 | From the right every fourth character of the whole part is a separator and the others are its digits in their order |
| `StatementBalance.WriteStatement` | src/recon/samples/entries.py:110-145 | Closing is opening plus the signed entries plus the imbalance; each balance and entry carries the mark of its sign, direction and reversal |
| `StatementBalance.CheckStatement` | src/recon/ingestion/balances.py:127-145 | Raises if and only if the amount of some row names an infinity or a NaN and its currency is known, whatever its mark; otherwise every row is either summed with the sign of its mark or counted as unparseable |
| `StatementBalance.OneNonFiniteRowRaises` | src/recon/ingestion/balances.py:65-73 | One such row, with any of the names and either sign, ends the check |
| `StatementBalance.MarksMean` | src/recon/ingestion/balances.py:28 | In both vocabularies credits and reversed debits add, debits and reversed credits subtract, and nothing else is a mark |
| `StatementBalance.EntryMeans` | src/recon/samples/entries.py:132-138 | A credit adds its amount, a debit takes it away and a reversal does the opposite; the mark says which |
| `StatementBalance.RowCounts` | src/recon/ingestion/balances.py:137-144 | A row counts for its amount, read in its own currency or else that of the balances, with the sign of its mark |
| `StatementBalance.RowsAddUp` | src/recon/ingestion/balances.py:133-145 | The net and both counts add up over any division of the rows; one row counts for its value or as unparseable |
| `StatementBalance.ImbalanceIsFound` | src/recon/ingestion/balances.py:44-62 | A statement written with an imbalance of u is found to differ by exactly u, with every entry read, for any mix of reversals |
| `RunProtocol.EveryHistoryIsSound` | src/recon/runs/service.py:94-170 | In every interleaving each bank has at most one RUNNING run and each key at most one run |
| `RunProtocol.NeverReEntered` | src/recon/runs/service.py:152-170 | A run that has left RUNNING or PENDING never goes back, whatever happens later |
| `RunProtocol.ReplayIsIdempotent` | src/recon/runs/service.py:244-257 | A later start with a used key changes nothing: the same request gets the original run, any other a conflict |
| `RunProtocol.LateStartCreatesNoTwin` | src/recon/runs/service.py:126-141 | A start that loses the race for its key creates no run; if it answers it answers with the winner |
| `RunProtocol.StartAnswers` | src/recon/runs/service.py:94-150 | Every answer of start with its exact condition on the table, and the table after it: a used key settles the matter, a run of the bank in progress for no longer than allowed makes it busy, and otherwise the new run is added and exactly the bank's runs in progress that are too old become FAILED |
| `RunProtocol.QueuedAnswers` | src/recon/runs/backlog.py:99-115 | A pending run becomes RUNNING, or FAILED exactly when a run of its bank has been in progress for no longer than allowed; older ones become FAILED and all others stay |
| `RunProtocol.RunningFailsIff` | src/recon/runs/service.py:259-273 | In any event a run in progress becomes FAILED exactly when its own execution fails, or a start or activation of the same bank that is not turned away comes more than the allowed time after it was started |
| `RunProtocol.TerminalChangesIff` | src/recon/runs/service.py:275-299 | A terminal status changes exactly when an execution still going finishes the other way |
| `RunProtocol.ReapedRunMayComplete` | src/recon/runs/service.py:259-299 | A concrete history in which a reaped run becomes COMPLETED while its successor is RUNNING |
| `RunProtocol.RunService.StartRun` | src/recon/runs/service.py:94-150 | The answers and the table after start, an error leaving the table as it was |
| `RunProtocol.RunService.RunQueuedRun` | src/recon/runs/backlog.py:99-115 | A pending run becomes RUNNING, or FAILED when the bank is busy; any other is left alone |
| `RunProtocol.RunService.FinishRun` | src/recon/runs/service.py:275-299 | Closes the run it is given with the outcome it is given, whatever its status, and touches no other run; reports a row that is gone |

## Left out

- SQL, transactions, migrations and the ORM: tables are maps and sequences, a partial unique index is the condition under which an insert conflicts, a savepoint is all or nothing, and a stage is one uninterrupted piece of work. Only the audit lock and the run protocol are modelled with interleavings.
- A row's id is its position; the order of text ids used as a last resort when sorting is the order of the numbers.
- When a stage raises, the model stops where the code stops; the rollback that the caller then performs is not part of this model.
- Rationale text, audit entries written by the services, stored field scores and matched fields, timings, and the CLAIMED status, which no modelled code writes.
- Scores of the fuzzy stage and verdicts of the rule registry are arbitrary functions of the pair; rate tables are an arbitrary partial function of currency and day with positive rates.
- Decimal's 28-digit context, the rounding of stored statistics and the square root in std_dev: arithmetic is exact.
- register_currency_exponent is left out: the exponents are the built-in ones, and only transactions in such a currency are stored (src/recon/normalisation/currency.py:32-37). A group or cross-currency leg in any other, which would abort a run, counts as a missing rate in the model.
- Text is ASCII: blanks, digits and letters outside ASCII are not recognised as such.
- Serialisation followed by SHA-256 is one collision-free function; text that is not valid Unicode, and lists as opposed to tuples, are not distinguished.
- The MT940 state machine, the CSV reader and the CAMT parser and writer: a written statement is taken as the balances and rows a parser hands on. camt_balances reads the two balances like mt940_balances, after picking them by type code, which is left out.
- AmountText.PlainRoundTrip: separators are single characters, and numbers beyond Decimal's context (28 digits, exponents of six digits, long NaN payloads) are read exactly where the code rounds or raises.
- GroupTolerance.RoundedGroupsStay: sufficient, not necessary: at a rate that is not whole paise per minor unit the roundings of the legs decide, and the exact condition then depends on the amounts of the candidates.
- BusinessCalendar.Calendar.Add: does not model the last representable date, where the code raises an OverflowError.
- FxConvert.WideWindowIsWrong: at exactly 200 percent the code divides by zero and above it the search is called with a reversed window and raises; the strategy models both as an exception that ends the run.
- RunProtocol.EveryHistoryIsSound: each call commits or rolls back as a whole; a start is split only between its lookup and its insert. Reaping is undone with the transaction when a start fails, and kept when run_queued gives a run up.
- velocity_breach, amount_deviation, implied_rate and the other values of a group's FX details (only their exception is modelled), confidence thresholds, routing and taxonomy: one branch each, settled by reading it.
