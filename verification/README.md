# LoomTable-Server in Dafny

LoomTable-Server is a multi-user table store. This project models its caches, cursors, transactional protocols and data
transformations and proves that they keep to their simple meaning.

- **Queries.** A typed filter tree is validated (`Filters`), compiled to SQL text whose meaning is given by SQL's
  precedence and three-valued logic (`FilterSql`, `FilterMeaning`, `FilterValues`, `SearchMeaning`), spliced into a WHERE clause
  (`RecordWhere`), canonicalised (`CanonicalFilter`, `FilterTexts`) and used for keyset paging (`SortTerms`,
  `SortMeaning`, `Keyset`, `Paging`, and from request to pages `QueryAnswers`).
- **Selections.** Materialised membership with incremental invalidation: plans (`SelectionPlans`), the store
  (`SelectionScopes`, `SelectionStores`), what a scope holds, said of the request
  (`SelectionMeaning`, `SelectionAnswers`), coherence over whole runs (`SelectionCoherence`), which scopes a write invalidates
  (`SelectionChecks`), budgets (`SelectionBudgets`), the writers' duty to report what they changed (`SelectionWriters`),
  replanning of stored queries (`SelectionReplan`) and scopes over reachable tables (`SelectionReach`).
- **Mutations.** Batch validation (`Commands`), cell values and the query index (`Values`), atomic option creation
  (`ChoiceOptions`, `ChoiceChecks`), the batch with its log (`Mutations`, `BatchEffects`, `BatchCreates`, `BatchLogs`, `RecordDiff`,
  `StoredValues`), receipts and guards (`Receipts`, `MutationReceipts`), the change feed with retention (`ChangeFeed`,
  `Retention`).
- **Schema.** Option lists (`OptionUpdates`), field conversion (`Conversion`, `FieldConversion`, `ConversionTyped`,
  `ConversionMeaning`, `ConversionCells`, `ConversionIndex`, `IndexShapes`), view order (`ViewOrders`).
- **Arithmetic.** Map bounds and clusters (`MapBounds`, `MapClusters`), record order (`RecordOrder`), typed identifiers
  (`Ids`). `Orders`, `Results` and `Schema` are shared vocabulary.

Run `dafny verify dfyconfig.toml` to verify everything.

## Idealisations

- A transaction under the actor and table locks is one atomic step; `PullChanges`, which reads outside a transaction, is
  modelled both atomically and with its three reads apart.
- Hashes are injective: fingerprints, schema hashes and request hashes are the values they hash. The JSON text of a filter
  node is any injective map to texts in which a number is one letter; `FilterTexts.WriteNodeEncodes` exhibits one.
- Case folding, NFC, trimming, number parsing and formatting, date, URL, location and attachment normalisers are functions
  of a `Library` parameter. The laws used are in `Values.Lawful` (generated option identifiers are typed and pairwise
  different, option names have at most 100 characters, dates ten, formatted numbers fit a text field). Idempotent folding
  is assumed in `SelectionReplan` and what rests on it only, by its own hypothesis; that the empty string is no record
  identifier, and that no command guesses an identifier its own batch will generate, in `BatchEffects`, `BatchCreates` and
  `BatchLogs` only; that the parts of a folded text around a line break are folded, in `SearchMeaning.SearchExact` only; that a date or
  URL has no blanks around it, in `ConversionCells.WrittenComesBack` only. `SelectionReach.AssumptionsAreMet` gives an
  instance of the laws.
- Generated identifiers are unused. Numbers are reals. The Mercator ordinate is an uninterpreted map into the world.
  Text is compared in code-point order. String lengths count characters.

## Where the code does less than its design says

The code is modelled as it is. These are proved as exact conditions or concrete examples:

- A root `or` group of two or more children is spliced into the AND chain without parentheses
  (`internal/storage/postgres/query.go:253-263`, `276-280`). The clause then selects by another condition
  (`RecordWhere.UnsafeWhereMeans`), is faithful exactly when the guard `SafeRoot` holds or no loose child can hold
  (`RecordWhere.WhereExact`), paging is right exactly when `SafeRoot` holds or no child can hold (`Paging.PagingExact`),
  and scopes are exact when taken under the same condition (`SelectionReplan.AcquisitionExact`). The check after a write
  then finds every candidate as soon as any record satisfies a later child (`SelectionPlans.FoundLeaks`).
- A conversion does not rebuild the index of a record whose value comes out with the same bytes
  (`internal/storage/postgres/convert.go:165-167`): `ConversionIndex.IndexAfterConversion`. It also rewrites values without
  a record entry in the log: `ConversionIndex.ConversionTraced`.
- A conversion's expected revision is the client's. The plan is current exactly when it equals the preview's
  (`ConversionIndex.ConversionGuarded`); `ConversionIndex.ConversionStale` shows what a different one can do.
- `PullChanges` reads tail, watermark and rows separately: its page is the log's exactly when none of that page's rows is
  deleted before the last read (`ChangeFeed.SplitPullFaithful`, with an example in `ChangeFeed.SplitPullGap`). `ChangeTail`
  may hand out a cursor that is already expired: `ChangeFeed.FreshCursor`.
- Keys without a permanent guard commit again exactly when their receipt was removed: `Receipts.UnguardedExact`.
- A two-anchor move can land on another record's position (`RecordOrder.MoveBetween`), and a restored record can come back
  to a position taken meanwhile (`RecordOrder.RestoreDistinct`, `RecordOrder.RestoreCollides`).
- A search is right exactly when it has no line break; with one it can match across two fields
  (`SearchMeaning.SearchExact`, `SearchMeaning.BreakCrosses`).
- A point at longitude -180 can fall outside its box numerically (`MapBounds.BoundsCover`).

## Model

| member | source | states |
|---|---|---|
| `SelectionMeaning.AcquiredMeans` | internal/storage/postgres/selection.go:191-199 | Every request that is answered with a scope, new or repeated, gets exactly the active records of the table that satisfy the filter in force (the request's own, even when it is none on purpose, else the view's) and contain the search when there is one, counted, provided the filter in force is no `or` of children that differ once normalised |
| `SelectionMeaning.AcquiredOnValues` | internal/record/selection.go:84-118 | Over an up-to-date index the same is true of the values the records store and of the filter and search as submitted |
| `SelectionMeaning.LiveScopesHoldWanted` | internal/storage/postgres/selection.go:189-234 | Headline of the selection engine: after every legal run of acquisitions, writes, table deletions and clock ticks, a scope with a safe root that is neither invalidated nor expired holds exactly the records its stored query wants now |
| `SelectionMeaning.OneWayIsSafe` | internal/record/selection.go:127-151 | The guard in terms of the filter before it is canonicalised: the canonical root is safe if and only if the filter is no `or` of two children that differ by more than order and repetition |
| `SelectionAnswers.PlannedExactly` | internal/record/selection.go:84-118 | A query has a plan if and only if its view is there, the filter in force is acceptable and the search has at most 500 characters |
| `SelectionAnswers.FirstAnswer` | internal/storage/postgres/selection.go:151-234 | A first request that is answered stores one scope of the asking actor for five minutes; scopes that have not expired stay, the invalid ones without members |
| `SelectionAnswers.AskAgain` | internal/storage/postgres/selection.go:121-150 | Asking again under the same request identity, with nothing in between, gives the same scope and changes nothing |
| `SelectionAnswers.OtherQuestion` | internal/storage/postgres/selection.go:121-150 | A request identity stands for one question: asked again, it gets the same scope if it is the same question up to order and repetition in the filter and folding of the search, and is refused otherwise |
| `SelectionAnswers.FirstAnsweredWhen` | internal/storage/postgres/selection.go:92-234 | A first request is answered if and only if its table is active, its query can be answered and is at most 64 KiB long, there is room for a scope of the actor, of the table and in all, and the wanted records fit the member limits |
| `SelectionAnswers.ShownIsWanted` | internal/storage/postgres/selection.go:236-288 | A scope is shown to the actor who took it only, for its table, while in force, and then holds exactly the records that the query the client shows wants now |
| `SelectionBudgets.RunWithinBudget` | internal/storage/postgres/selection.go:151-234 | In every state of every legal run the store keeps to its budgets: scopes per actor, per table and in all, request identities, members per scope and in all |
| `SelectionChecks.InvalidationExact` | internal/storage/postgres/selection.go:310-367 | After the check a scope with a safe root in force on the written table is invalid if and only if its stored query no longer means the rule and schema it was taken for, or the membership of some changed record differs from what that query wants now; nothing else of any scope changes |
| `SelectionChecks.OthersUntouched` | internal/storage/postgres/selection.go:310-367 | Scopes of other tables, and those no longer in force, are left alone by the check whatever their root |
| `SelectionChecks.SurvivesExactly` | internal/storage/postgres/selection.go:342-367 | Under a legal write that leaves its plan as it was a scope survives if and only if its members are still exactly the records its query wants |
| `SelectionReach.ReachableScopesAreExact` | internal/storage/postgres/selection.go:189-234 | The headline over tables reached by any run of mutations, moves, duplications and conversions, with nothing assumed about the shape of their index |
| `SelectionCoherence.LiveScopesAreExact` | internal/storage/postgres/selection.go:308-365 | The same relative to the scope's fingerprint, with no assumption on text folding: looking only at changed identifiers, fingerprint and schema is enough |
| `SelectionCoherence.RunCoherent` | internal/storage/postgres/selection.go:308-365 | The invariant behind it holds in every state of every legal run |
| `SelectionCoherence.WriteSameTable` | internal/storage/postgres/selection.go:336-365 | A scope that passes the check after a write on its table still has exactly the matching members, although unchanged records were not looked at |
| `SelectionCoherence.WriteOtherTable` | internal/storage/postgres/selection.go:308-322 | A write on another table cannot change the members of a scope with a safe root |
| `SelectionReplan.AcquisitionExact` | internal/storage/postgres/selection.go:191-199 | A scope is exact at the moment it is taken, for every content of the tables, if and only if the canonical root is not an `or` of two or more children or no loose child of it (any but the first; with a search any at all) can hold |
| `SelectionReplan.StoredReplans` | internal/record/selection.go:72-81 | The canonical query kept with a scope plans to the same fingerprint and schema as the query it was made from, provided folding and composing are idempotent |
| `SelectionReplan.CanonicalReplans` | internal/record/selection.go:84-118 | A canonical filter passes validation again and is its own canonical form |
| `SelectionPlans.PlannedFits` | internal/record/selection.go:84-118 | The schema hash records exactly the types of the fields the rule depends on, and the rule's filter is accepted under them |
| `SelectionPlans.MemberBySchema` | internal/storage/postgres/selection.go:342-356 | Membership depends on the fields only through the recorded types, so equal schema hashes mean equal membership |
| `SelectionPlans.MemberOfTable` | internal/storage/postgres/query.go:242-264 | With a safe root no record of another table is ever a member |
| `SelectionScopes.InvalidateSelections` | internal/storage/postgres/selection.go:310-367 | The loop over scopes applies the check to each scope once and changes nothing else; which scopes that invalidates is `SelectionChecks.InvalidationExact` |
| `SelectionPlans.FoundMeans` | internal/storage/postgres/selection.go:348-356 | With a safe root the EXISTS of the check finds a candidate if and only if that record itself is a member now |
| `SelectionPlans.FoundLeaks` | internal/storage/postgres/selection.go:348-356 | With a root `or` of several children it finds every candidate as soon as any record of the store satisfies a child other than the first: the exact condition |
| `SelectionScopes.SelectionResult` | internal/storage/postgres/selection.go:51-90 | Refuses exclusions outside the scope; otherwise the selected count is the size of the scope without the exclusions, and each probe is answered exactly |
| `SelectionStores.SelectionStore.AcquireSelection` | internal/storage/postgres/selection.go:92-234 | In place: request replay, expiry, budgets, sweep and insertion give exactly the new state of the specification, and a refusal changes nothing; what the scope then holds is `SelectionMeaning.AcquiredMeans` |
| `SelectionStores.SelectionStore.FinishWrite` | internal/storage/postgres/selection.go:308-367 | A writer's commit is the coherence proof's write event |
| `SelectionStores.SelectionStore.ResolveSelection` | internal/storage/postgres/selection.go:236-288 | Succeeds exactly when the client's and the stored query both still mean the scope's rule and all exclusions belong to it; then shows scope, exclusions, count and the membership of every probe, else says which check failed |
| `SelectionStores.ValidateSelectionIds` | internal/record/selection.go:152-170 | Accepts exactly bounded lists of pairwise different typed record identifiers |
| `SelectionWriters.MutationReports` | internal/storage/postgres/record.go:114-122 | The identifiers a batch passes on cover every record whose view changed, within its table |
| `SelectionWriters.MoveReports` | internal/storage/postgres/order.go:51-67 | A move changes nothing a rule can see, so it rightly reports nothing |
| `SelectionWriters.DuplicateReports` | internal/storage/postgres/order.go:104-122 | A duplication reports the record it made, and that is all that changed |
| `SelectionWriters.ConversionReports` | internal/storage/postgres/convert.go:209-215 | The pending records of a conversion cover every record it rewrote |
| `FilterValues.SubmittedFilterMeans` | internal/record/query.go:444-478 | Whatever validation accepts, the SQL compiled from its normal form is TRUE of a record with an up-to-date index exactly when the filter as submitted holds of the values the record stores: text folded on both sides, numbers, dates, flags and options compared as given, for every operator and group |
| `FilterValues.OperatorsOffered` | internal/record/query.go:410-442 | Which operators a rule may use, operator by operator |
| `FilterMeaning.FilterMeans` | internal/storage/postgres/query.go:266-351 | Every accepted filter compiles, and its three-valued SQL is TRUE exactly on the rows its two-valued meaning holds of |
| `FilterMeaning.AcceptedCompiles` | internal/record/query.go:330-478 | The normal form that validation produces is accepted again, compiles, and selects what it describes |
| `FilterMeaning.OppositesComplement` | internal/storage/postgres/query.go:282-331 | is/isNot, contains/notContains, includes/excludes and isEmpty/isNotEmpty are exact complements, missing and null cells included |
| `FilterMeaning.IndexedIsShaped` | internal/record/value.go:455-494 | A row whose index is the projection of valid cells has the shape the compiled casts rely on |
| `SearchMeaning.SearchMeans` | internal/storage/postgres/query.go:253-262 | A search without line break finds a record exactly when the folded text of one of its active text fields contains it |
| `SearchMeaning.BreakCrosses` | internal/record/value.go:455-494 | Whatever the two searched texts of a record are, the search made of both with a line break between them finds it, although neither contains it |
| `SearchMeaning.SearchExact` | internal/storage/postgres/query.go:253-262 | A folded search is right on every record (it finds exactly those with a searched text containing it) if and only if it has no line break |
| `SearchMeaning.ContainsOnValues` | internal/storage/postgres/query.go:282-325 | On a text cell `contains` asks whether the stored text contains the value, both folded |
| `Filters.Walk` | internal/record/query.go:337-398 | The walk with its running node count accepts a node exactly when it is well formed and fits the remaining depth and node budget, and returns its normal form |
| `Filters.ValidateFilter` | internal/record/query.go:330-408 | Accepts exactly the filters of depth at most 8 and at most 100 nodes whose nodes are all well formed and returns the normal form; what that means of stored values is `FilterValues.SubmittedFilterMeans` |
| `FilterSql.ReadOr` | internal/storage/postgres/query.go:266-281 | Under SQL precedence a text joined with OR ties its first part to the conjunction before it and its last part to the one after it |
| `FilterMeaning.JoinMeans` | internal/storage/postgres/query.go:266-281 | Parenthesised parts joined with AND or OR mean their conjunction or disjunction |
| `RecordWhere.BuildRecordWhere` | internal/storage/postgres/query.go:242-264 | Builds the clause of the specification, or the same error |
| `RecordWhere.SafeWhereMeans` | internal/storage/postgres/query.go:242-264 | With a safe root the clause selects exactly the rows of the table and lifecycle that satisfy filter and search, and appended conditions narrow it |
| `RecordWhere.UnsafeWhereMeans` | internal/storage/postgres/query.go:253-263 | With a root `or` of several children: the exact condition the clause selects by instead |
| `RecordWhere.WhereExact` | internal/storage/postgres/query.go:242-264 | For every lifecycle, search and table: the clause is faithful on all records if and only if the root is safe or no loose child (any but the first; with a search any at all) can hold |
| `RecordWhere.RuleDecides` | internal/storage/postgres/query.go:242-264 | When some loose child of a root `or` is a rule, the clause is faithful if and only if the root is safe |
| `RecordWhere.RuleCanHold` | internal/record/query.go:410-478 | Every accepted rule holds on some row |
| `CanonicalFilter.CanonicalSelectionFilter` | internal/record/selection.go:127-151 | The recursive sort with in-place compaction computes the canonical form |
| `CanonicalFilter.CompactInPlace` | internal/record/selection.go:140-149 | Compaction inside the slice it reads from keeps the first of each run of equal encodings |
| `CanonicalFilter.SameCanonical` | internal/record/selection.go:127-151 | Two filters have the same canonical form if and only if they differ only by permuting and repeating children at any depth |
| `CanonicalFilter.CanonicalIdempotent` | internal/record/selection.go:127-151 | Canonicalising again changes nothing |
| `CanonicalFilter.CanonicalHolds` | internal/record/selection.go:127-151 | The canonical form selects the same rows |
| `CanonicalFilter.EquivalentHolds` | internal/record/selection.go:127-151 | Filters that differ only by order and repetition of children select the same rows |
| `FilterTexts.WriteNodeEncodes` | internal/record/selection.go:140-149 | There is an encoding of nodes, numbers counting as one letter, that tells any two of them apart: what the canonical form relies on can be met |
| `CanonicalFilter.CanonicalOk` | internal/record/selection.go:127-151 | The canonical form of an accepted filter is accepted |
| `Keyset.KeysetExact` | internal/storage/postgres/query.go:452-479 | The OR of AND-chains is TRUE exactly on the rows after the cursor's row in ORDER BY order, NULL keys and null placement included, and a cursor taken from a row is accepted |
| `Keyset.SortListSorts` | internal/storage/postgres/query.go:359-412 | Every list the builder makes guards its nullable terms by a null flag and types its keys |
| `Keyset.BuildKeysetCondition` | internal/storage/postgres/query.go:452-479 | The nested loops build the chains of the specification, or refuse a position that does not fit the terms |
| `SortTerms.BuildSortTerms` | internal/storage/postgres/query.go:359-412 | The append loop builds the term list of the specification |
| `SortTerms.NormalizeSort` | internal/record/query.go:480-522 | Accepts exactly well-formed sorts of different fields and fills in missing null placement in the caller's slice |
| `SortTerms.RowTotal` | internal/storage/postgres/query.go:152-164 | With the identifier as last term any two records are ordered |
| `SortTerms.RowTrans` | internal/storage/postgres/query.go:152-164 | ORDER BY with mixed directions and null placement is transitive |
| `SortMeaning.NullsPlaced` | internal/storage/postgres/query.go:373-381 | Empty cells come first exactly when the specification says so, whatever the direction; two of them leave the decision to the next specification |
| `SortMeaning.ValuesOrdered` | internal/storage/postgres/query.go:382-386 | Filled cells of other types are ordered by value in the direction given |
| `SortMeaning.OptionsOrdered` | internal/storage/postgres/query.go:387-409 | Select cells: active options before retired ones whatever the direction, active ones by place in the option list, retired ones by identifier |
| `QueryAnswers.PagesListWanted` | internal/storage/postgres/query.go:78-205 | From request to pages: over records with an up-to-date index, following the pages of a request lists exactly the records whose stored values satisfy its lifecycle, filter and search, each once, in the order it asks for, and ends |
| `QueryAnswers.OrderMeans` | internal/storage/postgres/query.go:359-412 | The ORDER BY list orders rows by the first sort specification that tells them apart, then by identifier; without specifications by hand-made position or by time of creation |
| `QueryAnswers.PlannedWhen` | internal/record/query.go:189-255 | A request is refused for its lifecycle, limit, filter, sort or search, and for nothing else |
| `Paging.PagingComplete` | internal/storage/postgres/query.go:144-205 | Following the positions from the first page lists every selected record once, in order, and ends after ceil(n / limit) pages |
| `Paging.NeverEnds` | internal/storage/postgres/query.go:144-205 | With a root `or`, when more records escape than fit on a page, no number of pages reaches an end |
| `Paging.PagingExact` | internal/storage/postgres/query.go:144-205 | For every query, sort list, table content and page size at once: paging is right if and only if the root is safe or no child of it can hold |
| `Paging.PagingRuleDecides` | internal/storage/postgres/query.go:144-205 | When some child of a root `or` is a rule, paging is right if and only if the root is safe |
| `Paging.QueryRecords` | internal/storage/postgres/query.go:78-205 | Reads one record more than the page and returns the page of the specification, or refuses the cursor |
| `ChoiceOptions.PreparedWell` | internal/storage/postgres/choice.go:18-168 | Over any accepted batch option lists stay well formed and only grow at the end, a field's revision rises by one exactly when the batch created options in it, other fields are untouched, and every command ends with cells its choices ask for |
| `ChoiceChecks.FieldsMet` | internal/storage/postgres/choice.go:34-56 | The field checks pass if and only if every choice finds an active choice field of the table at the revision it expects |
| `ChoiceChecks.CommittedMet` | internal/storage/postgres/choice.go:34-56 | So a batch that commits met every field revision it expected |
| `ChoiceChecks.AddedWereAsked` | internal/storage/postgres/choice.go:105-122 | Every option a batch adds to a field was asked for, by name and color, in a choice of that field, and no option before it in the list is named alike |
| `ChoiceChecks.ResolvedLogs` | internal/storage/postgres/choice.go:145-166 | The log gets one schema change for each field that gained options, at its new revision, and no other |
| `ChoiceOptions.ResolvedIsAccepted` | internal/record/value.go:121-236 | A choice that resolved is never refused by the later value check, whatever else the batch did |
| `ChoiceOptions.SameNameSameOption` | internal/storage/postgres/choice.go:170-214 | Across a whole batch two names for a field resolve to one identity if and only if they fold alike |
| `ChoiceOptions.ResolveOptionKeeps` | internal/storage/postgres/choice.go:170-214 | Resolving one option keeps the configuration well formed and yields what the input denotes |
| `ChoiceOptions.ResolveAssignment` | internal/storage/postgres/choice.go:103-122 | The inner loop computes the specification, repeated identities refused |
| `ChoiceOptions.PrepareChoiceMutation` | internal/storage/postgres/choice.go:18-168 | Field checks, record checks and resolution in the source's order |
| `ChoiceOptions.FulfilledIsAccepted` | internal/record/value.go:170-228 | A value that fulfils an assignment under a configuration passes that field's check unchanged |
| `StoredValues.RunSound` | internal/storage/postgres/record.go:40-149 | Over any run of validated batches, moves and duplications every configuration stays well formed and every stored cell valid |
| `StoredValues.ReachableChoicesAccepted` | internal/storage/postgres/choice.go:95-143 | In every reachable state a batch whose choices resolve is not refused because of one of them |
| `OptionUpdates.NormalizeUpdatedSelectConfig` | internal/catalog/service.go:840-934 | Accepts exactly the acceptable lists and returns the updated configuration |
| `OptionUpdates.UpdatedActive` | internal/catalog/service.go:854-906 | The scan with its seen-sets accepts exactly pairwise different names and owned, unrepeated identifiers |
| `OptionUpdates.UpdateConserves` | internal/catalog/service.go:840-934 | Every old option identifier stays active or deleted and never both; the only additions are the generated ones; names and colors of deleted options are kept |
| `OptionUpdates.ActiveNames` | internal/catalog/service.go:854-906 | The i-th active option is the i-th entry of the submitted list: its name, its color, its identifier or the next generated one |
| `OptionUpdates.DeletedInOrder` | internal/catalog/service.go:927-932 | Deleted options are listed by deletion time, then identifier |
| `OptionUpdates.UpdateKeeps` | internal/catalog/service.go:840-934 | The configuration stays well formed and its total grows by exactly the entries without identifier |
| `OptionUpdates.RunConserves` | internal/catalog/service.go:840-934 | Over any run of choices and updates no identity disappears and the options added are exactly the identifiers generated |
| `OptionUpdates.StoredStaysStored` | internal/catalog/service.go:840-934 | So no stored cell is ever left pointing at nothing |
| `OptionUpdates.NormalizeNewSelectConfig` | internal/catalog/service.go:722-768 | Accepts exactly lists of pairwise different new names |
| `OptionUpdates.NewItemsMean` | internal/catalog/service.go:722-768 | In a new field's list no entry may name an option, names must be good and pairwise differ once folded |
| `OptionUpdates.NewConfigIsSound` | internal/catalog/service.go:722-768 | A new field's options form a well-formed configuration, the start of every run |
| `OptionUpdates.ItemsOkMeans` | internal/catalog/service.go:854-906 | The entry-by-entry test means: every entry well named and owned, names pairwise different once folded, no identifier twice |
| `Commands.ValidateCommands` | internal/record/service.go:89-134 | The loops accept exactly the valid batches |
| `Commands.CheckTargets` | internal/record/service.go:96-128 | No record is the target of two commands, and every command has the shape of its kind |
| `Commands.ValidateChoices` | internal/record/choice.go:12-83 | Per field one expected revision, at most 50 fields and 500 options over the batch |
| `Values.CheckList` | internal/record/value.go:190-228 | The multi-select scan accepts exactly short lists of different, selectable options |
| `Values.NormalizeUpdatedValues` | internal/record/value.go:30-111 | The unset and set loops compute the normalised values or refuse |
| `Values.AcceptedExactly` | internal/record/value.go:121-236 | Outside attachments and locations the writer accepts exactly the storable values that name no deleted option the cell did not hold, and takes them unchanged |
| `Values.NormalizedIsStored` | internal/record/value.go:121-236 | What the writer accepts is a valid stored value |
| `Values.StoredIsAccepted` | internal/record/value.go:121-236 | Writing back what a cell holds is accepted and changes nothing |
| `Values.BuildQueryProjection` | internal/record/value.go:455-494 | The loop builds the projection and the search text of the specification |
| `Mutations.RecordStore.MutateRecords` | internal/storage/postgres/record.go:40-149 | Commits the whole batch or leaves the table as it was; what a commit does to the records there were is `BatchEffects.BatchEffect`, what it brings into being `BatchCreates.BatchBirths` |
| `Mutations.ApplyWrites` | internal/storage/postgres/record.go:198-310 | A command that succeeds either changes nothing at all or writes one row and one entry that belong together |
| `BatchEffects.BatchEffect` | internal/storage/postgres/record.go:93-113 | After a committed batch every record there was has exactly the effect of the one command that names it, computed from its cells before the batch, or is as it was |
| `BatchCreates.BatchBirths` | internal/storage/postgres/record.go:198-226 | A committed batch makes one new record for each create command, named by its result: at revision 1, active, created now, indexed, behind every record there was, holding cell by cell the submitted values normalised against an empty cell, an answer to each choice and nothing else; they follow each other in the order of the commands, and no other record is new |
| `BatchCreates.ResolvedSpells` | internal/storage/postgres/choice.go:94-144 | The commands a batch really runs are those submitted, each choice replaced by a cell that fulfils it under the field's final options |
| `BatchCreates.ResultsTell` | internal/storage/postgres/record.go:228-310 | The result of every other command names its record and says whether the batch changed it |
| `BatchCreates.CommitsWhen` | internal/storage/postgres/record.go:198-310 | A command commits if and only if there are cells to create a record with, or a record of the table at the expected revision that the command can change as it asks |
| `BatchCreates.DuplicateMeans` | internal/storage/postgres/order.go:70-122 | A duplication makes one record, active, at revision 1, behind the others, with the original's cells as the writer accepts them today; it is refused if and only if the original is not an active record of the table or one of its cells is no longer acceptable |
| `BatchLogs.BatchLogged` | internal/storage/postgres/record.go:198-310 | A committed batch appends, after what its choices logged, one entry for each command that changed something, in the order of the commands: its kind, its record, the revision the record ended with and exactly its cell changes |
| `BatchLogs.MoveLogged` | internal/storage/postgres/order.go:51-67 | A move appends one entry at the record's unchanged revision |
| `BatchLogs.DuplicateLogged` | internal/storage/postgres/order.go:104-122 | A duplication appends one creation entry for the record it made |
| `BatchEffects.BatchAllOrNone` | internal/storage/postgres/record.go:93-113 | A batch commits if and only if its choices resolve and each resolved command would commit alone |
| `BatchEffects.BatchOrderIrrelevant` | internal/record/service.go:96-128 | Because no record is named twice the order of a batch without choices does not matter: another order commits if and only if this one does, and leaves every record there was the same |
| `BatchEffects.CommandEffect` | internal/storage/postgres/record.go:228-310 | Cell by cell an update leaves the normalised submitted value, nothing where unset, the old value elsewhere; deleting and restoring flip the lifecycle; always at the expected revision |
| `Mutations.BatchKeeps` | internal/storage/postgres/record.go:93-149 | A committed batch logs exactly one record entry per command that changed something, keeps every revision equal to its count, and leaves a log that leads back |
| `Mutations.RunKeeps` | internal/storage/postgres/record.go:228-310 | In every reachable state a revision is one plus the record's update, delete and restore entries, and the index is the projection of the values |
| `Mutations.HistoryRecovers` | internal/storage/postgres/record.go:255-268 | Undoing the later entries from any state of a run recovers the values a record had at any earlier point, and redoing leads forward |
| `ConversionIndex.ConversionTraced` | internal/storage/postgres/convert.go:151-194 | Across a committed conversion the log leads forward and back if and only if every record it scanned had no value in the field or comes out with the value it had |
| `RecordDiff.DiffRecordValues` | internal/record/diff.go:10-51 | Collecting, sorting and comparing keys computes the difference |
| `RecordDiff.DiffRoundTrip` | internal/record/diff.go:10-51 | Applied forward a difference gives the new version, applied backward the old, absent and null kept apart |
| `RecordDiff.DiffIsMinimal` | internal/record/diff.go:10-51 | One entry per field that differs and no other; empty exactly for equal versions |
| `ConversionTyped.ConversionWellTyped` | internal/storage/postgres/convert.go:58-220 | If every stored value was valid, every value left by a committed conversion is valid for the target type and configuration, a cell keeps a value exactly where conversion made one, other cells are untouched, and the counts add up to the records scanned |
| `ConversionTyped.ConversionKeepsFields` | internal/catalog/convert.go:624-652 | The new configuration is well formed |
| `ConversionTyped.BuiltOffers` | internal/catalog/convert.go:328-345 | Every name noted by the scan has an option just built for it |
| `ConversionTyped.ConvertedFits` | internal/catalog/convert.go:452-622 | Every mode offered for a pair of types yields values valid for the target |
| `ConversionCells.ConversionDelivers` | internal/storage/postgres/convert.go:151-194 | For every pair of types on offer: a committed conversion of valid values gives each scanned record the outcome promised for its pair, counts are those of these outcomes, records not scanned or empty stay as they are; a new select cell points at the one option named like its value |
| `ConversionCells.ConvertMeans` | internal/catalog/convert.go:452-622 | The promise, value by value: texts carried if they fit, dates, URLs, numbers and flags read from the trimmed text exactly when it is one, option names written in order with comma and blank exactly when they fit, numbers and flags into each other |
| `ConversionCells.ConvertsWhen` | internal/storage/postgres/convert.go:58-150 | A conversion commits if and only if the field is an active, non-primary field of the table at the expected revision, the scan finds the counts and names previewed, and a new option list has at most 500 options |
| `ConversionCells.FieldAfter` | internal/storage/postgres/convert.go:195-209 | The field gets the new type and one revision more, which the log says; no other field changes |
| `ConversionCells.MeansOnce` | internal/catalog/convert.go:452-622 | The promise leaves no choice: one outcome per value |
| `ConversionCells.WidenedStay` | internal/catalog/convert.go:457-462 | Text into long text, a URL or a date into text: every record stays as it is and nothing counts as lost or lossy |
| `ConversionCells.OverlongIsDropped` | internal/catalog/convert.go:463-468 | Long text into text: exactly the texts of at most 10000 characters stay, the others are lost |
| `ConversionCells.WrittenComesBack` | internal/catalog/convert.go:554-605 | A date or URL turned into text and back, with no blanks around it, gives the same record again |
| `ConversionMeaning.CellShowsName` | internal/catalog/convert.go:328-345 | After a conversion to a choice type a record whose value named an option points at the one option of the new list whose name folds like it |
| `ConversionMeaning.SameCellSameName` | internal/catalog/convert.go:328-345 | Two converted cells point at the same option if and only if their names fold alike |
| `ConversionMeaning.ShowsItsOption` | internal/catalog/convert.go:496-505 | A select cell converted to text shows the name of the option it points at, active or deleted |
| `ConversionMeaning.FirstOptionExact` | internal/catalog/convert.go:531-548 | A multi-select value keeps its first option, and counts as kept if and only if converting back restores it |
| `ConversionMeaning.SelectComesBack` | internal/catalog/convert.go:531-548 | Select to multi-select and back is the identity |
| `ConversionMeaning.FlagComesBack` | internal/catalog/convert.go:475-495 | Checkbox to number and back is the identity, by either way back |
| `ConversionMeaning.ZeroOneExact` | internal/catalog/convert.go:475-495 | The strict way from number to checkbox keeps exactly the numbers that the way back restores |
| `ConversionMeaning.FormatComesBack` | internal/catalog/convert.go:554-622 | A number or checkbox written as text is parsed back to itself wherever the library reads what it writes |
| `Conversion.CountsAddUp` | internal/catalog/convert.go:390-422 | OK, lossy, lost and empty add up to the values scanned |
| `Conversion.Accumulator.Add` | internal/catalog/convert.go:390-422 | The accumulator's update is the specification's |
| `Conversion.BuildConvertedConfig` | internal/catalog/convert.go:624-652 | The loop builds options and name index, or refuses more than 500 names |
| `FieldConversion.FieldStore.ConvertField` | internal/storage/postgres/convert.go:58-220 | Scan, verify, build, resolve and rewrite commit the specified state or change nothing; what that state holds is `ConversionCells.ConversionDelivers` |
| `ConversionIndex.IndexAfterConversion` | internal/storage/postgres/convert.go:153-194 | After a conversion a record's index is right if and only if the record was rewritten, or its text is searched under both types or neither, or it is an empty text without neighbours |
| `IndexShapes.ReachShaped` | internal/record/value.go:455-494 | In every table reached by mutations, moves, duplications and conversions the index has the shape that compiled filters cast to, stale entries included |
| `ConversionIndex.ConversionGuarded` | internal/catalog/convert.go:285-313 | A committed conversion was planned from the current field if and only if the request expected the revision of the preview |
| `ConversionIndex.ConversionStale` | internal/catalog/convert.go:285-313 | With another expected revision an outdated plan can commit and leave a cell its field does not know |
| `ChangeFeed.NoSilentGap` | internal/storage/postgres/change.go:56-119 | Over every interleaving of appends, cleanups and pulls the pages a client received are exactly the log between its first and current cursor, in order and once each, or the pull answers that the cursor expired |
| `ChangeFeed.HonestCursor` | internal/storage/postgres/change.go:67-87 | A cursor that was handed out is never called invalid |
| `ChangeFeed.PullReadsLog` | internal/storage/postgres/change.go:67-119 | At or above the watermark the surviving rows are the whole log |
| `ChangeFeed.PageIsBetween` | internal/storage/postgres/change.go:88-118 | A page is the stretch of the log between the old and the new cursor |
| `Retention.PullExactly` | internal/storage/postgres/change.go:67-119 | The verdict on a cursor is exact: invalid beyond everything ever logged for the table, expired if and only if a change after it has been deleted, otherwise a page of the log |
| `Retention.RunMarked` | internal/storage/postgres/retention.go:96-170 | In every run a table's watermark is the number of a row deleted from it |
| `ChangeFeed.FreshCursor` | internal/storage/postgres/change.go:38-54 | A cursor just issued gives an empty page, or is already expired if and only if the watermark has passed the last stored row |
| `ChangeFeed.FreshCursorExpired` | internal/storage/postgres/change.go:38-54 | Which happens when a table is cleaned up to its end |
| `ChangeFeed.SplitPullHonest` | internal/storage/postgres/change.go:67-94 | Reading tail, watermark and rows at different times still never calls an honest cursor invalid |
| `ChangeFeed.SplitPullFaithful` | internal/storage/postgres/change.go:67-94 | The split pull gives the log's page if and only if none of the rows of that page is deleted by the time the rows are read; a watermark not past the cursor is enough |
| `ChangeFeed.SplitPagesExact` | internal/storage/postgres/change.go:67-94 | Pages of every size agree with the log if and only if no row of the table after the cursor is deleted |
| `ChangeFeed.SplitPullGap` | internal/storage/postgres/change.go:67-94 | A cleanup between the two reads can lose a change silently |
| `ChangeFeed.ChangeStore.PullChanges` | internal/storage/postgres/change.go:56-119 | The reading loop and truncation compute the page of the specification |
| `ChangeFeed.ChangeStore.CleanupBatch` | internal/storage/postgres/retention.go:96-170 | One batch deletes the oldest expired rows and raises the watermarks over them |
| `ChangeFeed.ChangeStore.CleanupChanges` | internal/storage/postgres/retention.go:96-170 | Batch after batch up to the first short one, and the total is the number of rows that are gone |
| `Retention.OldestGoFirst` | internal/storage/postgres/retention.go:96-170 | A batch takes expired rows only, and whatever expired row it leaves is younger than every row it takes |
| `ChangeFeed.ShortBatchFinishes` | internal/storage/postgres/retention.go:163-168 | The short batch at which the loop stops leaves no expired row behind |
| `ChangeFeed.CleanedKeeps` | internal/storage/postgres/retention.go:96-170 | A cleanup rewrites no history: the log stays, nothing deleted comes back, watermarks only rise |
| `Receipts.GuardedExactlyOnce` | internal/storage/postgres/catalog.go:365-417 | A guarded key commits at most once: later requests with the same fingerprint get the identical result or receipt-expired, others are refused for ever |
| `Receipts.ExpiredForever` | internal/storage/postgres/catalog.go:374-390 | Once a guarded receipt has expired it stays so |
| `Receipts.FailureLeavesNoTrace` | internal/storage/postgres/record.go:53-140 | Taking a request that did not commit out of a run changes the verdict on no later event, its own retries included |
| `Receipts.UnguardedExact` | internal/storage/postgres/catalog.go:365-417 | After an unguarded commit a later request with its key commits again if and only if a cleanup removed the receipt in between; otherwise it is answered from the receipt |
| `Receipts.ReceiptStore.ReplayIdempotent` | internal/storage/postgres/catalog.go:365-400 | Receipt first, then guard |
| `Receipts.ReceiptStore.Save` | internal/storage/postgres/catalog.go:402-417 | Stores receipt and guard |
| `Receipts.ReceiptStore.Cleanup` | internal/storage/postgres/retention.go:172-218 | Deletes only expired receipts and no guard |
| `MutationReceipts.MutationService.MutateRecords` | internal/storage/postgres/record.go:40-149 | Replay, batch, guard and receipt in one step: state and ledger change together or not at all |
| `MutationReceipts.ChoicesOnce` | internal/storage/postgres/record.go:53-148 | Over any run a batch with choices changes the table at most once per key: repetitions get the identical result or learn that the receipt is gone, other requests under the key are refused |
| `MutationReceipts.PlainRepeats` | internal/storage/postgres/record.go:53-148 | A batch without choices is repeated if and only if cleanup removed its receipt in between; until then a repetition changes nothing |
| `ViewOrders.CheckPermutation` | internal/storage/postgres/view_order.go:127-141 | Deleting from the member set while scanning accepts exactly the permutations |
| `ViewOrders.ViewRepository.ReorderViews` | internal/storage/postgres/view_order.go:94-166 | Compare-and-swap on the order revision, behind receipt and guard |
| `ViewOrders.OrderStaysExact` | migrations/008_view_order.sql:12-55 | In every run the stored order lists exactly the active views, each once |
| `RecordOrder.MoveToEnd` | internal/storage/postgres/order.go:158-166 | Moving without anchor is: remove, then append |
| `RecordOrder.MoveBefore` | internal/storage/postgres/order.go:180-196 | Moving before an anchor is: remove, then insert there; positions stay distinct |
| `RecordOrder.MoveAfter` | internal/storage/postgres/order.go:197-214 | Moving after an anchor is: remove, then insert there; positions stay distinct |
| `RecordOrder.MoveBetween` | internal/storage/postgres/order.go:167-179 | A two-anchor move lands strictly between them, and positions stay distinct if and only if no other record holds the midpoint |
| `RecordOrder.MovesWhen` | internal/storage/postgres/order.go:14-68 | A move succeeds if and only if record and anchors are active records of the table, no anchor is the record itself, and of two anchors the first stands before the second; it changes that record's position only |
| `RecordOrder.RestoreDistinct` | internal/storage/postgres/record.go:347-362 | Restoring keeps positions distinct if and only if no active record took the position meanwhile |
| `RecordOrder.RestoreCollides` | internal/storage/postgres/record.go:347-362 | Which can happen |
| `RecordOrder.CreateAppends` | internal/storage/postgres/record.go:312-327 | A new record goes to the end of the order |
| `RecordOrder.RecordTable.MoveRecord` | internal/storage/postgres/order.go:14-68 | The move writes one position or nothing |
| `MapBounds.MinimalMapBounds` | internal/record/map.go:414-449 | The loops compute the specified boxes |
| `MapBounds.BoundsCover` | internal/record/map.go:433-449 | Every point lies in a box on the globe; numerically too, except for longitude -180 when the arc ends at the seam |
| `MapBounds.BoundsWidth` | internal/record/map.go:422-449 | The total width is 360 minus the largest gap |
| `MapBounds.BoundsMinimal` | internal/record/map.go:414-449 | No shorter arc covers the points |
| `MapBounds.LatitudesTight` | internal/record/map.go:415-421 | South and north are attained and enclose every latitude |
| `MapClusters.ChooseGrid` | internal/record/map.go:300-308 | Growing the cells ends, with at most 500 of them, at the first size that fits |
| `MapClusters.OneCellSuffices` | internal/record/map.go:362-380 | Cells as large as the world make one group: what the termination measure rests on |
| `MapClusters.CellMatesNear` | internal/record/map.go:362-380 | Records of one cell lie less than a cell apart on the screen, in both directions |
| `MapClusters.GroupMapRecords` | internal/record/map.go:362-380 | Every record goes to exactly the cell of its pixel |
| `MapClusters.ClusterMapRecords` | internal/record/map.go:283-360 | At most 500 features that partition the renderable records, so their counts add up; up to 500 records are shown as they are, more are grouped by the cells of the finest grid that fits |
| `MapClusters.FilterRenderable` | internal/record/map.go:382-391 | Keeps exactly the renderable records, in order |
| `Ids.Encode` | internal/id/id.go:61-78 | The nested bit loop computes the 26-digit encoding |
| `Ids.EncodedValue` | internal/id/id.go:61-78 | The digits are the base-32 value of the 128-bit input |
| `Ids.EncodingOrder` | internal/id/id.go:61-78 | String order is byte order, so encoding is injective |
| `Ids.Valid` | internal/id/id.go:29-39 | The scan accepts exactly prefix and 26 alphabet characters |
| `Ids.ValidAndGenerated` | internal/id/id.go:29-39 | A valid identifier can have been generated if and only if its first digit is at most 7 |
| `Ids.DecodedEncodes` | internal/id/id.go:61-78 | Decoding such a body and encoding again gives it back |

## Left out

- HTTP decoding, routing, error texts and paths: refusals carry their kind, not the full list of issues. Where the source
  collects several issues the model keeps that the batch, filter or list is refused.
- SQL execution, isolation levels and locks; audit rows and the audit trigger; base and workspace tables (their deletion is
  the model's revocation of tables).
- Attachments: the file store and reference checks are one uninterpreted condition. Location and attachment normalisers are
  library functions, so `Values.StoredIsAccepted` excludes these two types.
- Distinct-value listing and its paging, aggregates, map tokens and snapshots, history listing, views' own configuration
  checks other than their filter.
- Floating-point rounding (midpoints, Mercator, cluster centres), request time-outs, and clocks running backwards.
- SelectionCoherence.RunCoherent: speaks of scopes whose canonical root is not an `or` of several children; for the others
  exactness already fails when the scope is taken, by `SelectionReplan.AcquisitionExact`.
- BatchEffects.BatchOrderIrrelevant: is about batches without choices; with choices the order of the commands decides which
  option gets which generated identifier.
- Mutations.RunKeeps: the index claim is for runs of mutations, moves and duplications, with field types and deletion flags
  fixed; deleting, restoring or converting a field does not rebuild other records' index in the source either.
- ChoiceOptions.PrepareChoiceMutation: the two scans for field and record problems are functions, and the list of resolved
  options reported to the client is computed but not specified further.
- Paging.QueryRecords: the database's own evaluation (matching rows in order) is a function; totals and projection of values
  are not modelled.
