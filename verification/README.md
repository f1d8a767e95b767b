# Verification model of the mks123 supplier catalogue pipeline

The pipeline takes supplier feeds, keeps immutable snapshots of them, matches their items against a
catalogue, proposes prices and categories, and publishes each run as one sealed, read-only bundle.
This project models the parts of it whose guarantees range over interleavings, feeds, orders and run
histories, and proves those guarantees. `dafny verify dfyconfig.toml` checks everything.

**File protocols.** `SnapshotProtocol` runs any number of `install_snapshot` calls in any number of
processes; every system call is one step, a step may raise (a write also after writing a part), and a
process may die between two steps. `SnapshotRollback` proves over the same runs what a failed call
leaves behind. `SnapshotStore` is the call on its own, as an object with a set of call sites that
raise. `RunProtocol` does the same as the first for `run_pilot`, with `RunNames` for the names in the
runs directory. `SealedRun` has `build_run_seal`, and `load_sealed_run` against a directory that others
change while it is read: a history gives the directory at each instant, a schedule the instant of each
disk access.

**Algorithms.** `Matcher` is the matcher with its hash indices, proved against a specification that
scans both lists; `MatchingLaws` proves what follows. `CategoryMapping` and `CategoryLaws`,
`MissingState`, `CategoryTree`, `RawAttributes` with `AttributeClashes`, `NetlabScan` and `Pricing`
treat one component each, in the same way. `RunInputs` has the two validations at the head of a run,
`Runner` wires all stages together, `Bundle` has the rows that are written and the row-level checks of
the verifier, `RunLaws` has what holds of every finished run, and `RejectedRuns` has runs that
verification refuses. `Publication` joins the stages: build, seal, publish among other runs, load,
verify. `Common`, `Catalogue` and `Ordering` are vocabulary.

What these components compute is stated a second time without their own functions, by positions,
keys and literal texts: `MatchingMeaning`, `CategoryMeaning`, `StateMeaning`, `ScanMeaning`,
`TreeMeaning`, `InputsMeaning` and `RunMeaning`. `SnapshotOutcome` and `RunProgress` do that for the two
protocols, and prove that a call which nothing disturbs succeeds.

SHA-256, JSON text, `str.strip`, number parsing and the matcher's `_identity` are parameters; what is
assumed of them is written in the contracts that need it (`RoundTrips`, `CollisionFree`, `JsonText`,
the last of the rows of the run at hand only).

Results that differ from what one might expect of the code:

- An install that raises does not always leave both files as they were. The exact exceptions are in
  `SnapshotStore.SnapshotRoot.InstallSnapshot`: metadata that was added to a snapshot already present
  stays when building the result raises, and a finished install stays when releasing the lock raises.
- Run names may hide in each other's staging names: cleanup of run `a` removes the staging directory
  of a run called `a.stage-b` while it is being built, or a part of it, so that a truncated bundle is
  published with success. Without such names the protocol is safe; with them still at most one call
  on a name publishes, and nothing published is touched.
- `load_sealed_run` can be fooled if files return to an earlier content; otherwise it is atomic. The
  exact condition is in `SealedRun.LoadIsAtomicIff`.
- A run whose feed has an item id such as `-1`, or a text with U+0085, U+2028 or U+2029, is built
  and sealed, and its bundle then fails verification. The exact condition is in
  `RunLaws.BuiltBundlesVerify`.
- The repository's README.md says that a complete feed may produce a quarantine proposal
  (`consecutive_missing_runs` policy). The runner calls a feed complete only if no product is missing
  (`runner.py:308`), so no run ever proposes one; the model follows the code
  (`RunLaws.NoRunProposesAnAction`).
- Permuting the suppliers permutes the match records exactly if no two suppliers point at one product.
- The category suggested for a supplier category depends on the order of the matches exactly if its
  most common target is tied with another.
- Parameter names with `#` or `@` can make the flattened offer lose text; `AttributeClashes.SharedIff`
  says exactly when two values ask for one key.

## Model

| member | source | states |
|---|---|---|
| SnapshotProtocol.Reachable | mks123_pipeline/snapshot_store.py:159-347 | The protocol invariant holds after every run of system calls, exceptions and process deaths, from any initial files: lock tables match program counters, each call's files are what its step relies on, and nobody who may still roll back shares a target with a successful call |
| SnapshotProtocol.InstalledForever | mks123_pipeline/snapshot_store.py:302-347 | Once a call has returned success, its snapshot and metadata exist, protected and consistent with its hash, and keep their bytes through every continuation of the run |
| SnapshotProtocol.InstalledBytesAreTheCallers | mks123_pipeline/snapshot_store.py:323-347 | With a collision-free hash, the bytes under a successful target are the caller's own feed: no partial file of a crashed call and no feed sharing twelve hash digits is ever adopted |
| SnapshotProtocol.OneFeedPerStem | mks123_pipeline/snapshot_store.py:252-275 | Two successful calls on one target name carried the same feed |
| SnapshotProtocol.LocksAreExclusiveAndNeverLeak | mks123_pipeline/snapshot_store.py:219-249 | In every reachable state a held file or thread lock belongs to a call between taking and releasing it; no two calls are inside the file lock of one target, and no two calls of one process inside its thread lock |
| SnapshotProtocol.RemovesOnlyOwnCreations | mks123_pipeline/snapshot_store.py:150-196 | Every removal of a file, anywhere in a run, is by the call that created that file, which has held the target's lock without interruption since; an adopted snapshot is never deleted |
| SnapshotProtocol.SuccessSurvivesStep | mks123_pipeline/snapshot_store.py:337-347 | One step of any call or one process death leaves both files of a successful call exactly as they are |
| SnapshotOutcome.ReturnedMeans | mks123_pipeline/snapshot_store.py:278-347 | In every reachable state a call that has returned success stands for a protected snapshot with its hash and protected metadata: the one it wrote, entry by entry, or one that was there, which has the name, the hash and every required entry with its value |
| SnapshotOutcome.UndisturbedCallInstalls | mks123_pipeline/snapshot_store.py:302-347 | From any files on which the call can succeed, it does succeed if nothing disturbs it, and leaves exactly the two files, the bytes that were there, and no lock |
| SnapshotRollback.FailedTenureRestores | mks123_pipeline/snapshot_store.py:323-347 | For every interleaving: a lock tenure that ends in failure, with no removal having raised, leaves snapshot and metadata with the contents they had when the lock was taken, unless there was a snapshot without metadata then and a step of this tenure raised at the building of the result; in exactly that case metadata has been added |
| SnapshotRollback.MetadataIsLeft | mks123_pipeline/snapshot_store.py:336-347 | That case is reached, from any snapshot with the hash of the job and no metadata |
| SnapshotStore.SnapshotRoot.Fill | mks123_pipeline/snapshot_store.py:174-192 | The chunked write loop ends with exactly the given bytes in a protected file if and only if no call that it makes for this many bytes raises; otherwise it raises from a raising call on this handle and leaves an unprotected prefix of them; it touches nothing else |
| SnapshotStore.SnapshotRoot.PublishExclusive | mks123_pipeline/snapshot_store.py:159-196 | Raises if and only if the creation raises, or the file was absent and a call on its handle raises; creates the complete protected file if it was absent, leaves an existing file alone, and after an exception all files are as they were exactly if no part had to be removed whose removal raises as well |
| SnapshotStore.SnapshotRoot.ReadExisting | mks123_pipeline/snapshot_store.py:199-216 | Returns the bytes of a file that is there, which it protects and does not alter; raises, without a change, if and only if the file is absent or opening, reading or protecting it raises |
| SnapshotStore.SnapshotRoot.InstallMetadata | mks123_pipeline/snapshot_store.py:278-299 | Succeeds if and only if the calls that the files determine do not raise and existing metadata names this target and hash and meets every required entry; the metadata it returns is the caller's with name and hash, or has these and every required entry with its value; each fault of existing metadata is reported exactly when it is there |
| SnapshotStore.SnapshotRoot.RollBack | mks123_pipeline/snapshot_store.py:341-347 | Removes exactly what this call created, up to the first removal that raises, whose exception it passes on |
| SnapshotStore.SnapshotRoot.VerifyTarget | mks123_pipeline/snapshot_store.py:326-328 | Accepts if and only if the bytes under the target have the promised hash and, for a target that was there, opening, reading and protecting it does not raise; leaves the bytes alone |
| SnapshotStore.SnapshotRoot.SettleOrUndo | mks123_pipeline/snapshot_store.py:325-347 | The `try` block with its handler: success exactly as the files and the raising sites determine; on failure a target that this call created is gone with its metadata, unless a removal raises |
| SnapshotStore.SnapshotRoot.InstallUnderLock | mks123_pipeline/snapshot_store.py:323-347 | For every set of raising call sites: success if and only if no call on the way that the files determine raises; with removals that work, the contents are as before if and only if that way was not completed, or ended at the building of the result without metadata having been added to a snapshot already there; no byte that was there is ever lost |
| SnapshotStore.SnapshotRoot.InstallSnapshot | mks123_pipeline/snapshot_store.py:302-347 | For every set of raising call sites and all files: exactly when the call succeeds, exactly when it reports the source hash, the lock, the release or the building of the result, and exactly when the contents of the directory are as before; an exception is reported only of a call that raises, and a fault of the metadata only if it is there; onto metadata in which a required entry is missing or differs it never succeeds; on success both files exist, agree with the hash and are reported with the right metadata |
| SnapshotStore.AllOrNothing | mks123_pipeline/snapshot_store.py:323-347 | A call in which anything may raise but the building of the result, the release of the lock and removals installs everything or leaves all contents as they were |
| SnapshotStore.MetadataStaysBehind | mks123_pipeline/snapshot_store.py:336-347 | The first case is reached: from a snapshot without metadata, a raise while the result is built leaves the metadata behind |
| SnapshotStore.InstallStaysBehind | mks123_pipeline/snapshot_store.py:242-247 | The second case is reached: from an empty directory, a raise while the lock is released fails the call with everything installed |
| RunNames.CleanupReachesStaging | mks123_pipeline/runner.py:136-142 | Cleanup of run A matches a staging directory of run B if and only if they are the same run or B's name starts with A's staging prefix |
| RunNames.CleanupMissesRuns | mks123_pipeline/runner.py:47-47 | Cleanup never matches a published run directory |
| RunNames.CleanupReachesLock | mks123_pipeline/runner.py:577-577 | Cleanup of run A matches the lock file of run B if and only if B's name starts with A's staging prefix |
| RunNames.TwoCleanups | mks123_pipeline/runner.py:136-142 | No directory entry is within reach of the cleanups of two different runs unless one is named after the other's staging directories |
| RunProtocol.Reachable | mks123_pipeline/runner.py:555-608 | The invariant of concurrent, failing and dying runs holds in every reachable state, for any run names of which none looks like another's staging directory |
| RunProtocol.AtMostOneSucceeds | mks123_pipeline/runner.py:571-605 | For any run names and any directory: of the calls on one run name at most one ever publishes, and only such a call returns success |
| RunProtocol.RunsAreNeverTouched | mks123_pipeline/runner.py:120-142 | For any run names: no step of any call removes or alters an entry under a valid run name |
| RunProtocol.PublishedPersists | mks123_pipeline/runner.py:600-605 | For any run names: what a call has published stays as it was published, through every continuation |
| RunProtocol.PublishedIsComplete | mks123_pipeline/runner.py:585-605 | With names of which none looks like a staging directory of another, what is published is the complete bundle of the call that published it |
| RunProtocol.NoStagingBesideOutput | mks123_pipeline/runner.py:581-608 | Once the output of a run exists, no staging directory of that run remains, if none stood beside it from the start |
| RunProtocol.LiveStagingIsSafe | mks123_pipeline/runner.py:136-142 | No step of another call, cleanup included, alters the staging directory of a live call |
| RunProtocol.ShadowedRunLosesItsStaging | mks123_pipeline/runner.py:136-142 | The condition on names is needed, for every pair that breaks it: from an empty directory there is a run in which cleanup of `a` removes the staging directory that `b` is building in |
| RunProtocol.ShadowedRunPublishesLess | mks123_pipeline/runner.py:136-142 | ... and one in which the call on `b` returns success for a bundle with a file missing |
| RunProgress.UndisturbedCallPublishes | mks123_pipeline/runner.py:555-608 | From any directory in which the name is free, a call that nothing disturbs publishes its whole bundle, removes all that `.<name>.stage-*` matches, leaves every other entry alone and gives back its locks |
| RunProgress.OthersAreRefused | mks123_pipeline/runner.py:571-580 | A call on a name that is taken, or is no run name character by character, raises and changes nothing |
| SealedRun.FilePaths | mks123_pipeline/integrity.py:34-50 | Lists exactly the regular files but `seal.json`, and refuses exactly the trees with a symbolic link, or a hard link other than the seal |
| SealedRun.LoadSealedRun | mks123_pipeline/integrity.py:88-115 | Returns evidence if and only if every test passes at the instant of its own disk access |
| SealedRun.AcceptsMeans | mks123_pipeline/integrity.py:88-115 | What those tests are, access by access: the seal, a clean listing of exactly the files it records, each file with the recorded hash and its length for the recorded size, the listing again, and seal and files with the same hash and size |
| SealedRun.LoadIsAtomicSnapshot | mks123_pipeline/integrity.py:88-115 | If nothing ever returns to an earlier content, a successful load saw a snapshot: at the instant of the second listing the directory held exactly the returned seal, file set and bytes |
| SealedRun.LoadIsAtomicIff | mks123_pipeline/integrity.py:88-115 | Exactly when a load goes wrong: what it accepts was the state of the directory at the second listing if and only if neither a file nor the seal was then away from the content that both readings saw |
| SealedRun.LoadIsUnique | mks123_pipeline/integrity.py:88-115 | At most one result passes the tests of one load |
| SealedRun.AlternatingFilesFoolTheLoad | mks123_pipeline/integrity.py:98-114 | For every sealed directory, any two of its files and any other bytes for them: if each file is right only when it is read, every test passes although the directory is never what its seal says |
| SealedRun.QuietLoad | mks123_pipeline/integrity.py:88-115 | On a directory that nobody changes the load accepts exactly the sealed directories and returns what they hold |
| SealedRun.SealIsTamperEvident | mks123_pipeline/integrity.py:66-115 | Two directories accepted under the same seal bytes have the same files with the same contents |
| SealedRun.RunDirectory.BuildRunSeal | mks123_pipeline/integrity.py:66-85 | Seals exactly the directories without seal and links: the seal records for every file its hash and its length, and nothing else; the result loads with the old contents and every file is read-only; refuses without a change otherwise |
| Matcher.CheckUnique | mks123_pipeline/matcher.py:45-53 | Raises exactly on a repeated supplier id, supplier SKU or product id, and the first of these that repeats |
| Matcher.IndexCatalog | mks123_pipeline/matcher.py:54-65 | The three indices hold under each key exactly the catalogue items with that key, in catalogue order |
| Matcher.CountSuppliers | mks123_pipeline/matcher.py:57-72 | The two counts hold under each key exactly how many suppliers bear it |
| Matcher.SelectByIndex | mks123_pipeline/matcher.py:76-123 | Deciding by index lookup gives what scanning both lists for SKU, EAN and manufacturer and model keys gives |
| Matcher.MatchSupplierItems | mks123_pipeline/matcher.py:44-166 | Succeeds if and only if ids, SKUs and product ids are unique, and then returns one record per supplier in order, as the scanning specification has it, and the sorted unclaimed products |
| MatchingLaws.CatalogOrderIsIrrelevant | mks123_pipeline/matcher.py:54-65 | Permuting the catalogue leaves the whole result unchanged |
| MatchingLaws.SupplierOrderKeepsMissing | mks123_pipeline/matcher.py:165-165 | Permuting the suppliers leaves the missing products unchanged |
| MatchingLaws.NothingReusedIff | mks123_pipeline/matcher.py:124-133 | No record is `catalog_product_reused` if and only if no two suppliers point at one product |
| MatchingLaws.SupplierOrderPermutesRecords | mks123_pipeline/matcher.py:124-133 | Permuting the suppliers only permutes the records, if no two suppliers point at one product |
| MatchingLaws.ReuseDependsOnOrder | mks123_pipeline/matcher.py:124-133 | That condition is exact: wherever a record is `catalog_product_reused`, some permutation of the suppliers loses it |
| MatchingLaws.OneSupplierPerRoute | mks123_pipeline/matcher.py:86-105 | At most one supplier reaches a given product by each of the three routes |
| MatchingLaws.AtMostThreePointAtAProduct | mks123_pipeline/matcher.py:86-105 | At most three suppliers point at one product |
| MatchingLaws.ProductMeansFirst | mks123_pipeline/matcher.py:124-134 | A record carries a product if and only if its supplier is the first one to point at it |
| MatchingLaws.ProductsAreDistinct | mks123_pipeline/matcher.py:124-134 | No product is in two records |
| MatchingLaws.CatalogueIsConserved | mks123_pipeline/matcher.py:134-166 | Missing products and records with a product add up to the catalogue and do not overlap |
| MatchingLaws.PickMeans | mks123_pipeline/matcher.py:86-105 | A selected product shares the key of its route with the supplier, alone in the catalogue and, off the SKU route, among the suppliers |
| MatchingLaws.ExactMeans | mks123_pipeline/matcher.py:124-164 | A record is exact if and only if the identity is undisputed, the SKU names one unclaimed product, and no populated EAN, model or manufacturer disagrees |
| MatchingLaws.RecordMeans | mks123_pipeline/matcher.py:106-164 | Every record is about its own supplier; it has a product or no confidence; its route, confidence and warnings are those of the selected product, each warning exactly if that populated field disagrees |
| MatchingLaws.SecondaryRouteWarnings | mks123_pipeline/matcher.py:135-153 | A selection by EAN never carries an EAN mismatch; one by manufacturer and model carries nothing but it, and is a conflict exactly then |
| MatchingMeaning.UnmatchedMeans | mks123_pipeline/matcher.py:74-123 | By positions of items and suppliers alone: a record is unmatched if and only if there are no identity warnings and no catalogue item shares SKU, non-blank EAN or manufacturer and model; exactly when each of the three reasons is given, with route and text, SKU deciding before EAN and EAN before manufacturer and model; identity warnings are listed once each in order of first occurrence |
| MatchingMeaning.MatchedMeans | mks123_pipeline/matcher.py:124-164 | The item that alone shares the deciding identity, and on the secondary routes with a supplier without rival, goes to the first supplier that means it, with route, status, confidence and warnings spelled out; later ones are `catalog_product_reused` |
| MatchingMeaning.MissingMeans | mks123_pipeline/matcher.py:165-166 | The missing products are those that no supplier means, in ascending order |
| CategoryMapping.Learn | mks123_pipeline/category_mapping.py:31-43 | The evidence loop succeeds if and only if every lookup does, and its counters hold exactly the evidence |
| CategoryMapping.BuildCategoryMapping | mks123_pipeline/category_mapping.py:21-120 | Succeeds if and only if every match resolves; the rows, sorted by category, the product rows, sorted by id, and the summary are those of the evidence |
| CategoryMeaning.ResolvesMeans | mks123_pipeline/category_mapping.py:31-41 | It succeeds if and only if every match is about an item, and every exact one with a product about a product of the catalogue |
| CategoryMeaning.MappingMeans | mks123_pipeline/category_mapping.py:26-80 | One row for each category of an item, ascending: total, source-only products and support are numbers of items, of unmatched and of exact matches with a product in the category; the dominant target is the one most of these go to; alternatives by falling number; status by its thresholds |
| CategoryMeaning.ProductRowsSay | mks123_pipeline/category_mapping.py:82-107 | One product row for each unmatched item, sorted by id, with suggestion, status and proposal status of the row of its category |
| CategoryMeaning.SummaryMeans | mks123_pipeline/category_mapping.py:109-119 | Every figure of the summary is the number of such rows |
| CategoryLaws.CounterCounts | mks123_pipeline/category_mapping.py:41-50 | The counter of a category has one positive entry per target, with the number of exact matches for it, and sums to the support |
| CategoryLaws.RowsMean | mks123_pipeline/category_mapping.py:47-80 | Each row read off the evidence: the suggested target has the most matches, alternatives are all targets by falling count, strong means three or more matches all for one target, candidate and unmapped exactly by their thresholds |
| CategoryLaws.ProductRowsMean | mks123_pipeline/category_mapping.py:82-107 | The product rows are exactly those of the unmatched items, sorted by id, with the suggestion and status of their category and the proposal status that goes with it |
| CategoryLaws.Conservation | mks123_pipeline/category_mapping.py:27-120 | Item totals sum to the items, support to the exact matches with a product, source-only products to the product rows; the status counts partition the categories; reviewable products are those of candidate rows |
| CategoryLaws.MajorityIsStable | mks123_pipeline/category_mapping.py:31-80 | Permuting items with unique ids and matches changes no row but the order of equally common targets, and no suggestion for a category whose most common target is unique |
| CategoryLaws.CandidatesAreUnique | mks123_pipeline/category_mapping.py:56-59 | Every strong and review candidate has a unique most common target |
| CategoryLaws.SuggestionIsStableIff | mks123_pipeline/category_mapping.py:51-60 | The suggestion for a category is the same under every permutation of the matches if and only if no other target is as common as the suggested one |
| CategoryLaws.TieGoesToTheFirst | mks123_pipeline/category_mapping.py:51-53 | Of equally common targets, over any evidence, the one seen first is suggested |
| Ordering.BelowMeans | mks123_pipeline/category_mapping.py:47-47 | The order of Python's `sorted` on text: the first difference decides, and a beginning comes first |
| MissingState.CopyRecords | mks123_pipeline/state.py:31-31 | The deep copy has a new record of its own for every product, with equal fields |
| MissingState.ValidatedPrevious | mks123_pipeline/state.py:19-38 | Refuses exactly the documents that the specification refuses, with its error, and otherwise returns a copy made of new objects |
| MissingState.StateDocument.CountKnown | mks123_pipeline/state.py:61-68 | The loop over known records counts the missing ones up and resets the others, in place |
| MissingState.StateDocument.CountMissing | mks123_pipeline/state.py:60-75 | After a complete feed every known or missing product has its updated record, and no other product has one |
| MissingState.UpdateMissingState | mks123_pipeline/state.py:41-97 | Succeeds if and only if arguments and previous document are valid; returns a new document with the next state, and the proposals for it in product order; the previous document and every record in it are unchanged |
| StateMeaning.Update | mks123_pipeline/state.py:19-97 | The same call, key by key: which arguments and documents are accepted; after a complete run which keys of a known and missing, a known and seen, and a new product hold what, all other keys being as before; after an incomplete run every record as before; the header with the two run fields; the proposals |
| StateMeaning.NextMeans | mks123_pipeline/state.py:60-77 | What one run writes, key by key, from any valid state |
| StateMeaning.ValidatedMeans | mks123_pipeline/state.py:19-38 | Which previous documents are accepted, what is taken over from them, and which fault is reported |
| StateMeaning.DecisionMeans | mks123_pipeline/state.py:79-97 | A proposal for each missing product whose record has reached the threshold, with action, SKU and count, in ascending order of products; none unless the run is complete and the policy set |
| MissingState.CounterCountsRecentMisses | mks123_pipeline/state.py:57-77 | Over any history, a counter is the length of the longest suffix of complete runs that all miss the product |
| MissingState.IncompleteRunsChangeNothing | mks123_pipeline/state.py:60-77 | Incomplete runs may be inserted or dropped anywhere without a change to any record |
| MissingState.ProposedExactlyAtTheThreshold | mks123_pipeline/state.py:79-90 | From no state, an action for a product is proposed if and only if the policy is armed, the feed complete, and the last `threshold` complete runs all missed it |
| MissingState.WrittenStateIsAccepted | mks123_pipeline/state.py:19-38 | A written state is read back, unchanged, as the next previous state |
| CategoryTree.ReachesRoot | mks123_pipeline/electrozone.py:76-83 | The walk from one category accepts if and only if its parents lead to a root |
| CategoryTree.ValidateCategories | mks123_pipeline/electrozone.py:70-83 | Accepts if and only if every parent is known and every category reaches a root |
| CategoryTree.CategoryPath | mks123_pipeline/electrozone.py:58-67 | The names from the first stop of the walk down to the category, for any tree |
| CategoryTree.LegacyCategoryPath | mks123_pipeline/legacy_xml.py:108-121 | Succeeds if and only if the walk reaches a root through known categories, with the full path; reports a cycle or an unknown category only where there is one |
| CategoryTree.WellFormedMeansAcyclic | mks123_pipeline/electrozone.py:70-83 | With known parents, acceptance is the same as having no cycle |
| CategoryTree.AcceptedPathsAreComplete | mks123_pipeline/electrozone.py:58-83 | After acceptance no path stops early: it runs from a root to the category, in at most as many names as there are categories |
| CategoryTree.SilentWalkIsCompleteWhenLegacyAccepts | mks123_pipeline/legacy_xml.py:108-121 | The tolerant walk reaches a root if and only if the strict legacy walk accepts |
| CategoryTree.WalkersAgree | mks123_pipeline/legacy_xml.py:108-121 | Where both adapters return a path for a category, it is the same |
| TreeMeaning.PathMeans | mks123_pipeline/electrozone.py:58-67 | The names returned are those of a chain of different known categories, each the parent of the one before, that ends where it cannot go on |
| TreeMeaning.StrictMeans | mks123_pipeline/legacy_xml.py:108-121 | The strict walk accepts if and only if there is such a chain that ends at a category without parent |
| TreeMeaning.AcceptedMeans | mks123_pipeline/electrozone.py:70-83 | A tree is accepted if and only if its categories can be ranked with every parent known and below its children |
| RawAttributes.RawAttributes | mks123_pipeline/electrozone.py:86-101 | Both adapters' flattening is the numbered dictionary of the offer, and fails only on an unnamed parameter where that is refused |
| RawAttributes.NothingIsLost | mks123_pipeline/electrozone.py:86-101 | Without separators in names, a slot (offer attribute, k-th text of a base, attribute of that element) is in the dictionary with a value if and only if the offer supplies it |
| RawAttributes.DictionaryDeterminesOffer | mks123_pipeline/legacy_xml.py:164-177 | Two such offers with one dictionary agree in all attributes and, per base, element by element |
| RawAttributes.KeysNeverClash | mks123_pipeline/electrozone.py:92-100 | Different slots have different keys |
| RawAttributes.DecimalInjective | mks123_pipeline/electrozone.py:97-97 | Decimal suffixes of different numbers differ |
| AttributeClashes.LastWins | mks123_pipeline/electrozone.py:87-101 | For any offer, every key of the dictionary belongs to a value of the offer and holds the one written last |
| AttributeClashes.KeysMean | mks123_pipeline/electrozone.py:87-101 | The keys character by character: `@name`, the base, the base with number sign and the decimal number of its occurrence, and the key of an element with at sign and attribute name |
| AttributeClashes.BasesMean | mks123_pipeline/legacy_xml.py:166-170 | What each adapter calls an element, and the one that Electrozone refuses |
| AttributeClashes.LosslessIff | mks123_pipeline/electrozone.py:87-101 | For any offer, every value is found at its own key if and only if values that ask for one key are equal |
| AttributeClashes.ElementsShareIff | mks123_pipeline/electrozone.py:96-98 | Two elements share a key if and only if one is called what a repeated element is numbered to |
| AttributeClashes.SharedIff | mks123_pipeline/electrozone.py:87-100 | For any offer, two values share a key if and only if elements do, or an attribute is flattened to the key of an element, or an attribute name continues one key to another |
| AttributeClashes.PlainSharedIff | mks123_pipeline/electrozone.py:87-100 | With attribute names free of both separators, the condition is on what the elements are called alone |
| AttributeClashes.NumberSignLosesText | mks123_pipeline/legacy_xml.py:167-174 | Parameters named `a`, `a#2`, `a`: in neither adapter's dictionary is the second text |
| AttributeClashes.AtSignLosesText | mks123_pipeline/legacy_xml.py:175-176 | A parameter named `a@unit` before one named `a` with an attribute `unit`: in neither adapter's dictionary is the first text |
| NetlabScan.Scanner.ScanItem | mks123_pipeline/netlab_properties.py:153-184 | The loop over the children of an item emits an observation per child, stops at the first bad child, and keeps the counters equal to the counts over what was emitted |
| NetlabScan.Scanner.Handle | mks123_pipeline/netlab_properties.py:117-188 | One event of the loop raises if and only if it is bad after the events before it, and otherwise leaves all variables as the events say |
| NetlabScan.Scan | mks123_pipeline/netlab_properties.py:115-216 | Accepts if and only if every event and the ending are good; statistics and emissions are functions of the feed, and a failing scan has emitted a prefix of them; an error names a fault of an event before which all is well, or of the feed as a whole when every event is good |
| ScanMeaning.AcceptedMeans | mks123_pipeline/netlab_properties.py:115-203 | A feed is accepted if and only if, event by event, names, root, date, ids, definitions, items and children are in order given the events before, exactly one element of each container closes, and there is a root, a definition and an item |
| ScanMeaning.EmissionMeans | mks123_pipeline/netlab_properties.py:153-184 | After one observation for each child of the items before come those of an item's children, in order, each read off its child and the definitions closed before the item |
| ScanMeaning.StatsMean | mks123_pipeline/netlab_properties.py:205-216 | Every statistic as a number of positions: definitions, items, children of items, missing and undefined observations, different undefined ids; and the date of the first start event |
| NetlabScan.StrictIsLenientWithoutUnknowns | mks123_pipeline/netlab_properties.py:162-167 | Strict mode accepts a feed if and only if lenient mode accepts it without an unknown observation |
| NetlabScan.UndefinedMeansNotClosedEarlier | mks123_pipeline/netlab_properties.py:171-178 | An observation says `definition_missing` if and only if no definition of its property closed before its item |
| NetlabScan.ObservationMeans | mks123_pipeline/netlab_properties.py:154-183 | Every observation is read off a child of its item: tag, text, missing exactly if empty or a dash, and the name defined before the item closed |
| NetlabScan.DefinedMeansClosedEarlier | mks123_pipeline/netlab_properties.py:131-142 | The known definitions are those closed so far |
| Pricing.ReadyExactly | mks123_pipeline/pricing.py:68-118 | A proposal is ready if and only if match, item price, currency, rate, VAT basis, rule and current price are approved and the marked-up price is within the limit |
| Pricing.QuoteMeans | mks123_pipeline/pricing.py:87-118 | A figure is proposed only past all approvals; it is the positive marked-up source price at parity, and the absolute and relative difference lead from the current price to it; the status is then that of the current price, or of the limit, or ready; the other fields are those of item and match |
| Pricing.BlockedMeans | mks123_pipeline/pricing.py:68-118 | Exactly when each blocked status is given, with its warning |
| RunInputs.CheckHeaders | mks123_pipeline/runner.py:151-164 | Accepts exactly headers that are present, unpadded, distinct and include the required ones |
| RunInputs.LoadCatalog | mks123_pipeline/runner.py:145-213 | Succeeds if and only if header and every row are valid and product ids distinct, rows outside the prefix included, and returns the items of the prefix in order; an error names a fault of the header, or a fault of a row before which all is well |
| RunInputs.LoadedCatalogueIsGood | mks123_pipeline/runner.py:165-213 | What is loaded has unique positive product ids, SKUs with the prefix and no negative price |
| RunInputs.ItemsAreReadOff | mks123_pipeline/runner.py:165-212 | Every loaded item holds, field by field, the stripped cells of one row under the headers of those names, in whatever order the columns stand |
| RunInputs.PrefixOnlySelects | mks123_pipeline/runner.py:198-199 | The prefix only selects from what loads without one, which is every row |
| RunInputs.ValidateAdapterSnapshot | mks123_pipeline/runner.py:217-250 | Accepts exactly snapshots within bounds, of this supplier and source, with unique ids and SKUs, declared currencies, names and raw hashes; says exactly when each of the three first errors is reported, and any other names a fault of an item before which all is well |
| InputsMeaning.CatalogueMeans | mks123_pipeline/runner.py:145-213 | A catalogue is accepted if and only if its headers are, every record with fields has good cells under the headers of their names, and no two records name one product |
| InputsMeaning.LoadedMeans | mks123_pipeline/runner.py:165-213 | The loaded items follow the records with the prefix on their SKU, each read off its record |
| InputsMeaning.SnapshotMeans | mks123_pipeline/runner.py:217-250 | A snapshot is accepted if and only if source and bounds fit, every item is good field by field, and no two share an id or a SKU |
| Bundle.CsvCollision | mks123_pipeline/runner.py:58-63 | Formula escaping is idempotent and merges two different texts exactly if one is the escaped form of the other |
| Bundle.CsvValueMeans | mks123_pipeline/runner.py:58-63 | A text whose first character past blanks is `=`, `+`, `-` or `@` is written with a quote before it, and any other text as it is |
| Bundle.JsonLinesRoundTrip | mks123_pipeline/verifier.py:35-36 | Reading JSON lines gives back what was written, for rows whose JSON text reads back, unless a row's text holds a character at which only the reader splits; then nothing is read |
| Bundle.OnlyThreeCharactersBreak | mks123_pipeline/runner.py:66-70 | Those characters are U+0085, U+2028 and U+2029 |
| Bundle.Verifier.CheckCounts | mks123_pipeline/verifier.py:274-286 | The loop over the expected counts passes if and only if all agree |
| Bundle.Verifier.VerifyRows | mks123_pipeline/verifier.py:231-306 | All row-level checks pass if and only if counts, identities, parity, status counts and the missing-action gate hold of the bundle |
| RunMeaning.VerdictMeans | mks123_pipeline/verifier.py:231-306 | What those conditions are, row by row and count by count |
| Runner.ValidInputs | mks123_pipeline/runner.py:288-300 | The two validations establish everything that the matcher demands |
| Runner.LookupsSucceed | mks123_pipeline/runner.py:301-342 | Every lookup by supplier id and product id after matching succeeds and finds the right item |
| Runner.MissingProductsMean | mks123_pipeline/runner.py:304-308 | The counters are fed one non-empty text per missing product, different for different products |
| Runner.BuildPilot | mks123_pipeline/runner.py:288-411 | A run succeeds if and only if snapshot, catalogue, previous state and policy are acceptable; matching, pricing and category mapping never raise, and the bundle is that of their results |
| RunMeaning.BundleMeans | mks123_pipeline/runner.py:344-411 | Every cell and figure of the bundle: ids and SKUs of the items, the text of each status, the ids of the unmatched and of the reviewable records in order, the counts of each text, the feed status |
| RunMeaning.ProposalMeans | mks123_pipeline/runner.py:326-342 | Each proposal is built from its item and record, the price of the matched product or zero, and the configured pricing or ruble parity without rule |
| RunMeaning.MappingInputs | mks123_pipeline/runner.py:344-352 | The category mapping gets id and category of every item and the categories of every product |
| RunMeaning.ReportMeans | mks123_pipeline/runner.py:304-308 | Every missing product is reported by its number in decimal with its SKU, and nothing else is; the feed is complete if and only if none is missing |
| RunLaws.BuiltBundlesVerify | mks123_pipeline/verifier.py:256-306 | A built bundle passes the row-level checks if and only if escaping changes no supplier id and merges no SKUs and every row's text stays on one line |
| RunLaws.MinusOneIsRejected | mks123_pipeline/runner.py:58-63 | A built bundle with an item id of `-1` is rejected |
| RejectedRuns.MinusOneGoesThrough | mks123_pipeline/runner.py:288-411 | With any runnable configuration, catalogue and previous state, a feed of one item called `-1` is built, and its bundle fails the row-level checks |
| RejectedRuns.LineSeparatorGoesThrough | mks123_pipeline/runner.py:66-70 | So does a feed of one item whose JSON text keeps a U+0085, U+2028 or U+2029 of its name |
| RejectedRuns.FirstRunIsRunnable | mks123_pipeline/runner.py:145-213 | Any configuration that admits one item is runnable with a catalogue without products and no previous state |
| RejectedRuns.JsonTextIsPossible | mks123_pipeline/runner.py:66-70 | For any rows there is a codec that meets what is assumed of JSON text |
| RunLaws.SafeSkusHaveNoTwins | mks123_pipeline/runner.py:240-241 | SKU prefixes that start with a letter or digit exclude merged SKUs |
| RunLaws.AlwaysPassing | mks123_pipeline/runner.py:344-411 | Counts, status counts and the missing-action gate hold of every built bundle |
| Publication.BuildStaging | mks123_pipeline/runner.py:288-551 | A run that is built leaves a sealed directory that holds exactly its artifacts |
| Publication.VerifyRun | mks123_pipeline/verifier.py:231-306 | Passes if and only if the load accepts, the artifacts can be read and the row-level checks hold of them, whatever others do to the directory |
| Publication.PublishedRunVerifies | mks123_pipeline/runner.py:555-608 | The stages together: with names of which none looks like a staging directory of another, however calls interleave, fail and die, what a call has published passes verification at any later time if and only if its inputs meet the condition of `RunLaws.BuiltBundlesVerify` |
| RunLaws.RunConservation | mks123_pipeline/runner.py:352-384 | Exact records, review queue and source-only rows share out the items; source-only rows equal the category proposals; missing and matched products add up to the catalogue |
| RunLaws.ReadyMeans | mks123_pipeline/runner.py:336-342 | The ready proposals of a run are exactly those of undisputed items whose SKU names one unclaimed, agreeing product, at the marked-up price within the limit of that product's price |
| RunLaws.ReadyProductsAreDistinct | mks123_pipeline/runner.py:336-342 | No product has two ready proposals |
| RunLaws.NoRunProposesAnAction | mks123_pipeline/runner.py:304-324 | Whatever previous state and policy, no run proposes a missing-product action; a complete run resets every counter and an incomplete one changes none |
| RunLaws.ChainFolds | mks123_pipeline/runner.py:309-324 | In every chain of finished runs, each fed the state that the one before wrote and the first none, the states are the fold of the reports |
| RunLaws.CountersStayEmpty | mks123_pipeline/runner.py:304-324 | In every such chain no product ever gets a counter, and no run proposes an action |
| RunLaws.RunIsOneLink | mks123_pipeline/runner.py:309-324 | A run that is given the state that the run before it wrote continues that chain |

## Left out

- CategoryLaws.MajorityIsStable: speaks of the mapping rows; product rows take their fields from them (`CategoryLaws.ProductRowsMean`), and their order among equal ids is not treated.
- RunProtocol.NoStagingBesideOutput: of a staging directory that stood beside the output from the start nothing is said; no call removes it, as every call on that name fails first.
- Win32 handles, exclusive sharing and attributes, `msvcrt` locking, fsync, chmod and junctions: only atomic create, read, write, remove, rename and lock steps remain; case folding of file names is ignored.
- Timeouts of lock waits: a wait may raise at any step; wall clocks are not part of the model.
- The lock files themselves, which stay in the directories, and the subdirectories inside a run, whose files are named by relative path.
- `SnapshotStore` models one call in its lock with failures at call sites; interleavings and process deaths are in `SnapshotProtocol` and `SnapshotRollback`. The input checks of `install_snapshot` and `snapshot_target` before the lock (paths, dates, supplier ids) are left out, except the hash of the source.
- Previous state documents in which two products share one record object, which no JSON text yields, and what lies below the fields of a record, which no step changes.
- Metadata values are strings, so that a required entry with a null value, met by a missing key, is left out.
- SHA-256, JSON, CSV, XML, ZIP, YAML and DuckDB formats; CSV is assumed to read back the cells that were written, and the parsers to deliver trees, events and rows. A row with a price that no decimal text can write has no JSON text and does not meet `JsonText`.
- The regular expression and upper-casing in `_identity`, the JSON text in `_category_key`, and Python's number parsing: abstract functions.
- Decimal context rounding: prices are reals. Dominance is compared by cross-multiplication, and `dominance_pct` is not kept.
- Columns that no modelled decision reads, such as names, images, descriptions and comparison figures, and the report text.
- `config.py`, `adapters.py`, `manifest.py`, `run_inputs.py`, the command-line programs and `scripts/`, HTTP fetching and credentials, and the checks of `verify_run` on hashes, manifest, policy and database.
- The parsers around `_category_path` and `_raw_attributes` in `electrozone.py` and `legacy_xml.py`, which check fields one by one.
- Netlab: the size limits and archive of the properties feed, and the clearing of parsed elements.
