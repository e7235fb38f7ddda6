# typesearch signature catalogue, in Dafny

typesearch indexes the public functions of Rust crates by type and answers
queries like "functions taking `u8` and returning `bool`". This project
models the catalogue at its core, in `src/lib.rs`, and proves properties
of that model.

- **The signature store.** It has four trees:
  - `param`: a parameter type to a set of function ids.
  - `ret`: a return type to a set of ids.
  - `fn`: an id to its `FnDetail` record.
  - `crate`: a crate name to the list of its ids.

  It also has the `next_fn_id` counter. `Store.SignatureStore` is a class
  with these as fields. `add_crate` and `purge_crate` are methods that
  update them in place, and `analyze_and_save` is a purge followed by an
  add. Each method is proved against a value-level specification:
  `Catalog.Added` and `Catalog.Purged` on the `Catalog.Db` snapshot. The
  cross-tree invariants (`Consistency.Valid`, `Consistency.Consistent`) and
  their preservation are lemmas about those specifications.
- **`tokenize_type`.** The rewrite pads `< > [ ] &` with spaces and then
  collapses double spaces to a fixpoint. It is a pure specification
  (`Tokenize.Tokenize`) plus a method with the source's loop
  (`Tokenize.TokenizeType`).
- **The join in `search`.**
  - Columns are built from the fuzzy matcher's hits. The return-type
    column comes first, then one column per parameter term, with an empty
    parameter list read as `<NOARGS>`.
  - The widening depth loop runs `1..max`, with the exclusive bound as
    written. At each depth it unions per column, intersects across
    columns, takes the new ids in an unspecified order and records a
    range. It stops once 500 ids are reached.
  - The result is truncated and the last range fixed up. The ids are then
    resolved to records, and each range is sorted in place by
    `(krate, s)`.
  - `Join.Ranked` states what the join promises about ids and ranges.
    `Query.Search` ties it to the sorted records.

Modelling choices:
- Function ids and the counter are `nat`.
- The fuzzy matcher is passed in as two functions from a query term to its
  ranked hits. Only the first 100 hits of each term are used.
- `HashSet` iteration order is a nondeterministic enumeration (`:|`). This
  means which ids of the last depth survive truncation is not fixed.
- A candidate type missing from its tree makes `search` panic. Presence of
  the candidates is therefore a precondition (`Join.Present`).
- The panicking assertions and unwraps of `add_crate` and `purge_crate` are
  preconditions:
  - Every stored `ret` id is below the counter.
  - `Catalog.PurgeSafe` holds.
  A consistent store meets both (`Consistency.ConsistentPurgeSafe`,
  `Consistency.Valid`).
- Because the depth loop stops one short of the longest candidate list, a
  query whose columns all hold at most one candidate returns nothing
  (`Join.DeepestDepthUnread`). This is modelled as written.
- A query term the matcher finds nothing for gives a column without
  candidates, and then the result is empty (`Query.NoHitsEmptyColumn`,
  `Join.EmptyColumnNothing`, `Query.Search`).
- `FnDetail` is defined in the `reeves_types` crate, which is not part of
  this model. Its four fields are taken from their use in `src/lib.rs`.

## Model

| member | source | states |
|---|---|---|
| Store.SignatureStore.constructor | src/lib.rs:42-48 | A freshly opened store has empty trees and counter 0, and is consistent |
| Store.SignatureStore.AddCrate | src/lib.rs:356-397 | The new state is `Added(old state)`: ids are taken from the counter in input order, each record is filed in every tree, the crate is listed and the counter advanced; returns the advanced counter. Requires every stored `ret` id below the counter, so the freshness assertion cannot fire |
| Store.SignatureStore.AddFn | src/lib.rs:366-389 | One loop pass of `add_crate` takes the trees from the first `i` records filed to the first `i + 1`; the new id is absent from its `ret` set, as the `assert!` demands |
| Store.SignatureStore.InsertParams | src/lib.rs:371-377 | The `param` tree gains the id under each key in turn, missing entries created |
| Store.SignatureStore.RemoveParams | src/lib.rs:419-425 | The `param` tree loses the id under each key in turn, absence tolerated, entries kept |
| Store.SignatureStore.PurgeCrate | src/lib.rs:399-436 | The new state is `Purged(old state)`: unchanged for an unlisted crate; otherwise the listing and each `fn` entry are removed and each id is dropped from its param sets and its `ret` set, counter untouched |
| Store.SignatureStore.PurgeFn | src/lib.rs:414-432 | One pass of the second loop of `purge_crate` takes the `param` and `ret` trees from the first `i` listed ids purged to the first `i + 1`; the id is still in its `ret` set, as the `assert!` demands |
| Store.SignatureStore.AnalyzeAndSave | src/lib.rs:50-56 | Purge then add: the new state is `Added(Purged(old state))`, validity is kept, and consistency is kept when it held before |
| Catalog.InsertAllLookup | src/lib.rs:371-377 | Inserting an id under a list of keys adds it to exactly those keys' sets and binds exactly those keys |
| Catalog.RemoveAllLookup | src/lib.rs:419-425 | Removing an id under a list of keys drops it from exactly those keys' sets, and keys stay bound |
| Catalog.AddedStep | src/lib.rs:366-389 | Filing record `i` under id `first + i` extends the trees of the first `i` records |
| Catalog.AddedParamLookup | src/lib.rs:366-377 | After the add, a `param` set is the old set plus the new ids whose record has that key |
| Catalog.AddedParamKeys | src/lib.rs:371-377 | After the add, a `param` key is bound if and only if it was bound or a new record has it |
| Catalog.AddedRetLookup | src/lib.rs:379-383 | After the add, a `ret` set is the old set plus the new ids whose record returns that type |
| Catalog.AddedFnsLookup | src/lib.rs:385 | After the add, the `fn` tree holds record `i` at `first + i` and is otherwise unchanged |
| Catalog.AddedRetFresh | src/lib.rs:379-382 | When all stored `ret` ids are below the counter, the next id is in no `ret` set while the batch is filed |
| Catalog.PurgedParamLookup | src/lib.rs:415-425 | After the purge, a `param` set is the old set minus the purged ids whose record has that key; keys stay bound |
| Catalog.PurgedRetLookup | src/lib.rs:427-431 | After the purge, a `ret` set is the old set minus the purged ids returning that type; keys stay bound |
| Catalog.PurgeRetFinds | src/lib.rs:428-430 | Under `PurgeSafe`, each purged id is still in its `ret` set when its turn comes, so `assert!(didremove)` cannot fire |
| Consistency.EmptyConsistent | src/lib.rs:42-48 | The empty store with counter 0 is consistent |
| Consistency.StoredFunctionIndexed | src/lib.rs:366-385 | In a consistent store a stored function is in exactly one `ret` set, that of its return type, and in the set of its first parameter key; a function with no parameters is filed under `<NOARGS>` and under no other parameter key |
| Consistency.ConsistentPurgeSafe | src/lib.rs:411-430 | A consistent store can purge any crate without panicking |
| Consistency.UnstoredAtOrAboveCounter | src/lib.rs:363-366 | In a valid store no id at or above the counter is in any tree: no `param` set, no `ret` set, not in `fn` and in no crate's id list |
| Consistency.AddedValid | src/lib.rs:356-397 | `add_crate` keeps all ids below the counter and each id in at most one `ret` set |
| Consistency.AddedListedStored | src/lib.rs:385-390 | After the add, every listed id is stored |
| Consistency.AddedStoredListed | src/lib.rs:385-390 | After the add of an unlisted crate, every stored id is listed by a crate |
| Consistency.AddedCrates | src/lib.rs:385-390 | After the add of an unlisted crate, the crate lists partition the `fn` tree |
| Consistency.AddedRetAgrees | src/lib.rs:379-385 | After the add, an id is in a `ret` set if and only if its record returns that type |
| Consistency.AddedParamAgrees | src/lib.rs:366-385 | After the add, an id is in a `param` set if and only if its record has that key |
| Consistency.AddedConsistent | src/lib.rs:356-397 | Adding an unlisted crate to a consistent store keeps it consistent |
| Consistency.AddedAssignsParam | src/lib.rs:366-377 | The `i`-th new id is in a `param` set if and only if the `i`-th record has that key |
| Consistency.AddedAssignsRet | src/lib.rs:379-383 | The `i`-th new id is in a `ret` set if and only if it is the `i`-th record's return type |
| Consistency.AddedAssignsIds | src/lib.rs:363-394 | The batch gets ids `c .. c+n-1` in input order; the crate is listed with exactly those; the counter becomes `c+n`; id `c+i` was not stored before and now holds record `i`, filed under exactly its keys and its return type |
| Consistency.PurgedValid | src/lib.rs:399-436 | `purge_crate` keeps all ids below the counter and each in at most one `ret` set |
| Consistency.PurgedCrates | src/lib.rs:406-414 | After the purge, the crate lists still partition the `fn` tree |
| Consistency.PurgedRetAgrees | src/lib.rs:427-431 | After the purge, `ret` membership still agrees with the records |
| Consistency.PurgedParamAgrees | src/lib.rs:415-425 | After the purge, `param` membership still agrees with the records |
| Consistency.PurgedConsistent | src/lib.rs:399-436 | Purging any crate of a consistent store is safe and keeps it consistent |
| Consistency.AddedPurgeSafe | src/lib.rs:356-436 | After an add, purging the same crate cannot panic |
| Consistency.IdRangeElems | src/lib.rs:363-366 | The id run `c .. c+n-1` holds exactly the ids in that interval |
| Consistency.AddThenPurgeFns | src/lib.rs:385-414 | Removing the new ids after an add restores the `fn` tree |
| Consistency.AddThenPurgeParam | src/lib.rs:371-425 | Purging the ids an add filed restores every `param` set |
| Consistency.AddThenPurgeRet | src/lib.rs:379-431 | Purging the ids an add filed restores every `ret` set |
| Consistency.AddThenPurge | src/lib.rs:356-436 | Adding an unlisted crate and then purging it restores the `fn` and `crate` trees exactly and the contents of every `param` and `ret` set; the counter keeps its advanced value |
| Consistency.Reingest | src/lib.rs:50-56 | Purge-then-add keeps a consistent store consistent, advances the counter by the batch size and lists the crate with ids at or above the old counter only |
| Tokenize.ReplaceChar | src/lib.rs:243-248 | Replacing a character with a string not containing it removes it; a string without it is unchanged |
| Tokenize.CollapseOnce | src/lib.rs:250 | One non-overlapping left-to-right replacement of double spaces never lengthens the string and either changes nothing or shortens it |
| Tokenize.StripSpacesConcat | src/lib.rs:243-255 | Deleting spaces distributes over concatenation |
| Tokenize.ReplaceCharStrip | src/lib.rs:243-248 | Padding one character with spaces does not change the string once spaces are deleted |
| Tokenize.PadStrip | src/lib.rs:243-248 | The five paddings do not change the string once spaces are deleted |
| Tokenize.CollapseOnceStrip | src/lib.rs:250 | One collapse step does not change the string once spaces are deleted |
| Tokenize.CollapseOnceFixpoint | src/lib.rs:250-253 | A collapse step changes nothing if and only if the string has no double space |
| Tokenize.CollapseNoDoubleSpace | src/lib.rs:249-255 | The collapse loop's result has no double space |
| Tokenize.PairsOkConcat | src/lib.rs:243-248 | Splitting a string keeps the neighbour condition on each part |
| Tokenize.PairsOkIndex | src/lib.rs:243-255 | The neighbour condition means that every special character inside the string has spaces on both sides |
| Tokenize.ReplaceCharEnds | src/lib.rs:243-248 | A padded special character never sits at either end |
| Tokenize.ReplaceCharPairs | src/lib.rs:243-248 | Padding a character keeps the already padded ones padded and pads it |
| Tokenize.ReplaceCharSpaced | src/lib.rs:243-248 | Padding keeps and extends the set of characters with spaces on both sides |
| Tokenize.PadSpaced | src/lib.rs:243-248 | After the five paddings every one of `< > [ ] &` has a space on both sides |
| Tokenize.CollapseOnceEnds | src/lib.rs:250 | A collapse step keeps special characters off both ends |
| Tokenize.CollapseOncePairs | src/lib.rs:250 | A collapse step keeps every padded special character padded |
| Tokenize.CollapseSpaced | src/lib.rs:249-255 | The collapse loop keeps every padded special character padded |
| Tokenize.TokenizeProps | src/lib.rs:242-256 | The tokenized string has no double space, equals the input once spaces are deleted, and has a space on both sides of every `< > [ ] &` |
| Tokenize.TokenizeType | src/lib.rs:242-256 | The loop returns the specified tokenization, which has the same three properties; it terminates because each changing pass shortens the string |
| Ordering.StrLeTotal | src/lib.rs:210-211 | String comparison is total |
| Ordering.StrLeTrans | src/lib.rs:210-211 | String comparison is transitive |
| Ordering.StrLeAntisym | src/lib.rs:210-211 | String comparison is antisymmetric |
| Ordering.StrLeRefl | src/lib.rs:210-211 | String comparison is reflexive |
| Ordering.KeyLeTotal | src/lib.rs:209-212 | The `(krate, s)` comparator is total |
| Ordering.KeyLeTrans | src/lib.rs:209-212 | The `(krate, s)` comparator is transitive |
| Ordering.KeyLeTies | src/lib.rs:209-212 | Two records compare equal both ways if and only if their `(krate, s)` keys are equal |
| Ordering.WithKeyConcat | src/lib.rs:209-212 | The records with one key split over a concatenation |
| Ordering.InsertMultiset | src/lib.rs:209 | One insertion step is a permutation |
| Ordering.InsertSorted | src/lib.rs:209-212 | Inserting into a sorted run keeps it sorted |
| Ordering.InsertWithKey | src/lib.rs:209-212 | Insertion keeps records with equal keys in their input order |
| Ordering.StableSortProps | src/lib.rs:209-212 | The sort's output is sorted and a permutation of its input |
| Ordering.StableSortWithKey | src/lib.rs:209-212 | The sort keeps records with equal keys in input order |
| Ordering.StableSortCorrect | src/lib.rs:208-213 | `sort_by` with the band comparator gives a sorted permutation that is stable |
| Ordering.SortedStableUnique | src/lib.rs:208-213 | Two sorted sequences whose records of each key come in the same order are equal |
| Ordering.SortByUnique | src/lib.rs:208-213 | Any sorted rearrangement of a range that keeps records of equal key in order is exactly its `StableSort`, so `sort_by`'s result is determined |
| Ordering.InsertSplit | src/lib.rs:209 | An insertion puts the new record right after the last record not larger than it |
| Ordering.Placed | src/lib.rs:209 | After the shift, filling the gap gives the specified insertion, and nothing outside the run moves |
| Ordering.ShiftLarger | src/lib.rs:209 | The larger suffix of the run moves one place right, leaving the gap where the new record belongs |
| Ordering.InsertAt | src/lib.rs:209 | One in-place insertion pass equals the specified insertion step, and nothing outside the run moves |
| Ordering.SortRange | src/lib.rs:208-213 | Sorting `ret[range]` in place makes the range the stable sort of its old contents and leaves the rest unchanged |
| Join.MaxDepth | src/lib.rs:163 | The depth bound is the longest candidate list, reached by some column, and 0 without columns |
| Join.UnionOfMember | src/lib.rs:171-176 | An id is in the union if and only if it is filed under one of the candidates |
| Join.ColumnIdsMember | src/lib.rs:169-176 | An id is in a column's set at depth `i` if and only if it is filed under one of the first `min(i, len)` candidates |
| Join.DepthIdsMember | src/lib.rs:168-183 | An id is in the intersection at depth `i` if and only if every column admits it, and there is at least one column |
| Join.DepthIdsMono | src/lib.rs:167-176 | An id that qualifies at a depth qualifies at every deeper one |
| Join.DepthIdsGrow | src/lib.rs:167-176 | Each depth's set contains the previous depth's |
| Join.DepthIdsZero | src/lib.rs:167 | Nothing qualifies at depth 0 |
| Join.DepthIdsFiled | src/lib.rs:169-176 | A qualifying id is filed under some candidate of the first column |
| Join.TilesOrder | src/lib.rs:187-199 | Tiling ranges are in increasing order and stay within the result |
| Join.TilesCover | src/lib.rs:187-199 | Every position of the result lies in some range |
| Join.ElemsConcat | src/lib.rs:188-189 | The emitted set grows by exactly the appended ids |
| Join.LayeredStep | src/lib.rs:186-189 | Appending the new ids of a depth and their range extends the layering by that depth |
| Join.PrefixSlice | src/lib.rs:195-196 | A range inside the cut reads the same in the truncated result |
| Join.TruncateLayered | src/lib.rs:195-199 | Truncating to `min(len, 500)` and fixing up the last range keeps the ranges tiling the result and within their depth layers |
| Join.ColumnUnion | src/lib.rs:170-176 | The per-column loop computes the union for the column's first `min(i, len)` candidates |
| Join.IterationIds | src/lib.rs:168-185 | The per-depth loop computes the intersection across columns |
| Join.Enumerate | src/lib.rs:186 | The new ids are listed once each, in an unspecified order, and exactly the set |
| Join.Deepen | src/lib.rs:168-189 | One depth appends exactly the newly qualifying ids and records their range |
| Join.DepthLoop | src/lib.rs:163-194 | The depth loop leaves ranges layered by depth, and stops at the bound or once at least 500 ids are collected |
| Join.RankedShapeResult | src/lib.rs:191-199 | After truncation there are at most 500 ids, none twice, tiled by at most one range per depth |
| Join.RankedBandsResult | src/lib.rs:186-199 | After truncation each range holds only ids new at its depth, and all of them except in the last range |
| Join.RankedCompleteResult | src/lib.rs:163-199 | Below the cap every depth has its complete range and every id qualifying at the last depth is returned |
| Join.CutLastWhole | src/lib.rs:197-199 | Cutting at the last range's own end changes nothing |
| Join.Join | src/lib.rs:163-199 | The ids and ranges satisfy `Ranked`: at most 500 ids, none twice, ranges tiling them in depth order, each holding ids new at its depth (complete except possibly the last), everything present below the cap, nothing when no column has two candidates |
| Join.RankedIdQualifies | src/lib.rs:186-189 | Every returned id qualifies at some depth within the recorded ranges |
| Join.RankedEmittedAt | src/lib.rs:167-189 | An id in range `k` is admitted by every column among its first `k+1` candidates and did not qualify at any smaller depth |
| Join.EmptyColumnNothing | src/lib.rs:168-189 | A column without candidates admits no id, so the join returns nothing |
| Join.DeepestDepthUnread | src/lib.rs:163-167 | Every returned id already qualifies one candidate short of the longest list; with at most one candidate per column nothing is returned |
| Query.TakeRest | src/lib.rs:131-156 | The kept hits are a prefix of at most the limit, the rest of the hits follow them, and all hits are kept exactly when there are no more than the limit |
| Query.QueryColumnsShape | src/lib.rs:129-158 | The return-type column comes first, then one column per parameter term; an empty parameter list queries `<NOARGS>`; each column holds at most 100 candidates from its own tree; no query means no columns |
| Query.QueryColumnsIndexed | src/lib.rs:129-158 | Every column reads the `param` or the `ret` tree, and no query means no columns |
| Query.BuildColumns | src/lib.rs:129-158 | The column-building code computes the specified columns |
| Query.NoHitsEmptyColumn | src/lib.rs:129-158 | A return or parameter term with no fuzzy hits gives a column without candidates |
| Query.DetailsConcat | src/lib.rs:201-206 | Resolving a concatenation of ids resolves each part and concatenates the records |
| Query.Resolve | src/lib.rs:201-206 | The resolving loop computes the records of the ids, in order |
| Query.QualifiedStored | src/lib.rs:172-204 | In a consistent store any qualifying id has an `fn` entry |
| Query.RankedIdsStored | src/lib.rs:201-206 | Every returned id has an `fn` entry, so resolving cannot panic |
| Query.EarlierBandsKept | src/lib.rs:208-213 | Sorting one range leaves the already sorted earlier ranges as they are |
| Query.SortBandStep | src/lib.rs:208-213 | Sorting range `k` in place sorts it and keeps earlier ranges sorted and later ones untouched |
| Query.SortBands | src/lib.rs:208-213 | After the loop every range holds the stable sort of its old contents; nothing moves between ranges |
| Query.ResolvedBands | src/lib.rs:201-213 | Sorting the ranges of the resolved records sorts the records of each range of ids |
| Query.SortedRecords | src/lib.rs:201-213 | Resolving then sorting each range in place gives, range by range, the stable sort of the ids' records |
| Query.Search | src/lib.rs:120-216 | At most 500 records; none without a query, and none when some column has no candidates; the ids satisfy `Ranked` for the query's columns and all resolve; each range of the result is the stable sort of its ids' records |
| Query.SearchBandOrdered | src/lib.rs:208-213 | Each range of the result is sorted by `(krate, s)`, holds exactly its ids' records, and keeps equal keys in id order |

## Left out

- `analyze`, `analyze_function`, `analyze_adt`, `analyze_trait` and `discover_crate_import_name` are calls into rust-analyzer. The records they produce are inputs.
- The Meilisearch client in `search` and `load_text_search` (index creation, settings, batched uploads) are network I/O. The matcher's ranked hits are function parameters, and `tokenize_type` is the only part of `load_text_search` modelled.
- sled and bincode are not modelled: trees are maps, and stored values are sets and sequences.
- The transactions' all-or-nothing behaviour is not modelled. Each store method is one atomic step, and its panicking `assert!`s and `unwrap`s are preconditions.
- `debugdb`, logging and `StopWatch` are diagnostics only.
- `futures::executor::block_on` is left out because it only waits for network calls.
- Store.SignatureStore.AddCrate: ids and the counter are unbounded `nat`s. The 64-bit counter's overflow is not modelled.
- Store.SignatureStore.AddCrate: its contract states the new state only. Keeping `Valid` and `Consistent` is proved by `Consistency.AddedValid` and `Consistency.AddedConsistent`, and by `AnalyzeAndSave`, which calls it after a purge.
- Query.Search: the presence precondition (`Join.Present`) covers every candidate the depth loop could read up to its bound, including depths after the 500-id cap has stopped the loop. The source only reads the candidates of the depths it reaches.
- Join.Join: requires `Join.Present` for the same reason as `Query.Search`, so it also demands candidates of depths the 500-id cap keeps the loop from reading.
- Join.DepthLoop: requires `Join.Present` as `Join.Join` does, including depths past the 500-id cap.
- Join.Deepen: requires `Join.Present` for every depth, not only the candidates this one depth step reads.
- Query.Search: the two fuzzy-hit functions are total and fixed for the query. Changes to the search index during a query are not modelled.
- Ordering.SortRange: `sort_by` is a merge sort, and the model sorts by stable insertion instead. The result is the same: the insertion sort is sorted, a permutation and stable (`Ordering.StableSortCorrect`), and any sorted and stable rearrangement equals it (`Ordering.SortByUnique`). The library's merging steps themselves are not modelled.
