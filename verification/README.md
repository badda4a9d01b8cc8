# A model of the relay's core

This project models, in Dafny, the parts of the relay that decide what is stored, what is shown,
who owns a name and who has paid, and proves what those parts promise over whole runs.

| modules | what they model |
|---|---|
| `Wrappers`, `Hex`, `Text`, `Strings` | optional values, hex, string splitting, numbers in text, Rust's string order |
| `Events` | events, their classification, the tag index |
| `Store`, `StoreInvariants`, `Slots` | the `event` and `tag` tables, the write transaction and the expiry sweep; the tag mirror; slots |
| `Refinement`, `Convergence`, `StoreEdges` | the tables as one map from events to hidden flags, for events with at most one `d` tag: the outcome of every arrival sequence, and exactly when the order matters |
| `Occupancy`, `AnyWrite`, `AnySlots`, `AnyOrder`, `AnyOrderNeeds`, `AnyOrderEdges` | any submission, whatever `d` tags it carries and whatever its numbers: one row per slot, and exactly when the order matters |
| `ExpiryRules`, `KindRules`, `DeletionRules` | what the store keeps, removes and hides, by kind number, tag and time, without the relay's own classifications |
| `Admission`, `GiftWraps` | the admission pipeline, the read gate, the durability of gift wraps |
| `Filters`, `Query`, `QueryHoles`, `QueryMeaning` | the in-memory matcher, the query generator, its placeholders, the meaning of its clauses over the tables |
| `SqlText`, `SqlReading`, `QueryLexing`, `QueryReading`, `QueryResult` | SQL text from its characters: a scanner, a reader of statements, and what the generated text returns |
| `Names`, `ReservedNames`, `Claims`, `ClaimHistory`, `Releases`, `Limiter`, `OneTimeAuth`, `Nip98` | the name authority: name rules, claims and releases under interleaving, rate limits and cooldowns, HTTP authentication |
| `Ledger`, `Payments`, `PaymentCredits`, `PaymentRuns`, `PaymentRace`, `PaymentLoop`, `PaymentGate` | accounts and invoices, the payment loop and the payment gates as interleaved steps and as straight-line code |
| `Writer`, `WriterRules` | the event writer: refusal, write, broadcast, charge; the same turn in plain terms |
| `Delegation`, `Nip05` | two parsers with their printed forms |

The central result is `AnyOrderNeeds.AnyOrderIff`. The store is a small replicated data structure,
and the theorem says exactly when its contents depend only on the set of submitted events and not on
the order, repeats included. `AnyWrite.PersistMoves` shows what one SQL transaction on the two tables
does to the map from stored events to hidden flags. An event is unbeaten when nothing submitted can
turn it away or remove it. The order is immaterial if and only if every event that can stay is either
unbeaten or has unbeaten rivals that get it wherever it arrives, and every unbeaten event that a
deletion names by hash is also named by text. "Wherever it arrives" means one rival that both turns
it away and removes it, or two that do so between them; `AnyOrderEdges.ThreeInAnyOrder` needs the second.

For events with at most one `d` tag `Convergence` goes further: `Convergence.ShelveKept` and
`Convergence.ShelveStruck` say what any sequence of arrivals leaves, and the condition
(`Convergence.OrderIndependentIff`) comes down to no tie at the top of a slot, no event with an
implicit `d` that meets an explicit empty one at least as new, and no surviving event that a deletion
names in capitals alone. The code decides ties by arrival and not by id, does not write an implicit
`d` into the tag table, and compares a deletion's `e` value as bytes in one direction and as text in
the other; each of the three has a concrete pair of events in `StoreEdges`.

The second is `QueryResult.QueryReturnsMatches`, for every filter: given the generated SQL, as a string
of characters, and its parameters, the database returns the visible rows which the in-memory matcher accepts once prefixes
that are not whole keys and empty tag operands have been struck from the filter, the newest of them
up to the limit or all of them in ascending time. `QueryResult.ExactQueryReturns` is the case in which
nothing has to be struck, and `QueryMeaning.DelegationIsTheDifference` the whole of the difference
that delegation makes to it.

The third is `AnySlots.RunKeepsSlots`: in every run whatsoever no two rows hold one slot. Two events
may sit in one slot (`AnyOrderEdges.TwoInOneSlot`), but only one of them looks it up
(`AnySlots.OneOwner`).

Where code and documentation disagree the model follows the code:

* An account can be credited twice for one payment. The payment loop writes back the status it was
  told, also when a registration's payment gate has meanwhile marked the invoice paid.
  `PaymentCredits.CreditedOnceIff`: a second credit is open at some point of a run if and only if the
  loop has written "unpaid" over a credited invoice. `PaymentRace.DoubleCreditIsReached` is such a run
  from the start; `PaymentCredits.CreditedOnce` shows that the loop alone never does it.
* `unregister` looks up the owner and updates the row under two locks. `Releases.ReleaseEndsAnothersIff`:
  the update ends another key's claim if and only if the name went to that key after the look-up and
  is active ever since. `Releases.LateReleaseIsReached` is such a run from the empty table.
* An authorisation event can be accepted a second time. `OneTimeAuth.UsedUpIff`: after an acceptance
  that ends any run, if and only if it was post-dated by exactly five seconds.
* A clean-up started by one bucket drops entries by that bucket's own window, so it can end another
  bucket's cooldown early; `Limiter.CleanupForgets` says exactly when, and `Limiter.CooldownIsLost` is a run
  from the empty map.
* A parameterized event that states its `d` value twice deletes itself on arrival and is reported as
  stored (`StoreEdges.WrittenIsLive`, and `StoreEdges.RepeatExample` at the empty store).

Conventions of the model:

* Numbers are natural; a value of 2^63 or more cannot be bound to a statement and the write fails.
* A new row id is one more than the largest in use, so ids may be used again after a deletion. Rows
  of equal time are ordered by row id.
* The stored JSON of an event is the event itself. Ids are injective: equal ids mean equal events,
  where a lemma says so. Signatures are an input.
* Every transaction is atomic. The wall clock, the monotonic clock and the payment processor's
  answers are inputs of each step.
* The query generator writes tokens, which `Query.Render` turns into the SQL text. The meaning of a
  query is given to the text: `SqlText.Lex` splits it into words, numbers and signs, `SqlReading`
  reads these as an index, clauses and an order, and `QueryResult` evaluates the clauses on the rows
  that are not hidden, with SQL's three-valued logic, and lists the rows that pass. A statement that is
  not of this form, or that names an index the event table does not have, returns nothing at all.
* The two clocks of `OneTimeAuth` differ by a fixed offset and are read at one instant; calls of
  `Limiter` are ordered by the time they read.
* In `Nip05`, which characters are alphanumeric is a parameter; `@` is not one of them.

## Model

| member | source | states |
|---|---|---|
| `Hex.DecodeEqual` | src/utils.rs:16-19 | two hex spellings decode to the same bytes exactly when they agree after lower-casing |
| `Hex.DecodeInjective` | src/utils.rs:32-37 | decoding is one to one on lower-case spellings |
| `Hex.DecodeEncode` | src/repo/sqlite.rs:996-1004 | bytes come back from the two digits each is written with |
| `Hex.DigitsExactly` | src/utils.rs:15-19 | the hex digits are the sixteen of the table and the six capitals |
| `Events.BuildIndex` | src/event.rs:273-297 | the loop builds the index of the tags, and leaves an event without tags unindexed |
| `Events.IndexOfMeaning` | src/event.rs:273-297 | the index holds a value under a character exactly when some tag has that name and value, and no character without values |
| `Events.TagValuesByNameMember` | src/event.rs:311-318 | a value is listed exactly when some tag has the name and that value |
| `Events.FirstValueUnique` | src/event.rs:190-209 | with at most one such tag, the value found is the value that stands in the tag |
| `Store.Newest` | src/repo/sqlite.rs:171-200 | the row `ORDER BY created_at DESC LIMIT 1` keeps: none is newer, and among equals it has the least id |
| `Store.NextRowId` | src/repo/sqlite.rs:150-151 | a new row id is unused and above all ids in use |
| `Store.SqliteRepo.PersistEvent` | src/repo/sqlite.rs:106-255 | the statements of the transaction, in their order, leave the tables and report the count that the specification `Persist` gives for every event: shadowed, duplicate, undecodable, out of range, replaced, deleted before or after |
| `Store.SqliteRepo.DeleteEvents` | src/repo/sqlite_migration.rs:72-81 | a deletion removes the rows and, by cascade, exactly their tag rows |
| `Store.SqliteRepo.DeleteExpired` | src/repo/sqlite.rs:1289-1297 | exactly the rows whose expiry time is not after the clock go, with their tags, and their number is returned |
| `StoreInvariants.InsertTagsCounts` | src/repo/sqlite.rs:153-167 | the tag loop writes as many rows for a one-character name and value as the event has such tags |
| `StoreInvariants.DeleteMirror` | src/repo/sqlite_migration.rs:72-81 | cascading deletes keep the tag mirror |
| `StoreInvariants.PersistMirror` | src/repo/sqlite.rs:106-255 | a write keeps the tag mirror, also when a row id is used again |
| `StoreInvariants.RunMirror` | src/repo/sqlite.rs:153-167 | in every run of writes and expiries, rows repeat their events, no hash occurs twice, every tag row belongs to a stored event and copies its kind and time, and each tag has as many rows as the event states it |
| `StoreInvariants.TagRowsMatchIndex` | src/event.rs:273-297 | in every reachable store a tag row for a name and value exists exactly when `build_index` files that value under that character |
| `Slots.TidyDTag` | src/event.rs:190-209 | an event with at most one `d` tag has the tag (d, v) exactly when v is its distinct parameter and stands in a tag |
| `Refinement.ViewDeleted` | src/repo/sqlite.rs:228-252 | the query for an earlier deletion succeeds exactly when a stored deletion of the same author names the id character for character |
| `Refinement.PersistRefines` | src/repo/sqlite.rs:106-255 | seen as a map from events to hidden flags, the two-table transaction is one abstract step, and keeps the invariants |
| `Convergence.StoreRefines` | src/repo/sqlite.rs:106-255 | for every sequence of submissions the tables show what the abstract steps compute |
| `Convergence.ShelveCovers` | src/repo/sqlite.rs:119-138 | every event ever submitted to a slot has a stored event of that slot at least as new |
| `Convergence.ShelveKept` | src/repo/sqlite.rs:106-255 | an event is stored after any sequence of arrivals exactly when nothing before its first arrival turned it away and nothing after it outdates it |
| `Convergence.ShelveStruck` | src/repo/sqlite.rs:201-252 | a stored event is hidden exactly when a deletion that arrived before names its text, or one that first arrived after it names its hash |
| `Convergence.ClosedForm` | src/repo/sqlite.rs:106-255 | for an order-free set of events the store is a function of the set: all events without a slot and the newest of each slot, hidden exactly when a deletion by the author names them |
| `Convergence.OrderIndependentIff` | src/repo/sqlite.rs:106-255 | all arrival orders, repeats included, leave the same store if and only if the set is order-free |
| `Occupancy.ShadowedIsBarred` | src/repo/sqlite.rs:118-138 | in any mirrored store the shadow queries succeed exactly when a stored event at least as new sits in the slot looked up, under whichever of its `d` tags |
| `Occupancy.RemovedIsOusted` | src/repo/sqlite.rs:187-200 | the sweep removes another event only if the newcomer holds the slot, the event sits there twice, or another event there is at least as new |
| `Occupancy.SqueezedIsRemoved` | src/repo/sqlite.rs:187-200 | a newcomer with an implicit `d` spares only the newest row of the slot, equal times in row order |
| `AnyWrite.PersistMoves` | src/repo/sqlite.rs:106-255 | for any checked submission the transaction turns it away, or stores it (unless it repeats its `d` value), removes exactly the events it ousts and those squeezed out, and sets exactly the hidden flags |
| `AnyWrite.LaterGoesOut` | src/repo/sqlite.rs:187-200 | of two events of equal time that a newcomer squeezes, the one that came later goes |
| `AnySlots.PersistKeepsSlots` | src/repo/sqlite.rs:119-138 | a write keeps at most one row per slot, whatever `d` tags the events carry |
| `AnySlots.RunKeepsSlots` | src/repo/sqlite.rs:119-200 | in every run of writes and expiries, with no premise on the events, no two rows hold one slot: one (author, kind) for replaceable kinds, one (author, kind, d) for parameterized ones |
| `AnySlots.OneReplaceableRow` | src/repo/sqlite.rs:171-186 | in every run there is at most one row per author and replaceable kind |
| `AnySlots.OneOwner` | src/repo/sqlite.rs:187-200 | of two stored events that sit in one slot, at most one looks that slot up |
| `AnySlots.OneTidyRow` | src/repo/sqlite.rs:128-138 | of the rows with one `d` tag, at most one sits in a slot, whatever other rows there are |
| `AnySlots.NewestIsHeld` | src/repo/sqlite.rs:171-200 | without expiry, a slot to which only events with one `d` tag were submitted holds exactly one event, as new as any submitted to it, whatever else the run brought |
| `AnyOrder.UnbeatenIsStored` | src/repo/sqlite.rs:106-255 | an unbeaten event, once submitted, is stored after any run of the set |
| `AnyOrder.StoredIsUnbeaten` | src/repo/sqlite.rs:106-255 | in a settled set exactly the unbeaten events are stored, in every order |
| `AnyOrder.AnyClosedForm` | src/repo/sqlite.rs:106-255 | under the condition the store is a function of the set: the unbeaten events, hidden exactly when a deletion by the author names them |
| `AnyOrderNeeds.StoredMustBeUnbeaten` | src/repo/sqlite.rs:118-200 | if the order is immaterial, every order stores exactly the unbeaten events |
| `AnyOrderNeeds.NoneIsLoose` | src/repo/sqlite.rs:118-200 | if the order is immaterial, every event that can stay is unbeaten or beaten, by an order built for the purpose |
| `AnyOrderNeeds.AlikeIsNeeded` | src/repo/sqlite.rs:201-252 | if the order is immaterial, every unbeaten event that a deletion names by hash is named by text |
| `AnyOrderNeeds.AnyOrderIff` | src/repo/sqlite.rs:106-255 | for any submissions that passed the relay's checks: all arrival orders, repeats included, leave the same store if and only if the set meets the condition |
| `AnyOrderNeeds.SameAsOrderFree` | src/repo/sqlite.rs:106-255 | with at most one `d` tag each, the condition says no ties, no implicit shadow, named in lower case |
| `AnyOrderEdges.RepeatMatters` | src/repo/sqlite.rs:187-200 | any event that repeats its `d` value, with any older event of its slot: the order matters |
| `AnyOrderEdges.SecondTagMatters` | src/repo/sqlite.rs:187-200 | any event removed by a newer one that would not turn it away: the order matters |
| `AnyOrderEdges.TwoInOneSlot` | src/repo/sqlite.rs:128-138 | two stored events that sit in one slot, the second by its second `d` tag |
| `AnyOrderEdges.ThreeInAnyOrder` | src/repo/sqlite.rs:128-200 | three events of which one is beaten by the others together and by neither alone; the order does not matter |
| `StoreEdges.NewcomerSurvives` | src/repo/sqlite.rs:187-200 | the newcomer survives its own sweep exactly when it does not repeat its `d` value |
| `StoreEdges.WrittenIsLive` | src/repo/sqlite.rs:253-254 | a report of one row means the event is stored and visible, unless it repeats its `d` value, and then it is not |
| `StoreEdges.UnwrittenIsNotNews` | src/repo/sqlite.rs:247-254 | any other report means the write did not make the event visible |
| `StoreEdges.PairBlocks` | src/repo/sqlite.rs:119-138 | any two events of which one turns the other away without outdating it give a store that depends on their order |
| `StoreEdges.PairCase` | src/repo/sqlite.rs:202-252 | any event and any deletion that names its hash but not its text give a store that depends on their order |
| `StoreEdges.TieExample` | src/repo/sqlite.rs:119-126 | two profiles of equal time: the order matters |
| `StoreEdges.ImplicitExample` | src/repo/sqlite.rs:128-138 | an absent `d` and a newer explicit empty one: the order matters |
| `StoreEdges.CapitalsExample` | src/repo/sqlite.rs:206-235 | a deletion that names a note in capitals: the order matters |
| `StoreEdges.RepeatExample` | src/repo/sqlite.rs:187-200 | an event of kind 30000 that states ["d","x"] twice, at an empty store: reported as stored, and not there |
| `KindRules.OneRowPerAuthor` | src/event.rs:173-180 | in every run, two rows of one author and one kind are one row, for kinds 0, 3, 41 and 10000 to 19999 |
| `KindRules.NewestPerAuthor` | src/repo/sqlite.rs:119-186 | without expiry, for these kinds, every storable submission leaves a stored event of its author and kind, and whatever is stored there is at least as new |
| `KindRules.OneRowPerValue` | src/event.rs:182-209 | in every run, for kinds 30000 to 39999, two rows of one author and kind with the same single `d` value are one row |
| `KindRules.NewestPerValue` | src/repo/sqlite.rs:128-200 | the same as `NewestPerAuthor` for each value of the single `d` tag |
| `KindRules.AllElseStays` | src/repo/sqlite.rs:106-255 | an event of any other kind, once submitted, is stored after every later run, until it expires |
| `KindRules.UnfitIsRefused` | src/repo/sqlite.rs:106-151 | an event with a kind, creation time or expiry of 2^63 or more changes nothing and is not reported as stored |
| `KindRules.FailsExactly` | src/repo/sqlite.rs:106-151 | the write fails exactly for such a number; for the expiry alone, only when no newer rival turned the event away first |
| `DeletionRules.RunKeepsSpecial` | src/repo/sqlite.rs:201-252 | in every run no event of kind 5 or 1059 is hidden |
| `DeletionRules.HiddenIsNamed` | src/repo/sqlite.rs:201-252 | whatever is hidden is of another kind, and a submitted event of kind 5 by its author names its hash in 64 hex digits |
| `DeletionRules.NamedIsHidden` | src/repo/sqlite.rs:201-252 | an event that no slot competes for, and that a deletion by its author names in so many characters, ends up hidden whichever came first |
| `DeletionRules.NamedLaterIsHidden` | src/repo/sqlite.rs:202-226 | in whatever letter case the deletion spells the id, when it comes after the event |
| `ExpiryRules.ExpirationMeans` | src/event.rs:158-171 | an event expires at the number in its first `expiration` tag, if there is one and it reads as a number |
| `ExpiryRules.SweepExactly` | src/repo/sqlite.rs:1289-1297 | after any run and a sweep at `now`, exactly the rows are stored that were before and whose events do not expire, or expire after `now`, and they are unchanged |
| `ExpiryRules.SweepCounts` | src/repo/sqlite.rs:1289-1297 | the count is the number of rows that went |
| `ExpiryRules.SweptIsVisible` | src/repo/sqlite.rs:1147-1151 | right after a sweep every stored event is unexpired, and every unhidden one meets the query's expiry test |
| `Text.ParsesExactly` | src/event.rs:158-171 | a text reads as n exactly when it is n in decimal, below 2^64, after any zeros, after at most one plus sign |
| `Admission.Check` | src/admission.rs:291-299 | the loop returns the verdict of the first policy that denies, else allows |
| `Admission.FromSettings` | src/admission.rs:248-288 | the pipeline holds the configured policies in their order |
| `Admission.GiftWrapShape` | src/admission.rs:200-237 | a gift wrap passes exactly when its one tag is `p` with a lower-case key |
| `Admission.AdmissionExact` | src/admission.rs:248-299 | an event is admitted exactly when it meets the conditions the settings ask for, whatever the order of the policies |
| `Admission.GiftWrapReaders` | src/server.rs:1157-1178 | with the gate on, an admitted gift wrap is sent to a connection exactly when that is authenticated as its one recipient or its author |
| `Admission.DeniedExactly` | src/admission.rs:248-299 | which denial an event gets: that of the first condition it fails, in the order kind, gift wrap, locked kind, authentication, whitelist |
| `Admission.WrapDenials` | src/admission.rs:200-237 | why a gift wrap is turned away: an `expiration` tag, else other tags beside its one recipient, else no such recipient |
| `Admission.AuthIsAskedFor` | src/admission.rs:248-299 | a denial asks for authentication exactly when it is required and missing, and kind, shape and author are in order |
| `Admission.SentExactly` | src/server.rs:1157-1178 | for every stored text: all is sent without the gate; with it nothing that does not parse, and kinds 4, 44 and 1059 only to the key in the first `p` tag or, if there is one, to the author |
| `GiftWraps.RunSparesWraps` | src/repo/sqlite.rs:202-252 | no run of writes and expiries removes or changes the row of a gift wrap without expiry |
| `GiftWraps.RunWrapsVisible` | src/repo/sqlite.rs:211-252 | in every run no gift wrap is hidden, whether deletions come before or after it |
| `GiftWraps.GiftWrapDurable` | src/admission.rs:200-237 | an admitted gift wrap, once submitted, is stored and visible after every later run, whatever came before |
| `Filters.IntersectCount` | src/event.rs:414-428 | counting common values tests inclusion for And and overlap for Or |
| `Filters.IntersectMeaning` | src/event.rs:414-428 | on an indexed event a non-empty operand asks for all, or for some, of its values among the tags of that name |
| `Query.SearchTerms` | src/repo/sqlite.rs:996-1036 | one equality per term, with the decoded term as its parameter |
| `Strings.SortedInOrder` | src/repo/sqlite.rs:1068-1070 | tag values are searched in string order, each once |
| `Strings.BeforeMeans` | src/repo/sqlite.rs:1068-1070 | one string comes before another exactly when it starts it or has the lesser character where they first differ |
| `Query.EachValueClauses` | src/repo/sqlite.rs:1103-1133 | an And operand gives one subquery per value |
| `Query.TagClauses` | src/repo/sqlite.rs:1066-1134 | text and parameters of one tag operand are those of its clauses |
| `Query.NamedClauses` | src/repo/sqlite.rs:1037-1136 | text and parameters over all tag names stay in step |
| `Query.FilterComponents` | src/repo/sqlite.rs:992-1151 | the conditions and the flat parameter list are those of the bound clauses, in generation order |
| `Query.QueryFromFilter` | src/repo/sqlite.rs:971-1165 | the whole query, with its index hint and ordering, and its parameters, for every filter |
| `QueryHoles.RepeatVarsHoles` | src/repo/sqlite.rs:1383-1392 | `repeat_vars` makes as many placeholders as asked |
| `QueryHoles.ClauseHoles` | src/repo/sqlite.rs:996-1151 | every clause has as many placeholders as it takes parameters |
| `QueryHoles.PlaceholdersMatch` | src/repo/sqlite.rs:971-1165 | for every filter the SQL text has as many `?` characters as there are parameters |
| `QueryMeaning.BindsLeftToRight` | src/repo/sqlite.rs:992-1165 | binding the flat parameter list from left to right gives each clause its own parameters |
| `QueryMeaning.CanonicalMatch` | src/subscription.rs:291-299 | an equality search on decoded terms is a prefix match on the full-length lower-cased ones |
| `QueryMeaning.TagFoundMeaning` | src/repo/sqlite.rs:1044-1125 | a tag subquery asks whether the event has the tag, within the kinds and times repeated inside it |
| `QueryMeaning.OperandMeaning` | src/repo/sqlite.rs:1040-1134 | a compiled operand is satisfied when empty, otherwise as the matcher reads it |
| `QueryMeaning.QueryMeansCanonical` | src/repo/sqlite.rs:992-1156 | for every filter, with any mix of fields, the query selects exactly the unhidden, unexpired rows which the matcher accepts for the canonical filter |
| `QueryMeaning.ExactTermIff` | src/subscription.rs:291-299 | prefix search and equality search agree on a term for every key exactly if the term is neither a proper prefix of a key nor a key in capitals |
| `QueryMeaning.QueryAgreesWithMatcher` | src/subscription.rs:301-357 | in every reachable store query and matcher agree on every visible row, for exact filters and no delegation (or no authors asked for) |
| `QueryMeaning.DelegatedIsMissed` | src/repo/sqlite.rs:996-1011 | a row whose own author is not asked for is never selected |
| `QueryMeaning.DelegatedIsMatched` | src/subscription.rs:314-322 | in memory, a match through the delegator is enough |
| `QueryMeaning.DelegationIsTheDifference` | src/subscription.rs:301-357 | for exact filters query and matcher disagree about a visible row if and only if its delegator is asked for, its author is not, and it meets the rest of the filter |
| `SqlText.LexSpelled` | src/repo/sqlite.rs:971-1165 | units written out with spaces where two words would run together are what the scanner finds again in the characters |
| `QueryLexing.TokenSpelled` | src/repo/sqlite.rs:971-1165 | every piece of SQL the generator writes is, character by character, the text of its words and signs |
| `QueryLexing.LexTokens` | src/repo/sqlite.rs:971-1165 | no token runs into the next: the scanner finds their units one token after the other |
| `QueryReading.ReadsClause` | src/repo/sqlite.rs:996-1151 | the text of a clause reads back as that clause: `>=` on `created_at` as not before, `<=` as not after, `author` and `event_hash` as those columns |
| `QueryReading.ReadsQuery` | src/repo/sqlite.rs:971-1165 | the text of every generated query reads back as a selection of rows that are not hidden, with the clauses, the order and the index it was written from |
| `QueryResult.GeneratedReads` | src/repo/sqlite.rs:971-1165 | for every filter the text reads as the clauses compiled from the filter, newest first up to its limit or oldest first |
| `QueryResult.IndexExactly` | src/repo/sqlite.rs:937-968 | which index the text names, for every filter |
| `QueryResult.GeneratedReturns` | src/repo/sqlite.rs:971-1165 | given the meaning of the text, text and parameters of every filter return exactly the listings of its selection |
| `QueryResult.QueryReturnsMatches` | src/repo/sqlite.rs:971-1165 | end to end, from the characters of the text, for every filter: with a limit the newest matching rows, newest first, without one all of them, oldest first |
| `QueryResult.ExactQueryReturns` | src/subscription.rs:301-357 | in every reachable store, for exact filters, those rows are the ones the in-memory matcher accepts |
| `QueryResult.QueryReturnsSomething` | src/repo/sqlite.rs:1157-1164 | every generated query has an answer |
| `Names.FoldIdempotent` | src/name_authority/names.rs:107-122 | folding twice is folding once |
| `Names.ReservedByFold` | src/name_authority/names.rs:128-135 | a name is reserved exactly when its fold is the fold of a reserved name |
| `Names.DisguiseFolds` | src/name_authority/names.rs:107-122 | a separator put in anywhere, or a letter written as its digit, leaves the fold as it was |
| `Names.DisguiseIsUseless` | src/name_authority/names.rs:128-135 | no number of disguises changes whether a name is reserved |
| `Names.SameFoldIff` | src/name_authority/names.rs:107-122 | two names fold alike exactly when one plain text can be disguised as either, by separators and the eight digits that pass for letters |
| `Names.ReservedExactly` | src/name_authority/names.rs:128-135 | a name is reserved exactly when it and some listed name are disguises of one plain text |
| `Claims.ClaimStore.Insert` | src/name_authority/mod.rs:520-550 | the guarded upsert and its report; a refused insert changes nothing, and owners stay unique |
| `Claims.ClaimStore.Owner` | src/name_authority/mod.rs:168-178 | the key that holds the name, if it is active |
| `Claims.ClaimStore.Release` | src/name_authority/mod.rs:697-701 | the update ends whatever active claim there is on the name, and nothing else |
| `Claims.ClaimStore.Unregister` | src/name_authority/mod.rs:694-717 | with nothing between look-up and update, release succeeds exactly for the owner, and then the name resolves to nobody |
| `Claims.InsertKeepsUnique` | src/repo/sqlite_migration.rs:130-138 | the upsert keeps at most one active name per key |
| `Claims.InsertDecides` | src/name_authority/mod.rs:520-550 | the insert goes through exactly when both earlier checks would pass again |
| `Claims.LookupNameOfInverse` | src/name_authority/mod.rs:168-195 | `lookup` and `name_of` are inverse to each other on active claims |
| `Claims.RunIsSafe` | src/name_authority/mod.rs:488-558 | with any number of requests in flight, owners are unique and every claimed name is valid and not reserved |
| `Claims.ActiveNamesLook` | src/name_authority/names.rs:85-105 | in every run an active name keeps the length bounds, has only lower-case letters, digits and, inside, `.`, `_` and `-`, is on no reserved list, and belongs to a key of 64 lower-case hex digits |
| `Claims.RunResolves` | src/name_authority/mod.rs:168-195 | in every reachable table the two directions of resolution agree and active names are acceptable |
| `Claims.OwnerIsStable` | src/name_authority/mod.rs:524-530 | a name that stays active through a stretch of a run keeps its owner |
| `Claims.RefusedInsert` | src/name_authority/mod.rs:531-550 | a refused insert leaves the table as it was |
| `ClaimHistory.ClaimWasEarned` | src/name_authority/mod.rs:488-558 | behind every claim stands one request, authenticated by the key it names, that found the name free, then the key without a name, passed the payment gate and was inserted at the claim's time |
| `ClaimHistory.ReleaseWasAsked` | src/name_authority/mod.rs:694-701 | a released row was released at the time it states, by a request that had looked the name up as its own |
| `Releases.RegistrationSucceeds` | src/name_authority/mod.rs:488-542 | an undisturbed registration of a free name by a free key adds exactly that claim |
| `Releases.OnlyReleaseDeactivates` | src/name_authority/mod.rs:694-701 | only a release that looked the name up as its own ends a claim |
| `Releases.ReleaseInOnePiece` | src/name_authority/mod.rs:694-717 | back to back, the two halves of a release act exactly for the owner |
| `Releases.NothingHalfDone` | src/name_authority/mod.rs:694-701 | in runs that keep the halves of each release together, none is pending between requests |
| `Releases.OwnerReleases` | src/name_authority/mod.rs:694-717 | in runs that keep the halves together, a claim ends only at the request of the key that holds it at that moment |
| `Releases.ReleaseInTwoPieces` | src/name_authority/mod.rs:694-701 | from such a state a late release ends a claim that went to someone else |
| `Releases.PendingWasAsked` | src/name_authority/mod.rs:694-697 | every pending release comes from a look-up that found its requester to be the owner |
| `Releases.ReleaseEndsAnothersIff` | src/name_authority/mod.rs:694-701 | in any interleaved run, the update ends another key's claim if and only if the name went to another key after the look-up and is active ever since |
| `Releases.ReleaseIsOwnIff` | src/name_authority/mod.rs:694-701 | the update is harmless at every point since the look-up if and only if no insert gave the name to another key |
| `Releases.ClaimEnds` | src/name_authority/mod.rs:694-717 | every claim that ends in any run is ended by a pending release, and it is the requester's own unless the name was passed on since the look-up |
| `Releases.LateReleaseIsReached` | src/name_authority/mod.rs:488-530 | for any two keys and any name both may claim, a run from the empty table in which a release by the first ends the claim of the second |
| `ReservedNames.DisguisesAreRefused` | src/name_authority/mod.rs:488-493 | in every run, no disguise of a built-in or configured reserved name is ever claimed |
| `Limiter.KeyInjective` | src/name_authority/mod.rs:213-251 | keys of different buckets or clients never meet |
| `Limiter.RateMap.Prune` | src/name_authority/mod.rs:240-241 | the loop keeps the hits younger than the window |
| `Limiter.RateMap.Allow` | src/name_authority/mod.rs:236-251 | a call is granted exactly below the limit; the map after it, clean-up included |
| `Limiter.RateMap.CooldownActive` | src/name_authority/mod.rs:213-223 | the answer and the map after the check |
| `Limiter.RateMap.RecordOp` | src/name_authority/mod.rs:225-233 | the map after a recorded operation |
| `Limiter.RunRemembers` | src/name_authority/mod.rs:213-251 | in every protected run the map holds every charge still inside the window |
| `Limiter.SlidingWindow` | src/name_authority/mod.rs:236-251 | in every such run any interval of the window's length holds at most `max` granted calls |
| `Limiter.GrantedExactly` | src/name_authority/mod.rs:236-251 | in every such run a call is granted exactly when fewer than `max` charges are less than a window old |
| `Limiter.ReleaseBlocks` | src/name_authority/mod.rs:213-233 | a recorded release keeps the cooldown active for the whole window |
| `Limiter.QuietIsFree` | src/name_authority/mod.rs:213-223 | with nothing recorded inside the window the cooldown is over |
| `Limiter.CleanupForgets` | src/name_authority/mod.rs:246-249 | a granted call of another key leaves a running cooldown running exactly when the map is small enough or an entry is inside the caller's own window |
| `Limiter.CooldownIsLost` | src/name_authority/mod.rs:246-249 | a run from the empty map in which a cooldown of ten units is gone after five |
| `OneTimeAuth.WholeSeconds` | src/utils.rs:8-13 | the clock is read in whole seconds of a thousand million nanoseconds |
| `OneTimeAuth.SeenSet.AuthEventFresh` | src/name_authority/mod.rs:198-210 | an id is fresh exactly when no entry inside the window holds it; the set after the check |
| `OneTimeAuth.Remembered` | src/name_authority/mod.rs:198-210 | an accepted id is in the set until the window has passed |
| `OneTimeAuth.AcceptedTwice` | src/name_authority/nip98.rs:42-48 | an id is accepted twice only if first used exactly five seconds before its time and then again at exactly the maximum age |
| `OneTimeAuth.NeverAgain` | src/name_authority/nip98.rs:42-48 | a first use at age -4 or more is the only one |
| `OneTimeAuth.GapExists` | src/name_authority/mod.rs:198-210 | for every non-negative maximum age and every instant, a run from the empty seen-set in which an id is accepted twice |
| `OneTimeAuth.UsedUpIff` | src/name_authority/mod.rs:198-210 | after any run that ends in an acceptance, a later attempt with that id can be accepted if and only if this one was post-dated by exactly five seconds and ages may be zero |
| `Nip98.VerifyNip98` | src/name_authority/nip98.rs:20-91 | the checks and the tag loop give the verdict of the specification, reason included |
| `Nip98.ScanMeaning` | src/name_authority/nip98.rs:50-72 | of the tags of one name, the last that says something decides |
| `Nip98.SameIsEqualLower` | src/name_authority/nip98.rs:62-82 | the comparison that ignores case is equality of the lower-case texts |
| `Text.LowerMeans` | src/name_authority/nip98.rs:62-82 | lower case moves the 26 capitals by 32 and leaves everything else |
| `Nip98.TrimmedAlikeIff` | src/name_authority/nip98.rs:55-60 | two URLs count as one exactly when they differ in nothing but slashes at the end |
| `Nip98.VerifiedExactly` | src/name_authority/nip98.rs:20-91 | a request is authenticated exactly by a signed, timely event of kind 27235 that names its URL up to final slashes, its method and the digest of its body up to case, and then as that event's key and id |
| `Nip98.RefusedExactly` | src/name_authority/nip98.rs:34-91 | the reason given is the first of these tests that fails |
| `Ledger.AccountRepo.Create` | src/repo/sqlite.rs:733-757 | an account is created once; an existing one stays as it is |
| `Ledger.AccountRepo.Admit` | src/repo/sqlite.rs:759-776 | the account is admitted and pays the cost |
| `Ledger.AccountRepo.UpdateBalance` | src/repo/sqlite.rs:798-824 | the balance of one account changes by the amount, either way |
| `Ledger.AccountRepo.RecordInvoice` | src/repo/sqlite.rs:826-844 | an invoice is recorded unless its hash is on file or the account is missing |
| `Ledger.AccountRepo.Update` | src/repo/sqlite.rs:846-893 | the status is set, the owner returned, and the account credited exactly on the change from unpaid to paid |
| `Ledger.GetUnpaidInvoice` | src/repo/sqlite.rs:897-933 | what is found is an unpaid invoice of that account |
| `Ledger.UnpaidInvoiceFound` | src/repo/sqlite.rs:897-933 | an invoice is found exactly when the account has an unpaid one, and then a newest |
| `Payments.RunBalanced` | src/repo/sqlite.rs:759-893 | in every interleaving each balance is the credits minus the admission fees minus the charges |
| `Payments.CreditsAreTransitions` | src/repo/sqlite.rs:846-893 | a credit is entered exactly when an invoice goes from unpaid to paid, with its owner and amount |
| `Payments.RunSound` | src/name_authority/mod.rs:567-632 | in every reachable state, whatever webhook messages arrive, an admitted account has an invoice of its own that the processor reported paid, and every claim an admitted owner |
| `Payments.AdmissionWasPaid` | src/name_authority/mod.rs:586-609 | in every run an admitted account has an invoice made out to it that the processor was told is paid |
| `Payments.ClaimWasPaid` | src/name_authority/mod.rs:567-576 | in every run the owner of a claim has an admitted account |
| `PaymentCredits.SingleUnlessUndone` | src/repo/sqlite.rs:846-893 | in any run, gates included and whatever the processor says, an invoice whose credit no step undoes is credited once at most |
| `PaymentCredits.UnpaidIsCredited` | src/payment/mod.rs:149-202 | from any point at rest with an unpaid invoice, four steps credit it once more |
| `PaymentCredits.CreditedOnceIff` | src/payment/mod.rs:149-202 | an invoice is credited once at most, however a run goes on from any of its points, if and only if the loop never writes "unpaid" over it once it is credited |
| `PaymentCredits.CreditedOnce` | src/payment/mod.rs:149-202 | the loop without gates never does, with a processor that never leaves paid, so no invoice is credited twice |
| `PaymentRuns.RunSolvent` | src/db.rs:203-282 | when only the writer debits, no balance goes below zero, and an event let through can be paid for |
| `PaymentRace.CreditedTwice` | src/name_authority/mod.rs:567-632 | from a gate and a loop that both hold an answer about one invoice, five steps credit it twice |
| `PaymentRace.DoubleCreditIsReached` | src/payment/mod.rs:149-202 | such a state is reached from the start, and the double credit with it, though no payment is taken back |
| `PaymentLoop.HandleInvoiceInfo` | src/payment/mod.rs:245-276 | an account row, and a new invoice unless one is outstanding |
| `PaymentLoop.Handle` | src/payment/mod.rs:149-202 | one turn of the loop leaves the books the specification gives |
| `PaymentLoop.FinishDoes` | src/payment/mod.rs:149-202 | from every point the handling of a message comes to an end with the books that were due |
| `PaymentLoop.HandledInOnePiece` | src/payment/mod.rs:149-202 | a message handled step by step without interruption does what the straight-line code does |
| `PaymentGate.PaidGate` | src/name_authority/mod.rs:567-666 | the gate as straight-line code leaves the books and the verdict the specification gives |
| `PaymentGate.GateInOnePiece` | src/name_authority/mod.rs:567-666 | a request that goes through the gate step by step without interruption gets the books and the verdict of the straight-line code |
| `PaymentGate.AdmittedPasses` | src/name_authority/mod.rs:586-591 | an admitted account that is not in debt passes whatever the processor says, and nothing changes |
| `PaymentGate.AdmittedGoesThrough` | src/name_authority/mod.rs:586-591 | the same through the interleaved steps: let through, and the books stay as they are |
| `PaymentGate.PaidPasses` | src/name_authority/mod.rs:593-609 | an unpaid invoice reported paid lets its key through: the account is admitted, credited the amount and charged the price of a name |
| `PaymentGate.UnpaidWaits` | src/name_authority/mod.rs:593-627 | an invoice reported unpaid, or not reported, does not, and nothing changes |
| `PaymentGate.PassesExactly` | src/name_authority/mod.rs:567-632 | nobody else passes |
| `PaymentGate.FirstContact` | src/name_authority/mod.rs:629-666 | a key without an invoice gets an account and the processor's invoice, and is asked to pay |
| `PaymentGate.MayWriteExactly` | src/db.rs:223-282 | in the payment machine an author may write exactly when admitted, not in debt and able to pay for the event |
| `PaymentGate.WriterPaysExactly` | src/db.rs:436-448 | in the payment machine the author pays the cost exactly for an event that was let through and written |
| `PaymentGate.ClaimTakesPass` | src/name_authority/mod.rs:507-558 | a claim is inserted exactly for a request that passed the gate, and uses its pass up |
| `Writer.EventWriter.Process` | src/db.rs:149-469 | one turn of the loop: refusal, write, broadcast, charge, notice |
| `Writer.RunMirrors` | src/db.rs:149-469 | runs of the writer keep the tag mirror |
| `Writer.BroadcastIsLive` | src/db.rs:395-434 | in every run a broadcast event that is not ephemeral is at that moment stored and visible, unless it repeats its `d` value, and then it is not |
| `Writer.SilentOtherwise` | src/db.rs:408-448 | an event refused, duplicate, superseded, deleted or failed is not sent, not charged and not made visible |
| `Writer.ChargedExactly` | src/db.rs:436-448 | a charge falls exactly on the broadcast events of authors who pay, and nothing else in the books changes |
| `Writer.RunNoDebts` | src/db.rs:223-282 | with the writer as the only debtor its charges never take a balance below zero |
| `WriterRules.SentExactly` | src/db.rs:167-448 | an event goes out exactly when its kind is open, its author listed, free to write, or admitted with enough in the account, admission permits it, and it is ephemeral (kinds 20000 to 29999) or was written as one row |
| `WriterRules.ToldExactly` | src/db.rs:167-448 | the notice in every case: blocked, error, saved or duplicate |
| `WriterRules.WrittenExactly` | src/db.rs:395-434 | the tables change only by the write of an event that is let through and is not ephemeral |
| `WriterRules.PaidExactly` | src/db.rs:436-448 | the account pays the cost exactly for an event that goes out and whose author is not listed, and nothing else in the books changes |
| `Delegation.AppendNarrows` | src/delegation.rs:85-101 | a longer query allows exactly the events both parts allow |
| `Delegation.FindIsLeftmost` | src/delegation.rs:187-193 | the search finds a match whenever there is one, the leftmost, greedy in every group |
| `Delegation.FromStr` | src/delegation.rs:211-223 | the loop returns all conditions, or an error if any does not parse |
| `Delegation.ConditionRoundTrip` | src/delegation.rs:187-209 | the canonical text of a condition with u64 values parses to that condition |
| `Delegation.QueryRoundTrip` | src/delegation.rs:211-223 | the canonical text of every list of conditions, the empty one included, parses to that list |
| `Delegation.WindowExactly` | src/delegation.rs:88-185 | the text `created_at>a&created_at<b` allows exactly the events strictly between the two times |
| `Delegation.KindsExactly` | src/delegation.rs:150-185 | the text `kind=k1,k2,...` allows exactly the events of these kinds, `kind!k1,k2,...` exactly the others |
| `Delegation.NoSingleBound` | src/delegation.rs:157-172 | the text of a bound with no value, or more than one, allows nothing |
| `Nip05.ParsesExactly` | src/nip05.rs:68-109 | a text is a name exactly when it is two parts around one `@`, of letters and digits, with `_`, `-` and `.` in the first and `-` and `.` in the second |
| `Nip05.PrintAfterParse` | src/nip05.rs:68-109 | whatever parses prints back to itself |
| `Nip05.ParseAfterPrint` | src/nip05.rs:68-109 | a name survives printing and parsing exactly when its characters are allowed |
| `Nip05.StoredNameReadsBack` | src/repo/sqlite.rs:680-689 | a verification name that was stored reads back as it was |

## Left out

- The Postgres store and both migration chains: a second encoding of the same tables.
- The bulk loader, command line, configuration files, metrics and HTML pages: input, output and plumbing.
- Websocket and HTTP handling, subscription limits and the authentication handshake: the authenticated key is an input.
- Signatures, SHA-256, base64, bech32, JSON and URL parsing: inputs or assumptions of the lemmas.
- The Lightning and gRPC clients and the NIP-05 fetch and re-check schedule: oracles.
- SQL engine errors, retries on a busy database, checkpoints and the limit on bound parameters.
- The `delegated_by` and `first_seen` columns: nothing modelled here reads them.
- Deserialisation of filters, `is_scraper` and the union over a subscription's filters: easy members.
- `domain_reserved` and the reserved-names file: the operator's own names are an input list.
- `RestrictedKindAuthors::from_entries`: its authors are taken as parsed keys.
- The rate limiter's sleep, the metadata channel and the texts of notices in the event writer; NIP-05 and gRPC admission there are one decision, and write and broadcast are one step.
- Direct messages to new accounts and the price conversion.
- The query planner: an index named in a statement has to exist; whether it can be used is not modelled.
- The free mode of the payment gate, in which nothing is asked or charged, and the parsing of its key.
- The values a restart resets: the limiter's map and the seen-set start empty.
- Convergence.OrderIndependentIff: for events with at most one `d` tag and numbers in range, like the other members of `Convergence` and `Refinement`; `AnyOrderNeeds.AnyOrderIff` has neither premise.
- Refinement.PersistRefines: for well-formed events, with at most one `d` tag and numbers in range; `AnyWrite.PersistMoves` has neither premise.
- Convergence.StoreRefines: for well-formed events; `AnyOrder.StoredIsUnbeaten` is for all.
- Convergence.ClosedForm: for well-formed events; `AnyOrder.AnyClosedForm` is for all.
- Claims.ClaimStore.Unregister: its two locked halves are `Owner` and `Release`; what can come between them is `Releases`.
- Writer.EventWriter.Process: NIP-05 and gRPC admission are one decision, and the rate limiter only delays.
- Claims.ClaimStore.Insert: when name and key are both taken the database may report either conflict first; the table is unchanged in both.
- Limiter.SlidingWindow: for runs whose calls are ordered by the time they read; the source reads the clock just before it takes the lock.
- Payments.RunSound: the processor answers one question per step.
- Nip98.VerifyNip98: the header has been decoded and the body's digest computed; creation times of 2^63 and more are not wrapped.
- PaymentGate.GateInOnePiece: for one answer of the processor per request; `Payments` has it change between any two steps.
