# client-tracker routers in Dafny

This project models the server side of client-tracker, a small CRM for car sales. Four tRPC routers
read and write one relational store:

- `clients`: the signed-in user's customers;
- `car`: a shared catalog of car models;
- `opportunity`: a sale in progress, attached to one client and optionally to a catalog car;
- `notes`: free text attached to an opportunity.

Every client is owned by the user who created it. An opportunity belongs to whoever owns its client,
and a note belongs to whoever owns its opportunity. Those links decide what a user may read or change.

The model is built in layers:

- `Domain` holds the row records, the error kinds the routers raise, the zod input checks, and
  JavaScript truthiness for optional numbers and strings.
- `Schema` holds the store as a value, `Tables`: four maps from id to row and the next free id. Its
  integrity invariant `Valid` covers allocated ids, well-formed rows, foreign keys, unique emails per
  owner and unique catalog tuples.
- `Tenancy` holds the three ownership chains.
- `Text` holds ASCII case folding, substring search, lexicographic order on strings and sorted
  distinct lists.
- `Paging` holds the store's filtered scans. It models `take: limit + 1` with an inclusive cursor, then
  popping the extra row, and proves that following `nextCursor` reads every row exactly once.
- `Database` holds `Store`, a class whose fields are the four tables and the id counter.

Every router mutation comes as a pair:

- a transition function `…Outcome`, from the tables before the call to the answer and the tables
  after it;
- a method over `Store` that performs the same checks and writes in place. The method is proved to
  produce exactly that outcome and to keep `Valid`.

Lemmas beside each pair state what the router promises: which errors arise and when, what changes,
and what stays. Queries are functions over `Tables`. Paginated listings are methods that fetch a
window and pop the extra row.

The store's ordering (`orderBy` on timestamps or names) is a parameter `order`: the table's ids in
the order the store enumerates them. Where a property needs it, `IsScan(order, keys)` says that
`order` lists every key once.

On these points the model follows the router code:

- A page starts AT the cursor row (Prisma's `cursor` without `skip`), not strictly after it. The
  cursor row is therefore the first row of the next page, and following `nextCursor` still reads
  each row exactly once.
- An id of `0` counts as absent wherever the router tests it with `&&` or `?:`:
  - a cursor of 0;
  - `clientId: 0` in the opportunity `getAll`;
  - `opportunityId: 0` in the notes `getAll`;
  - `carModelId: 0` in opportunity `create`. There the router skips its own check, and the store's
    foreign key refuses the row (`ForeignKeyViolation`).
- `notes.deleteMany` with a repeated id answers `Forbidden` even when every id is the caller's. The
  ownership query returns distinct rows, so it finds fewer rows than ids.

## Model

| member | source | states |
|---|---|---|
| Domain.ResolveLimit | src/server/api/routers/clients.ts:78 | a page size given by the caller is accepted only in 1..max; a missing one takes the default; an accepted one is used unchanged |
| Domain.CountChar | src/server/api/routers/clients.ts:40 | the count of a character is at most the length and zero exactly when the character is absent (used by the email check) |
| Text.LowerText | src/server/api/routers/clients.ts:92-94 | case folding keeps the length and folds each character independently |
| Text.ContainsItself | src/server/api/routers/car.ts:130-152 | every text contains itself case-insensitively |
| Text.ContainsEmpty | src/server/api/routers/clients.ts:89-97 | every text contains the empty text, so an empty `contains` filter keeps every row |
| Text.LessIrreflexive | src/server/api/routers/car.ts:161 | ascending order on brands is irreflexive |
| Text.LessTransitive | src/server/api/routers/car.ts:161 | ascending order on brands is transitive |
| Text.LessTotal | src/server/api/routers/car.ts:161 | two different brands are always ordered one way or the other |
| Text.LessAsymmetric | src/server/api/routers/car.ts:161 | no two brands are each before the other |
| Text.Insert | src/server/api/routers/car.ts:158-166 | adding a brand to an ascending distinct list keeps it ascending and adds exactly that brand |
| Text.AscendingDistinct | src/server/api/routers/car.ts:158-166 | `distinct` plus `orderBy asc` gives a strictly ascending list with exactly the brands of the input |
| Text.AscendingUnique | src/server/api/routers/car.ts:158-166 | two strictly ascending lists with the same members are equal, so the brand list does not depend on scan order |
| Paging.Filter | src/server/api/routers/clients.ts:87-97 | a `where` over the ordered scan keeps exactly the ids that satisfy it, without repetition, each pair in the order the scan gives them |
| Paging.DistinctSize | src/server/api/routers/clients.ts:358 | a listing whose ids are pairwise different has one row per id, so `clients.length` counts clients |
| Paging.FilterSame | src/server/api/routers/opportunity.ts:73-80 | two `where` clauses that agree on every scanned row select the same rows |
| Paging.Take | src/server/api/routers/clients.ts:219-230 | `take: n` gives the prefix of exactly min(n, length) rows |
| Paging.IndexOf | src/server/api/routers/clients.ts:101 | finds the cursor row's position or reports it absent |
| Paging.Window | src/server/api/routers/clients.ts:100-101 | at most limit+1 rows, starting at a truthy cursor, empty when the cursor row is not among the rows |
| Paging.Pop | src/server/api/routers/clients.ts:115-119 | the extra row is popped exactly when more than limit rows came back, and its id becomes `nextCursor` |
| Paging.PopExtra | src/server/api/routers/clients.ts:115-119 | the in-place pop computes exactly `Pop` |
| Paging.Paginate | src/server/api/routers/clients.ts:103-121 | a page holds at most limit listed rows, and `nextCursor` is a listed row present exactly when limit+1 rows were fetched |
| Paging.FirstPage | src/server/api/routers/clients.ts:103-121 | the first page is the first limit rows, with the next row as cursor when more remain |
| Paging.PageAt | src/server/api/routers/clients.ts:103-121 | the page at the k-th row's cursor is the next limit rows from k |
| Paging.FollowFrom | src/server/api/routers/clients.ts:103-121 | following cursors from row k reads rows k.. exactly |
| Paging.FollowAll | src/server/api/routers/clients.ts:103-121 | following cursors from the first page reads every listed row once, in order, with nothing skipped or repeated |
| Database.Store.constructor | tests/setup.ts:53-59 | the emptied store every test starts from satisfies the integrity invariant |
| Schema.EmailTakenExcept | src/server/api/routers/clients.ts:255-261 | the email search that skips the updated client differs from create's search only by that client itself |
| Schema.TupleTakenExcept | src/server/api/routers/car.ts:246-254 | the catalog search that skips the updated car differs from create's search only by that car itself |
| Tenancy.ClientOwner | src/server/api/routers/clients.ts:7-9 | a client belongs to its creator and to nobody else |
| Tenancy.OpportunityOwner | src/server/api/routers/opportunity.ts:124-130 | in a consistent store an opportunity is visible to exactly one user, its client's owner |
| Tenancy.NoteOwner | src/server/api/routers/notes.ts:59-65 | in a consistent store a note is visible to exactly one user, through its opportunity's client |
| ClientsRouter.VerifyClientAccess | src/server/api/routers/clients.ts:12-32 | answers the client exactly when the caller owns it; otherwise NotFound, the same for a missing id and another user's client |
| ClientsRouter.OwnedClients | src/server/api/routers/clients.ts:7-9 | exactly the caller's clients, without repetition, in scan order |
| ClientsRouter.ListedRows | src/server/api/routers/clients.ts:87-97 | exactly the caller's clients that match the urgency and the non-empty search term |
| ClientsRouter.GetAll | src/server/api/routers/clients.ts:75-122 | an out-of-range limit is InvalidInput; otherwise at most limit rows, all the caller's and matching the filter, with `nextCursor` present exactly when limit+1 were fetched and equal to the popped row |
| ClientsRouter.ListingReadsAll | src/server/api/routers/clients.ts:75-122 | following `nextCursor` reads every listed client once, and the listing holds exactly the caller's matching clients |
| ClientsRouter.GetById | src/server/api/routers/clients.ts:125-161 | NotFound unless the caller owns the client; otherwise the client and its opportunities |
| ClientsRouter.GetByUrgency | src/server/api/routers/clients.ts:164-181 | exactly the caller's clients with that urgency |
| ClientsRouter.GetUrgent | src/server/api/routers/clients.ts:184-207 | exactly the caller's HIGH-urgency clients |
| ClientsRouter.SearchRows | src/server/api/routers/clients.ts:217-227 | exactly the caller's clients whose name, email or phone contains the query, ignoring case |
| ClientsRouter.Search | src/server/api/routers/clients.ts:210-237 | an empty query or an out-of-range limit is InvalidInput; otherwise the first min(hits, limit) hits, all the caller's |
| ClientsRouter.ValidEmailTruthy | src/server/api/routers/clients.ts:40-47 | a valid email is never empty, so `if (input.email)` tests presence |
| ClientsRouter.CreateConflict | src/server/api/routers/clients.ts:47-61 | create is Duplicate exactly when the input is valid, has an email, and a client of the SAME owner has that email; on error nothing changes |
| ClientsRouter.CreateOutcome | src/server/api/routers/clients.ts:36-72 | a refused create leaves the tables unchanged |
| ClientsRouter.CreateThenGet | src/server/api/routers/clients.ts:63-71 | a created client reads back as the input with the caller as owner, urgency defaulting to NORMAL, and no opportunities |
| ClientsRouter.CreateKeepsValid | src/server/api/routers/clients.ts:36-72 | create keeps the integrity invariant |
| ClientsRouter.Create | src/server/api/routers/clients.ts:36-72 | the in-place create answers and writes exactly what `CreateOutcome` says, and keeps `Valid` |
| ClientsRouter.Apply | src/server/api/routers/clients.ts:271-276 | only the supplied fields change, and the owner never does |
| ClientsRouter.UpdateEffect | src/server/api/routers/clients.ts:240-284 | success exactly when the change passes the input check, the caller owns the client and no OTHER client of the same owner has the new email; InvalidInput for a malformed change; NotFound unless owned; Duplicate exactly when a new email belongs to ANOTHER client of the same owner; on success only that client changes, by `Apply` |
| ClientsRouter.UpdateOutcome | src/server/api/routers/clients.ts:240-284 | a refused update leaves the tables unchanged |
| ClientsRouter.UpdateOwnEmail | src/server/api/routers/clients.ts:254-269 | setting a client's email to its current value succeeds |
| ClientsRouter.UpdateKeepsValid | src/server/api/routers/clients.ts:240-284 | update keeps the integrity invariant |
| ClientsRouter.Update | src/server/api/routers/clients.ts:240-284 | the in-place update matches `UpdateOutcome` and keeps `Valid` |
| ClientsRouter.UpdateUrgencyEffect | src/server/api/routers/clients.ts:287-301 | succeeds exactly when owned (NotFound otherwise) and changes only that client's urgency |
| ClientsRouter.UpdateUrgencyOutcome | src/server/api/routers/clients.ts:287-301 | a refused urgency update leaves the tables unchanged |
| ClientsRouter.UpdateUrgency | src/server/api/routers/clients.ts:287-301 | the in-place write matches `UpdateUrgencyOutcome` and keeps `Valid` |
| ClientsRouter.DeleteEffect | src/server/api/routers/clients.ts:304-341 | NotFound unless owned; with N > 0 linked opportunities InUse reporting N; otherwise removes exactly that client, and getById then answers NotFound |
| ClientsRouter.DeleteOutcome | src/server/api/routers/clients.ts:304-341 | a refused delete leaves the tables unchanged |
| ClientsRouter.Delete | src/server/api/routers/clients.ts:304-341 | the in-place delete matches `DeleteOutcome` and keeps `Valid` |
| ClientsRouter.CreateKeepsOthers | src/server/api/routers/clients.ts:63-71 | create leaves every other user's clients as they were |
| ClientsRouter.UpdateKeepsOthers | src/server/api/routers/clients.ts:251-283 | update leaves every other user's clients as they were |
| ClientsRouter.UpdateUrgencyKeepsOthers | src/server/api/routers/clients.ts:295-300 | updateUrgency leaves every other user's clients as they were |
| ClientsRouter.DeleteKeepsOthers | src/server/api/routers/clients.ts:307-340 | delete leaves every other user's clients as they were |
| ClientsRouter.UrgencyCount | src/server/api/routers/clients.ts:370 | the count in one urgency bucket is at most the number of clients |
| ClientsRouter.WithOpportunities | src/server/api/routers/clients.ts:373-375 | the clients with opportunities are at most all clients |
| ClientsRouter.OpportunityTotal | src/server/api/routers/clients.ts:371 | the summed opportunity counts are at least the number of clients that have any |
| ClientsRouter.CountClients | src/server/api/routers/clients.ts:356-378 | the `forEach` loop leaves each urgency bucket, both opportunity buckets and the opportunity total at their counts over the rows |
| ClientsRouter.OwnedClientsCount | src/server/api/routers/clients.ts:345-358 | over a full scan, the listing has one row per client the caller owns |
| ClientsRouter.UrgencyBucketsAddUp | src/server/api/routers/clients.ts:357-378 | LOW + NORMAL + HIGH equals the number of clients |
| ClientsRouter.GetStats | src/server/api/routers/clients.ts:344-381 | all three urgency buckets exist and hold their counts; LOW + NORMAL + HIGH = total = with + without opportunities; totalOpportunities sums the per-client counts; over a full scan, total is the number of the caller's clients |
| CarRouter.ListedRows | src/server/api/routers/car.ts:53-64 | exactly the cars of the exact brand (when given) that match the search term |
| CarRouter.GetAll | src/server/api/routers/car.ts:41-92 | InvalidInput for an out-of-range limit; otherwise at most limit matching cars and the `nextCursor` rule |
| CarRouter.ListingReadsAll | src/server/api/routers/car.ts:41-92 | following `nextCursor` reads every matching car once; with a brand filter every car has exactly that brand |
| CarRouter.GetById | src/server/api/routers/car.ts:95-127 | NotFound for a missing id; otherwise the car and its opportunities |
| CarRouter.GetByBrand | src/server/api/routers/car.ts:130-152 | exactly the cars whose brand contains the text, ignoring case |
| CarRouter.GetModelsByBrand | src/server/api/routers/car.ts:170-188 | exactly the cars whose brand equals the text |
| CarRouter.ModelsWithinByBrand | src/server/api/routers/car.ts:130-188 | every car getModelsByBrand lists, getByBrand lists too |
| CarRouter.ByBrandIsLooser | src/server/api/routers/car.ts:130-188 | for a "Fiat" car, "FIAT" and "fi" hit getByBrand and miss getModelsByBrand |
| CarRouter.Brands | src/server/api/routers/car.ts:166 | the brand column of the selected rows, row by row |
| CarRouter.GetBrands | src/server/api/routers/car.ts:155-167 | strictly ascending in code-point order, and a brand is listed exactly when some catalog car has it |
| CarRouter.BrandsFromCatalog | src/server/api/routers/car.ts:155-167 | every catalog brand appears once, and the answer does not depend on scan order |
| CarRouter.SearchRows | src/server/api/routers/car.ts:198-207 | exactly the cars whose brand, model or version contains the query, ignoring case |
| CarRouter.Search | src/server/api/routers/car.ts:191-220 | an empty query or an out-of-range limit is InvalidInput; otherwise the first min(hits, limit) hits |
| CarRouter.CreateEffect | src/server/api/routers/car.ts:6-38 | Duplicate exactly when an identical (brand, model, version, year) exists, with absent compared as absent; success exactly when every car differs in some field; the car reads back as given; totalCars grows by one |
| CarRouter.CreateOutcome | src/server/api/routers/car.ts:6-38 | a refused create leaves the tables unchanged |
| CarRouter.Create | src/server/api/routers/car.ts:6-38 | the in-place create matches `CreateOutcome` and keeps `Valid` |
| CarRouter.Resulting | src/server/api/routers/car.ts:245-252 | the resulting tuple takes each supplied field, else the current value; with nothing supplied it is the car itself |
| CarRouter.UpdateEffect | src/server/api/routers/car.ts:223-272 | NotFound for a missing id; Duplicate exactly when ANOTHER car equals the resulting tuple; on success only that car changes |
| CarRouter.UpdateOutcome | src/server/api/routers/car.ts:223-272 | a refused update leaves the tables unchanged |
| CarRouter.UpdateNothingSupplied | src/server/api/routers/car.ts:244-245 | an update that supplies no field skips the duplicate search, returns the stored car and changes nothing |
| CarRouter.Update | src/server/api/routers/car.ts:223-272 | the in-place update matches `UpdateOutcome` and keeps `Valid` |
| CarRouter.DeleteEffect | src/server/api/routers/car.ts:275-303 | NotFound for a missing id; InUse reporting N for N > 0 linked opportunities; otherwise the car is removed, getById answers NotFound, and totalCars drops by one |
| CarRouter.DeleteOutcome | src/server/api/routers/car.ts:275-303 | a refused delete leaves the tables unchanged |
| CarRouter.TotalCars | src/server/api/routers/car.ts:308 | `totalCars` is zero exactly when the catalog is empty |
| CarRouter.Delete | src/server/api/routers/car.ts:275-303 | the in-place delete matches `DeleteOutcome` and keeps `Valid` |
| OpportunityRouter.ListedRows | src/server/api/routers/opportunity.ts:73-80 | exactly the caller's opportunities matching stage, urgency and a truthy client id |
| OpportunityRouter.GetAll | src/server/api/routers/opportunity.ts:57-118 | InvalidInput for an out-of-range limit; otherwise at most limit listed rows and the `nextCursor` rule |
| OpportunityRouter.ListingReadsAll | src/server/api/routers/opportunity.ts:57-118 | following `nextCursor` reads every listed opportunity once; `clientId: 0` lists the same as no client filter |
| OpportunityRouter.GetById | src/server/api/routers/opportunity.ts:121-145 | NotFound unless the caller owns the opportunity's client; otherwise the opportunity and its notes |
| OpportunityRouter.GetByClient | src/server/api/routers/opportunity.ts:148-182 | NotFound unless the caller owns the client; otherwise exactly that client's opportunities, all the caller's |
| OpportunityRouter.CreateEffect | src/server/api/routers/opportunity.ts:7-54 | InvalidInput for an empty car label; NotFound when the client is missing or another user's, then NotFound for a truthy car id that names no car; success exactly when the label is non-empty, the client is owned and a given car id exists (looked up globally); reads back with stage LEAD and urgency NORMAL by default |
| OpportunityRouter.CreateOutcome | src/server/api/routers/opportunity.ts:7-54 | a refused create leaves the tables unchanged |
| OpportunityRouter.CreateWithCarZero | src/server/api/routers/opportunity.ts:31-39 | `carModelId: 0` skips the router's check and is refused by the store's foreign key |
| OpportunityRouter.Create | src/server/api/routers/opportunity.ts:7-54 | the in-place create matches `CreateOutcome` and keeps `Valid` |
| OpportunityRouter.Apply | src/server/api/routers/opportunity.ts:221-226 | only supplied fields change; `clientId` never does |
| OpportunityRouter.UpdateEffect | src/server/api/routers/opportunity.ts:185-234 | success exactly when the label is non-empty, the opportunity is owned and a set car id exists; NotFound for an opportunity the caller does not own, then NotFound for a set car id that is missing; only that row changes, and it stays the caller's |
| OpportunityRouter.UpdateOutcome | src/server/api/routers/opportunity.ts:185-234 | a refused update leaves the tables unchanged |
| OpportunityRouter.Update | src/server/api/routers/opportunity.ts:185-234 | the in-place update matches `UpdateOutcome` and keeps `Valid` |
| OpportunityRouter.UpdateStageEffect | src/server/api/routers/opportunity.ts:237-271 | any stage from any stage, exactly when owned; only `stage` changes |
| OpportunityRouter.UpdateStageOutcome | src/server/api/routers/opportunity.ts:237-271 | a refused stage change leaves the tables unchanged |
| OpportunityRouter.UpdateStage | src/server/api/routers/opportunity.ts:237-271 | the in-place write matches `UpdateStageOutcome` and keeps `Valid` |
| OpportunityRouter.DeleteEffect | src/server/api/routers/opportunity.ts:274-298 | NotFound unless owned; otherwise the opportunity and exactly its notes are gone, and every other row is untouched |
| OpportunityRouter.DeleteOutcome | src/server/api/routers/opportunity.ts:274-298 | a refused delete leaves the tables unchanged |
| OpportunityRouter.Delete | src/server/api/routers/opportunity.ts:274-298 | the notes, then the row, deleted in place as `DeleteOutcome` says, keeping `Valid` |
| OpportunityRouter.OwnedOpportunities | src/server/api/routers/opportunity.ts:302-311 | exactly the caller's opportunities |
| OpportunityRouter.OwnedOpportunitiesCount | src/server/api/routers/opportunity.ts:302-315 | over a full scan, the listing has one row per opportunity the caller owns |
| OpportunityRouter.StageCount | src/server/api/routers/opportunity.ts:330-333 | one stage bucket's count is at most the number of rows |
| OpportunityRouter.UrgencyCount | src/server/api/routers/opportunity.ts:330-333 | one urgency bucket's count is at most the number of rows |
| OpportunityRouter.BucketsAddUp | src/server/api/routers/opportunity.ts:314-335 | the stage buckets and the urgency buckets each sum to the number of rows |
| OpportunityRouter.GetStats | src/server/api/routers/opportunity.ts:301-336 | every stage and urgency bucket exists, holds its count, and each family sums to total; over a full scan, total is the number of the caller's opportunities |
| NotesRouter.VerifyOpportunityAccess | src/server/api/routers/notes.ts:7-29 | the opportunity exactly when the caller owns its client; otherwise NotFound |
| NotesRouter.VerifyNoteAccess | src/server/api/routers/notes.ts:32-56 | the note (getById) exactly when the caller owns it through opportunity and client; otherwise NotFound |
| NotesRouter.NotesOf | src/server/api/routers/notes.ts:115-116 | exactly the notes of that opportunity, each once, in the order of the `createdAt` scan |
| NotesRouter.GetByOpportunity | src/server/api/routers/notes.ts:101-125 | InvalidInput for an out-of-range limit; NotFound unless the opportunity is owned; otherwise at most limit of its notes and the `nextCursor` rule |
| NotesRouter.ByOpportunityReadsAll | src/server/api/routers/notes.ts:101-125 | following `nextCursor` reads every note of the opportunity once |
| NotesRouter.ListedRows | src/server/api/routers/notes.ts:145-161 | exactly the caller's notes, of a truthy opportunity id, matching a non-empty search term |
| NotesRouter.GetAll | src/server/api/routers/notes.ts:135-189 | InvalidInput for an out-of-range limit; otherwise at most limit listed notes and the `nextCursor` rule |
| NotesRouter.ListingReadsAll | src/server/api/routers/notes.ts:145-189 | with an opportunity filter, following `nextCursor` reads exactly that opportunity's notes, and none unless the caller owns it |
| NotesRouter.SearchRows | src/server/api/routers/notes.ts:257-264 | exactly the caller's notes whose title or content contains the query, ignoring case |
| NotesRouter.Search | src/server/api/routers/notes.ts:249-278 | an empty query or a limit outside 1..50 is InvalidInput; otherwise the first min(hits, limit) hits |
| NotesRouter.CreateEffect | src/server/api/routers/notes.ts:69-98 | NotFound unless the opportunity is owned; success exactly when title and content are non-empty and it is owned; the note reads back and is listed under its opportunity |
| NotesRouter.CreateOutcome | src/server/api/routers/notes.ts:69-98 | a refused create leaves the tables unchanged |
| NotesRouter.Create | src/server/api/routers/notes.ts:69-98 | the in-place insert matches `CreateOutcome` and keeps `Valid` |
| NotesRouter.UpdateEffect | src/server/api/routers/notes.ts:192-209 | success exactly when no given title or content is empty and the caller owns the note; InvalidInput for an empty one, otherwise NotFound unless owned; only title and content change, a left-out one keeps its value, `opportunityId` never changes |
| NotesRouter.UpdateOutcome | src/server/api/routers/notes.ts:192-209 | a refused update leaves the tables unchanged |
| NotesRouter.Update | src/server/api/routers/notes.ts:192-209 | the in-place update matches `UpdateOutcome` and keeps `Valid` |
| NotesRouter.DeleteEffect | src/server/api/routers/notes.ts:212-220 | NotFound unless owned; otherwise exactly that note is removed, and getByOpportunity and getById no longer return it |
| NotesRouter.DeleteOutcome | src/server/api/routers/notes.ts:212-220 | a refused delete leaves the tables unchanged |
| NotesRouter.Delete | src/server/api/routers/notes.ts:212-220 | the in-place delete matches `DeleteOutcome` and keeps `Valid` |
| NotesRouter.OwnedAmongSize | src/server/api/routers/notes.ts:226-239 | the owned rows found number the ids exactly when the ids are distinct and all owned |
| NotesRouter.DeleteManyEffect | src/server/api/routers/notes.ts:223-246 | all or nothing: an empty list is InvalidInput; a missing, foreign or repeated id is Forbidden with nothing deleted; otherwise exactly those notes go and the count equals the number of ids |
| NotesRouter.DeleteManyOutcome | src/server/api/routers/notes.ts:223-246 | a refused bulk delete leaves the tables unchanged |
| NotesRouter.DeleteMany | src/server/api/routers/notes.ts:223-246 | the in-place bulk delete matches `DeleteManyOutcome` and keeps `Valid` |

## Left out

- `notes.getStats`: it depends on the wall clock (`Date` arithmetic on "today" and "this week") and runs its queries concurrently.
- `car.getStats`: only `totalCars` is modelled, as `TotalCars`, in the create and delete lemmas. The top-10 rankings group and order by counts, with ties the source leaves unspecified.
- Projections (`include`, `select`, `_count` shapes) are not modelled. Details carry only the linked-row sets that drive decisions.
- The three open opportunities embedded in each getUrgent client are left out as a projection.
- Case-insensitive matching folds ASCII letters only. The database's collation and Unicode case folding are not modelled.
- CarRouter.GetBrands: `orderBy: { brand: "asc" }` is modelled as code-point order on strings, not the database's collation (car.ts:161-163).
- The `orderBy` clauses have no id tiebreak (clients.ts:103-106 sorts by urgency, then `createdAt`; notes.ts:116 by `createdAt`). Rows with equal keys may come back in a different order from one request to the next. The `Follow…` lemmas assume one fixed order shared by all the requests of a walk.
- `ValidEmail` approximates zod's `email()`: exactly one `@`, not at either end. The full pattern is not modelled.
- Stage has four values: LEAD, CONTACTED, CLOSED_WON and CLOSED_LOST. The routers name LEAD and the two closed stages; CONTACTED appears only in tests/routers/opportunity.test.ts:57, :91 and :94. The database schema that declares the enum is not part of this model.
- Ordering by `createdAt`, `updatedAt` or `name` is the `order` parameter. Timestamps are not modelled.
- Ids come from one counter shared by all tables, not one autoincrement per table. Only freshness matters to the routers.
- Paging.Window: a cursor that names no listed row gives an empty page. That is the model's choice. For a cursor row that exists but fails the `where`, the store instead positions the page by that row's sort keys, which the model does not capture.
- Every operation is sequential and atomic. The read-then-write races and the two-step, non-transactional note cascade in opportunity delete are not modelled.
- Authentication and sessions are not modelled: the caller's id is a parameter.
- UI, router wiring and test scaffolding are not modelled.
- `client.ts` is an older router that is never mounted, so it is not part of this model.
- Database failures other than the foreign key on `carModelId` are not modelled.
- `z.number()` accepts fractional values. A fractional id, cursor, limit or year passes the input check and then fails in the store's integer columns. The model takes these inputs as integers.
- Messages are not modelled: each error is its kind, the entity named in it and, for InUse, the linked count.
- The car and opportunity routers throw plain `Error`s, which tRPC reports as internal errors. The clients and notes routers use tRPC codes (NOT_FOUND, CONFLICT, FORBIDDEN). The model does not keep that difference: every error is named by what its message says (NotFound, Duplicate, InUse), whichever router raised it.
