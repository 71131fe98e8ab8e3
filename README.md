# Coupon controller model

A Dafny model of the server's coupon and store bookkeeping
(`server/src/controllers/couponsConroller.js`). The relational database is
an in-memory value with five parts: the `store` table and the `coupons` table
(maps keyed by id), the `user_ratings` and `redeemed_coupons` tables
(sequences of rows, appended to), and the two auto-increment counters. No
constraint beyond the primary keys is assumed, because the schema is not part
of this model. A coupon, rating or redemption row may therefore name a store
or coupon that does not exist.

Each handler appears twice:

- **`Handlers`** holds a pure function from the tables before a request to a
  `Step`: the tables after it and the `Outcome` (201, 200, 400, 404 or 500).
  Its `ensures` clauses state the handler's promise: which rows change, by how
  much, and that nothing else changes.
- **`Controller.Database`** is a class whose methods change the table fields
  one statement at a time, in the controller's order. Each method is proved to
  end in the state the `Handlers` function gives.

`Invariants` proves what the bookkeeping maintains:

- `stock` equals the number of the store's coupons.
- `total_ratings` and `ratings_count` equal the sum and the number of the store's rating rows.
- The redemption ledger never holds a pair twice.

It also shows where the first two break: `addCoupons` and `addStoreRating`
do not check that the store exists.

`UpdateQuery` models the partial update of `updateStore`, built as text:

- `BuildUpdate` is the loop that grows `UPDATE store SET …` and the parameter list.
- `ParseUpdate` and `RunUpdate` model the database reading and executing that statement.
- The lemmas prove that the placeholders match the parameters.
- They also prove that the database reads back exactly the columns written, and that running the statement has the effect of the reference `Patch`.

One case needs care: when the request sets nothing, the builder's final cut
removes the `T ` of `SET `. The result is `UPDATE store SE WHERE id = ?`,
which the database refuses, so the handler answers 500 "Unable to update
store" and nothing changes. `EmptySetRejected` and `Handlers.UpdateStore`
state this.

The user id that the controller decodes from the bearer token is a plain
parameter. The logo upload to the media host is an `Upload` value: no file,
the returned URL, or a failure.

The model does only what the code does. In particular:

- `redeem` has no expiry check.
- `redeem` does not check that the coupon exists. An unknown coupon id is still recorded in the ledger.
- `deleteCoupon` has no floor at zero on `stock`.
- No uniqueness constraint on the ledger is assumed. At most one row per pair comes only from the check-then-write in `redeem`. Run sequentially, the model would behave the same with a `UNIQUE(user_id, coupon_id)` constraint, because the check always runs before the insert.
- `addCoupons` does not check that the store exists.
- The stock update is not atomic with the insert. Here each handler runs as one sequential step.

## Model

| member | source | states |
|---|---|---|
| Handlers.AddStore | server/src/controllers/couponsConroller.js:23-44 | with an uploaded logo, exactly one new store row under a fresh id, holding the given name, logo URL, type and description, no FAQ, stock 0 and no ratings, is added and every other table and row is unchanged (201); without one nothing changes (400 "Unable to proceed") |
| Handlers.UpdateStore | server/src/controllers/couponsConroller.js:47-96 | 404 and no change for an unknown store; 200 exactly when the store exists, no upload failed and at least one column is set, and then only that row changes, as Patch says; every other case is 500 "Unable to update store" with no change |
| Handlers.AddStoreFaqs | server/src/controllers/couponsConroller.js:100-122 | always 200; the store's FAQ list reads back as exactly the body's entries, the rest of that row and every other row are unchanged, and an unknown store changes nothing |
| Handlers.AddStoreRating | server/src/controllers/couponsConroller.js:125-157 | one (user, store, rating) row is appended; the store's total_ratings grows by the rating and ratings_count by one, nothing else in that row or any other row changes |
| Handlers.AddCoupons | server/src/controllers/couponsConroller.js:160-190 | a falsy title, code, due date or type gives 400 "Incomplete data" with every table unchanged; otherwise exactly one new coupon under a fresh id holding store_id = storeId, the title, code, type, link, due date and description of the body, and user_count 0, that store's stock +1, every other store and coupon unchanged (201) |
| Handlers.DeleteCoupon | server/src/controllers/couponsConroller.js:193-216 | 404 and no change for an unknown id; otherwise that coupon is removed, the stock of the store its row named drops by exactly 1 (no floor), all else unchanged (200) |
| Handlers.Redeem | server/src/controllers/couponsConroller.js:219-249 | a pair already in the ledger gives 400 "Coupon already redeemed by You" with nothing changed; otherwise the coupon's user_count +1 (when it exists) and exactly that pair appended (201); afterwards the pair is always in the ledger |
| UpdateQuery.BuildUpdate | server/src/controllers/couponsConroller.js:61-82 | the loop over the field whitelist yields exactly QueryText and QueryParams; the last parameter is the store id |
| UpdateQuery.QueryPlaceholders | server/src/controllers/couponsConroller.js:61-82 | the number of `?` in the built statement equals the number of parameters, also when nothing is set |
| UpdateQuery.QueryParses | server/src/controllers/couponsConroller.js:81-85 | the database refuses the built statement exactly when the request sets nothing; otherwise it reads back exactly the columns the builder wrote, in order |
| UpdateQuery.EmptySetRejected | server/src/controllers/couponsConroller.js:81 | the statement built with no column, `UPDATE store SE WHERE id = ?`, is malformed |
| UpdateQuery.RenderParses | server/src/controllers/couponsConroller.js:75-81 | any non-empty list of identifier columns, joined with ", " between the head and the WHERE clause, parses back to that list |
| UpdateQuery.BuiltQueryRuns | server/src/controllers/couponsConroller.js:61-85 | executing the built statement with its parameters fails when nothing is set, and otherwise replaces the addressed row by Patch (logo if a file came, each whitelisted field if truthy) and leaves every other row alone |
| UpdateQuery.AssignmentsInOrder | server/src/controllers/couponsConroller.js:66-78 | the columns set are logo_url first if a file came, then name, type, description in that order, each only if truthy |
| UpdateQuery.OnlyWhitelisted | server/src/controllers/couponsConroller.js:63-78 | body keys outside the whitelist never change the statement |
| Faqs.ToFaqsAt | server/src/controllers/couponsConroller.js:106 | one {question, answer} record per body entry, the k-th record built from the k-th entry |
| Faqs.EntriesOfToFaqs | server/src/controllers/couponsConroller.js:106 | the entries can be read back from the records: the conversion loses nothing |
| Faqs.QuestionsAreKeys | server/src/controllers/couponsConroller.js:106 | the questions are the body's keys, in entry order |
| Faqs.DistinctQuestions | server/src/controllers/couponsConroller.js:106 | distinct keys give distinct questions |
| Invariants.AddStoreKeepsConsistent | server/src/controllers/couponsConroller.js:29-32 | inserting a store keeps every store's stock and rating totals equal to its coupons and rating rows |
| Invariants.AddCouponsKeepsConsistent | server/src/controllers/couponsConroller.js:171-183 | for an existing store, the insert and the stock + 1 keep stock equal to the number of the store's coupons |
| Invariants.AddCouponsOrphan | server/src/controllers/couponsConroller.js:166-183 | with no check that the store exists, a complete request for an unknown store leaves a coupon no store counts |
| Invariants.DeleteCouponKeepsConsistent | server/src/controllers/couponsConroller.js:198-209 | the delete and the stock - 1 keep stock equal to the number of the store's coupons |
| Invariants.DeleteCouponStockStaysNatural | server/src/controllers/couponsConroller.js:205-209 | in consistent tables the unfloored decrement never makes a stock negative |
| Invariants.AddStoreRatingKeepsConsistent | server/src/controllers/couponsConroller.js:137-146 | for an existing store, the row insert and the running-total update keep total_ratings and ratings_count equal to the sum and number of its rating rows |
| Invariants.AddStoreRatingOrphan | server/src/controllers/couponsConroller.js:137-146 | a rating for an unknown store is a row no store's totals account for |
| Invariants.RedeemKeepsConsistent | server/src/controllers/couponsConroller.js:237-242 | redemption leaves the stock and rating bookkeeping intact |
| Invariants.UpdateStoreKeepsConsistent | server/src/controllers/couponsConroller.js:61-85 | a partial store update never touches stock or ratings bookkeeping |
| Invariants.AddStoreFaqsKeepsConsistent | server/src/controllers/couponsConroller.js:109-110 | storing the FAQ never touches stock or ratings bookkeeping |
| Invariants.AddThenDeleteRestores | server/src/controllers/couponsConroller.js:171-211 | adding a coupon and then deleting it restores the store table (stock included) and the coupon table |
| Invariants.RedeemTwiceRefused | server/src/controllers/couponsConroller.js:229-244 | a second redemption of the same pair is refused with 400 and changes nothing |
| Invariants.RedeemKeepsLedgerDistinct | server/src/controllers/couponsConroller.js:229-242 | the check-then-insert never adds a pair the ledger already holds |
| Invariants.RedeemAllLedger | server/src/controllers/couponsConroller.js:229-242 | after any run of redemption requests the ledger holds no pair twice and holds exactly the earlier pairs plus the requested ones |
| Controller.Database.AddStore | server/src/controllers/couponsConroller.js:27-39 | the insert leaves the tables as Handlers.AddStore says |
| Controller.Database.UpdateStore | server/src/controllers/couponsConroller.js:52-95 | existence check, upload, builder, execution: the tables and answer are those of Handlers.UpdateStore |
| Controller.Database.AddStoreFaqs | server/src/controllers/couponsConroller.js:104-117 | conversion then UPDATE of the faq column, as Handlers.AddStoreFaqs says |
| Controller.Database.AddStoreRating | server/src/controllers/couponsConroller.js:135-152 | row insert then running-total UPDATE, as Handlers.AddStoreRating says |
| Controller.Database.AddCoupons | server/src/controllers/couponsConroller.js:164-185 | validation, insert, stock UPDATE, as Handlers.AddCoupons says |
| Controller.Database.DeleteCoupon | server/src/controllers/couponsConroller.js:196-211 | lookup, delete, stock UPDATE of the store the row named, as Handlers.DeleteCoupon says |
| Controller.Database.Redeem | server/src/controllers/couponsConroller.js:227-244 | ledger check, user_count UPDATE, ledger insert, as Handlers.Redeem says |

## Left out

- Token decoding (`jwt.verify` and the header split) in `addStoreRating` and `redeem`: the decoded user id is a parameter. The failure of a missing or bad token, thrown before the handler's `try`, is not modelled.
- The media upload (`uploadAndCreateDocument`): a foreign network call. Its result is the `Upload` parameter. A missing file in `addStore` makes the upload throw, so it is treated like a failed upload.
- The `SELECT` after each write, the response bodies, the messages that embed ids, and logging: these only report state.
- Database errors other than the malformed statement that `updateStore` itself builds: connection failures, and constraint violations of a schema that is not part of this model. The only `db.query` failure modelled is the one the code provokes.
- `RunUpdate` models only the four text columns the built statement can name. A statement naming any other column is treated as refused.
- Concurrency: the race between the redemption check and the insert, and the non-atomic insert plus stock update. Handlers run as sequential atomic steps.
- `JSON.stringify` of the FAQ list: the `faq` column holds the list of records, not its JSON text.
- `Object.entries` ordering (integer-like keys first): the body arrives as its entry list, already in enumeration order.
- Handlers.AddStoreRating: the rating is an integer. A string or non-numeric rating, which the database would coerce or reject, is not modelled.
- Column defaults: new store rows are assumed to start with stock, total_ratings and ratings_count 0 and an empty FAQ list (`faq` = `[]`), and new coupons with user_count 0. The INSERT statements name none of these columns.
- The client files (admin forms, login page, listing pages): UI and HTTP calls, no bookkeeping.
