# GoMyAdmin in Dafny

GoMyAdmin is an admin server written in Go. This project models its algorithmic core and proves what that core promises:

- **List queries.** A request (tenant, role, search text, filters, sort, page) becomes SQL text with an argument vector, or a
  MongoDB document. The text is read back by a lexer and a parser written here, evaluated with three-valued logic over rows, and
  compared with a direct description of the rows wanted. The filter map is walked in an arbitrary order. The three SQL dialects
  (Postgres with `$n`, MySQL and SQLite with `?`) share one reading.
- **The stores as state machines.** Create, get, update, delete and bulk delete are methods that build statements, run them
  against tables and are tied to functions of the table. Over those functions: tenants stay apart in every run, results depend on
  the actor's own rows, updates are overlays, bulk deletes are all or nothing.
- **The query builder of `pkg/postgres`** with `pkg/filters` and `pkg/pagination`: the order is total, so pages fetched by separate
  queries make up the whole answer.
- **The migration runner**, as a loop that may fail anywhere and as any number of runners interleaving on one database.
- **Time-based state**: the rate limiter with its in-place compaction, the expiring cache call by call and lock by lock, and the
  two session stores, which are observationally equal.
- **Printers and parsers**: column and field names, filter keys, the Argon2id hash text, and the permission wildcards.

## Layout

| files | what they hold |
|---|---|
| Wrappers, Bytes, Text | options and results; bytes; prefixes, cutting, splitting, ASCII folding, decimal numbers, string order |
| SqlLexer, SqlSyntax, SqlText | tokens of SQL text; statement trees, their readers and writers; how each dialect spells them |
| Patterns, SqlMeaning | LIKE patterns and quoted regular expressions; three-valued conditions, ordered answers, effects of statements |
| Resources, ListFilters, StoreSpec | resource metadata; the rows a list request wants; what the store operations promise |
| StoreStatements, StoreText, StoreOutcomes, WhereBuilder, SqlStores | the SQL stores: clauses, texts, what the operations mean in rows, columns, tenants and roles, and the methods |
| StoreLaws, ListPages | laws over whole runs of the stores, and pages of a listing |
| MongoFilters, MongoStore | filter documents; `$set` and the bulk delete without a transaction |
| Pagination, QueryFilters, QueryBuilder, QueryPages | the stand-alone query pipeline |
| Migrate, MigrateRunners | the migration runner alone and among others |
| MemoryCache, CacheInterleaving, Sessions, RateLimiter | time-based state |
| Naming, Passwords, FilterKeys, Permissions | printers, parsers, matchers |

`dafny verify dfyconfig.toml` checks everything.

## What the inputs stand for

Clock readings, fresh ids, password salts, database failures, the order in which a database visits rows and the order in which a
map is walked are parameters or nondeterministic choices. The order of values (`Order`) is any relation; where sorting matters it
is assumed to be a total preorder. A resource is well formed (`Resources.WellFormed`) when its SQL column names are distinct, its
primary key and tenant key are declared columns without password type, the primary key is shown, and neither is `updated_at`.

## Where the code does less than one might expect

- `contains`, `starts_with` and `ends_with` mean substring, prefix and suffix exactly on values without `%`, `_` and backslash
  (`Patterns.ContainsExactlyWhenMetaFree` and its two companions).
- On Postgres a resource whose `updated_at` is writable refuses every update that sends it: the statement would assign the
  column twice (`StoreStatements.UpdateMeans`). SQLite and MySQL keep the last assignment, which is the stamp, and the MongoDB
  store lays the stamp over the input too (`MongoStore.SetIsOverlay`).
- A scoped actor who chooses the key of a new row learns from the failure that another tenant holds that key
  (`StoreLaws.TakenKeyShows`). Nothing else of other tenants can be noticed (`StoreLaws.RunsAgree`), and not this either when
  clients send no keys (`StoreLaws.FreshCreatesAlike`).
- Where a password column is neither hidden nor readonly, a get shows its hash, and a client that writes back what it was shown
  has the hash hashed again: the password no longer works (`StoreLaws.ShownHashIsHashed`; `StoreLaws.UpdateWithShown` says when
  writing back is harmless).
- A listing is sorted by one column or none. Pages fetched one by one can lose or repeat rows unless that column strictly orders
  the wanted rows (`ListPages.ListPagesExactly`); the queries of `pkg/postgres` always do (`QueryPages.PagesCover`).
- A create or update whose reading back fails answers an error although the row is stored (`SqlStores.Store.Create`,
  `SqlStores.Store.Update`).
- The bulk delete of `pkg/server` refuses a list that repeats an id; the one of `pkg/adapters/sqlstore` accepts it
  (`StoreLaws.BulkDeletesAgree`). The handler cleans repeats away (`StoreLaws.CleanedDeletable`).
- Two MongoDB filters on one field, such as the two bounds of a range, keep only the one walked last
  (`MongoFilters.TwoFiltersDiffer`); `MongoFilters.DocAgreesExactly` says when the documents and the SQL clauses agree.
- In the MongoDB store a filter on the tenant key takes the place of the tenant restriction, so where the tenant key is
  filterable a scoped actor can list another tenant's documents (`MongoFilters.TenantFilterReplaces`);
  `MongoFilters.ListsOwnExactly` says when a listing shows only the actor's own.
- MongoDB filters and searches never meet numbers (`MongoFilters.NumbersDiffer`).
- An entry stored again while a lookup is between its read and its delete is lost (`CacheInterleaving.SecondStoreIsLost`,
  and exactly then: `CacheInterleaving.DropsWhatItRead`).
- The limiter reads the clock before it takes its lock; callers entering out of order can exceed every limit but one
  (`RateLimiter.AnyOrderExactly`).
- Two columns such as `user_id` and `user_i_d` share the field name `UserID`; `Naming.FieldNamesExactly` says when two columns do.
- The pattern `*.v` is not a suffix pattern when `v` ends in `.*` (`Permissions.ActionWildcard`), and the two permission matchers
  differ on the grant `*.` (`Permissions.MatchersDifferExactly`).
- The offset of a page wraps around when the product exceeds 64 bits (`Pagination.ParseBounded`, `StoreSpec.OffsetExactly`); below
  zero Postgres and MySQL refuse it, and SQLite starts at the first row.

## Model

| member | source | states |
|---|---|---|
| Patterns.ContainsExactlyWhenMetaFree | pkg/server/store.go:506-508 | the `%v%` pattern of `contains` means substring on every text if and only if v has no `%`, `_` or backslash |
| Patterns.StartsExactlyWhenMetaFree | pkg/server/store.go:509-511 | the `v%` pattern means prefix on every text if and only if v has no metacharacter |
| Patterns.EndsExactlyWhenMetaFree | pkg/server/store.go:512-514 | the `%v` pattern means suffix on every text if and only if v has no metacharacter |
| Patterns.RegexContains | pkg/adapters/mongostore/mongostore.go:291-292 | the quoted regular expression finds exactly the substrings, for every value |
| Patterns.RegexStarts | pkg/adapters/mongostore/mongostore.go:293-294 | `^` and the quoted value find exactly the prefixes |
| Patterns.RegexEnds | pkg/adapters/mongostore/mongostore.go:295-296 | the quoted value and `$` find exactly the suffixes, of the text or of the text without a final newline |
| SqlLexer.LexQuoted | pkg/server/store.go:641-643 | any identifier, quotes inside included, reads back as one name after quoting |
| SqlLexer.LexConcat | pkg/server/store.go:469-527 | text pieces whose seams cannot fuse two tokens read piece by piece |
| SqlSyntax.ReadWritten | pkg/server/store.go:523-526 | clauses joined by `and`, each a comparison or a parenthesised `or`, read back as the tree meant: no `or` escapes its parentheses |
| SqlSyntax.NumberPositional | pkg/adapters/sqlstore/sqlstore.go:426-436 | binding `?` left to right equals binding explicit numbers exactly when the numbers in the statement count up |
| SqlText.ReadsAs | pkg/adapters/sqlstore/sqlstore.go:61-72 | a spelled statement whose numbers count 1, 2, 3, ... reads as the statement meant under positional and under numbered binding |
| SqlMeaning.NullsAreFalse | pkg/server/store.go:469-527 | without negation, three-valued truth of a condition is its two-valued reading with NULL comparisons false |
| SqlMeaning.AnswerIsExact | pkg/server/store.go:119-153 | an answer has every selected row exactly once, in any scan order |
| SqlMeaning.AnswerInOrder | pkg/server/store.go:570-588 | an answer is in the order the keys ask for |
| SqlMeaning.OrderMeans | pkg/server/store.go:570-588 | of two rows in order that tie in the keys before the k-th, the k-th value of the second is not smaller, or not greater where that key is descending |
| ListFilters.PlaceholdersCount | pkg/server/store.go:469-527 | the placeholders of the clauses are 1 to len(args), each once, in order |
| ListFilters.FormsMean | pkg/server/store.go:469-527 | whatever the order of the filter map, and whatever arguments follow, the clauses are true exactly on the rows wanted: tenant, search in some searchable column (dropped when there is none), every non-empty filter |
| ListFilters.LikeMeans | pkg/server/store.go:506-514 | case-folded LIKE patterns mean containment, prefix and suffix on values without metacharacters |
| WhereBuilder.FilterPart | pkg/server/store.go:494-521 | one filter gives the text and argument of its clause, or an error exactly when the field is not filterable or the operator unknown |
| WhereBuilder.FilterTextExactly | pkg/server/store.go:500-521 | the text of each operator's clause in each dialect, quotes, casts, symbols and placeholders included |
| WhereBuilder.SearchParts | pkg/server/store.go:477-488 | one clause text and one argument for each searchable, shown column |
| WhereBuilder.BuildWhere | pkg/server/store.go:469-527 | fails exactly when some non-empty filter is refused; else the text spells the clauses meant, in some order of the map, with exactly their arguments, in each dialect |
| WhereBuilder.CompileFilters | pkg/adapters/sqlstore/sqlstore.go:335-367 | the walk of the filter map compiles the active filters in walk order and stops at a refused one |
| StoreStatements.KeySelects | pkg/server/store.go:155-179 | a key filter selects exactly the row of that id the actor may see |
| StoreStatements.InsertMeans | pkg/server/store.go:181-233 | the insert stores exactly the completed row, every other column at its default, or fails because the key is taken |
| StoreStatements.UpdateNames | pkg/server/store.go:235-279 | no column is assigned twice, and key and tenant columns never, unless the input itself writes the stamp |
| StoreStatements.UpdateMeans | pkg/adapters/sqlstore/sqlstore.go:146-179 | the update replaces exactly the visible row by its overlay, the stamp laid over the input; it is refused exactly on Postgres when the stamp would be assigned twice, the other databases keeping the last assignment |
| StoreStatements.DeleteMeans | pkg/server/store.go:281-295 | the delete removes exactly the row of that id the actor may see |
| StoreText.InsertReads | pkg/adapters/sqlstore/sqlstore.go:390-414 | the insert text reads back as the insert of those columns with arguments 1 to n |
| StoreText.UpdateReads | pkg/adapters/sqlstore/sqlstore.go:146-179 | the update text reads back as assignments 1 to n followed by the key filter's arguments |
| StoreText.DeleteReads | pkg/server/store.go:281-295 | the delete text reads back as a delete with the key filter |
| StoreText.GetReads | pkg/server/store.go:155-179 | the get text reads back as a select of the shown columns with the key filter and limit 1 |
| StoreText.SpellsOrderClause | pkg/server/store.go:570-588 | the order text spells the requested sort, the default sort, or nothing when the field is unknown or not sortable |
| SqlStores.Store.List | pkg/server/store.go:119-153 | a page of the wanted rows cut from one ordered answer without repeats: with p the page, or 1, and n the page size, or 25 unless it is 1 to 100, and where (p-1)*n fits 64 bits, the answer holds the max(0, min(n, total-(p-1)*n)) rows from (p-1)*n on, each with exactly the columns that are not hidden, and the total; a role other than `super_admin` on a tenant-scoped resource is shown only rows with its tenant's text in the tenant column; fails exactly on an unknown table, a refused filter, a failing statement, or an offset that wrapped around below zero where the database refuses one |
| StoreSpec.OffsetExactly | pkg/server/store.go:138 | the offset of a page is the one meant if and only if it fits 64 bits |
| SqlStores.Store.RunSelect | pkg/server/store.go:130-145 | limit and offset take the next two placeholders and cut the page; refused exactly on a negative offset outside SQLite |
| SqlStores.Store.Get | pkg/server/store.go:155-179 | the columns that are not hidden of the row, exactly when the id is in the table and the resource has no tenant key, the role is `super_admin` or the tenant column has the actor's tenant as text; else not found; an error when the query fails |
| SqlStores.Store.Create | pkg/server/store.go:181-233 | adds exactly the completed row under its key, unlisted columns at their defaults, and shows it; fails with no effect when the key is taken, a password cannot be hashed or the insert fails, and with the row stored when reading it back fails |
| SqlStores.Store.Update | pkg/server/store.go:235-279 | overlays the writable input on the one row, answers old and new, leaves every other row; without database failures it goes through exactly on a row of the actor's tenant (any row for `super_admin` or without a tenant key) unless, on Postgres, the input writes a column `updated_at`; refused with no effect when the read, the hashing or the update fails, and fails after the update when reading back fails |
| SqlStores.Store.Delete | pkg/server/store.go:281-295 | removes exactly the row of that id and answers it, exactly when no statement fails and the row is the actor's tenant's, the role `super_admin` or the resource without a tenant key; otherwise no effect |
| SqlStores.Store.DeleteMany | pkg/server/store.go:297-349 | all or nothing under any database failure: removes exactly the listed rows and answers them in order, or nothing; without failures it succeeds exactly on distinct ids of rows of the actor's tenant (of any rows for `super_admin` or without a tenant key) |
| SqlStores.Store.DeleteManyReadingOutside | pkg/adapters/sqlstore/sqlstore.go:197-229 | the same with reads outside the transaction: without failures it succeeds exactly on ids of such rows, repeated or not |
| SqlStores.Store.DeleteThroughMany | pkg/adapters/sqlstore/sqlstore.go:186-195 | a delete by way of the bulk delete does what a direct delete does, or nothing under any database failure; without failures it succeeds exactly on a row of the actor's tenant, or any row for `super_admin` or without a tenant key |
| SqlStores.DeleteEach | pkg/server/store.go:308-345 | the transaction's loop deletes a growing prefix of seen ids and stops at the first id not seen inside the transaction |
| SqlStores.InsertParts | pkg/adapters/sqlstore/sqlstore.go:390-414 | columns, marks and arguments of the insertable fields, in step |
| SqlStores.UpdateParts | pkg/server/store.go:246-270 | assignments and arguments of the written fields and the stamp, in step, with numbers 1 to n |
| StoreOutcomes.SeesExactly | pkg/server/store.go:155-179 | an actor sees a row exactly when its id is in the table and the resource has no tenant key, the role is `super_admin` or the row's tenant column has the actor's tenant as text |
| StoreOutcomes.PageExactly | pkg/server/store.go:124-153 | where (p-1)*n fits 64 bits, page p of size n has the rows of the answer from (p-1)*n on, as many as there are up to n, each with exactly the columns not hidden |
| StoreOutcomes.WantedExactly | pkg/server/store.go:469-527 | a listing is about the rows with the actor's tenant in the tenant column (all for `super_admin` and without a tenant key), found by the search when some field is searchable and not hidden, and meeting every filter with a value |
| StoreOutcomes.SearchExactly | pkg/server/store.go:475-493 | a row is found when some searchable, not hidden field contains the search, case folded (as a pattern when it has a metacharacter) |
| StoreOutcomes.FilterExactly | pkg/server/store.go:494-521 | what `field::operator`, or `field` for equality, asks of the field's value, operator by operator; NULL meets none |
| StoreOutcomes.RefusedExactly | pkg/server/store.go:494-521 | a filter with a value is refused unless its field is declared filterable and its operator is one of the eight |
| StoreOutcomes.SortExactly | pkg/server/store.go:570-588 | the sort given, else the default one, else on Postgres `-created_at`; descending exactly after a minus sign, in keys and in text, and none when the column is unknown or not sortable |
| StoreOutcomes.OrderExactly | pkg/server/store.go:570-588 | a listing's values in the sorted column never decrease, or never increase when descending |
| StoreOutcomes.CreateExactly | pkg/server/store.go:181-233 | a create fails when the client's key, or the fresh id when none is sent, is taken; otherwise it adds one row under it, with every column of the table, leaves all others, and shows that row |
| StoreOutcomes.CreatedColumn | pkg/server/store.go:187-219 | column by column: the key, the creator's tenant whatever was sent, the client's value or a password's hash, the time where a stamp is missing or NULL, and the table's default in hidden, undeclared and unsent columns |
| StoreOutcomes.UpdateExactly | pkg/server/store.go:235-279 | an update goes through exactly on a row the actor sees and, on Postgres, without `updated_at` among the writable input |
| StoreOutcomes.CreateHashes | pkg/server/store.go:205-219 | a create hashes when a password is sent that is not hidden |
| StoreOutcomes.UpdateHashes | pkg/server/store.go:243-262 | an update hashes exactly when a password is sent that is neither readonly, hidden, key nor tenant |
| StoreOutcomes.UpdateAssigns | pkg/server/store.go:243-270 | an update assigns something exactly when there is a stamp or a field is sent that is neither readonly, hidden, key nor tenant |
| StoreOutcomes.BulkExactly | pkg/server/store.go:297-349 | a bulk delete goes through exactly on rows the actor sees, without repeats on Postgres, and then exactly those rows are gone |
| StoreLaws.StepSeparates | pkg/server/store.go:181-349 | with a tenant key, an operation under a role other than `super_admin`, of either SQL store, leaves every other tenant's rows as they were |
| StoreLaws.StepFrames | pkg/server/store.go:181-349 | with a tenant key, an operation under a role other than `super_admin` leaves every row that is not the actor's tenant's, be it nobody's; what it adds is one created row, and every row it touches is the tenant's |
| StoreLaws.RunSeparates | pkg/server/store.go:181-349 | so does every run of operations by actors of other tenants, none of them `super_admin` |
| StoreLaws.RunFrames | pkg/server/store.go:181-349 | over every run of actors who are not `super_admin`, with a tenant key, a row that is none of their tenants' stays as it is, be it nobody's |
| StoreLaws.StepAgrees | pkg/server/store.go:155-349 | two tables that agree on the actor's rows give equal answers, and agree afterwards, if and only if the key of a create is free in both or taken in both |
| StoreLaws.TakenKeyShows | pkg/server/store.go:181-233 | for every key held by another tenant or by nobody a scoped actor's create under it fails, although without that unseen row everything the actor sees is the same and the create goes through |
| StoreLaws.RunsAgree | pkg/server/store.go:155-349 | with a tenant key and no actor `super_admin`: what a tenant's actors are answered amid any run is what they would be answered alone, from any table agreeing on their rows, if and only if the keys they create are free alike; the tables then agree on their rows afterwards |
| StoreLaws.NoCreatesAlike | pkg/server/store.go:155-349 | the hypothesis on keys holds of every run in which the tenant creates nothing |
| StoreLaws.FreshCreatesAlike | pkg/server/store.go:187-189 | the hypothesis on keys holds of every run in which the tenant's creates carry no key of their own and their fresh ids are in neither table and not created before |
| StoreLaws.ListingsAgree | pkg/server/store.go:119-153 | a listing, its page and its total depend on the actor's rows only, and show only those |
| ListPages.StatementAnswers | pkg/server/store.go:119-153 | whatever the walk of the filters and whatever arguments follow, the list statement answers the wanted rows as sorted from its scan |
| ListPages.ScansSameExactly | pkg/server/store.go:570-588 | every scan of the table gives the same answer if and only if the sort keys strictly order any two rows of it |
| ListPages.ListPagesExactly | pkg/server/store.go:130-145 | pages of a listing fetched by separate requests have every wanted row, whatever the scans, if and only if the requested sort strictly orders any two wanted rows; an unsorted listing only with at most one row |
| ListPages.PagesMakeUp | pkg/server/store.go:130-145 | pages 1, 2, 3, ... of one answer concatenate to the listing, row by row and in order, once they are enough for its total and their offsets fit 64 bits |
| StoreLaws.CreateOwns | pkg/server/store.go:190-195 | a created row carries the creator's tenant |
| StoreLaws.UpdateOverlays | pkg/server/store.go:235-279 | an update that goes through changes one row and answers it before and after: key, tenant, readonly, hidden, undeclared and unsent columns keep their values, the stamp takes the time, passwords their hash, all others the input; one that does not go through changes nothing |
| StoreLaws.UpdateTwice | pkg/server/store.go:235-279 | two updates, each with its own salts, leave the table one update with the second input laid over the first would leave, if and only if that one hashes every password it writes as the call that sent it did |
| StoreLaws.UpdateWithShown | pkg/server/store.go:235-279 | updating a row with what a get answered changes its stamp and nothing else if and only if hashing leaves every stored password that get shows and update writes as it is; on Postgres a stamp clash changes nothing |
| StoreLaws.ShownHashIsHashed | pkg/server/store.go:246-262 | of every password column that get shows and update writes, writing back what was shown stores the hash of the stored hash |
| StoreLaws.CreateThenGet | pkg/server/store.go:181-233 | a get by the creator's tenant under the client's key, or the fresh id when none is sent, answers what the create answered; of each field not hidden it shows the client's value (a password's hash), the key, the creator's tenant, the time of a missing stamp, or the table's default |
| StoreLaws.BulkDeletesAgree | pkg/adapters/sqlstore/sqlstore.go:197-229 | the two bulk deletes succeed on the same lists exactly when no id repeats or some id is not visible |
| StoreLaws.UpdatesAgree | pkg/adapters/sqlstore/sqlstore.go:146-179 | the two SQL stores take the same updates of a visible row exactly when the input does not write the stamp |
| StoreLaws.CleanIDs | pkg/server/handler.go:205-217 | the ids trimmed, without blanks, each once, in order |
| StoreLaws.CleanedIs | pkg/server/handler.go:205-217 | the cleaned ids have no repeats and are exactly the non-blank trimmed ids |
| StoreLaws.CleanedInOrder | pkg/server/handler.go:205-217 | what the first n ids leave comes first |
| Text.TrimSpaceExactly | pkg/server/handler.go:205-217 | trimming cuts the white space off both ends, and no more |
| StoreLaws.CleanedDeletable | pkg/server/handler.go:205-217 | after cleaning, both bulk deletes succeed exactly when every non-blank trimmed id is visible |
| MongoFilters.BuildFilter | pkg/adapters/mongostore/mongostore.go:260-310 | fails exactly when some non-empty filter is refused; else the document is the opening with the filters set in some order of the map |
| MongoFilters.LastFilterStays | pkg/adapters/mongostore/mongostore.go:276-308 | the last filter set on a field decides its entry; where there is none the opening's entry stays |
| MongoFilters.EntryAsks | pkg/adapters/mongostore/mongostore.go:288-304 | for every value and every document the entry is equality, containment, prefix, suffix (before a final newline too) or the comparison asked for, on strings only |
| MongoFilters.EntryMeans | pkg/adapters/mongostore/mongostore.go:288-304 | an entry means what the SQL clause means on all texts if and only if a pattern's value has no LIKE metacharacter and an `ends_with` value has only newlines; on texts without a final newline the metacharacters alone decide, for values without one |
| MongoFilters.NumbersDiffer | pkg/adapters/mongostore/mongostore.go:286-304 | no entry is met by a number, although the SQL clauses compare its text |
| MongoFilters.DocMeans | pkg/adapters/mongostore/mongostore.go:260-310 | exactly what the document selects, for any accepted filters: the search, the last filter walked on every field, and the tenant restriction where no filter is on the tenant key |
| MongoFilters.ListsOwnExactly | pkg/adapters/mongostore/mongostore.go:262-288 | a scoped listing shows only rows of the actor's tenant, whatever walk, search and order of values, if and only if every filter on the tenant key asks for equality with that tenant |
| MongoFilters.TenantFilterReplaces | pkg/adapters/mongostore/mongostore.go:262-288 | with a filterable tenant key the filter of another tenant is accepted and the document asks for that tenant alone |
| MongoFilters.FilterDocMeans | pkg/adapters/mongostore/mongostore.go:260-310 | where no filter displaces another or the tenant restriction and every filter means the same in both, the document selects exactly the rows the SQL stores select, for a search without metacharacters or without searchable columns |
| MongoFilters.DocAgreesExactly | pkg/adapters/mongostore/mongostore.go:260-310 | document and SQL clauses agree on every row with strings in the tenant, searched and filtered columns, every walk, every search without metacharacters and every order of values, if and only if two filters on one field are the same equality, none displaces the tenant restriction, and every filter means the same in both (EntryMeans); for all eight operators, with or without texts that end in a newline |
| MongoFilters.TwoFiltersDiffer | pkg/adapters/mongostore/mongostore.go:276-308 | two filters with different operators on one field, such as the bounds of a range: both are accepted and the document asks for the one walked last, whatever the other says |
| MongoStore.SetIsOverlay | pkg/adapters/mongostore/mongostore.go:118-148 | `$set` leaves the overlay of the SQL stores if and only if the document has every assigned column and no assigned password is changed by hashing; the stamp wins as in SQLite and MySQL |
| MongoStore.Collection.DeleteMany | pkg/adapters/mongostore/mongostore.go:161-179 | a failure at an id leaves exactly the documents of the ids before it deleted; success answers all of them in order |
| MongoStore.Collection.DeleteSeen | pkg/adapters/mongostore/mongostore.go:150-159 | one delete removes exactly the visible document or nothing |
| MongoStore.Collection.Update | pkg/adapters/mongostore/mongostore.go:118-148 | sets the writable input and the stamp on the one visible document |
| Pagination.ParseBounded | pkg/pagination/pagination.go:23-36 | pages are bounded, and the offset is the exact product if and only if that fits 64 bits |
| Pagination.ParseReads | pkg/pagination/pagination.go:23-36 | the first value of `page` or 1; the first value of `per_page`, or of `limit` where that is missing or empty, at most 100, or 25 |
| Pagination.PageCountCovers | pkg/pagination/pagination.go:38-49 | the reported page count is the least that covers the total |
| QueryFilters.ParseSort | pkg/filters/filters.go:75-97 | fails exactly on a part that names no sortable field; else the sorts of the parts in order, all allowed |
| QueryFilters.SortsRead | pkg/filters/filters.go:75-97 | sorts written with commas between them and a minus sign before a descending one are read back as they were |
| QueryFilters.ParseFilters | pkg/filters/filters.go:99-132 | the filters in the order of the sorted keys, or the first error in that order; fails exactly when some key is refused |
| QueryFilters.FiltersAre | pkg/filters/filters.go:99-132 | the filters are exactly what the keys contribute |
| QueryFilters.FiltersPrefix | pkg/filters/filters.go:106-131 | what the first keys contribute comes first |
| QueryFilters.FiltersAllowed | pkg/filters/filters.go:99-132 | every accepted filter names a filterable field with an operator its type allows |
| QueryFilters.Parse | pkg/filters/filters.go:52-73 | fails exactly on a refused sort or filter; else the query asked for, its search the trimmed `q` or else `search`, and admissible: bounded page, allowed sorts and filters |
| QueryBuilder.PlaceholdersCount | pkg/postgres/query.go:55-108 | `$1` to `$len(args)` each occur once, in order |
| QueryBuilder.FormsMean | pkg/postgres/query.go:55-108 | in whatever order the fields are walked, and whatever arguments follow, the clauses are true exactly on the rows asked for, which AskedExactly describes column by column and operator by operator |
| QueryBuilder.FilterExactly | pkg/postgres/query.go:151-179 | per operator: gte and lte are at least and at most, gt and lt the strict forms, contains, starts_with and ends_with are containment, prefix and suffix of folded texts on values without metacharacters (else the pattern), every other operator, `in` among them, equal text; NULL meets none |
| QueryBuilder.AskedExactly | pkg/postgres/query.go:55-108 | the rows a query is about, in terms of the tenant column's text, the searchable columns and each filter's column and operator |
| QueryBuilder.ColumnTextExactly | pkg/postgres/query.go:97-101 | a filter's clause is the column in double quotes, the operator's symbol and its `$n` |
| QueryBuilder.Where | pkg/postgres/query.go:55-108 | compiles exactly when every named field is filterable and every column a valid identifier; the text spells the clauses meant |
| QueryBuilder.KeyFoundByText | pkg/postgres/query.go:130-139 | looking for the primary key by text prefix finds exactly the primary key column |
| QueryBuilder.OrderBy | pkg/postgres/query.go:110-149 | compiles exactly when every sort is allowed; the text spells the sorts and then the primary key unless present |
| QueryPages.Select | pkg/postgres/query.go:22-41 | compiles exactly when table, filters and sorts do; the text reads as the ordered, windowed select of the rows asked for (AskedExactly says which) |
| QueryPages.Count | pkg/postgres/query.go:43-53 | compiles exactly when table and filters do; the text reads as the count with the same condition as the select |
| QueryPages.CompilesExactly | pkg/postgres/query.go:55-192 | a query compiles exactly when tenant column and every column used consist of letters, digits and underscores and its filters and sorts name filterable and sortable fields |
| QueryPages.SortsExactly | pkg/postgres/query.go:110-149 | of two rows in order that tie in the sorts before the k-th, the k-th does not put them the other way round, in its direction; rows that tie in all are in the order of the primary key |
| QueryPages.ParsedCompiles | pkg/filters/filters.go:52-132 | every query the parser accepts compiles over valid identifiers |
| QueryPages.SelectRuns | pkg/postgres/query.go:22-41 | running a page's select text finds exactly that page of the ordered answer, or is refused exactly when the offset wrapped around below zero |
| QueryPages.AnsweredAsked | pkg/postgres/query.go:22-41 | whatever page it asks for, a select text answers only rows asked for, none twice |
| QueryPages.CountRuns | pkg/postgres/query.go:43-53 | running the count text counts exactly the rows asked for |
| QueryPages.KeyDecides | pkg/postgres/query.go:130-144 | with the primary key among the sort keys any two rows are strictly ordered |
| QueryPages.OneOrder | pkg/postgres/query.go:110-149 | the same rows have only one sorted order |
| QueryPages.WholeAnswer | pkg/postgres/query.go:22-41 | every page of every walk and scan is cut from one and the same answer |
| QueryPages.PagesCover | pkg/pagination/pagination.go:38-49 | pages 1 to ceil(total/perPage), each from its own query, concatenate to the whole ordered answer, no row lost or repeated |
| Migrate.FromFS | pkg/migrate/migrate.go:39-66 | the migrations of the `.sql` files (FileReads), in ascending order of version |
| Migrate.FileReads | pkg/migrate/migrate.go:46-60 | `v_n.sql` gives version v, name n, the text and its checksum, `v.sql` a version without a name; directories and other names give nothing |
| Migrate.FilesRead | pkg/migrate/migrate.go:45-60 | the migrations are exactly those the files give |
| Text.StringLeExactly | pkg/migrate/migrate.go:61-63 | versions are compared by the first character in which they differ, a prefix first |
| Migrate.OrderIsForced | pkg/migrate/migrate.go:61-65 | with distinct versions the list does not depend on the order of the directory |
| Migrate.Runner.Applied | pkg/migrate/migrate.go:103-118 | the recorded versions with their checksums |
| Migrate.Runner.Apply | pkg/migrate/migrate.go:120-141 | one migration in one transaction: committed with its ledger row, or nothing |
| Migrate.Runner.Up | pkg/migrate/migrate.go:68-91 | commits exactly the unrecorded migrations before the position where it stopped, in list order; it stops at a position that does not pass or that the database refuses, and succeeds otherwise |
| Migrate.SucceedsExactly | pkg/migrate/migrate.go:68-91 | a run passes everywhere if and only if recorded checksums match, no unrecorded version repeats, and the unrecorded statements succeed in order |
| Migrate.PassedAreRecorded | pkg/migrate/migrate.go:68-91 | every version passed is recorded with its checksum afterwards |
| Migrate.ResumeCompletes | pkg/migrate/migrate.go:68-91 | a run from what an earlier run committed before any position ends where one run would: a second run changes nothing |
| Migrate.RepairCompletes | pkg/migrate/migrate.go:68-91 | after a failure at k, a list repaired from k on completes |
| MigrateRunners.StepKeeps | pkg/migrate/migrate.go:68-141 | every step of any runner keeps the ledger the projection of the history, versions distinct, recorded checksums unchanged, and what each runner knows true |
| MigrateRunners.AnyInterleaving | pkg/migrate/migrate.go:68-141 | over every interleaving of any number of runners with stale snapshots: no version committed twice, no recorded checksum changed, and a runner that finished has its whole list recorded |
| MigrateRunners.NothingElseCommitted | pkg/migrate/migrate.go:68-141 | whatever is committed is from some runner's list |
| MigrateRunners.LoserLeavesNothing | pkg/migrate/migrate.go:120-141 | in any interleaving a commit finds its version absent from the ledger as it was when the runner took its snapshot; it fails exactly when some commit recorded the version between that snapshot and now, and then has no effect; otherwise history and ledger have it |
| MigrateRunners.SnapshotTaken | pkg/migrate/migrate.go:75-78 | in any interleaving a working runner's snapshot is the whole ledger as it was when the runner took it |
| MigrateRunners.GoesBySnapshot | pkg/migrate/migrate.go:79-89 | in any interleaving a migration recorded in the ledger at the runner's snapshot is compared, and passed exactly on the same checksum; one not recorded there is executed |
| MigrateRunners.AloneIsUp | pkg/migrate/migrate.go:68-91 | every run of a lone runner that does not crash, its statements answered by the schema, takes at most two events a migration and two more; finished it has committed what `Up` commits, and stopped it has committed what comes before a migration that does not pass |
| MigrateRunners.AloneFinishesExactly | pkg/migrate/migrate.go:68-91 | such a runner can finish if and only if every migration of its list passes, and stop short if and only if not |
| MemoryCache.Cache.Get | pkg/cache/cache.go:38-51 | finds a copy of the entry unless it has an expiry before the reading of the clock; an expired one is dropped and nothing else changes |
| MemoryCache.Cache.Set | pkg/cache/cache.go:53-64 | stores a private copy with the reading plus the ttl as its expiry, and none when the ttl is not positive |
| MemoryCache.Cache.Delete | pkg/cache/cache.go:66-71 | removes exactly the key |
| MemoryCache.StoredThenFound | pkg/cache/cache.go:38-64 | a stored value is found until the ttl has passed, for ever when the ttl is not positive; other keys are not affected |
| CacheInterleaving.ReturnsStoredLive | pkg/cache/cache.go:38-51 | in any interleaving a lookup returns the value it read under its key exactly when there was one and its expiry is none or not before the reading of the clock; that value was stored under the key |
| CacheInterleaving.VanishesOnlyExpired | pkg/cache/cache.go:38-71 | in any interleaving where each key is stored at most once, an entry vanishes only by an explicit delete or when expired |
| CacheInterleaving.HeldExactly | pkg/cache/cache.go:38-71 | in any interleaving the cache holds an entry if and only if the last event that touched its key stored it |
| CacheInterleaving.DropsWhatItRead | pkg/cache/cache.go:38-46 | in any interleaving a lookup's delete removes a live entry if and only if the key was stored again after the lookup's read, untouched since, with an entry not expired |
| CacheInterleaving.SecondStoreIsLost | pkg/cache/cache.go:38-46 | for every key, every entry judged expired and every unexpired entry stored before the delete: the new entry is lost |
| Sessions.MemorySessionStore.Create | pkg/auth/session.go:43-58 | stores the session under its id with expiry and creation time from two readings |
| Sessions.MemorySessionStore.Get | pkg/auth/session.go:60-68 | finds the session exactly when it is there and the reading is not after its expiry |
| Sessions.CacheSessionStore.Create | pkg/auth/cache_session_store.go:24-39 | stores the encoded session so that the cache still represents all sessions |
| Sessions.CacheSessionStore.Get | pkg/auth/cache_session_store.go:41-61 | finds a session exactly when it was created, not deleted, and the deciding reading is not after its expiry |
| Sessions.CacheSessionStore.Delete | pkg/auth/cache_session_store.go:63-68 | forgets exactly that session |
| Sessions.KeysDiffer | pkg/auth/cache_session_store.go:70-76 | a cache key is the prefix, or `gomyadmin:session:`, and the id: different ids have different keys, for every prefix |
| Sessions.CreateRepresents | pkg/auth/cache_session_store.go:24-39 | creating keeps the cache a representation of the sessions, for every ttl, the cache's own clock reading being later |
| Sessions.GetAgrees | pkg/auth/cache_session_store.go:41-61 | a cache lookup answers what the map answers at the deciding reading, and still represents the map |
| Sessions.RunsAgree | pkg/auth/session.go:43-75 | both stores give equal answers to every sequence of operations, for every ttl and every nondecreasing clock with several readings per call |
| RateLimiter.Limiter.constructor | pkg/auth/rate_limit.go:20-28 | limit and window, 5 and one minute when not positive |
| RateLimiter.Compact | pkg/auth/rate_limit.go:46-53 | compacting in place leaves exactly the functional filter in front of the same array |
| RateLimiter.Limiter.Allow | pkg/auth/rate_limit.go:41-60 | decides and logs as the functional limiter does, leaves other keys' logs alone, and keeps every log within the limit |
| RateLimiter.LogRemembers | pkg/auth/rate_limit.go:41-60 | under a nondecreasing clock nothing forgotten can count again |
| RateLimiter.AdmitsExactly | pkg/auth/rate_limit.go:41-60 | under a nondecreasing clock an attempt is admitted if and only if its window holds fewer than limit admitted attempts of its key |
| RateLimiter.NoWindowExceeds | pkg/auth/rate_limit.go:41-60 | no half-open window (t - window, t] ever holds more than limit admitted attempts of a key |
| RateLimiter.NoBurst | pkg/auth/rate_limit.go:41-60 | under a nondecreasing clock, of any limit + 1 admitted attempts of a key the last comes at least a window after the first |
| RateLimiter.KeysIndependent | pkg/auth/rate_limit.go:41-60 | a key fares as if it were alone, whatever the clock |
| RateLimiter.OutOfOrderExceeds | pkg/auth/rate_limit.go:42-43 | for every limit from two on and every window: a burst, an attempt a window later and one a moment before that put limit + 1 admitted attempts in one window |
| RateLimiter.AnyOrderExactly | pkg/auth/rate_limit.go:41-60 | with attempts entering in any clock order no window ever exceeds the limit if and only if the limit is one |
| Naming.ColumnToFieldName | internal/cli/cli.go:93-115 | the loop computes the field name of the words of the column |
| Naming.WordsExactly | internal/cli/cli.go:94-112 | `id`, `url`, `uuid`, `api`, `ip` and `uri` become capitals, any other word gets one capital |
| Naming.CamelToSnake | pkg/server/meta.go:114-135 | the loop computes the snake form, character by character with its context |
| Naming.SnakeOfField | pkg/server/meta.go:114-135 | reading a generated name gives its words back, an underscore missing exactly at each clash |
| Naming.RoundTripExactly | internal/cli/cli.go:93-115 | on small-letter segments joined by underscores the round trip gives the column back if and only if no acronym or one-letter segment is followed by an acronym, a one-letter segment, or one with a digit second |
| Naming.FieldNamesDiffer | internal/cli/cli.go:93-115 | on the columns that round trip the field names are distinct |
| Naming.FieldNamesExactly | internal/cli/cli.go:93-115 | two columns of small-letter segments share a field name if and only if they have the same words once every acronym is spelled out in one-letter words |
| Naming.FieldNamesCollide | internal/cli/cli.go:93-115 | a column with an acronym segment shares its field name with the column that has the acronym's letters as segments, wherever it stands |
| Passwords.Base64RoundTrip | pkg/auth/password.go:49-50 | unpadded base64 decodes to the bytes encoded |
| Passwords.EncodeThree | pkg/auth/password.go:49-50 | three bytes are a number of 24 bits and become its four digits of base 64, the highest first |
| Passwords.AlphabetExactly | pkg/auth/password.go:49-50 | the digits are A to Z, a to z, 0 to 9, `+` and `/` |
| Passwords.HashPassword | pkg/auth/password.go:35-52 | the text `$argon2id$v=19$m=..,t=..,p=..$salt$key` of the configuration, of 64*1024, 3, 2, 16 and 32 when the memory is zero, with salt and derived key in base64 |
| Passwords.ReadHash | pkg/auth/password.go:63-104 | the loop reader computes the decoder |
| Passwords.HashExactly | pkg/auth/password.go:63-104 | a text is a hash exactly when it has six parts, `argon2id` and `v=19` in their places, three parameters with decimal values below 2^32, and a salt and a key that decode |
| Passwords.HashRoundTrip | pkg/auth/password.go:44-104 | decoding a hash text gives back every parameter, the salt and the key, for all 32, 32 and 8 bit parameters |
| Passwords.VerifyPassword | pkg/auth/password.go:54-61 | an error exactly on a malformed text, else whether the password derives the stored key from the parameters and salt read |
| Passwords.HashVerifies | pkg/auth/password.go:35-61 | a hash verifies with exactly the passwords that derive its key |
| FilterKeys.ParseRequestFilters | pkg/server/handler.go:185-203 | the filters are exactly the re-encoded keys with values, each with a value of some key that reads so |
| FilterKeys.FilterKeyExactly | pkg/filters/filters.go:134-151 | `filter[f][op]` reads as (f, op) if and only if f is not empty and has no seam inside or bracket at its end, and op has no seam |
| FilterKeys.ReencodedExactly | pkg/server/handler.go:185-203 | through `f::op` and the cut, (f, op) comes back if and only if moreover f has no `::` inside and no `:` at its end |
| FilterKeys.ReencodedFilters | pkg/server/store.go:494-497 | the stores then filter by field f with operator op |
| FilterKeys.PlainKeyExactly | pkg/filters/filters.go:134-151 | `filter[f]` is read as f without an operator, and passed on as f, if and only if f is not empty and has no seam inside |
| FilterKeys.PlainFilters | pkg/server/store.go:494-497 | the stores read f as an equality on f if and only if it has no `::` inside |
| FilterKeys.FilterReads | pkg/filters/filters.go:106-177 | a parameter gives the filter of its field, operator and first value exactly when the field is filterable and its type allows the operator; without one, text contains and everything else is equal |
| Permissions.MatchersDifferExactly | pkg/admin/context.go:56-71 | the two matchers differ exactly on the grant `*.` for another request ending in a dot |
| Permissions.ResourceWildcard | pkg/rbac/rbac.go:63-65 | `r.*` grants exactly the requests with prefix `r.` |
| Permissions.ActionWildcard | pkg/rbac/rbac.go:66-69 | `*.v` grants exactly the requests with suffix `.v`, if and only if v is not `*` and does not end in `.*` |
| Permissions.PlainGrant | pkg/rbac/rbac.go:59-71 | a grant without a wildcard grants itself and nothing else, and `*` everything |
| Permissions.ActorCan | pkg/admin/context.go:47-54 | the search over the actor's own permissions |
| Permissions.Can | pkg/rbac/rbac.go:41-57 | own permissions, or a permission of a known role |
| Permissions.GrantsMonotone | pkg/rbac/rbac.go:41-57 | more permissions, roles, or role permissions never take a right away |
| Permissions.DefaultRoles | pkg/rbac/rbac.go:31-39 | super_admin may do everything, viewer exactly what ends in `.view`, tenant_admin what is under users, invoices and files and `audit.view`, manager and support exactly their lists, and no other role anything |

## Left out

- SqlStores.Store.Update: a row deleted or changed in between by another client, since calls are taken one at a time; a failing statement has no effect, so a statement whose outcome is unknown is not modelled.
- SqlStores.Store: one class with a dialect stands for the two SQL stores, which differ in text, in the default sort and in their bulk deletes.
- SqlMeaning.Eval: a column missing from a row reads as NULL; equality compares text forms; backslash escapes in LIKE patterns in every dialect, although SQLite has no escape unless asked; a lone trailing backslash matches nothing instead of being an error.
- StoreStatements.InsertMeans: foreign keys, other unique columns and value types of the database are not part of the table; a column's default is a constant of the table, never computed at the insert.
- StoreSpec.Stored: lists, objects and byte strings are not values of the model, so normalising them to JSON or UUID text is not modelled.
- MongoFilters.DocAgreesExactly: rows with numbers in the tenant, searched or filtered columns, and searches with LIKE metacharacters, are not compared; `MongoFilters.DocMeans` still says what the document selects.
- MongoStore.Collection: the MongoDB store's get and list show hidden columns, its create stores passwords as given and does not refuse a key that is taken; create and list are not modelled, and one document per key (`Valid`) is an assumption. Of failures only those of the bulk delete are modelled.
- MongoFilters.DocMeans: no column is named `$or`, and column names with dots, which MongoDB reads as paths, are taken as plain names; range filters compare strings; other value types, `_id` normalisation, sorting and skipping are not modelled.
- Patterns.RegexEnds: regular expressions are read only in the fragment the store emits: literals, quoted literals and anchors.
- QueryBuilder.FormsMean: the operator `in` is an equality, as in the code.
- Migrate.Runner.Up: a migration whose statement changes the ledger table, MySQL's implicit commits and a commit whose outcome is unknown; checksums are given, not computed.
- MigrateRunners.AnyInterleaving: transactions are serialisable, and a statement's success inside its transaction is any answer of the database.
- MemoryCache.Cache.Set: the sum of a reading and a ttl does not overflow, and no clock reading is the zero time.
- Sessions.CacheSessionStore.Get: sessions are encoded and decoded by a pair of functions that round trip, so undecodable data does not arise; random ids are inputs; two callers at once are not modelled.
- Naming.RoundTripExactly: letters are ASCII; columns with empty words or capitals are covered by the loop but not by the round trip.
- Passwords.HashVerifies: the key derivation is any function giving as many bytes as asked; its refusal of zero rounds or lanes is not modelled.
- Text: case folding and white space are ASCII.
- HTTP handlers, routing, cookies, JSON, logging, audit, API keys, file storage, schema introspection, code generation and the frontend are not modelled.
- Cryptographic functions, random sources and connection pools are not modelled.
