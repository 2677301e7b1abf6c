# Parents, Kids and Drugs: a Dafny model of the clinic back end's record lifecycle

This project models the record lifecycle behind three tables of a small clinic back end.
The parents table holds families keyed by phone. The kids table holds children, looked
up by name and birthday. The drugs table is the inventory, with unique sku and unique
name. Each table is a class whose state is a map from integer id to row, plus the next
id the store hands out. The class invariant says the ids are exactly 1 up to that next id,
each row is stored under its own id, and the table's unique constraints hold. This
matches an SQLite rowid table in which rows are never removed.

The operations are the route handlers and CRUD helpers:

- create-or-restore for parents and kids: a matching deleted row is brought back instead
  of inserting a duplicate;
- partial update of a parent and full overwrite of a kid;
- soft delete and restore, including the shared soft-delete mixin;
- the search of parents: not deleted, case-insensitive substring filters on name and
  phone, highest id first, cut to a limit;
- the `parse_dates` validator the payloads share;
- the single drug insert with its rollback path;
- the JSON batch import of drugs, with its per-item success and failure counters and one
  commit at the end.

HTTP responses become a `Result` datatype. Its failures are `NotFound` (the 404 of the parent routes and of a missing parent in kid create; in `edit_kid` it stands for the 303 redirect to /kids), `AlreadyExists`
(the 400 duplicate answers), `IntegrityError` (the rolled-back insert), `ServerError`
(the 500 of a failed import commit) and `Invalid` (a rejected date). The clock is a
parameter `now`. The date library (`datetime.fromisoformat`, `strptime`) and Python's
`float()`/`int()` are functions passed in as parameters, answering `None` where Python raises.

Modules: `Common` (results, time), `Store` (the contiguous-id invariant and `.first()`),
`PatientModels` and `DrugModels` (the ORM models), `DateParsing`, `Parents`, `Kids`, `Drugs`.

On these points the model follows the code:

- Restoring a parent or kid through create does not clear `deleted_at`. So "`deleted_at`
  is set iff `deleted`" is not an invariant, and `Parents.CreateRestoreKeepsDeletionTime`
  shows this.
- Phone (parents) and sku and name (drugs) are unique over all rows, deleted ones
  included. These are the store's constraints, not uniqueness among active rows only.
- Nothing enforces uniqueness of a kid's (name, birthday). Create looks only at the first
  match, and edit can copy another kid's key (`Kids.EditCanDuplicateKey`).
- A kid with no birthday matches another kid with no birthday, because the comparison
  with None becomes `IS NULL`.
- Soft delete and restore of a parent do not look at the current flag. They fail only for
  an unknown id.
- Adding a drug whose name belongs to a deleted drug is refused; it is not restored.
- The search limit is not clamped. The route always uses the default of 50.
- `.first()` without an ordering is modelled as the lowest matching id, SQLite's
  table-scan order.

## Model

`Parents.CreateDeleteCreateScenario`, `Kids.CreateTwiceScenario`, `Kids.EditThenCreateScenario` and `Kids.EditDuplicatesKeyScenario` are client methods with no contract of their own. They run the worked examples of create, duplicate create, soft delete and restore-through-create against the table classes, and their assertions are verified. The last one ends with two active kids of the same name and birthday in the table, after which create refuses that key.

| member | source | states |
|---|---|---|
| Store.FirstMatch | app/routes/parents.py:124-127 | `.first()` over an id range: a result is the lowest id in range whose row satisfies the filter; None only when no row in range does |
| Store.FirstMatchFinds | app/routes/parents.py:119-127 | on a table with contiguous ids, `.first()` finds a row exactly when some row of the table satisfies the filter |
| PatientModels.NewRow | app/models/patient_exam_base.py:6-8 | a freshly inserted row has the mixin's defaults: not deleted and no deletion time, with the given id and columns |
| PatientModels.SoftDeleted | app/models/patient_exam_base.py:10-12 | the soft-delete transition sets the flag and the time `now` and leaves id and every column unchanged |
| PatientModels.Restored | app/routes/parents.py:195-198 | the restore transition clears the flag and the deletion time and leaves id and every column unchanged |
| PatientModels.RestoreUndoesSoftDelete | app/models/patient_exam_base.py:10-12 | restoring a soft-deleted row that had never been deleted gives back exactly the original row |
| PatientModels.TransitionsIgnoreCurrentFlags | app/routes/parents.py:187-198 | neither transition depends on the current flags: soft delete twice equals the second alone, restore twice equals restore once |
| PatientModels.Instance.SoftDelete | app/models/patient_exam_base.py:10-14 | `soft_delete` on an ORM instance: the row becomes its soft-deleted form at `now`, and the instance is added to the session only when a session is passed |
| DrugModels.Persisted | app/models/base.py:7-15 | a committed drug keeps the sku, name, prices and stock it was given, gets its id, and `deleted` takes its default false |
| PatientModels.StoredDate | app/models/patient_exam_base.py:25 | a value written to a Date column reads back as a date with the same day, and no value stays no value |
| PatientModels.StoredDateTime | app/models/patient_exam_base.py:24 | a value written to a DateTime column reads back as a datetime: a datetime unchanged, a date as midnight of its day, no value as no value |
| PatientModels.StoredValuesAreFixed | app/models/patient_exam_base.py:24-25 | a value read back from a date or datetime column is written back unchanged, and a Date column keeps the day whether or not the value passed a DateTime column first |
| DateParsing.DateOf | app/routes/parents.py:79-80 | `.date()` keeps the calendar day and yields a date |
| DateParsing.Attempt | app/routes/parents.py:75-80 | the first try is the ISO parser's answer, whatever the format string; the other two succeed exactly when strptime reads the string, and then give a date with strptime's day |
| DateParsing.TryFormats | app/routes/parents.py:74-82 | the format loop answers None exactly when every try fails; otherwise it answers the result of one try, and every earlier try failed |
| DateParsing.ParseDate | app/routes/parents.py:67-83 | None and "" give no date; a date or datetime passes through; any other non-string value, or a string no format reads, is rejected as invalid; a non-empty string is accepted exactly when some format reads it, and the result is the first format's reading |
| DateParsing.IsoParserShadowsOthers | app/routes/parents.py:74-77 | whatever the ISO parser accepts is returned as the ISO parser read it, whatever strptime would say |
| DateParsing.StrptimeResultsAreDates | app/routes/parents.py:78-80 | a string the ISO parser rejects but that parses yields a date, never a datetime |
| DateParsing.DayMonthYearIsLastResort | app/routes/parents.py:74-83 | dd/mm/yyyy decides only when the ISO parser and yyyy-mm-dd both fail, and yields that date |
| Parents.Fold | app/routes/parents.py:134-136 | SQLite's `lower()` on one character, as `ilike` applies it: an ASCII capital becomes its lower-case letter, every other character is unchanged |
| Parents.FoldText | app/routes/parents.py:134-136 | case folding keeps the length and lowercases exactly the ASCII capitals, character by character |
| Parents.Contains | app/routes/parents.py:134-136 | an empty fragment occurs in every text, and a fragment longer than the text occurs in none |
| Parents.FilterHolds | app/routes/parents.py:133-136 | an `ilike('%x%')` filter on one column: a filter equal to the column always matches, and one longer than the column never does |
| Parents.ContainsAt | app/routes/parents.py:134-136 | the substring test behind `ilike('%x%')` holds exactly when the fragment occurs at some position of the text |
| Parents.Descending | app/routes/parents.py:132-137 | the filtered, id-descending scan below a bound holds only non-deleted rows that pass both filters, each as stored under its id, with strictly decreasing ids |
| Parents.DescendingComplete | app/routes/parents.py:132-136 | the scan misses nothing: every row below the bound that is not deleted and passes both filters is in it |
| Parents.PrefixKeepsHigherIds | app/routes/parents.py:137 | cutting an id-descending list to a limit drops only rows of lower id than every row kept |
| Parents.Search | app/routes/parents.py:130-137 | `search_parents_db`: at most `limit` rows, all stored, not deleted and passing both filters, in strictly decreasing id; with fewer than `limit` results every such row is present, and a matching row is only left out when every returned row has a higher id |
| Parents.SearchExample | app/routes/parents.py:130-137 | searching "an" with limit 2 over Anna, Anne, Ben, Ann, Cara (ids 1 to 5) returns Ann then Anne |
| Parents.DescendingExample | app/routes/parents.py:132-137 | on the example's five rows, the filtered, ordered scan before the limit is ids 4, 2, 1 |
| Parents.ListedExample | app/routes/parents.py:135-136 | the filter "an" lets Anna, Anne and Ann through |
| Parents.UnlistedExample | app/routes/parents.py:135-136 | the filter "an" keeps Ben and Cara out |
| Parents.ColsOf | app/routes/parents.py:156-164 | a fresh parent takes the payload's phone, name, address and note, last visit as a DateTime column stores it and expected date as a Date column stores it |
| Parents.RestoredByCreate | app/routes/parents.py:143-150 | restoring through create makes the row active and overwrites the five payload columns, the two dates as their columns store them, keeping id, phone and the deletion time |
| Parents.CreateRestoreKeepsDeletionTime | app/routes/parents.py:143-150 | after soft delete and create-restore, the row is active yet still carries its deletion time |
| Parents.SoftDeleteThenCreateReproducesPayload | app/routes/parents.py:141-164 | soft delete then create with the same phone gives the same id, active, with exactly the columns a fresh insert of the payload would have |
| Parents.Patched | app/routes/parents.py:170-181 | a partial update: each column given in the payload takes the payload's value (a date as its column stores it), each one left None keeps its old value; phone, id and the lifecycle columns never change |
| Parents.PatchIdempotent | app/routes/parents.py:170-181 | the same partial update applied twice equals it applied once, and an all-None update changes nothing |
| Parents.ParentTable.GetById | app/routes/parents.py:119-122 | finds a row, deleted or not, exactly when the id is in the table |
| Parents.ParentTable.GetByPhone | app/routes/parents.py:124-127 | finds a row, deleted or not, exactly when some row has that phone, and the row found has it |
| Parents.ParentTable.ReadRoute | app/routes/parents.py:213-218 | `read_parent` succeeds exactly for an active parent and answers not found for an absent or deleted one |
| Parents.ParentTable.SearchRoute | app/routes/parents.py:208-211 | the search route returns at most 50 rows, none deleted |
| Parents.ParentTable.Create | app/routes/parents.py:139-168 | `create_parent_db`: an active parent with the phone gives AlreadyExists and no change; a deleted one is restored in place by the payload; with no row of that phone a new parent is inserted under the next id; the invariant (contiguous ids, unique phones) is kept |
| Parents.ParentTable.Update | app/routes/parents.py:170-185 | `update_parent_db` replaces exactly the given row by its partially updated form, and nothing else changes |
| Parents.ParentTable.SoftDelete | app/routes/parents.py:187-193 | `soft_delete_parent_db` replaces exactly the given row by its soft-deleted form at `now` |
| Parents.ParentTable.Restore | app/routes/parents.py:195-202 | `restore_parent_db` replaces exactly the given row by its restored form |
| Parents.ParentTable.UpdateRoute | app/routes/parents.py:225-231 | `update_parent`: not found and no change for an absent or deleted parent; otherwise only that row is partially updated |
| Parents.ParentTable.SoftDeleteRoute | app/routes/parents.py:233-239 | `soft_delete_parent`: not found and no change only for an absent id; a deleted parent is soft-deleted again with a new time |
| Parents.ParentTable.RestoreRoute | app/routes/parents.py:241-247 | `restore_parent`: not found and no change only for an absent id; otherwise that row is restored, active or not |
| Kids.SameKid | app/routes/kids.py:101 | create's lookup key: a kid without a birthday matches only a payload without one, and a date birthday matches the kid stored at midnight of that day |
| Kids.ColsOf | app/routes/kids.py:116-122 | a fresh kid takes the payload's name, note and parent, and the birthday as a DateTime column stores it |
| Kids.RestoredByCreate | app/routes/kids.py:103-109 | restoring a kid through create makes it active with the payload's columns, keeping id and deletion time |
| Kids.Edited | app/routes/kids.py:143-148 | `edit_kid` overwrites name, birthday (as the DateTime column stores it), parent and the deleted flag (None clears), keeping id, note and deletion time |
| Kids.EditCanDuplicateKey | app/routes/kids.py:136-148 | in a table with an active kid, editing another kid to that kid's name and birthday leaves two distinct active rows with the same create key |
| Kids.KidTable.Create | app/routes/kids.py:95-126 | `create_kid_db`: not found and no change unless the parent exists and is active; then the lowest-id kid with the same name and birthday is restored if deleted or refused if active; with none a new kid is inserted under the next id |
| Kids.KidTable.Edit | app/routes/kids.py:136-154 | `edit_kid`: an unknown id changes nothing; a known one, deleted or not, is overwritten and nothing else changes |
| Drugs.Inserted | app/routes/drugs.py:100 | committing pending drugs keeps every existing row, stores the i-th pending drug under id next-id + i, and adds no other key |
| Drugs.InsertedWellKeyed | app/routes/drugs.py:100 | a commit keeps the ids contiguous, now up to next-id plus the number committed, and every row under its own id |
| Drugs.Staged | app/routes/drugs.py:81-98 | the drugs the loop adds to the session, in item order, at most one per item; `Drugs.StagedAreAccepted` and `Drugs.StagedCountsAccepted` state which |
| Drugs.StageItem | app/routes/drugs.py:82-98 | one item fails exactly when a key is missing, its name is already that of a committed drug (deleted or not), or a number does not convert; otherwise it yields a drug with the item's sku and name and the converted numbers |
| Drugs.StagedAreAccepted | app/routes/drugs.py:81-98 | the drugs the loop adds to the session are exactly those of the accepted items: every accepted item's drug is staged and every staged drug comes from an accepted item |
| Drugs.StagedCountsAccepted | app/routes/drugs.py:81-98 | the number of staged drugs is the number of accepted items, counting repeated items once per occurrence |
| Drugs.StagedNamesFresh | app/routes/drugs.py:83-84 | no staged drug has the name of a drug already committed |
| Drugs.StageImport | app/routes/drugs.py:78-98 | the import loop stages exactly the accepted items in order; the success count is the number of accepted items, and successes plus failures equal the number of items |
| Drugs.SameNameTwiceInBatchIsStaged | app/routes/drugs.py:83-92 | the duplicate check does not see the batch itself: two accepted items with the same name are both staged |
| Drugs.DuplicateStagedNamesBreakCommit | app/routes/drugs.py:100-109 | a batch staging the same name twice breaks the name constraint, so its commit fails and the whole import rolls back |
| Drugs.SingleInsertCommits | app/routes/drugs.py:52-70 | for a drug whose name is unused, the one-row insert keeps both unique constraints exactly when its sku is unused too |
| Drugs.FreshBatchCommits | app/routes/drugs.py:100-106 | a batch with distinct, unused names and skus commits without breaking either unique constraint |
| Drugs.ThreeItemImport | app/routes/drugs.py:78-106 | three items, the second reusing a committed name: two drugs are staged, one item fails, and the commit of the two succeeds |
| Drugs.DrugTable.AddNewDrug | app/routes/drugs.py:35-70 | `add_new_drug`: a name already present, deleted or not, gives AlreadyExists and no change; an sku already present gives IntegrityError after rollback and no change; otherwise exactly one drug with the given fields is inserted under the next id; both unique constraints are kept |
| Drugs.DrugTable.ImportDrugs | app/routes/drugs.py:73-109 | `import_drugs_from_json`: when the staged drugs fit the unique constraints they are all committed under consecutive new ids and the counts are reported; otherwise a server error is returned and the table is unchanged |

## Left out

- HTTP routing, templates, redirects, status codes and the form and JSON decoding by the web framework. Their outcomes are the `Result` constructors. `show_all_drugs`, `show_form`, `edit_kid_form`, the search route's response shaping, app/main.py and app/routes/home.py are not part of this model.
- Pydantic's type coercion and field constraints. Examples: the ten-character phone, `KidUpdate.birthday` declared as a string, and the read schemas built from ORM rows. Payloads are taken as already validated, with dates already through `parse_dates`.
- The date grammar of `datetime.fromisoformat` and `strptime`. It is a parameter of the model; only the order of the tries and the `.date()` step are modelled.
- Floating point. Prices, weight and height are opaque values.
- `float()` and `int()` on JSON values are parameters. The import item's sku and name are taken as strings.
- Inside a search fragment, the `ilike` wildcards `%` and `_` stand for themselves in the model. The case folding is SQLite's ASCII-only `lower()` behind `ilike`, and that is what the model does.
- Sessions, transactions, autoflush and `refresh`. A commit is the replacement of the table's map. A failed commit is the unchanged map.
- Concurrency between requests, and database errors other than a broken unique constraint.
- `add_purchase`. It passes a keyword that is not a column of the purchase table. The purchase table appears only as its row type.
- Exams appear only as a row type, and the JSON `drugs` column of exams is not modelled. Exam images are not modelled at all.
- Date values are stored as their column's type (`StoredDate`, `StoredDateTime`), but time zones are not modelled: a `Temporal` has none, so the time zone SQLite drops from an aware datetime is not represented.
- Columns that are nullable in the schema but not optional in the model: `drug_sell_price`, `drug_purchase_price` and `drug_stock` (app/models/base.py:12-14) and `Kid.name` (app/models/patient_exam_base.py:36). No modelled write stores NULL in them: drug rows are built from converted values, and kid names come from the required payload field.
- The `deleted` column of parents, kids and exams is nullable, because each table redeclares it without the mixin's not-null constraint. It is modelled as a bool, since every write the modelled operations make stores true or false. So the model does not capture the three ways the code reads a NULL flag: search skips the row, `read_parent` treats it as active, and `create_parent_db` refuses the phone.
- `edit_kid` also assigns `parent_name` and `parent_last_visit`. These are not columns of the kids table, so they are not stored.
- app/routes/dashboard.py, app/routes/api/api_drugs.py, app/database.py and the commented-out admin check are not part of this model.
- Parents.ParentTable.SearchRoute: its contract states only the bound and the deleted filter, because the rest is `Parents.Search`'s contract, which it calls.
