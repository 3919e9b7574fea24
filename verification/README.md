# Role-based departmental data portal, modelled in Dafny

The portal is a Django application. Departments hold tabs, and tabs hold
records whose `data` is free-form JSON. Who may do what is decided by the
user's role (`director`, `scientist`, `staff`). This project models the
decision logic of the portal as pure Dafny functions and methods, and proves
properties of them:

- **the role policy**: `User.has_permission` and `User.can_manage_tabs`
  (`permissions.dfy`);
- **the dynamic-schema grid**:
  - column inference for `api_fetch_records` and for the `add_record` form;
  - flattening a record into a grid row (`columns.dfy`);
- **payload edits**:
  - the PATCH merge of `api_update_record`;
  - the single-cell write of `update_cell`;
  - the `id` removal of `api_create_record` (`payloads.dfy`);
- **the spreadsheet row normaliser** of `import_excel_data` (`spreadsheet.dfy`);
- **the template filters** `get_item` and `slugify_custom` (`filters.dfy`);
- **every view that changes data**, over an abstract store of departments,
  tabs and records (`portal.dfy`). Each view's checks run in the view's own
  order:
  - 404 before 403 for records;
  - 403 before 404 for tab management;
  - then a refusal of bad input: a 400, or an error shown on the form page
    for `add_record` and `import_excel`;
  - then `Failed` when an exception ends the request: a 500, or an error page
    where `import_excel` catches it.

  Every view states two things:
  - the store changes only once the permission check has passed;
  - the schema invariants (`Portal.Valid`) are preserved.

Python behaviour that the views depend on is modelled in `text.dfy`:

- `str.strip()`, with the `str.isspace` character set;
- the code-point order that `sorted()` uses for strings.

JSON values are the `Values.Value` datatype. `isinstance(x, dict)` is
`x.Object?`.

Record payloads are not always objects. `api_create_record` describes its
body as "JSON object with field names and values" (portal/views.py:501), and
`Record.data` is a `JSONField` (portal/models.py:90). The column is not
nullable, so it holds any JSON value except `null`, which Django would write
as SQL NULL. Neither checks for an object:

- `edit_record` stores whatever JSON it is given, except `null`: saving that
  raises a database error the view does not catch, so the request fails.
- `api_create_record` also stores a JSON list or string that does not contain
  `"id"`; for a string, the test is a substring test.

So `Record.data` is any `Value`, and `Payloads.CreateKeepsPlainString`
exhibits a stored string. A PATCH body that is not an object is handled as
described under `Payloads.PatchPayload` in "## Left out".

## Model

| member | source | states |
|---|---|---|
| Permissions.HasPermission | portal/models.py:29-42 | Agrees with an explicit (role, action) table for the three known roles and four named actions. An unknown role is denied. An unnamed action is granted to every known role except staff. |
| Permissions.CanManageTabs | portal/models.py:44-46 | True exactly for the director and scientist roles. |
| Permissions.DirectorMayDoAnything | portal/models.py:34-35 | A director is granted every action string. |
| Permissions.ScientistAllButDelete | portal/models.py:36-38 | A scientist is granted an action if and only if it is not `delete`. |
| Permissions.StaffViewAndAddOnly | portal/models.py:39-41 | Staff are granted an action if and only if it is `view` or `add`. |
| Permissions.UnknownRoleDenied | portal/models.py:42 | Any role string other than the three exact names is denied every action. |
| Permissions.IgnoresDepartmentAndTab | portal/models.py:29-42 | The decision does not change with the department or tab arguments. |
| Permissions.Monotonic | portal/models.py:34-42 | Whatever staff may do, a scientist may do; whatever a scientist may do, a director may do. |
| Permissions.UnnamedAction | portal/models.py:34-41 | For an action outside the four names, director and scientist are granted and staff is denied. |
| Text.Strip | portal/views.py:396 | The result is a contiguous piece of the input with only whitespace cut from both ends. It has no whitespace at either end. It is empty exactly when the input is all whitespace. |
| Text.StripIdempotent | portal/views.py:396 | Stripping a stripped string changes nothing. |
| Text.Insert | portal/views.py:472 | Adding a key to a strictly increasing list keeps it strictly increasing, with the element set grown by exactly that key. |
| Text.SortedUnique | portal/views.py:472 | Two strictly increasing lists with the same elements are equal, so a sorted column list is determined by its set. |
| Columns.PayloadKeysMeaning | portal/views.py:469-471 | A key is collected exactly when some record's payload is an object that has that key. |
| Columns.SortedKeyUnion | portal/views.py:250-254 | The `add_record` column list is strictly increasing. Its elements are exactly the keys of the object payloads. |
| Columns.FormColumns | portal/views.py:300-303 | The form shows the sorted payload keys, or `Field 1`, `Field 2` when there are none. |
| Columns.FetchColumns | portal/views.py:466-472 | The grid columns are strictly increasing and are `"id"` plus every object payload key. `"id"` occurs exactly once, even when a payload has an `id` key. With no records the list is `["id"]`. |
| Columns.ColumnsIgnoreListingOrder | portal/views.py:464-472 | Two listings holding the same records in any order give the same column list. |
| Columns.FlattenRow | portal/views.py:477-481 | An object payload's row has keys `"id"` plus the payload's keys, and the payload's values win, including over `"id"`. Without an `"id"` payload key, the row's `"id"` is the record id. A non-object payload appears under `"data"`. |
| Columns.FetchRows | portal/views.py:475-482 | One row per listed record, in listing order, each the flattened record. |
| Columns.RowKeysAreColumns | portal/views.py:466-482 | Every key of a row built from an object payload is one of the fetched columns. |
| Columns.NonObjectRowHasUnlistedKey | portal/views.py:470-481 | In any listing where no object payload has a `"data"` key, a non-object payload's row carries `"data"` and the fetched columns do not. |
| Payloads.MergePatch | portal/views.py:605-609 | The result has the union of existing and incoming keys. Incoming values win and existing-only values are kept. A non-object existing payload counts as empty. |
| Payloads.MergeIdempotent | portal/views.py:609 | Applying the same PATCH twice gives the same payload as applying it once. |
| Payloads.MergeComposes | portal/views.py:609 | Two PATCHes in a row equal one PATCH with the right-biased union of their bodies. |
| Payloads.MergeExample | portal/views.py:605-609 | `{a:1,b:2}` patched with `{b:3,c:4}` is `{a:1,b:3,c:4}`. |
| Payloads.SetCell | portal/views.py:403-406 | Exactly the column's key is set to the value, and every other key of the payload (or of `{}`) is kept. |
| Payloads.SetCellIsSingletonMerge | portal/views.py:403-406 | A cell write equals the PATCH that carries just that cell. |
| Payloads.StrippedField | portal/views.py:396 | `get(key, '').strip()` is the empty string for a missing key and the stripped text for a string. It fails for any other value. |
| Payloads.ReadCellEdit | portal/views.py:395-400 | The body is unreadable exactly when it is not an object or its `column` is not a string. The column is blank exactly when it is missing or all whitespace. Otherwise the edit names the stripped, non-empty column and the given `value`, defaulting to `''`. |
| Payloads.CreatePayload | portal/views.py:536-540 | An object body is stored without its `id` key and with every other key and value unchanged. A list or string body is stored as is unless `'id' in` it holds, in which case `del` fails. Any other body fails. |
| Payloads.CreateDropsId | portal/views.py:538-540 | A created object payload never has an `id` key. A body without one is stored unchanged. |
| Payloads.CreateKeepsPlainString | portal/views.py:536-547 | The string body `"abc"` is stored as a string payload. |
| Payloads.PatchPayload | portal/views.py:603-609 | An object body is merged. An empty list or empty string leaves the (normalised) payload as it is. No other body is accepted. |
| Spreadsheet.ConvertCell | portal/utils.py:57-66 | A cell becomes null if and only if it is missing or NaN. It is kept as a number or boolean if and only if it is numeric (`int`, `float` or `bool`) and not NaN, keeping its value. It becomes a string if and only if it is neither, and the string is its text. |
| Spreadsheet.BooleanKept | portal/utils.py:61-63 | A boolean cell counts as numeric and is stored as a JSON boolean. |
| Spreadsheet.NaNIsNull | portal/utils.py:58-63 | NaN is numeric, yet it is stored as null because the missing check comes first. |
| Spreadsheet.LastCellMeaning | portal/utils.py:57-66 | The surviving cell for a label is the one at its last position in the row. |
| Spreadsheet.WriteCells | portal/utils.py:57-66 | After the writes, each label holds the conversion of its last cell. Keys not among the labels keep their value. No other key appears. |
| Spreadsheet.NormalizeRow | portal/utils.py:50-66 | The payload's keys are `S.No` plus the row's labels. `S.No` is the 1-based index unless a column is itself labelled `S.No`, in which case the last such cell wins. Every label maps to its last cell's conversion. |
| Spreadsheet.DistinctLabelsKeepEveryCell | portal/utils.py:57-66 | With distinct labels, every cell is stored under its own label. |
| Spreadsheet.NormalizeRows | portal/utils.py:45-77 | The loop builds one payload per row, in row order, with row `i` numbered `i + 1`. The count equals the number of rows. |
| Spreadsheet.ImportExample | portal/utils.py:48-66 | A worked two-row sheet in which the second row's `Age` is missing, so it is stored as null. |
| Filters.GetItem | portal/templatetags/custom_filters.py:7-14 | An object with the key gives the stored value. An absent key gives `None`. A non-object gives `None`. |
| Filters.GetItemNullOrAbsent | portal/templatetags/custom_filters.py:12-13 | A stored null cannot be told apart from an absent key. |
| Filters.SlugifyCustom | portal/templatetags/custom_filters.py:18-24 | A falsy value gives `''`. The slug never contains a space, `/` or `.`. |
| Filters.SlugifyAscii | portal/templatetags/custom_filters.py:24 | On non-empty ASCII text the slug keeps the length. Capitals become small letters, space, `/` and `.` become `-`, and every other character is kept. |
| Filters.SlugifyIdempotent | portal/templatetags/custom_filters.py:24 | On ASCII text, slugifying a slug changes nothing. |
| Portal.InsertDepartment | portal/models.py:52 | Adding a department whose name is not taken keeps department names unique and the store valid. |
| Portal.InsertTab | portal/models.py:75-76 | Adding a tab to an existing department, under a name not used in that department, keeps the store valid. |
| Portal.CreateDepartment | portal/views.py:85-118 | Without tab-management rights the reply is denied and nothing changes. Bad JSON is refused, and a body whose `name` or `description` is not text fails. The stripped `name` is refused if empty or already a department name. Otherwise the department is added under a new id with the stripped name and description. Every other outcome leaves the store unchanged. Validity is preserved. |
| Portal.CreateTab | portal/views.py:123-159 | Denied before not-found. Bad JSON is refused, and non-text fields fail. The stripped `name` is refused if empty or already used in that department. Otherwise exactly one tab is added under a new id, with the stripped name and description. Per-department name uniqueness is preserved. |
| Portal.RenameTab | portal/views.py:164-197 | Denied before not-found. Bad JSON is refused, and a non-object body or non-text `name` fails. The stripped `name` is refused if empty or used by another tab of the department. Otherwise the tab takes that name, and nothing else changes. Validity is preserved. |
| Portal.RenameToOwnName | portal/views.py:178-185 | Renaming a tab to its current (already stripped) name succeeds and leaves the store as it was. |
| Portal.BlankTabNameRefused | portal/views.py:132-136 | A tab name that is empty or all whitespace is refused with "name required", and nothing is stored. |
| Portal.DeleteTab | portal/views.py:202-218 | Denied before not-found. A manager deleting an existing tab succeeds. A success removes exactly that tab and all its records. Every other tab and record is kept unchanged, no record is added, and departments and the id counter are untouched. |
| Portal.CascadeDeleteDepartment | portal/models.py:69-89 | Deleting a department removes exactly it from the departments. Its tabs and their records are removed. Every other tab, and every record of a kept tab, stays unchanged. Validity is preserved. |
| Portal.AddRecord | portal/views.py:241-298 | Not-found before denied. A falsy submission is refused and a permitted truthy one succeeds. A success stores exactly one new record with a fresh id. |
| Portal.EditRecord | portal/views.py:308-325 | Not-found before denied. When permitted, bad JSON is refused, a `null` body fails, and any other decoded body succeeds. A success replaces the payload with the decoded body and records the editor; nothing else changes. |
| Portal.DeleteRecord | portal/views.py:338-351 | Not-found before denied. A success removes exactly that record, and the rest of the store is unchanged. |
| Portal.DeleteOnlyWhenAllowed | portal/views.py:648-666 | A record is deleted if and only if it exists and the user may delete in its tab. Otherwise the store is unchanged. |
| Portal.StaffCannotDelete | portal/views.py:344-345 | Staff are denied every record deletion, and nothing is removed. |
| Portal.UpdateCell | portal/views.py:386-418 | Not-found before denied. Bad JSON is refused, an unreadable body fails, and a blank column is refused, each with no change. A readable edit with a non-blank column succeeds. It sets exactly the stripped column to the value and records the editor, keeping every other key and the rest of the store. |
| Portal.ApiCreateRecord | portal/views.py:495-558 | Not-found before denied. Bad JSON is refused. A body that `CreatePayload` rejects fails, and any other body succeeds. A success adds one record under a fresh id, holding the body with `id` removed, and replies with that id and payload. |
| Portal.ApiUpdateRecord | portal/views.py:563-622 | Not-found before denied. Bad JSON is refused. A body that `PatchPayload` rejects fails, and any other body succeeds. A success stores the merged payload and records the editor, leaving the rest of the store unchanged, and replies with the merged payload. |
| Portal.AppendRecords | portal/utils.py:70-75 | Appending gives each payload its own new consecutive id, in order, and keeps every existing record. Validity is preserved. |
| Portal.ImportRows | portal/utils.py:45-77 | Row `i` becomes record `nextId + i` with row `i`'s normalised payload. The count is the number of rows, and earlier records are kept. |
| Portal.ImportExcel | portal/views.py:355-379 | Checks run in this order: not-found, denied, no file, not `.xlsx`/`.xls`, unreadable workbook. Each answers its own refusal and stores nothing. A readable Excel upload succeeds: it imports every row and returns the row count. |
| Portal.ApiFetchRecords | portal/views.py:428-490 | Not-found before denied; a permitted view always answers. The columns are sorted and are `"id"` plus exactly the keys of the tab's object payloads. There is one flattened row per listed record, and the edit/delete flags are the user's permissions. |

## Left out

- HTTP handling, JSON text parsing, redirects, templates, flash messages and
  the login decorators are not modelled. Invalid JSON is the `Body.Malformed`
  input.
- `pd.read_excel` is a foreign call, so the sheet arrives as rows of
  (label, cell) pairs, or as `None` when it cannot be read.
- Python's `str()` of a pandas value is a foreign call, so it arrives as the
  text inside `Cell.Other`.
- Floating-point numbers are not modelled: `Value.Num` and `Cell.Number` hold
  integers, and `Cell.NaN` stands for a float NaN.
- Spreadsheet.ConvertCell: which Python class the reader gives a cell is
  not modelled; `Cell` records that class. For instance, a NumPy integer
  scalar is not an `int` to `isinstance` and would arrive as `Other`.
- Filters.SlugifyCustom: the lower-casing of non-ASCII characters and the text
  of a list or object are parameters, not Unicode case tables or Python
  `repr`.
- Filters.SlugifyCustom: the lower-casing is applied one character at a
  time. Python's `str.lower()` depends on context for capital sigma, which
  becomes final sigma at the end of a word. No proved property depends on
  this, since they concern ASCII text.
- Payloads.PatchPayload: a non-empty JSON list whose elements each iterate
  to exactly two items (two-element lists, two-character strings, two-key
  objects), which `dict.update` would accept as key/value pairs when no key
  is a list or object, is treated as a failure.
- Columns.SortedKeyUnion: Python's set iteration order is left open. Any order
  of insertion gives the same sorted list.
- Portal.ApiFetchRecords: the listing of the tab's records, ordered by
  creation time in the database, is an input. `Portal.ListsTab` says when it
  is the tab's records.
- Portal.AddRecord: gathering the submitted fields from `data_json`,
  `field_*` and `dynamic_col_*` POST entries is not modelled. The gathered
  value is the input.
- Portal.ImportExcel: the import is not atomic in the source; a database
  error after some rows leaves those rows stored. The model treats the
  per-row writes as always succeeding.
- Ids are drawn from one counter shared by all tables, not one sequence per
  table.
- Timestamps, `SET_NULL` of creator and editor on user deletion, and
  `max_length` limits of the name columns are not modelled.
- Database collation is not modelled: names compare as exact code-point
  strings.
- The GET renderings (`dashboard`, `view_tab_data`, the GET side of
  `add_record`, `edit_record` and `import_excel`) change nothing and are not
  modelled beyond `Columns.FormColumns`.
- Signup, login, logout and the landing page are not part of this model.
- The forms module, routes, admin configuration, seeding command and
  front-end script are not part of this model.
