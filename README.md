# Production route tracking: a Dafny model

This project models the core of a small control panel that tracks manufactured
parts along their production routes. Its entities are:

- a dictionary of production **stages**;
- **route templates**, each an ordered list of stages, with at most one template marked as the default;
- **parts**, each optionally assigned a template and carrying a current status;
- an append-only **status history**, with one entry for each stage a part has completed;
- an **audit log**.

Operators scan a part's QR code, pick one of the stages the part has not yet
completed, and confirm it. Administrators manage the stage dictionary, the
templates and the parts, import parts from a spreadsheet, and cancel completed
stages.

The model has these modules:

- `Models`: the rows of the tables.
- `Schema`: the tables as sequences, the queries the handlers run, and the
  constraints every committed state keeps (`Schema.Consistent`):
  - unique keys and foreign keys;
  - at most one default template;
  - stage orders `0..n-1` in every route;
  - no part completing the same stage twice.
- `AdminRoutes` and `MainRoutes`: one pure step function per request handler,
  from the tables before the request to the tables after it and an `Outcome`.
  Refused requests change nothing. Beside each function:
  - lemmas about what the handler promises;
  - a `...Keeps` lemma saying that it preserves `Schema.Consistent`.
- `Store.Database`: a class whose fields are the tables. Each method performs one
  handler's statements in place, in the source's order and with the source's
  loops (`enumerate` over the submitted stages, the spreadsheet row loop). Each
  method is proved to reach exactly the state its step function describes and
  to keep `Valid()`.
- `MainRoutes`, read side: the available-stage list, per-part progress, the
  per-product dashboard, and the merged history view.
- `Forms`: the validators of the admin forms, as functions returning the list
  of field errors.
- `SafeNames`: the two string sanitisers, `create_safe_file_name` and
  `to_safe_key`. The latter is a method whose loop performs the dictionary's
  replacements one after another.
- `Text`, `Seqs`, `Outcomes`: Python string helpers (`strip`, `isspace`,
  `lower`), sequence filters and their lemmas, and the outcome datatype.

Passed in as parameters rather than modelled:

- timestamps (`now`, integers from the caller);
- the acting user's id;
- the signed-in username;
- the spreadsheet's file name;
- the rows of the already parsed spreadsheet.

The single counter `nextId` stands for each table's integer key sequence.

Where the code and its comments or stated intent differ, the model follows the code:

- `completed_stages` counts every history entry, including entries for stages
  no longer on the template.
- `validate_name` never sees the edit target, so `edit_route` runs the creation
  rule: a name any template bears is taken, the edited template's own included
  (see Findings).
- `confirm_stage` on a part without a template raises an exception before any
  change. It is modelled as the `NoRoute` outcome with no change.

## Model

| member | source | states |
|---|---|---|
| Models.NewPart | app/models/models.py:60-66 | a new part has the given id, designation and template, status 'На складе', and both dates set to the creation time |
| Models.User.IsAdmin | app/models/models.py:57-58 | a user is an administrator exactly when `can_manage_users` is set |
| Schema.Numbered | app/admin/routes.py:205-207 | the rows written for a stage list: row i has stage i and order i, one row per submitted id |
| Schema.ClearDefaults | app/admin/routes.py:202 | the bulk update keeps every template and clears only its default flag |
| Schema.StageNames | app/main/routes.py:95 | a route's stage names are at most as many as its rows |
| Schema.StageNamesAllFound | app/main/routes.py:95 | where every row's stage exists, there is one name per row, in row order, each the name of that row's stage |
| Schema.LatestEntry | app/admin/routes.py:433 | the newest-first query finds nothing exactly on an empty history; otherwise it finds an entry of that history with a timestamp no smaller than any other |
| Schema.StatusAfter | app/admin/routes.py:433-434 | the recomputed status is 'На складе' with no entries left; otherwise it is the status of some remaining entry of maximal timestamp |
| Schema.AtMostOneDefaultMeans | tests/test_full_app.py:88 | the single-default rule holds exactly when any two default templates are the same row |
| Schema.RouteOfNumbered | app/admin/routes.py:205-207 | the rows written for template t belong to t and to no other template |
| Schema.RouteOfWithout | app/admin/routes.py:232 | deleting t's rows empties t's stage list and leaves every other template's list as it was |
| Schema.RouteAfterReplace | app/admin/routes.py:232-235 | after delete-then-append, t's list is exactly the submitted list in submission order, and every other list is unchanged |
| Schema.RouteAfterAppend | app/admin/routes.py:203-207 | appending the rows of a template with no rows gives it exactly the submitted list and changes no other list |
| Schema.DenseAfterReplace | app/admin/routes.py:232-235 | the edit keeps every route numbered 0..n-1 |
| Schema.DenseAfterAppend | app/admin/routes.py:205-207 | creating a route keeps every route numbered 0..n-1 |
| Schema.DenseAfterDelete | app/models/models.py:25 | the delete-orphan cascade keeps every remaining route numbered 0..n-1 |
| Schema.AppendEntryKeeps | app/main/routes.py:114-115 | a history entry with a fresh id, for an existing part and a stage it has not completed, keeps the history constraints |
| Text.Strip | app/admin/routes.py:151 | `strip()` returns a text no longer than the input that neither starts nor ends with white space |
| Text.StripIsInfix | app/admin/routes.py:151 | `strip()` removes leading and trailing white space only: the result is the input's infix after its leading white space, followed by white space alone, with the kept text intact and in order |
| Text.BlankIffStripsToEmpty | app/admin/forms.py:54 | a value is blank (rejected by `DataRequired`) exactly when stripping leaves nothing |
| Text.LowerStr | app/utils.py:50 | `lower()` keeps the length and lowers each character on its own |
| AdminRoutes.AddStage | app/admin/routes.py:144-162 | a blank name is invalid; a stripped name equal up to case to an existing stage's is a duplicate, with no change; otherwise exactly one stage with the stripped name is appended |
| AdminRoutes.AddStageKeeps | app/admin/routes.py:151-158 | adding a stage keeps the tables consistent, including unique stage names |
| AdminRoutes.DeleteStage | app/admin/routes.py:164-181 | a missing id is NotFound; a stage some RouteStage uses is InUse; both leave everything unchanged; otherwise only that stage is removed |
| AdminRoutes.DeleteStageRemovesOne | app/admin/routes.py:170-180 | a successful delete shortens the dictionary by exactly one and keeps every other stage |
| AdminRoutes.DeleteStageKeeps | app/admin/routes.py:174-180 | deleting an unused stage keeps the tables consistent: no route refers to a missing stage |
| AdminRoutes.DefaultsFor | app/admin/routes.py:201-202 | when the new template is to be the default, every existing template loses its flag; otherwise nothing changes |
| AdminRoutes.AddRoute | app/admin/routes.py:194-214 | the form validates exactly when the result is Ok; an empty stage list is rejected with no template created; on Ok the new template is appended, the others lose their flag if it is the default, its rows are the numbered list, and one audit entry is added |
| AdminRoutes.ApplyAdd | app/admin/routes.py:201-211 | the committed state of a created template, field by field |
| AdminRoutes.AddRouteStages | app/admin/routes.py:205-207 | after a successful create, the new template's stage list is exactly the submitted ids with orders 0..n-1, and every other list is unchanged |
| AdminRoutes.DefaultsForKeeps | app/admin/routes.py:201-203 | the flag update keeps ids, names and the single-default rule; setting the default clears every other flag |
| AdminRoutes.AtMostOneDefaultAppend | app/admin/routes.py:201-204 | with the flags cleared first, appending a default template keeps at most one default |
| AdminRoutes.AddRouteKeeps | app/admin/routes.py:194-214 | creating a template keeps the tables consistent: at most one default, dense orders, existing stages |
| AdminRoutes.ApplyAddKeeps | app/admin/routes.py:200-211 | a create under an unused name with existing stages keeps the tables consistent |
| AdminRoutes.EditRoute | app/admin/routes.py:216-242 | a missing template is NotFound; the form is invalid exactly when the creation rule of `RouteTemplateForm` fails (blank name, a name any template bears, no stage or an unknown stage), and then nothing changes; on Ok the template takes the new name and flag, the others lose their flag if it is the default, all its old rows are replaced by the numbered list, and one audit entry is added |
| AdminRoutes.ApplyEdit | app/admin/routes.py:228-238 | the committed state of an edited template, field by field |
| AdminRoutes.EditRouteRejectsOwnName | app/admin/routes.py:225-226 | resubmitting a template under its own name is always refused with no change, and a non-blank name is reported as taken |
| AdminRoutes.EditRouteStages | app/admin/routes.py:232-235 | the edit is a full replace: the template's list is exactly the submitted one in order, and every other template's list is unchanged |
| AdminRoutes.EditRouteKeeps | app/admin/routes.py:216-242 | editing a template keeps the tables consistent, including the single default and orders 0..n-1 |
| AdminRoutes.ApplyEditKeeps | app/admin/routes.py:227-238 | an edit whose name no other template bears, with existing stages, keeps the tables consistent |
| AdminRoutes.DeleteRoute | app/admin/routes.py:244-265 | a missing template is NotFound; a template some part uses is InUse; both leave everything unchanged; otherwise the template and all its rows are deleted and one audit entry names it |
| AdminRoutes.DeleteRouteRemovesAll | app/admin/routes.py:254-260 | after a delete the template is gone, its stage list is empty, and every other list is unchanged |
| AdminRoutes.DeleteRouteKeeps | app/admin/routes.py:244-265 | deleting a template no part uses keeps the tables consistent |
| AdminRoutes.AddSinglePart | app/admin/routes.py:269-293 | an invalid form changes nothing; a taken part id rolls back (Duplicate); otherwise exactly one new part with the in-stock status and one creation audit entry are added |
| AdminRoutes.InsertPartKeeps | app/admin/routes.py:279-283 | a part with a fresh id and an existing or no template, with its audit entry, keeps every constraint |
| AdminRoutes.AddSinglePartKeeps | app/admin/routes.py:276-288 | adding a part keeps the tables consistent |
| AdminRoutes.ImportRow | app/admin/routes.py:317-329 | an empty or 'nan' row changes nothing; a row with an existing id only increments skipped; any other row inserts the stripped part with the default template and an audit entry, and increments added |
| AdminRoutes.ImportRows | app/admin/routes.py:317-329 | the loop only appends parts, each with the default template and the in-stock status; it keeps the existing parts as a prefix, and added + skipped never exceed the row count |
| AdminRoutes.ImportRowsStep | app/admin/routes.py:317-329 | the state after row i is that row's iteration applied to the state after the rows before it |
| AdminRoutes.ImportCounts | app/admin/routes.py:311-329 | added + skipped equals the number of rows that are not passed over: every counted row is counted exactly once |
| AdminRoutes.ImportKeeps | app/admin/routes.py:317-330 | the import keeps the tables consistent: no part id twice |
| AdminRoutes.ImportAddsFresh | app/admin/routes.py:322-326 | every part the import adds has an id no part had before |
| AdminRoutes.UploadExcel | app/admin/routes.py:295-342 | without a default template nothing changes; otherwise the row loop runs with the default template and its counters are reported |
| AdminRoutes.UploadExcelKeeps | app/admin/routes.py:303-330 | an upload keeps the tables consistent |
| AdminRoutes.EditPart | app/admin/routes.py:344-367 | a missing part is NotFound; an invalid designation changes nothing; an equal one is Unchanged; otherwise the designation and `last_update` change and one audit entry records both values |
| AdminRoutes.EditPartKeeps | app/admin/routes.py:354-362 | editing a designation keeps the tables consistent |
| AdminRoutes.DeletePart | app/admin/routes.py:369-387 | a missing part is NotFound; otherwise the part, all its history and all its audit entries are removed, including the deletion entry just written |
| AdminRoutes.DeletePartRemovesAll | app/admin/routes.py:378-382 | after a delete nothing about the part remains, and every other part's history and audit trail are untouched |
| AdminRoutes.DeletePartKeeps | app/admin/routes.py:369-387 | deleting a part keeps the tables consistent: no entry refers to a missing part |
| AdminRoutes.CancelStage | app/admin/routes.py:417-437 | the outcome is Ok exactly when the history entry and its part exist, and NotFound with no change otherwise; on Ok the state is the cancellation of that entry |
| AdminRoutes.CancelStageFound | app/admin/routes.py:423-426 | in consistent tables a cancellation succeeds exactly when some history entry has the id |
| AdminRoutes.ApplyCancel | app/admin/routes.py:426-435 | the entry is removed; one audit entry names its status; the part's status becomes that of a latest remaining entry, or 'На складе'; `last_update` changes only when the status does |
| AdminRoutes.CancelStageRemovesOne | app/admin/routes.py:431 | cancelling removes exactly one history entry and keeps every other one |
| AdminRoutes.CancelStageKeeps | app/admin/routes.py:417-437 | cancelling keeps the tables consistent |
| MainRoutes.TemplateOf | app/main/routes.py:90 | a part has a route exactly when its template reference names an existing template |
| MainRoutes.RouteNames | app/main/routes.py:95 | the names along a route are at most as many as its rows; in a consistent state there is exactly one per row, the name of that row's stage |
| MainRoutes.Remaining | app/main/routes.py:96 | the available stages are the route's names that are not completed, in route order, each as often as the route holds it, and a completed name not at all |
| MainRoutes.SelectStage | app/main/routes.py:87-98 | a missing part is not found; a part without a route gets no list; otherwise it gets exactly the route's uncompleted names, as a subsequence of the route, each as often as the route holds it |
| MainRoutes.Operator | app/main/routes.py:109-110 | the recorded operator is the stripped field when it is not blank; a blank field gives the fallback as it is and a missing one gives it stripped; the fallback is the username, or 'Не указан' when anonymous; an anonymous scan never records a blank name |
| MainRoutes.ConfirmStage | app/main/routes.py:100-117 | missing part: NotFound; no route: NoRoute; a stage outside the route or already completed: Rejected; all three leave everything unchanged; any other route stage sets the status and appends exactly one history entry |
| MainRoutes.ApplyConfirm | app/main/routes.py:112-115 | the committed state of a confirmation, field by field |
| MainRoutes.OfferedStagesAreAccepted | app/main/routes.py:94-106 | every stage the scan page offers is accepted by the confirmation |
| MainRoutes.ConfirmStageKeeps | app/main/routes.py:100-117 | confirming keeps the tables consistent: a part never completes a stage twice |
| MainRoutes.ApplyConfirmKeeps | app/main/routes.py:112-115 | confirming a stage the part has not completed keeps the tables consistent |
| MainRoutes.ProgressRows | app/main/routes.py:56-65 | one row per part, in the same order, each the part's progress |
| MainRoutes.SortedByPartIdEverywhere | app/main/routes.py:54 | ascending order of adjacent rows extends to any two rows |
| MainRoutes.InsertByPartId | app/main/routes.py:54 | inserting into a sorted list gives a sorted permutation with one more element |
| MainRoutes.SortByPartId | app/main/routes.py:54 | `order_by(part_id.asc())` gives a permutation sorted by part id |
| MainRoutes.PartsForProduct | app/main/routes.py:52-66 | the part list is sorted by part id and is a reordering of the progress rows of the product's parts: one row per part, each as often as in table order |
| MainRoutes.SortedRows | app/main/routes.py:54-65 | the rows of a sorted part list are sorted |
| MainRoutes.RowsOfPermutation | app/main/routes.py:54-65 | the rows of a reordered part list are the rows of the original list, reordered, as many and each as often |
| MainRoutes.TotalIsRouteLength | app/main/routes.py:57 | in a consistent state a part's stage count is the length of the list its scan page works from |
| MainRoutes.CompletedWithinTotal | app/main/routes.py:57-58 | when every completed stage is still on the route, completed does not exceed total |
| MainRoutes.StaleEntriesCounted | app/main/routes.py:58 | in some consistent state, a part whose template lost a completed stage shows 2 completed out of 1 total |
| MainRoutes.StagesInRoute | app/main/routes.py:17-20 | the first subquery maps exactly the templates with at least one row to their row count |
| MainRoutes.Dashboard | app/main/routes.py:11-49 | one row for exactly each designation some part carries, each that product's aggregates, with at least one part |
| MainRoutes.TotalPartsIsPartCount | app/main/routes.py:35 | `total_parts` is the number of parts of the product |
| MainRoutes.JoinedHistoryCountsEntries | app/main/routes.py:36-37 | `total_completed_stages` is the number of history entries belonging to the product's parts |
| MainRoutes.PossibleIsTotal | app/main/routes.py:25-29 | what a part adds to `total_possible_stages` is its per-part stage count, 0 without a route |
| MainRoutes.RowSums | app/main/routes.py:56-65 | summing a part list's rows gives the dashboard's completed and possible totals for those parts |
| MainRoutes.DashboardAgreesWithPartList | app/main/routes.py:17-45 | a product's dashboard row equals the count and the sums of its part list |
| MainRoutes.Tagged | app/main/routes.py:79-83 | the concatenation holds as many items as the part has status and audit entries |
| MainRoutes.InsertByTime | app/main/routes.py:84 | insertion adds exactly the one item |
| MainRoutes.InsertByTimeOrdered | app/main/routes.py:84 | insertion into a newest-first list keeps it newest first |
| MainRoutes.SortNewestFirst | app/main/routes.py:84 | the sort gives a permutation in non-increasing timestamp order |
| MainRoutes.TaggedStatusItems | app/main/routes.py:79-83 | every status entry of the part appears, tagged as status, and no other |
| MainRoutes.TaggedAuditItems | app/main/routes.py:79-83 | every audit entry of the part appears, tagged as audit, and no other |
| MainRoutes.CombinedHistory | app/main/routes.py:76-85 | a missing part is not found; otherwise the view is newest first and is a reordering of the part's status entries and audit entries: each entry occurs as often as in the tables, and nothing else |
| Forms.RequiredUpTo | app/admin/forms.py:29-30 | `DataRequired` plus `Length(max)` passes exactly on a non-blank value of at most max characters |
| Forms.NameAvailable | app/admin/forms.py:84-94 | on create, no template may bear the name; on edit, the first template bearing it must be the edit target |
| Forms.NameAvailableOnEdit | app/admin/forms.py:88-91 | with unique names, the edit rule accepts exactly when every template bearing the name is the target |
| Forms.NameAvailableKeepsOwnName | app/admin/forms.py:88-91 | with unique names, an edit that keeps the template's own name is accepted |
| Forms.ValidateNameAsWritten | app/admin/forms.py:84-94 | as written, the name is accepted exactly when no template bears it, edit or not |
| Forms.ValidateNameAsWrittenRejectsOwnName | app/admin/forms.py:90-94 | the rule as written rejects an edit keeping the template's own name, which the intended rule accepts |
| Forms.RouteFormErrors | app/admin/forms.py:59-94 | the form validates exactly on a non-blank available name and a non-empty list of existing stage ids; an empty list reports the stages field, a taken name `NameTaken` |
| Forms.StageFormErrors | app/admin/forms.py:52-55 | the stage form validates exactly on a non-blank name |
| Forms.PartFormErrors | app/admin/forms.py:27-37 | the part form validates exactly on non-blank product and part id of at most 100 characters and an existing template |
| Forms.EditPartFormErrors | app/admin/forms.py:39-42 | the designation is required and at most 100 characters |
| Forms.UserBaseErrors | app/admin/forms.py:98-101 | a non-blank username of 3 to 64 characters and a non-blank role |
| Forms.AddUserFormErrors | app/admin/forms.py:112-114 | a new user also needs a non-blank password of at least 6 characters |
| Forms.EditUserFormErrors | app/admin/forms.py:117-119 | on edit the password may be blank, otherwise at least 6 characters |
| SafeNames.SafeFileName | app/utils.py:7-11 | the length is kept; each of the nine reserved characters becomes `_`; every other character is unchanged |
| SafeNames.SafeFileNameIsSafe | app/utils.py:11 | no reserved character remains |
| SafeNames.SafeFileNameKeepsSafe | app/utils.py:11 | a name without reserved characters is unchanged |
| SafeNames.SafeFileNameIdempotent | app/utils.py:11 | applying it twice is applying it once |
| SafeNames.TranslitKeys | app/utils.py:51-56 | the dictionary has 33 entries whose keys are а..я with ё after е |
| SafeNames.TranslitValues | app/utils.py:51-56 | every replacement consists of Latin lowercase letters |
| SafeNames.TranslitKeysDistinct | app/utils.py:51-56 | no key occurs twice |
| SafeNames.Replace | app/utils.py:58 | replacing a character absent from the text leaves it unchanged |
| SafeNames.TransliteratedStep | app/utils.py:57-58 | one more loop pass turns the text after n replacements into the text after n + 1 |
| SafeNames.LetterAfterUnnamed | app/utils.py:57-58 | a character no earlier entry names passes the first n replacements unchanged |
| SafeNames.ReplacementUntouched | app/utils.py:51-56 | no key occurs in any replacement |
| SafeNames.LetterAfterNamed | app/utils.py:57-58 | in a dictionary whose keys are distinct and occur in no replacement, a key becomes its replacement and later replacements leave that unchanged |
| SafeNames.TransliterationIsTable | app/utils.py:50-58 | each lowercase Cyrillic letter maps to its table value (ъ and ь to nothing) and any other character to itself |
| SafeNames.RunLength | app/utils.py:60 | the length of the leading run of characters outside `[a-z0-9]`, which ends at a key character or the end |
| SafeNames.CollapseRuns | app/utils.py:60 | the substitution gives `[a-z0-9_]` only, never two `_` in a row, empty only on empty input, and starts with `_` exactly when the input starts outside `[a-z0-9]` |
| SafeNames.LeadingUnderscores | app/utils.py:60 | the number of leading `_`, after which comes another character or the end |
| SafeNames.DropTrailing | app/utils.py:60 | `rstrip('_')` keeps a prefix, drops only `_`, and does not end in `_` |
| SafeNames.StripUnderscores | app/utils.py:60 | `strip('_')` gives a text that neither starts nor ends with `_`, and leaves a text that does not unchanged |
| SafeNames.ToSafeKey | app/utils.py:44-60 | the method, with its replacement loop, computes the key function |
| SafeNames.StripGivesKey | app/utils.py:60 | stripping a collapsed text gives a key: `[a-z0-9_]` only, no `_` at either end, never two `_` in a row |
| SafeNames.SafeKeyIsSafe | app/utils.py:59-60 | every output consists of `[a-z0-9_]`, has no leading or trailing `_` and never two `_` in a row |
| SafeNames.TranslitKeysNotKeyChars | app/utils.py:51-56 | no key of the dictionary is a character of `[a-z0-9_]` |
| SafeNames.TransliteratedKeys | app/utils.py:57-58 | a dictionary none of whose keys is in `[a-z0-9_]` leaves a text of `[a-z0-9_]` unchanged |
| SafeNames.TransliterationKeepsKeys | app/utils.py:51-58 | the replacements leave a text of `[a-z0-9_]` unchanged |
| SafeNames.CollapseKeepsKeys | app/utils.py:60 | the substitution leaves a text in key shape unchanged |
| SafeNames.SafeKeyKeepsKeys | app/utils.py:50-60 | a text in key shape is its own key |
| SafeNames.SafeKeyIdempotent | app/utils.py:50-60 | applying `to_safe_key` to its own output changes nothing |
| Store.Database.AddStage | app/admin/routes.py:144-162 | the in-place handler reaches exactly the state and the outcome of `AdminRoutes.AddStage` and keeps `Valid()` |
| Store.Database.DeleteStage | app/admin/routes.py:164-181 | reaches the state and outcome of `AdminRoutes.DeleteStage` and keeps `Valid()` |
| Store.Database.AppendNumbered | app/admin/routes.py:205-207 | the `enumerate` loop appends exactly the numbered rows and touches no other table |
| Store.Database.AddRoute | app/admin/routes.py:194-214 | reaches the state and outcome of `AdminRoutes.AddRoute` and keeps `Valid()` |
| Store.Database.EditRoute | app/admin/routes.py:216-242 | reaches the state and outcome of `AdminRoutes.EditRoute` and keeps `Valid()` |
| Store.Database.DeleteRoute | app/admin/routes.py:244-265 | reaches the state and outcome of `AdminRoutes.DeleteRoute` and keeps `Valid()` |
| Store.Database.AddSinglePart | app/admin/routes.py:269-293 | reaches the state and outcome of `AdminRoutes.AddSinglePart` and keeps `Valid()` |
| Store.Database.UploadExcel | app/admin/routes.py:295-342 | the row loop with its two counters reaches the state and counts of `AdminRoutes.UploadExcel` and keeps `Valid()` |
| Store.Database.ImportRow | app/admin/routes.py:317-329 | one loop iteration performs exactly `AdminRoutes.ImportRow` on the state and the counters |
| Store.Database.EditPart | app/admin/routes.py:344-367 | reaches the state and outcome of `AdminRoutes.EditPart` and keeps `Valid()` |
| Store.Database.DeletePart | app/admin/routes.py:369-387 | reaches the state and outcome of `AdminRoutes.DeletePart` and keeps `Valid()` |
| Store.Database.CancelStage | app/admin/routes.py:417-437 | reaches the state and outcome of `AdminRoutes.CancelStage` and keeps `Valid()` |
| Store.Database.CommitCancel | app/admin/routes.py:429-435 | the committed statements of a cancellation reach `AdminRoutes.ApplyCancel` |
| Store.Database.ConfirmStage | app/main/routes.py:100-117 | reaches the state and outcome of `MainRoutes.ConfirmStage` and keeps `Valid()` |
| Store.Database.CommitConfirm | app/main/routes.py:112-115 | the committed statements of a confirmation reach `MainRoutes.ApplyConfirm` |

## Left out

- Flask itself is not modelled: request parsing, `flash`, `redirect`, `render_template`, `abort`, `send_file`, `jsonify`. Each handler reports an `Outcome` instead.
- Permission checks, `login_required`, sessions and login/logout are not modelled. The acting user's id and the signed-in username are parameters. The user-management handlers of `app/admin/routes.py` (after line 439) are out of scope; their form rules are modelled in `Forms`.
- The `permissions` part of the parts API (`app/main/routes.py:67-73`) reads the signed-in user's flags, so it is not modelled.
- Password hashing (`app/models/models.py:51-55`) uses a foreign library and is not modelled.
- Reading the spreadsheet, saving the uploaded file and removing it (`app/admin/routes.py:307-316`, `335-337`) are file I/O. The import starts from the parsed rows, given as pairs of cell texts.
- The rollback path of the import (`app/admin/routes.py:332-334`) is left out: no statement the model keeps inside the row loop can fail. So all rows or none of them are committed, as in the source.
- In the import, a part added by an earlier row of the same file counts as existing, because the session flushes before `db.session.get`. This is a modelling assumption about autoflush.
- QR code generation (`app/utils.py:13-42`) is not modelled. Its caller's use of `create_safe_file_name` to build a download name is not modelled either. The reports pages and the audit log pagination are read-only views outside the core.
- `ilike` is modelled as equality after lowering, without its `%`/`_` wildcards. Lowering (`Text.Lower`) covers ASCII and the basic Cyrillic block only; Python's full Unicode `lower()` and SQLite's case folding are not modelled.
- Timestamps are integers from the caller. Date formatting (`strftime`) is not modelled.
- When several remaining history entries share the greatest timestamp, SQL returns any of them. `Schema.LatestEntry` picks the first in table order. The contract of `AdminRoutes.ApplyCancel` only promises some entry of maximal timestamp.
- MainRoutes.SortNewestFirst: the contract promises a newest-first permutation, not the stability of Python's sort among equal timestamps.
- MainRoutes.RouteNames: the route's rows are read in table order. `Schema.DenseOrders`, kept by every handler, makes that the order of the `order` column that `select_stage` sorts by.
- MainRoutes.Dashboard: the result is a map from designation to row. The unspecified SQL row order of the result is not modelled.
- The primary key of the RouteStage rows is never read by the core, so it is not modelled.
- Concurrency and transaction isolation between requests are not modelled. Each handler is one atomic step.
- `Store.Database` does not model in-place mutation of individual row objects. Rows are values inside sequence fields, updated by reassigning the field.

## Findings

| source | as written | input that shows it | evidently intended | confidence | as-written member | corrected member |
|---|---|---|---|---|---|---|
| app/admin/forms.py:90-94 | `validate_name` tests `hasattr(self, 'obj')`, but a WTForms form does not keep the `obj` it was built with, so the creation rule runs on every submission | editing template "A" and submitting its unchanged name "A" reports that the name is taken | an edit may keep the template's own name; only another template bearing the name is a collision | not executed | Forms.ValidateNameAsWrittenRejectsOwnName, AdminRoutes.EditRouteRejectsOwnName | Forms.NameAvailableKeepsOwnName |
