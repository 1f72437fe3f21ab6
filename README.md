# PhD application tracker: a verified model of its data hooks and components

The tracker keeps three tables per user in a Supabase backend:

- **programs**: university, department, deadline, status, requirement counters and fee.
- **requirements**: one checklist item per program.
- **documents**: statements, CVs and similar files, with a `document_programs` association table.

Uploaded files live in a storage bucket named `documents`.

This project models the following in Dafny:

- **Data hooks.** The list/create/update/delete hooks for all three tables. They run over an in-memory
  `Store.Database`, whose tables are sequences of rows. Each backend call that can fail is a
  boolean parameter.
- **Storage.** The helper that uploads, deletes and downloads bucket objects, modelled on
  `Storage.Bucket`, a map from object paths to byte strings.
- **UI components.** The components whose logic decides what is stored or shown: the deadline chip,
  the program board, the documents panel, the upload dialog, the requirements checklist, the
  document selector, the onboarding stepper and page, and the password form on the settings page.

Stateful hooks and components are classes or methods that change state. Their `ensures` give the
whole new state. The pure helpers are functions, with lemmas that relate them. The main properties
proved are:

- A failure before the first write returns an error and leaves the tables unchanged. Failures after
  it are stated case by case: a failed link insert returns an error after the document row was
  written and the old links were removed. A requirement update succeeds with stale counters
  when its re-read or counter write fails, and a requirement delete does so when its lookup,
  re-read or counter write fails.
- Reading a program, requirement or document back after create or update gives what was written.
- Program and document lists are sorted permutations of the user's own rows. A requirement list
  is exactly the program's rows, transformed, in table order.
- Update and delete of a requirement restore the invariant "each program's counters equal the
  number of its requirements and of its completed requirements".
- A public URL returned by an upload leads back to the object it wrote, with the URL built without
  the client library's percent-encoding (see Left out). Two users never share an
  object path.
- The deadline chip's colour is monotone in urgency, and its label determines the number of days.
- The association replace reads back exactly the chosen programs when it succeeds. When its unlink
  step fails, the old and the new links both survive.

Modules: `Outcomes` (Option, Result, failures), `Seqs`, `Text`, `Types` (the records of
`lib/types.ts`), `Store` (rows and the database), `ProgramHooks`, `RequirementHooks`,
`DocumentHooks`, `Storage`, `DeadlineChip`, `ProgramBoard`, `DocumentsPanel`, `UploadDialog`,
`RequirementsChecklist`, `DocumentSelector`, `OnboardingStepper`, `OnboardingPage`, `Settings`.

Behaviour of the code worth knowing:

- The overdue chip reads `Overdue: <date>`, not a count of days overdue.
- Creating a requirement does not recount its program's counters. See Findings.
- The checklist's add dialog takes its program id from the first listed requirement. See Findings.
- Replacing a document's program links checks neither ownership nor existence of the programs.
- A failed link insert leaves the new fields written and the old links gone.
- The result of the link delete is ignored, so stale links can survive next to the new ones.
- Deleting a document removes neither its links nor its file.
- The board creates programs with a requirements total of 7 and no requirement rows.
  Onboarding creates them with 0/0.
- The stepper calls `onComplete` and navigates at once. It does not wait for the create to
  succeed.
- The documents panel's program-name list also drops programs whose university is empty,
  because `filter(Boolean)` drops `""`.
- The upload dialog never uploads the chosen file. Its payload has no file URL.
- On the stepper's first step, the Continue button is disabled when "Other" is chosen and the
  custom field is empty, and the custom input is `required`. The submit handler itself only
  checks that a field is chosen and ignores the custom field.

## Model

| member | source | states |
|---|---|---|
| Text.Decimal | components/programs/DeadlineChip.tsx:43 | a rendered day count is a non-empty string of digits that starts with 0 only for zero |
| Text.ParseDecimalInvertsDecimal | components/programs/DeadlineChip.tsx:43 | reading the rendered digits back gives the number again |
| Text.DecimalInjective | components/programs/DeadlineChip.tsx:43 | different day counts render differently |
| Text.ParseDecimal | components/programs/DeadlineChip.tsx:43 | no contract of its own: reads a string of digits as a number; ParseDecimalInvertsDecimal makes it the inverse of Decimal |
| Text.IndexFrom | lib/supabase/storage.ts:50 | the found index is the first occurrence of the separator at or after the start; none means it occurs nowhere after it |
| Text.AfterLast | lib/supabase/storage.ts:17 | the extension is the suffix after the last dot, holds no dot, and is the whole name when there is no dot |
| Text.Join | components/documents/DocumentsPanel.tsx:82 | `Array.prototype.join`: no parts give ""; the result starts with the first part and ends with the last, and holds at least one separator between each pair |
| Text.JoinCons | components/documents/DocumentsPanel.tsx:82 | one part joins to itself; a part in front of a non-empty rest is followed by one separator and the join of the rest |
| Seqs.Remove | components/documents/UploadDialog.tsx:64 | removing an id keeps exactly the other elements |
| Seqs.RemoveKeepsNoDuplicates | components/documents/UploadDialog.tsx:60-70 | removing an id from a duplicate-free selection keeps it duplicate-free |
| Seqs.RemoveLastAppended | components/documents/UploadDialog.tsx:60-70 | removing an id that was just added gives back the old selection |
| Seqs.SortBy | lib/hooks/usePrograms.ts:50 | the result is ordered by the key and is a permutation of the input |
| Storage.Bucket.constructor | lib/supabase/storage.ts:3 | a fresh bucket holds no objects |
| Storage.Allowed | lib/supabase/storage.ts:20 | no contract of its own: the character class `[a-zA-Z0-9.-]` the sanitizer keeps |
| Storage.Sanitize | lib/supabase/storage.ts:20 | same length; each letter, digit, dot or dash is kept and every other character becomes an underscore |
| Storage.SanitizeIsClean | lib/supabase/storage.ts:20 | a sanitized name holds only allowed characters and underscores and no slash; sanitizing twice changes nothing; a clean name is left as is |
| Storage.ObjectPath | lib/supabase/storage.ts:17-20 | the path starts with `<user>/` and the rest is the object name |
| Storage.ObjectName | lib/supabase/storage.ts:17-20 | with a non-empty chosen name: that name, '.', and a dot-free tail of the file's name; otherwise the timestamp's digits, '_', and the sanitized file name, whose length is kept |
| Storage.ObjectNameHasNoSlash | lib/supabase/storage.ts:17-20 | the object name holds no slash when neither the chosen name nor the file's name does |
| Storage.UserFoldersDisjoint | lib/supabase/storage.ts:18-20 | every path starts with `<user>/`, and users whose ids hold no slash never share a path |
| Storage.PublicUrl | lib/supabase/storage.ts:33-35 | the URL is the project URL, then the public-object marker, then `documents/` and the path |
| Storage.SecondPart | lib/supabase/storage.ts:50-55 | the second piece of the split exists exactly when the marker occurs in the URL |
| Storage.ReplaceFirst | lib/supabase/storage.ts:56 | a string without the pattern is returned unchanged; otherwise one occurrence is replaced, so the length changes by the difference of the two |
| Storage.ExtractPath | lib/supabase/storage.ts:50-56 | extraction fails with an invalid-URL error exactly when the URL lacks the public-object marker |
| Storage.ExtractPathInvertsPublicUrl | lib/supabase/storage.ts:35-56 | extracting from the public URL of a path gives the path back, for project URLs and paths that do not contain the marker |
| Storage.UploadedUrlLeadsBack | lib/supabase/storage.ts:17-56 | the URL an upload returns is turned back by delete and download into the same object path |
| Storage.UploadFile | lib/supabase/storage.ts:5-38 | without a user it fails with no write; otherwise it stores the content under the user's path, replacing what was there, and returns its public URL |
| Storage.DeleteFile | lib/supabase/storage.ts:40-63 | fails without a user or on a URL without the marker; otherwise removes exactly the extracted object |
| Storage.DownloadFile | lib/supabase/storage.ts:65-90 | fails without a user, on a malformed URL or on a missing object; otherwise returns the stored content |
| ProgramHooks.CreatedProgramReadsBack | lib/hooks/usePrograms.ts:22-33 | a program inserted from a create payload reads back with the given id and the payload's fields |
| ProgramHooks.ToProgram | lib/hooks/usePrograms.ts:22-33 | no contract of its own: transformProgram; CreatedProgramReadsBack and ToPrograms state what it keeps |
| ProgramHooks.InsertedRow | lib/hooks/usePrograms.ts:69-82 | no contract of its own: the inserted row; CreatedProgramReadsBack states that the counters are stored verbatim |
| ProgramHooks.UpdateData | lib/hooks/usePrograms.ts:114-124 | no contract of its own: the update builder; UpdateWritesDefinedFields states its effect |
| ProgramHooks.Apply | lib/hooks/usePrograms.ts:126-131 | no contract of its own: a partial-field write on one row; UpdateWritesDefinedFields states its effect |
| ProgramHooks.UpdateWritesDefinedFields | lib/hooks/usePrograms.ts:114-124 | an update writes exactly the defined fields, ignores the id, leaves the row unchanged when nothing is defined and is idempotent |
| ProgramHooks.FindMatch | lib/hooks/usePrograms.ts:126-132 | the index found is a row with that id owned by the user |
| ProgramHooks.PatchMatching | lib/hooks/usePrograms.ts:126-132 | rows with that id and user are patched; every other row is unchanged |
| ProgramHooks.RemoveMatching | lib/hooks/usePrograms.ts:158-162 | a row is kept exactly when it does not have both that id and that user |
| ProgramHooks.OwnedBy | lib/hooks/usePrograms.ts:46-49 | a row is selected exactly when it belongs to the user |
| ProgramHooks.ToPrograms | lib/hooks/usePrograms.ts:53 | one program per row, in order |
| ProgramHooks.DeadlineOf | lib/hooks/usePrograms.ts:50 | no contract of its own: the sort key of `.order("deadline", { ascending: true })` |
| ProgramHooks.ByDeadline | lib/hooks/usePrograms.ts:50 | a permutation of the rows sorted by ascending deadline |
| ProgramHooks.ListPrograms | lib/hooks/usePrograms.ts:35-56 | not authenticated without a user; otherwise exactly the user's programs, earliest deadline first |
| ProgramHooks.ListedAreTheOwnedRows | lib/hooks/usePrograms.ts:46-53 | the listed programs are exactly those of the user's rows |
| ProgramHooks.CreateProgram | lib/hooks/usePrograms.ts:58-95 | without a user or on insert failure nothing is written; otherwise one row owned by the user is appended and returned |
| ProgramHooks.UpdateProgram | lib/hooks/usePrograms.ts:97-145 | fails with no write without a user or unless exactly one owned row matches; otherwise patches that row and returns it with the same id |
| ProgramHooks.DeleteProgram | lib/hooks/usePrograms.ts:147-174 | without a user nothing is deleted; otherwise exactly the user's row with that id is removed |
| RequirementHooks.CreatedRequirementReadsBack | lib/hooks/useRequirements.ts:19-28 | an inserted requirement reads back with the given id and the payload's fields |
| RequirementHooks.ToRequirement | lib/hooks/useRequirements.ts:19-28 | no contract of its own: transformRequirement; CreatedRequirementReadsBack and ListRequirements state what it keeps |
| RequirementHooks.InsertedRow | lib/hooks/useRequirements.ts:65-78 | no contract of its own: the inserted row; CreatedRequirementReadsBack states it keeps the payload |
| RequirementHooks.UpdateData | lib/hooks/useRequirements.ts:108-113 | no contract of its own: the update builder; UpdateWritesDefinedFields states its effect |
| RequirementHooks.Apply | lib/hooks/useRequirements.ts:115-120 | no contract of its own: a partial-field write on one row; UpdateWritesDefinedFields states its effect |
| RequirementHooks.UpdateWritesDefinedFields | lib/hooks/useRequirements.ts:108-113 | an update writes exactly the defined name, completed flag, notes and document id, and nothing else |
| RequirementHooks.FindById | lib/hooks/useRequirements.ts:167-172 | the index found is a row with that id |
| RequirementHooks.OnlyMatch | lib/hooks/useRequirements.ts:115-122 | when exactly one row has the id, it is the one found |
| RequirementHooks.PatchRows | lib/hooks/useRequirements.ts:115-122 | rows with the id are patched; every other row is unchanged |
| RequirementHooks.RowsOf | lib/hooks/useRequirements.ts:126-129 | every selected row belongs to the program, and there are no more of them than rows |
| RequirementHooks.RowsOfSelects | lib/hooks/useRequirements.ts:126-129 | a row is selected exactly when it belongs to the program |
| RequirementHooks.RowsOfAbsentProgram | lib/hooks/useRequirements.ts:126-129 | a program no row points to has no requirements |
| RequirementHooks.RowsOfAppend | lib/hooks/useRequirements.ts:126-129 | selecting from two stretches of the table gives the first stretch's rows followed by the second's, so the selection keeps table order |
| RequirementHooks.CompletedIn | lib/hooks/useRequirements.ts:132 | the completed count is at most the number of rows |
| RequirementHooks.Recount | lib/hooks/useRequirements.ts:126-133 | the recount is the program's number of requirements and of completed ones |
| RequirementHooks.WriteCounters | lib/hooks/useRequirements.ts:134-140 | the program's counters are set and every other program row is unchanged |
| RequirementHooks.CountersMatch | lib/hooks/useRequirements.ts:126-140 | no contract of its own: a program row's counters equal the recount of its requirement rows |
| RequirementHooks.Consistent | lib/hooks/useRequirements.ts:126-140 | no contract of its own: every program row's counters match; UpdateRestoresConsistency and DeleteRestoresConsistency preserve it |
| RequirementHooks.PatchKeepsOtherPrograms | lib/hooks/useRequirements.ts:115-129 | patching a requirement leaves every other program's requirements as they were |
| RequirementHooks.PatchKeepsTotals | lib/hooks/useRequirements.ts:115-129 | patching a requirement does not change how many requirements its program has |
| RequirementHooks.WriteRecountRepairs | lib/hooks/useRequirements.ts:126-140 | after the recount is written, the program's counters match its requirements |
| RequirementHooks.UpdateRestoresConsistency | lib/hooks/useRequirements.ts:115-141 | an update followed by the recount keeps every program's counters consistent |
| RequirementHooks.RemoveOnlyMatch | lib/hooks/useRequirements.ts:174-176 | deleting the only row with an id removes exactly that row |
| RequirementHooks.RemoveNone | lib/hooks/useRequirements.ts:174-176 | deleting an id no row has changes nothing |
| RequirementHooks.RemoveId | lib/hooks/useRequirements.ts:174-176 | exactly the rows without that id remain, and as many rows go as carried the id |
| RequirementHooks.DeleteAdjustsCounters | lib/hooks/useRequirements.ts:174-196 | deleting a requirement lowers its program's total by one, and the completed count by one exactly when it was completed |
| RequirementHooks.DeleteRestoresConsistency | lib/hooks/useRequirements.ts:167-196 | a delete followed by the recount keeps every program's counters consistent |
| RequirementHooks.CreateWithoutRecountBreaksConsistency | lib/hooks/useRequirements.ts:65-78 | creating a requirement as written leaves its program's counters one short |
| RequirementHooks.CreateWithRecountKeepsConsistency | lib/hooks/useRequirements.ts:65-82 | creating with a recount keeps every program's counters consistent |
| RequirementHooks.ListRequirements | lib/hooks/useRequirements.ts:30-52 | an empty list without a program id; otherwise not authenticated without a user, an error on a failed read, and else exactly the program's rows, each passed through transformRequirement, in table (created_at) order, as many as its recounted total |
| RequirementHooks.ListedCountMatchesCounters | lib/hooks/useRequirements.ts:41-45 | in a consistent database the listed requirements number exactly the program's total |
| RequirementHooks.CreateRequirement | lib/hooks/useRequirements.ts:54-89 | on insert failure nothing changes; otherwise one row is appended and returned, and the program rows are untouched |
| RequirementHooks.CreateRequirementRecounted | lib/hooks/useRequirements.ts:54-89 | as the create, and the program's counters are recounted so consistency is kept |
| RequirementHooks.UpdateRequirement | lib/hooks/useRequirements.ts:91-154 | fails with no write unless exactly one row matches; otherwise patches it; when the re-read of the program's requirements and the counter write succeed, it writes the recount and consistency is kept. Both results go unchecked, so either failure still succeeds with stale counters |
| RequirementHooks.DeleteRequirement | lib/hooks/useRequirements.ts:156-207 | a failed delete changes nothing; otherwise every row with the id is removed, and the owning program's counters are rewritten from the remaining rows only when the lookup found exactly one row and the re-read and counter write succeeded, else they stay as they were |
| DocumentHooks.LinksFor | lib/hooks/useDocuments.ts:113-116 | one association row per chosen program, in order, for that document |
| DocumentHooks.LinkedProgramIds | lib/hooks/useDocuments.ts:31-42 | every id read back has an association row for the document, no more ids than rows, none when the document has no rows |
| DocumentHooks.Unlink | lib/hooks/useDocuments.ts:176 | no association row of the document is left, and the others are kept |
| DocumentHooks.LinkedAppend | lib/hooks/useDocuments.ts:31-34 | the links read after an insert are the old links followed by the new ones |
| DocumentHooks.LinkedOfLinksFor | lib/hooks/useDocuments.ts:109-120 | the rows inserted for a document read back as the chosen program ids |
| DocumentHooks.UnlinkClears | lib/hooks/useDocuments.ts:176 | after the delete, the document has no linked programs and other documents keep theirs |
| DocumentHooks.ReplaceLinksReadsBack | lib/hooks/useDocuments.ts:173-191 | after a successful replace the document's programs are exactly the chosen ones, and other documents keep theirs |
| DocumentHooks.StaleLinksSurviveFailedUnlink | lib/hooks/useDocuments.ts:176-189 | when the ignored delete fails, the document reads back its old programs followed by the new ones |
| DocumentHooks.UpdateWritesDefinedFields | lib/hooks/useDocuments.ts:153-161 | an update writes exactly the defined name, type, status, word count and file URL, writes the modification time only when given, keeps the rest and is idempotent |
| DocumentHooks.ToDocument | lib/hooks/useDocuments.ts:26-46 | no contract of its own: transformDocument; ToDocuments and ReplaceLinksReadsBack state what it reads back |
| DocumentHooks.InsertedRow | lib/hooks/useDocuments.ts:92-106 | no contract of its own: the inserted row, stamped with the clock's time; CreateDocument states its use |
| DocumentHooks.UpdateData | lib/hooks/useDocuments.ts:153-161 | no contract of its own: the update builder; UpdateWritesDefinedFields states its effect |
| DocumentHooks.Apply | lib/hooks/useDocuments.ts:163-169 | no contract of its own: a partial-field write on one row; UpdateWritesDefinedFields states its effect |
| DocumentHooks.FindMatch | lib/hooks/useDocuments.ts:163-171 | the index found is a row with that id owned by the user |
| DocumentHooks.PatchMatching | lib/hooks/useDocuments.ts:163-169 | rows with that id and user are patched; every other row is unchanged |
| DocumentHooks.RemoveMatching | lib/hooks/useDocuments.ts:216-220 | a row is kept exactly when it does not have both that id and that user |
| DocumentHooks.OwnedBy | lib/hooks/useDocuments.ts:60-63 | a row is selected exactly when it belongs to the user |
| DocumentHooks.ToDocuments | lib/hooks/useDocuments.ts:67-69 | one document per row, in order, each with its linked programs |
| DocumentHooks.NewestFirst | lib/hooks/useDocuments.ts:63 | no contract of its own: the sort key of `.order("last_modified", { ascending: false })` |
| DocumentHooks.NewestOwned | lib/hooks/useDocuments.ts:60-64 | exactly the user's rows, newest modification first |
| DocumentHooks.ListDocuments | lib/hooks/useDocuments.ts:49-72 | not authenticated without a user; fails when a read fails; otherwise one document per owned row, newest first |
| DocumentHooks.ListedAreTheOwnedRows | lib/hooks/useDocuments.ts:60-69 | every listed document comes from one of the user's rows, and each such row is listed |
| DocumentHooks.CreateDocument | lib/hooks/useDocuments.ts:74-132 | no write without a user or on insert failure; otherwise the row and its links are written, the links being lost on link failure, and a new document reads back its chosen programs |
| DocumentHooks.UpdateDocument | lib/hooks/useDocuments.ts:134-203 | fails with no write unless exactly one owned row matches; otherwise patches it and, when programs are given, replaces the links, leaving the partial state on link failure |
| DocumentHooks.DeleteDocument | lib/hooks/useDocuments.ts:205-232 | without a user nothing is deleted; otherwise removes the owned row and keeps all links |
| DeadlineChip.Style | components/programs/DeadlineChip.tsx:15-25 | destructive without tint under 15 days, secondary amber from 15 to 29, secondary green from 30 on |
| DeadlineChip.TierOf | components/programs/DeadlineChip.tsx:15-25 | overdue exactly below 0 days, critical exactly from 0 to 14, soon exactly from 15 to 29, safe exactly from 30 |
| DeadlineChip.Label | components/programs/DeadlineChip.tsx:37-43 | no contract of its own: the label chain; OverdueLabelHidesDays, LabelDeterminesDays, DigitsNotWords and CountedLabelShowsDays state its properties |
| DeadlineChip.StyleFollowsTier | components/programs/DeadlineChip.tsx:15-25 | overdue and critical chips look alike, and the boundaries 14/15 and 29/30 fall where stated |
| DeadlineChip.StyleIsMonotone | components/programs/DeadlineChip.tsx:15-25 | fewer days left never gives a calmer chip |
| DeadlineChip.Urgency | components/programs/DeadlineChip.tsx:15-25 | no contract of its own: ranks the three looks (destructive, amber, green) for StyleIsMonotone |
| DeadlineChip.OverdueLabelHidesDays | components/programs/DeadlineChip.tsx:37-38 | every overdue deadline with the same date reads the same, whatever the number of days |
| DeadlineChip.LabelDeterminesDays | components/programs/DeadlineChip.tsx:37-43 | two upcoming deadlines with the same label have the same number of days |
| DeadlineChip.DigitsNotWords | components/programs/DeadlineChip.tsx:39-43 | the label of a deadline two or more days away starts with digits |
| DeadlineChip.CountedLabelShowsDays | components/programs/DeadlineChip.tsx:43 | the number in the label of a deadline two or more days away reads back as the days left |
| ProgramBoard.WithStatus | components/programs/ProgramBoard.tsx:74 | a program is in a column exactly when it has that column's status; WithStatusAppend, WithStatusKeepsMultiplicity and WithStatusKeepsDeadlineOrder state its order and counts |
| ProgramBoard.WithStatusAppend | components/programs/ProgramBoard.tsx:74 | the filter keeps input order: filtering two stretches in a row gives the first stretch's matches followed by the second's |
| ProgramBoard.WithStatusKeepsMultiplicity | components/programs/ProgramBoard.tsx:74 | every copy of a program with the column's status is kept, and no copy of any other |
| ProgramBoard.Deadline | lib/hooks/usePrograms.ts:49 | no contract of its own: the sort key of the query, earliest deadline first |
| ProgramBoard.WithStatusKeepsBound | components/programs/ProgramBoard.tsx:74 | a deadline lower bound on the list holds for every column |
| ProgramBoard.WithStatusKeepsDeadlineOrder | components/programs/ProgramBoard.tsx:74 | a list fetched in deadline order yields every column in deadline order |
| ProgramBoard.ProgramsByStatus | components/programs/ProgramBoard.tsx:72-75 | four columns in board order, each holding exactly the filter of the input by its status, so in input order |
| ProgramBoard.EveryStatusHasOneColumn | components/programs/ProgramBoard.tsx:22-27 | each status has exactly one column |
| ProgramBoard.FiltersPartition | components/programs/ProgramBoard.tsx:72-75 | the four filters together hold each program exactly as many times as the input does |
| ProgramBoard.ColumnsPartition | components/programs/ProgramBoard.tsx:72-77 | the columns hold a permutation of all programs, and their sizes add up to the total shown |
| ProgramBoard.CreatePayload | components/programs/ProgramBoard.tsx:59-66 | a new program starts researching, with 0 of 7 requirements and no fee |
| ProgramBoard.BoardProgramStartsUncounted | components/programs/ProgramBoard.tsx:59-66 | a program created from the board has counters that do not match its requirements |
| ProgramBoard.StatusChange | components/programs/ProgramBoard.tsx:44-46 | moving a card sends an update with only the status |
| ProgramBoard.Header | components/programs/ProgramBoard.tsx:85 | no contract of its own: the header line; HeaderWording states its wording |
| ProgramBoard.HeaderWording | components/programs/ProgramBoard.tsx:85 | the header shows the count, then the singular noun for one program and the plural otherwise |
| DocumentsPanel.WithType | components/documents/DocumentsPanel.tsx:42 | a document is shown exactly when it has the selected type; WithTypeAppend and WithTypeKeepsMultiplicity state its order and counts |
| DocumentsPanel.WithTypeAppend | components/documents/DocumentsPanel.tsx:42 | the filter keeps input order: filtering two stretches in a row gives the first stretch's matches followed by the second's |
| DocumentsPanel.WithTypeKeepsMultiplicity | components/documents/DocumentsPanel.tsx:42 | every copy of a document of the selected type is kept, and no copy of any other |
| DocumentsPanel.TypeLabel | components/documents/DocumentsPanel.tsx:20-26 | no contract of its own: the five type headings |
| DocumentsPanel.FindProgram | components/documents/DocumentsPanel.tsx:78 | the index found is the first program with that id |
| DocumentsPanel.ShownName | components/documents/DocumentsPanel.tsx:77-81 | no contract of its own: the first program's university for one id, dropped when missing or empty |
| DocumentsPanel.Names | components/documents/DocumentsPanel.tsx:76-81 | at most one name per id, never an empty one, and none exactly when no id names a known program with a university; NamesAppend, NamesOfOne and EveryShownNameAppears state the rest |
| DocumentsPanel.NamesAppend | components/documents/DocumentsPanel.tsx:76-81 | the names for two id lists in a row are the names for the first followed by those for the second |
| DocumentsPanel.NamesOfOne | components/documents/DocumentsPanel.tsx:76-81 | one id contributes its first program's university when non-empty, and nothing otherwise |
| DocumentsPanel.EveryShownNameAppears | components/documents/DocumentsPanel.tsx:76-81 | every id whose first program has a university contributes that university |
| DocumentsPanel.ProgramNames | components/documents/DocumentsPanel.tsx:74-83 | no contract of its own: getProgramNames; ProgramNamesCases states its two outcomes |
| DocumentsPanel.ProgramNamesCases | components/documents/DocumentsPanel.tsx:74-83 | "No programs" for no ids or no known names, otherwise the names joined with commas |
| DocumentsPanel.NamesComeFromFirstMatch | components/documents/DocumentsPanel.tsx:76-81 | each name shown is the university of the first program carrying one of the ids (the converse is EveryShownNameAppears) |
| DocumentsPanel.StatusBadge | components/documents/DocumentsPanel.tsx:55-72 | the badge reads "Final" exactly for final documents and "Draft" exactly for drafts |
| DocumentsPanel.CountLine | components/documents/DocumentsPanel.tsx:116-118 | no contract of its own: the count line; CountLineWording states its wording |
| DocumentsPanel.CountLineWording | components/documents/DocumentsPanel.tsx:116-118 | the count line shows the number, the singular noun only for one, and the type's label |
| UploadDialog.StripExtension | components/documents/UploadDialog.tsx:55 | the default name is a prefix of the file name |
| UploadDialog.IsExtension | components/documents/UploadDialog.tsx:55 | no contract of its own: the `[^/.]+` part of the pattern, a non-empty run without '.' or '/' |
| UploadDialog.AfterLastOfDotted | components/documents/UploadDialog.tsx:55 | a name ending in a dot and an extension has that extension after its last dot |
| UploadDialog.StripRemovesExtension | components/documents/UploadDialog.tsx:55 | a final '.' followed by a non-empty extension without '.' or '/' (the `[^/.]+` pattern) is removed, leaving exactly the base name |
| UploadDialog.StripOnlyRemovesExtension | components/documents/UploadDialog.tsx:55 | a name that does not end in such an extension is kept whole |
| UploadDialog.Toggled | components/documents/UploadDialog.tsx:60-70 | toggling adds the id when absent and removes it when present, leaving other ids alone |
| UploadDialog.ToggleKeepsNoDuplicates | components/documents/UploadDialog.tsx:60-70 | toggling keeps the selection free of duplicates |
| UploadDialog.ToggleTwice | components/documents/UploadDialog.tsx:60-70 | toggling the same id twice restores the selection |
| UploadDialog.Form.constructor | components/documents/UploadDialog.tsx:43-48 | the form starts with no name, a draft status, no programs and no file |
| UploadDialog.Form.HandleFileChange | components/documents/UploadDialog.tsx:50-58 | choosing a file records it and fills an empty name with the file name minus its extension; a filled name is kept |
| UploadDialog.Form.HandleProgramToggle | components/documents/UploadDialog.tsx:60-70 | the selection becomes the toggled selection and stays duplicate-free |
| UploadDialog.Form.HandleSubmit | components/documents/UploadDialog.tsx:72-91 | nothing is sent without a file or a name; otherwise the request carries the form's fields and no file URL, and the form resets and closes |
| RequirementsChecklist.CompletedFrom | components/programs/RequirementsChecklist.tsx:136-140 | the checkbox state becomes the completed flag exactly when it is true |
| RequirementsChecklist.ToggleUpdate | components/programs/RequirementsChecklist.tsx:136-140 | no contract of its own: the update a checkbox sends; ToggleChangesOnlyCompleted states its effect |
| RequirementsChecklist.ToggleChangesOnlyCompleted | components/programs/RequirementsChecklist.tsx:136-140 | a toggle changes only the completed flag of the requirement |
| RequirementsChecklist.NotesUpdate | components/programs/RequirementsChecklist.tsx:190-193 | no contract of its own: the update a notes edit sends; NotesEditChangesOnlyNotes states its effect |
| RequirementsChecklist.NotesEditChangesOnlyNotes | components/programs/RequirementsChecklist.tsx:190-193 | editing notes changes only the notes |
| RequirementsChecklist.ToggledSet | components/programs/RequirementsChecklist.tsx:46-56 | the id is added when absent and removed when present; other ids stay as they were |
| RequirementsChecklist.ToggleExpandedTwice | components/programs/RequirementsChecklist.tsx:46-56 | expanding and collapsing the same item restores the set |
| RequirementsChecklist.CreatePayload | components/programs/RequirementsChecklist.tsx:58-72 | the new requirement carries the typed name, is not completed and has no notes and no document |
| RequirementsChecklist.FormProgramId | components/programs/RequirementsChecklist.tsx:96 | no contract of its own: the first listed requirement's program id, or "" for an empty list; FormProgramIdOfListedPage and FirstRequirementMissesProgram state both cases |
| RequirementsChecklist.FormProgramIdOfListedPage | components/programs/RequirementsChecklist.tsx:96 | on a page listing at least one requirement, the form's program id is the page's program |
| RequirementsChecklist.FirstRequirementMissesProgram | components/programs/RequirementsChecklist.tsx:96 | on a program with no requirements, the requirement created is not listed under it |
| RequirementsChecklist.CreatePayloadFor | components/programs/RequirementsChecklist.tsx:58-72 | the corrected payload carries the page's program id |
| RequirementsChecklist.CreatedRequirementJoinsProgram | components/programs/RequirementsChecklist.tsx:58-72 | with the corrected payload the created requirement is listed under the page's program |
| RequirementsChecklist.Checklist.constructor | components/programs/RequirementsChecklist.tsx:43-44 | nothing is expanded and the dialog is closed |
| RequirementsChecklist.Checklist.ToggleExpanded | components/programs/RequirementsChecklist.tsx:46-56 | the expanded set becomes the toggled set |
| RequirementsChecklist.Checklist.HandleCreateRequirement | components/programs/RequirementsChecklist.tsx:58-72 | returns the payload as written and closes the dialog |
| RequirementsChecklist.Checklist.HandleCreateRequirementFor | components/programs/RequirementsChecklist.tsx:58-72 | returns the corrected payload, which joins the page's program, and closes the dialog |
| DocumentSelector.Selector.constructor | components/programs/DocumentSelector.tsx:31-33 | the selection starts at the current document when it is non-empty, else none |
| DocumentSelector.Selector.Click | components/programs/DocumentSelector.tsx:60 | clicking a document selects it |
| DocumentSelector.Selector.HandleSelect | components/programs/DocumentSelector.tsx:35-40 | with a selection, it is reported and the dialog closes; without one nothing happens, exactly when Attach is disabled |
| DocumentSelector.Selector.Cancel | components/programs/DocumentSelector.tsx:81 | cancelling closes the dialog and keeps the selection |
| DocumentSelector.Selector.AttachDisabled | components/programs/DocumentSelector.tsx:84 | no contract of its own: Attach is disabled exactly when no document is selected |
| OnboardingStepper.FinalField | components/onboarding/OnboardingStepper.tsx:61 | "Other" is replaced by the custom field, any other choice is kept |
| OnboardingStepper.Stepper.constructor | components/onboarding/OnboardingStepper.tsx:44-49 | the stepper starts on step 1 with all fields empty |
| OnboardingStepper.Stepper.SetFieldOfStudy | components/onboarding/OnboardingStepper.tsx:134 | only the field of study changes |
| OnboardingStepper.Stepper.SetCustomField | components/onboarding/OnboardingStepper.tsx:156 | only the custom field changes |
| OnboardingStepper.Stepper.SetProgramFields | components/onboarding/OnboardingStepper.tsx:176-199 | only the university, department and deadline text change |
| OnboardingStepper.Stepper.HandleFieldSubmit | components/onboarding/OnboardingStepper.tsx:51-56 | moves to step 2 exactly when a field of study is chosen; nothing else changes |
| OnboardingStepper.Stepper.Back | components/onboarding/OnboardingStepper.tsx:208 | returns to step 1 and keeps every field |
| OnboardingStepper.Stepper.ContinueDisabled | components/onboarding/OnboardingStepper.tsx:164 | no contract of its own: disabled when no field is chosen, or "Other" is chosen with an empty custom field |
| OnboardingStepper.Stepper.CompleteDisabled | components/onboarding/OnboardingStepper.tsx:214 | no contract of its own: disabled until university, department and deadline are all filled in; HandleProgramSubmit relies on it |
| OnboardingStepper.Stepper.HandleProgramSubmit | components/onboarding/OnboardingStepper.tsx:58-72 | completes and navigates exactly when Complete is enabled, passing the final field of study, the university, the department and the parsed deadline |
| OnboardingPage.CompletePayload | app/onboarding/page.tsx:19-27 | the program starts researching with 0 of 0 requirements and no fee |
| OnboardingPage.FieldOfStudyIsDropped | app/onboarding/page.tsx:19-27 | the payload does not depend on the field of study |
| OnboardingPage.HandleComplete | app/onboarding/page.tsx:11-33 | runs the program create with the onboarding payload; it navigates exactly when the create succeeds (a user is signed in and the insert does not fail), and then the tables hold the payload as one new row owned by the user; a failed create stores nothing and does not navigate |
| OnboardingPage.OnboardedProgramIsConsistent | app/onboarding/page.tsx:25-26 | a fresh onboarded program's 0/0 counters match its empty requirement list |
| Settings.PasswordErrors | app/app/settings/page.tsx:21-28 | among the schema's issues, "Passwords don't match" is reported under the confirm field exactly when the new password and its confirmation differ |
| Settings.AcceptedIff | app/app/settings/page.tsx:21-28 | the form is accepted exactly when the current password is given, the new one has at least 6 characters and the confirmation equals it |
| Settings.Accepted | app/app/settings/page.tsx:21-28 | no contract of its own: the schema passes when it reports no error; AcceptedIff states when |
| Settings.SettingsPage.constructor | app/app/settings/page.tsx:38-46 | not updating, with an empty form |
| Settings.SettingsPage.UpdatePassword | app/app/settings/page.tsx:81-113 | signs in with the current password when an email is known, updates only when that succeeds, resets the form only on success, and always clears the busy flag |

## Left out

- Rendering, styling, icons, dialogs' open/close animation and toasts are not modelled, except the success or failure toast of the password update, which is part of `Settings.SettingsPage.UpdatePassword`'s outcome.
- React Query's caching, invalidation and refetching are not modelled; every hook reads the tables directly.
- The network, the Supabase client and its row-level security are not modelled. Every backend call that can fail is a boolean parameter of the operation. Server-assigned ids are parameters.
- `Date.now()`, `new Date()` parsing, `toISOString` and `toLocaleDateString` are not modelled. Instants are integers and formatted dates are parameters. The `differenceInDays` call behind the deadline chip is a parameter `daysUntil`.
- The ordering of `created_at` is the table's order.
- String lengths are counted in characters, not in UTF-16 code units.
- Database cascades and foreign keys are not modelled. A program's delete leaves its requirements and links in the model.
- Concurrent mutations and their races are not modelled.
- The settings page's email form and its `z.string().email` rule are left out: the email validator is a third-party regular expression.
- The progress percentage on the program card is floating point and is left out.
- `FirstRunTooltip`, the sidebar and the layouts hold no logic that reaches the tables and are left out.
- DocumentHooks.ListDocuments: the association reads per document either all succeed or all fail, a single `linkReadFails` parameter, rather than failing one by one.
- Settings.PasswordErrors: lists every issue the schema reports; the form then shows only the first message per field (app/app/settings/page.tsx:256-258), so a confirmation shorter than 6 characters shows "Please confirm your password" even when the two passwords differ. That display rule is not modelled.
- Storage.PublicUrl: `getPublicUrl` is a client-library call, modelled as plain concatenation. The library percent-encodes the path, which the model does not do.
- Storage.ExtractPathInvertsPublicUrl: the round trip holds for the unencoded URL only. With the library's encoding it covers only paths that encoding leaves unchanged. A chosen file name with a space is one that breaks.
- Storage.UploadedUrlLeadsBack: as for ExtractPathInvertsPublicUrl. The upload's URL leads back to its object only when the library's percent-encoding leaves the path unchanged. A sanitized name under a user id of letters, digits and dashes always qualifies; a chosen name need not.
- Storage.DownloadFile: the "File not found" branch for a download that returns no data and no error is merged into the backend error of a missing object.
- ProgramHooks.UpdateWritesDefinedFields: an undefined fee means "no change", so a fee cannot be cleared through an update; the model keeps this as written.

## Findings

| source | as written | input that shows it | evidently intended | confidence | as-written member | corrected member |
|---|---|---|---|---|---|---|
| lib/hooks/useRequirements.ts:65-78 | creating a requirement inserts the row but never recounts the program's counters, while update and delete do | a program with counters 0/0 and no requirements; creating one requirement leaves the counters at 0/0 with one row | recount after insert, as the hook's own invalidation of the programs query at line 82 expects | medium, not executed | RequirementHooks.CreateWithoutRecountBreaksConsistency | RequirementHooks.CreateWithRecountKeepsConsistency |
| components/programs/RequirementsChecklist.tsx:96 | the add dialog's program id is that of the first listed requirement, or "" when the list is empty | a program with no requirements: adding "GRE Scores" creates a requirement with program id "" that never appears under the program | the page's own program id | high, not executed | RequirementsChecklist.FirstRequirementMissesProgram | RequirementsChecklist.CreatedRequirementJoinsProgram |
