# User directory — a Dafny model

This project models the core of a small user-directory web application. A
shared store keeps a collection of user records, each with an identifier,
name, email, role, status and profile photo. Three pages work on that store:

- the dashboard counts the records and lists them;
- the add-user form validates its input against a schema and appends a record
  with a freshly generated identifier;
- the manage-users page shows a filtered, sorted table with inline single-cell
  editing and deletion gated by a confirmation dialog.

A profile-photo picker checks the size and type of the selected image.

Modules, one per source file, plus shared building blocks:

| module | file | models |
|---|---|---|
| `Wrappers` | wrappers.dfy | the nullable slot (`Option`) |
| `Seqs` | seqs.dfy | `Array.prototype.filter` and its laws |
| `Strings` | strings.dfy | `toLowerCase`, `includes`, `startsWith`, the string order used by the sort |
| `Users` | users.dfy | the user record, its editable fields, identifier distinctness |
| `UserContext` | user_context.dfy | the store: initial load, `addUser`, `updateUser`, `deleteUser`, persistence |
| `ManageUsers` | manage_users.dfy | `filteredUsers`, `handleDelete`, the edit session (`editingUser`, `EditableCell`) |
| `Home` | home.dfy | the dashboard metrics and the empty state |
| `ImageUpload` | image_upload.dfy | `handleImageUpload` |
| `AddUser` | add_user.dfy | the validation schema, the default values, `onSubmit` |

The store and the two stateful pages are classes whose methods update their
fields in place, as the React state does.

- The store's `persisted` ghost field stands for the saved copy in local
  storage. `Valid()` states that it always equals the collection.
- Pure computations are functions. They are related to the methods by the
  methods' postconditions and by lemmas:
  - the filter and the sort behind `filteredUsers`;
  - the `map` and `filter` behind update and delete;
  - the schema and the image checks.
- The sort is a stable insertion sort. The proofs show:
  - its result is a permutation of its input;
  - the result is ordered by the configured field and direction;
  - records with equal keys keep their input order, as `Array.prototype.sort`
    guarantees.

## Model

| member | source | states |
|---|---|---|
| Seqs.Filter | src/context/UserContext.tsx:39 | a filter never yields more elements than it was given |
| Seqs.FilterMembers | src/pages/ManageUsersPage.tsx:29-37 | an element is in the filtered sequence exactly when it is in the input and the predicate accepts it |
| Seqs.FilterMultiset | src/pages/ManageUsersPage.tsx:29-37 | a filter keeps every accepted element as often as the input holds it and drops every rejected one |
| Seqs.FilterConcat | src/context/UserContext.tsx:39 | filtering a concatenation is concatenating the filtered parts, so the kept elements stay in input order |
| Seqs.FilterAll | src/pages/ManageUsersPage.tsx:29-37 | a predicate that accepts every element leaves the sequence unchanged |
| Seqs.FilterAgree | src/pages/ManageUsersPage.tsx:29-37 | two predicates that agree on every element give the same filtered sequence |
| Seqs.FilterIdempotent | src/context/UserContext.tsx:39 | filtering twice by the same predicate is filtering once |
| Seqs.FilterPairwise | src/context/UserContext.tsx:39 | a relation that holds between every earlier and later element still holds after filtering |
| Seqs.FilterDisjointLength | src/pages/HomePage.tsx:34-49 | two filters that never both accept keep at most the input's length between them, and exactly that length when one of them accepts every element |
| Strings.LowerChar | src/pages/ManageUsersPage.tsx:32-33 | the lower-cased character is never a capital; a capital moves to its lower-case letter and every other character is unchanged |
| Strings.ToLower | src/pages/ManageUsersPage.tsx:32-33 | lower-casing keeps the length and leaves no capital letter |
| Strings.ToLowerNoCapitals | src/pages/ManageUsersPage.tsx:32-33 | a text without capitals is its own lower-cased form |
| Strings.ToLowerIdempotent | src/pages/ManageUsersPage.tsx:32-33 | lower-casing twice is lower-casing once |
| Strings.StartsWith | src/components/common/ImageUpload.tsx:20 | a text starts with a prefix exactly when the prefix fits and equals the text's leading part |
| Strings.Includes | src/pages/ManageUsersPage.tsx:32-33 | a text includes a needle exactly when the needle occurs at some position |
| Strings.IncludesShift | src/pages/ManageUsersPage.tsx:32-33 | when a text does not start with the needle, the needle occurs in it exactly when it occurs in the text without its first character |
| Strings.IncludesEmpty | src/pages/ManageUsersPage.tsx:32-33 | every text includes the empty search text |
| Strings.CaseVariant | src/pages/ManageUsersPage.tsx:32-33 | defines two characters as case variants when they are equal or are the upper- and lower-case form of one ASCII letter |
| Strings.SameUpToCase | src/pages/ManageUsersPage.tsx:32-33 | defines two texts as equal up to case when they have the same length and are case variants position by position |
| Strings.ToLowerIgnoresCase | src/pages/ManageUsersPage.tsx:32-33 | two texts lower-case to the same text exactly when they differ only in the case of ASCII letters |
| Strings.LexLeq | src/pages/ManageUsersPage.tsx:41 | defines the key order standing in for `localeCompare`: lexicographic by code point, with a prefix sorting before its extensions |
| Strings.LexReflexive | src/pages/ManageUsersPage.tsx:41 | every key compares equal to itself |
| Strings.LexTotal | src/pages/ManageUsersPage.tsx:41 | any two keys are comparable |
| Strings.LexAntisymmetric | src/pages/ManageUsersPage.tsx:41 | keys that compare both ways are equal |
| Strings.LexTransitive | src/pages/ManageUsersPage.tsx:41 | the key order is transitive |
| Users.FieldOf | src/pages/ManageUsersPage.tsx:41 | defines `user[field]` for the four editable and sortable fields |
| Users.WithField | src/pages/ManageUsersPage.tsx:75 | `{ ...user, [field]: value }` sets that field, keeps the identifier and the photo, and leaves the other fields alone |
| Users.WithId | src/context/UserContext.tsx:25-28 | `{ ...userData, id }` carries exactly the supplied fields plus the identifier, and is the only record that does |
| Users.DistinctOccursOnce | src/context/UserContext.tsx:27 | in a collection with distinct identifiers, each record occurs once |
| UserContext.ReplaceById | src/context/UserContext.tsx:32-36 | the update keeps the length and, position by position, puts the updated record where the identifier matches and leaves the others |
| UserContext.RemoveById | src/context/UserContext.tsx:38-40 | a record remains exactly when it was there and carries another identifier; the deleted identifier is gone |
| UserContext.UpdateKeepsIds | src/context/UserContext.tsx:32-36 | an update does not change the set of identifiers in use |
| UserContext.UpdateKeepsDistinct | src/context/UserContext.tsx:32-36 | an update keeps identifiers distinct |
| UserContext.UpdateAbsentIsNoop | src/context/UserContext.tsx:32-36 | updating an identifier that is not present changes nothing |
| UserContext.DeleteRetainsOthers | src/context/UserContext.tsx:38-40 | a delete keeps each record with another identifier as often as it was there |
| UserContext.DeleteKeepsOrder | src/context/UserContext.tsx:38-40 | a delete distributes over concatenation, so the remaining records keep their order |
| UserContext.DeleteIdempotent | src/context/UserContext.tsx:38-40 | deleting the same identifier twice is deleting it once |
| UserContext.DeleteAbsentIsNoop | src/context/UserContext.tsx:38-40 | deleting an identifier that is not present changes nothing |
| UserContext.DeleteKeepsDistinct | src/context/UserContext.tsx:38-40 | a delete keeps identifiers distinct |
| UserContext.AddKeepsDistinct | src/context/UserContext.tsx:24-30 | appending a record with an unused identifier keeps identifiers distinct |
| UserContext.UserStore.Valid | src/context/UserContext.tsx:20-22 | defines the store's invariant: the saved copy equals the collection, as the effect writes it after every change |
| UserContext.UserStore.constructor | src/context/UserContext.tsx:15-22 | the store starts from the saved collection when there is one and from the seed otherwise; the saved copy equals it |
| UserContext.UserStore.AddUser | src/context/UserContext.tsx:24-30 | the new record is appended at the end; distinctness is kept for a fresh identifier; the saved copy follows |
| UserContext.UserStore.UpdateUser | src/context/UserContext.tsx:32-36 | the collection becomes its by-identifier replacement; the identifiers in use and their distinctness are kept; the saved copy follows |
| UserContext.UserStore.DeleteUser | src/context/UserContext.tsx:38-40 | the collection becomes its by-identifier removal; distinctness is kept; the saved copy follows |
| ManageUsers.MatchesSearch | src/pages/ManageUsersPage.tsx:31-33 | defines the search condition: the lower-cased search text occurs in the lower-cased name or in the lower-cased email |
| ManageUsers.Matches | src/pages/ManageUsersPage.tsx:30-36 | defines the filter callback: the search condition holds, and each of role and status is either unfiltered ("all") or equal to the selected value |
| ManageUsers.SearchIgnoresCase | src/pages/ManageUsersPage.tsx:31-33 | lower-casing the search text never changes which records match |
| ManageUsers.RecordCaseIrrelevant | src/pages/ManageUsersPage.tsx:31-36 | records whose names and emails differ only in the case of ASCII letters, with equal role and status, match the same queries |
| ManageUsers.NoQueryMatchesAll | src/pages/ManageUsersPage.tsx:18-20 | with the initial inputs (empty search, both filters "all") every record matches |
| ManageUsers.InOrder | src/pages/ManageUsersPage.tsx:38-41 | defines when the comparator lets `a` stay before `b`: the key order on the configured field, reversed for descending |
| ManageUsers.InOrderTotal | src/pages/ManageUsersPage.tsx:38-42 | the comparator orders any two records one way or the other |
| ManageUsers.InOrderTransitive | src/pages/ManageUsersPage.tsx:38-42 | the comparator's order is transitive, in both directions |
| ManageUsers.InOrderBothWays | src/pages/ManageUsersPage.tsx:41 | two records compare as equal exactly when their sort keys are equal |
| ManageUsers.Insert | src/pages/ManageUsersPage.tsx:38-42 | one insertion step adds exactly the inserted record |
| ManageUsers.InsertSorted | src/pages/ManageUsersPage.tsx:38-42 | inserting into a sorted sequence gives a sorted sequence |
| ManageUsers.SortUsers | src/pages/ManageUsersPage.tsx:38-42 | the sorted rows are a permutation of the input and are ordered by the configured field and direction |
| ManageUsers.SwapAdjacent | src/pages/ManageUsersPage.tsx:41 | two neighbours of which at most one has a given key can trade places without changing the records with that key |
| ManageUsers.InsertStable | src/pages/ManageUsersPage.tsx:38-42 | an insertion step keeps the relative order of records with equal keys |
| ManageUsers.SortStable | src/pages/ManageUsersPage.tsx:38-42 | the sort is stable: records with equal keys keep their input order |
| ManageUsers.FilteredUsers | src/pages/ManageUsersPage.tsx:28-43 | the rows are exactly the matching store records, no more of them than in the store, sorted by the configuration |
| ManageUsers.ProjectionRows | src/pages/ManageUsersPage.tsx:28-43 | each matching record appears as often as the store holds it, and no other record appears |
| ManageUsers.ProjectionShowsOnce | src/pages/ManageUsersPage.tsx:28-43 | with distinct identifiers each matching record is shown exactly once |
| ManageUsers.ProjectionOfNoQuery | src/pages/ManageUsersPage.tsx:18-20 | with the initial inputs the table shows a permutation of the whole store |
| ManageUsers.ProjectionStable | src/pages/ManageUsersPage.tsx:28-43 | matching records with equal sort keys appear in store order |
| ManageUsers.ProjectionIgnoresSearchCase | src/pages/ManageUsersPage.tsx:31-33 | the table depends on the search text only through its lower-cased form |
| ManageUsers.CellValues | src/pages/ManageUsersPage.tsx:72 | each of the four cells starts from the record's value for its field |
| ManageUsers.ManageUsersPage.Valid | src/pages/ManageUsersPage.tsx:21-25 | defines the page invariant: the sort stays name ascending, nothing is staged outside edit mode, and all four cells are staged inside it |
| ManageUsers.ManageUsersPage.IsEditing | src/pages/ManageUsersPage.tsx:71 | defines `isEditing`: a row's cells are inputs exactly when the edit slot holds its identifier |
| ManageUsers.ManageUsersPage.constructor | src/pages/ManageUsersPage.tsx:21-25 | the page starts with no row in edit mode and sorts by name ascending |
| ManageUsers.ManageUsersPage.Rows | src/pages/ManageUsersPage.tsx:183 | the table renders the projection of the store for the current inputs, and a record is a row exactly when it is stored and matches |
| ManageUsers.ManageUsersPage.StartEdit | src/pages/ManageUsersPage.tsx:215 | after the edit button exactly the rows with that identifier are in edit mode; switching rows starts the cells from the record, and clicking the row already being edited keeps the staged values |
| ManageUsers.ManageUsersPage.Stage | src/pages/ManageUsersPage.tsx:111 | typing or selecting changes only that cell's staged value; the edited row stays the same |
| ManageUsers.ManageUsersPage.Save | src/pages/ManageUsersPage.tsx:74-78 | saving writes the row's record back with only that field replaced by its staged value, then leaves edit mode |
| ManageUsers.ManageUsersPage.Cancel | src/pages/ManageUsersPage.tsx:117 | cancelling leaves edit mode without touching the store |
| ManageUsers.ManageUsersPage.HandleDelete | src/pages/ManageUsersPage.tsx:45-50 | the record is deleted exactly when the confirmation was accepted; otherwise the store is unchanged |
| ManageUsers.SaveChangesOneField | src/pages/ManageUsersPage.tsx:74-76 | a save keeps identifiers and positions, leaves other records alone, and changes only the edited field of the edited record |
| ManageUsers.SortOne | src/pages/ManageUsersPage.tsx:38-42 | a single row sorts to itself |
| ManageUsers.NoAnWithoutA | src/pages/ManageUsersPage.tsx:32-33 | a text without the letter a in either case never contains "an", ignoring case |
| ManageUsers.OneOfTwoMatches | src/pages/ManageUsersPage.tsx:28-43 | of two records of which exactly one matches, the table shows only that one |
| ManageUsers.AnnMatchesAn | src/pages/ManageUsersPage.tsx:31-33 | the record named "Ann" matches the search "an" |
| ManageUsers.NoAnNoMatch | src/pages/ManageUsersPage.tsx:31-33 | a record with no letter a in its name or email does not match the search "an" |
| ManageUsers.BobMissesAn | src/pages/ManageUsersPage.tsx:31-33 | the record named "Bob" with email bob@x.com does not match the search "an" |
| ManageUsers.SearchScenario | src/pages/ManageUsersPage.tsx:28-43 | searching "an" among Ann and Bob shows only Ann |
| ManageUsers.RoleFilterScenario | src/pages/ManageUsersPage.tsx:34 | filtering Ann and Bob by the role Admin shows only Bob |
| ManageUsers.EditScenario | src/pages/ManageUsersPage.tsx:74-78 | editing Ann's name to "Anna" leaves the store unchanged on cancel and changes only that name on save |
| Home.DashboardMetrics | src/pages/HomePage.tsx:20-49 | the total is the number of records; the active and inactive counts never exceed it together and add up to it when every status is one of the two; a count is zero exactly when no record has that status |
| Home.HasStatus | src/pages/HomePage.tsx:34 | defines the tiles' filter callback: the record's status equals the given status |
| Home.FilterCountsStatus | src/pages/HomePage.tsx:34 | filtering by a status keeps as many records as carry that status, counted one by one |
| Home.TilesCountRecords | src/pages/HomePage.tsx:34-49 | the Active tile shows the number of Active records and the Inactive tile the number of Inactive records |
| Home.StatusCountsOccurrences | src/pages/HomePage.tsx:34-49 | the filter behind a status tile keeps each record with that status as often as the store holds it, and no other record |
| Home.MetricsAfterAdd | src/pages/HomePage.tsx:20-49 | adding a record raises the total by one and the tile of its status by one |
| Home.UsersSection | src/pages/HomePage.tsx:58-102 | the "No users yet" panel shows exactly when the store is empty; otherwise there is one card per record, in store order |
| ImageUpload.CheckFile | src/components/common/ImageUpload.tsx:14-23 | a file is accepted exactly when it is at most 5 MiB and its type starts with "image/"; it is too large exactly when it exceeds 5 MiB, and otherwise not an image exactly when the type check fails |
| ImageUpload.SizeLimitIsInclusive | src/components/common/ImageUpload.tsx:15 | a file of exactly 5 MiB passes the size check and one byte more fails it |
| ImageUpload.SizeCheckComesFirst | src/components/common/ImageUpload.tsx:15-23 | an oversized file that is also not an image is reported as too large |
| ImageUpload.ImageUploader.constructor | src/components/common/ImageUpload.tsx:10 | the picker starts without a preview |
| ImageUpload.ImageUploader.HandleImageUpload | src/components/common/ImageUpload.tsx:12-33 | no file does nothing; a rejected file reports its reason and keeps the preview; an accepted file hands its data URL up and shows it as preview |
| AddUser.SetFormField | src/pages/AddUserPage.tsx:58-85 | an input event changes only its own field |
| AddUser.InvalidFields | src/pages/AddUserPage.tsx:16-21 | a field is rejected exactly when the schema's rule for it fails, and the form is valid exactly when all four rules hold |
| AddUser.DefaultsValidEnums | src/pages/AddUserPage.tsx:36-42 | the default values satisfy the role and status rules, and only name and email are still missing |
| AddUser.Compose | src/pages/AddUserPage.tsx:46 | the submitted record carries the form's four fields and the current photo |
| AddUser.AddUserPage.constructor | src/pages/AddUserPage.tsx:28-42 | the form starts at its defaults, with no photo and not submitting |
| AddUser.AddUserPage.SetField | src/pages/AddUserPage.tsx:58-85 | an input event updates that form field only |
| AddUser.AddUserPage.ChoosePhoto | src/pages/AddUserPage.tsx:56 | the page hands its `profilePhoto` setter to the picker; the outcome is the picker's: no file, rejection with its reason, or acceptance; the photo and the picker's preview change exactly on acceptance, both to the file's data URL |
| AddUser.AddUserPage.HandleSubmit | src/pages/AddUserPage.tsx:44-51 | an invalid form changes nothing; a valid one appends the composed record under the generated identifier, resets the form to its defaults, ends submitting, keeps the photo, and keeps identifiers distinct when the new identifier is fresh |

## Left out

- Local storage and JSON are not modelled byte by byte. The saved collection
  is an `Option` parameter of the store's constructor, and the ghost field
  `persisted` stands for what the effect writes.
  - In the code, a saved value that is not valid JSON makes `JSON.parse`
    throw at start-up. It does not fall back to the seed. The model follows
    the code: it has no "unparseable" case.
  - An empty saved string is falsy and falls back to the seed. The model
    treats it as `None`.
- UserContext.UserStore.Valid: a failed storage write is not modelled, so the
  invariant `persisted == users` holds for successful writes only.
  `localStorage.setItem` throws when the storage quota is exceeded, which a
  few photos of up to 5 MiB each (kept as data URLs inside the collection) can
  cause. The error then escapes the effect, and the saved copy falls behind
  the collection.
- The seed collection `src/data/mockUsers.json` is not part of this model. The
  seed is a parameter.
- `crypto.randomUUID` is not modelled. The generated identifier is the `newId`
  parameter of `AddUser` and `HandleSubmit`. Freshness is assumed only where a
  lemma needs it, as the UUID's uniqueness is.
- `localeCompare` is modelled as lexicographic order by code point (`LexLeq`).
  Locale collation rules are left out.
- `toLowerCase` is modelled for ASCII capitals only.
- AddUser.InvalidFields: the email-format test of the validation library is
  the parameter `isEmail`. Its regular expression is not modelled.
- react-hook-form's per-field error messages are not modelled. Only the set of
  rejected fields is.
- `reset()` restores the `defaultValues`. Those leave name and email
  undefined, which the model represents as the empty string. The schema
  rejects both alike as missing.
- `FileReader` is not modelled, and neither is its asynchronous completion.
  The data URL it produces is the `dataUrl` parameter. The upload completes
  within the same call.
- `window.confirm` is the `confirmed` parameter of `HandleDelete`.
- None of these is modelled:
  - toasts;
  - navigation after a submit;
  - the JSX markup;
  - the avatar fallback on an image error;
  - the `TableHeader`, `Input`, `SelectField`, `RadioGroup`, `Button` and
    `SortField` components.
- The search box and the two filter selects are not modelled as page state.
  Their values are the `Query` argument of `Rows`.
- The sort configuration is a constant of the page (name, ascending), since
  the code never changes it.
- ManageUsers.ManageUsersPage.StartEdit:
  - `EditableCell` is declared inside the page, so any re-render of the page
    also remounts the cells and drops staged values. The model resets staged
    values only when editing moves to another row, on save and on cancel.
  - With several rows sharing an identifier, all of them enter edit mode
    together. The model keeps one set of staged values.
- `useMemo` caching is not modelled. The table is recomputed from the store
  and the inputs.
