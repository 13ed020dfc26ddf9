# Portfolio site core: content service, data provider, projects view and admin panel

This project models the data-handling core of a personal portfolio web application. The application is a React front end over a hosted Postgres store. The model covers four parts:

- **The content service** (`ContentService`). It holds:
  - the contact-form submission: validation, trimming, and the error classification of its three error checks;
  - the admin calls on the store: list and delete messages, update a section of the one portfolio row, and update, create and delete projects and skill groups.

  The store is a `Store` class with one map per table and a counter that it draws new ids from. Whether a request fails, and with which error object, is an input to each method.
- **The portfolio data provider** (`PortfolioProvider`). It models the one load at mount:
  - the configuration check;
  - the fixed-id profile row, including dropping the "Response body is already used" error when a row came back;
  - the two list requests;
  - `parseJsonb` on each section;
  - the state the provider publishes (`portfolioData`, `loading`, `error`, `useSupabase`), as a `Provider` class.
- **The projects section** (`ProjectsView`). It models:
  - the loading guard;
  - the category filter and its fixed button list;
  - the "no projects found" condition;
  - the test for whether a card shows an image.
- **The admin panel** (`AdminPanel`). It has a `Panel` class holding the panel's state, and covers:
  - the password session, which survives a reload through a local-storage flag;
  - the message inbox, with its case-insensitive search and delete-by-id;
  - the four section forms, hydrated from the loaded data and saved to their columns;
  - the project and skill editors, with their comma-separated technologies field (split, trim, drop blanks) and the choice between update and create when saving.

Five support modules sit underneath:
- `Options`: an optional value, for JavaScript's `null` and `undefined`.
- `JsValues`: JavaScript values with truthiness, property lookup and `|| ''`.
- `JsText`: `trim`, `split`, `join`, `includes` and `toLowerCase` on `seq<char>`.
- `Seqs`: `filter` and `map`.
- `Content`: the rows of the tables.

What the proofs establish:
- The technologies field round-trips: a list of entries shown as `join(', ')` parses back to the same list, and parsing is stable.
- A section saved by the admin panel is exactly what the next load publishes and hydrates back into the form.
- The search and the category filter keep exactly the matching items, with their counts and their order.
- The inbox listing is complete, has no duplicates and is newest first.
- Deleting a message keeps the panel's lists consistent with the store and with the search.
- Every store operation leaves every other table untouched.
- The load succeeds under exactly described conditions.

Two places where the code does something other than what the component evidently intends. The model follows the code in both:
- **Saving a new draft.** The "Add" buttons of the project and skill editors set the editing state to a fresh non-null object without an `id`. Saving tests that state for truthiness, so it calls update with an undefined id and never calls create. Nothing is created either way: the update matches no row, or the store rejects it. The editor closes only when the store answers without an error. This is stated by `AdminPanel.NewDraftIsNotCreated`, `AdminPanel.AddedProjectIsNotStored` and `AdminPanel.AddedSkillIsNotStored`.
- **Contact-form validation.** The contact form validates the untrimmed fields and trims them afterwards. A whitespace-only field therefore passes validation and is stored as the empty string (`ContentService.BlankFieldsAccepted`).

## Model

| member | source | states |
|---|---|---|
| JsText.Trim | frontend/src/services/supabaseService.js:31-34 | The result is a contiguous part of the input with only white space before and after it, and with no white space at either end of its own. This determines it uniquely. |
| JsText.TrimTrimmed | frontend/src/services/supabaseService.js:31-34 | Trimming a string that has no white space at either end returns it unchanged. |
| JsText.TrimIdempotent | frontend/src/components/AdminPanel.jsx:1360 | Trimming twice is the same as trimming once. |
| JsText.TrimEmptyIffAllSpace | frontend/src/components/Projects.jsx:77 | `trim()` gives `''` exactly when every character is white space. |
| JsText.TrimKeepsAbsent | frontend/src/components/AdminPanel.jsx:1360 | Trimming removes characters only, so a character absent from the input stays absent. |
| JsText.TrimLeadingBlank | frontend/src/components/AdminPanel.jsx:1423 | Trimming a blank placed before a trimmed, non-empty string gives that string back. |
| JsText.Split | frontend/src/components/AdminPanel.jsx:1360 | `split(',')` gives at least one piece. No piece contains the separator. Joining the pieces with the separator gives back the input. |
| JsText.SplitSepFree | frontend/src/components/AdminPanel.jsx:1360 | A text without the separator splits into just itself. |
| JsText.SplitAfterFirst | frontend/src/components/AdminPanel.jsx:1360 | In `a + sep + b`, where `a` has no separator, the first piece is `a` and the pieces of `b` follow. |
| JsText.SplitJoin | frontend/src/components/AdminPanel.jsx:1360 | Joining separator-free pieces and splitting again gives the pieces back. |
| JsText.Join | frontend/src/components/AdminPanel.jsx:1355 | Defines `join(sep)`: the pieces with `sep` between neighbours. A single piece is joined to itself. |
| JsText.JoinCons | frontend/src/components/AdminPanel.jsx:1355 | Adding text in front of the first piece adds it in front of the joined string. |
| JsText.JoinAfterFirst | frontend/src/components/AdminPanel.jsx:1415 | With two or more pieces, the `', '`-joined text is the first piece, the comma, then the blank and the rest joined. |
| JsText.ToLower | frontend/src/components/AdminPanel.jsx:153-156 | Lower-casing keeps the length and lower-cases each character separately. |
| JsText.ToLowerIdempotent | frontend/src/components/AdminPanel.jsx:153-156 | Lower-casing twice is the same as lower-casing once. |
| JsText.Contains | frontend/src/components/AdminPanel.jsx:153-156 | Defines `includes`: the term occurs at some position of the text. |
| JsText.NotContainsFirst | frontend/src/services/supabaseService.js:112 | A text does not contain a term whose first character it lacks. |
| JsText.ContainsEmpty | frontend/src/components/AdminPanel.jsx:150 | Every string includes the empty term. |
| Seqs.Filter | frontend/src/components/AdminPanel.jsx:151-157 | Every kept element is in the input and satisfies the predicate. Every input element that satisfies it is kept. |
| Seqs.Map | frontend/src/components/AdminPanel.jsx:1360 | `map` keeps the length, and element i becomes `f` of element i. |
| Seqs.FilterIsSubsequence | frontend/src/components/AdminPanel.jsx:151-157 | The filtered sequence is an order-preserving subsequence of the input. |
| Seqs.FilterCounts | frontend/src/components/AdminPanel.jsx:151-157 | Each element occurs in the result as often as in the input when it satisfies the predicate, and not at all otherwise. |
| Seqs.FilterIdempotent | frontend/src/components/Projects.jsx:17 | Filtering twice with the same predicate is the same as filtering once. |
| Seqs.FilterKeepsAll | frontend/src/components/AdminPanel.jsx:160 | A predicate that holds everywhere keeps the whole sequence. |
| Seqs.FilterCommutes | frontend/src/components/AdminPanel.jsx:218-219 | Two filters can be applied in either order. |
| Seqs.FilterEmptyIff | frontend/src/components/Projects.jsx:168 | The result is empty exactly when no element satisfies the predicate. |
| Seqs.FilterAgree | frontend/src/components/AdminPanel.jsx:153-156 | Predicates that agree on every element give the same filter result. |
| Content.Column | frontend/src/services/supabaseService.js:245 | Every section maps to one of the four JSONB column names. |
| Content.ColumnInjective | frontend/src/services/supabaseService.js:245 | Different sections are stored in different columns. |
| Content.Cell | frontend/src/contexts/PortfolioContext.jsx:144-147 | A column of the row gives its value, and a missing column gives `undefined`. |
| JsValues.Prop | frontend/src/components/AdminPanel.jsx:115-118 | A property lookup gives the object's own property, and `undefined` for any other value or a missing key. |
| JsValues.OrEmpty | frontend/src/components/AdminPanel.jsx:115-118 | `v \|\| ''` is `v` when `v` is truthy and `''` otherwise. |
| ContentService.ReplyTo | frontend/src/services/supabaseService.js:205-218 | The reply is a success exactly when no error occurred. On success it carries the data. On failure it carries the error's message. |
| ContentService.IsComplete | frontend/src/services/supabaseService.js:9 | Defines a complete form: all four fields are non-empty. |
| ContentService.TrimmedRecord | frontend/src/services/supabaseService.js:30-36 | Every inserted field is trimmed, and a field that was already trimmed is unchanged. |
| ContentService.StoredRow | frontend/src/services/supabaseService.js:30-36 | The stored row holds the trimmed fields, the id the store assigned and the creation time. |
| ContentService.SubmitReply | frontend/src/services/supabaseService.js:6-127 | Only a complete form is reported as sent. Data is reported exactly for a clean insert, and it is then the inserted row with no warning. A warning only follows a thrown error and is "Submission may have succeeded". A refusal always carries a non-empty message. |
| ContentService.ThrownInsertReply | frontend/src/services/supabaseService.js:45-69 | For a complete form, a thrown insert error that mentions 401 in its message or text is refused with the not-configured message. Otherwise a body-already-used error is reported as sent with the may-have-succeeded warning and no data. Any other thrown error is reported by the catch-all. |
| ContentService.AnsweredErrorReply | frontend/src/services/supabaseService.js:72-96 | For a complete form, a reply error with body-already-used is reported as sent with no data. One that is neither that nor 401-style is rethrown and reported by the catch-all. |
| ContentService.PermissionReplyNeedsMigration | frontend/src/services/supabaseService.js:95-113 | A reply error with code 42501 that is not 401-style or body-already-used is rethrown and refused with the migration message. |
| ContentService.IsSetupFault | frontend/src/services/supabaseService.js:112 | Defines a setup fault: code PGRST301 or 42501, status 401, or a message mentioning permission denied or 401. |
| ContentService.CaughtMessage | frontend/src/services/supabaseService.js:100-126 | The catch-all gives the migration message for any of the five setup-error tests, then the may-have-succeeded message for a body-already-used error, and otherwise the error's own message or `'Unknown error'`. |
| ContentService.IncompleteFormRefused | frontend/src/services/supabaseService.js:9-11 | Any empty field refuses the form with "All fields are required", whatever the insert would have done. |
| ContentService.RequiredIsReported | frontend/src/services/supabaseService.js:111-123 | The missing-field error passes through the catch-all with its own message. |
| ContentService.RequiredLacks | frontend/src/services/supabaseService.js:112 | The missing-field message contains none of the texts the catch-all looks for. |
| ContentService.SentIff | frontend/src/services/supabaseService.js:6-127 | A submission is reported as sent exactly when the form is complete, and the insert either succeeded, or answered with a body-already-used error, or threw one that does not mention 401. |
| ContentService.CleanInsertReportsRow | frontend/src/services/supabaseService.js:98-99 | A clean insert reports success with exactly the inserted row. |
| ContentService.BlankFieldsAccepted | frontend/src/services/supabaseService.js:9-36 | Any form whose fields are non-empty and made only of white space passes validation, is reported as sent on a clean insert, and is inserted as four empty strings. |
| ContentService.UnauthorizedReplyRefused | frontend/src/services/supabaseService.js:86-93 | A reply error with code PGRST301, status 401 or a message mentioning 401 (and not body-already-used) is refused with the not-configured message. |
| ContentService.UpdateWhereId | frontend/src/services/supabaseService.js:259-272 | `update().eq('id', id)` keeps the set of keys, replaces only the matching row, and matches nothing for an absent id. |
| ContentService.DeleteWhereId | frontend/src/services/supabaseService.js:295-308 | `delete().eq('id', id)` removes exactly that key and leaves every other row unchanged. |
| ContentService.UpdateSection | frontend/src/services/supabaseService.js:241-254 | Only the column of that section in the fixed-id row changes. Other rows and columns are unchanged, and no row is added. |
| ContentService.SectionWriteRead | frontend/src/services/supabaseService.js:241-254 | Reading the section just written gives the value written, and the other sections read as before. |
| ContentService.NewestExists | frontend/src/services/supabaseService.js:192 | Any non-empty set of messages has one created last. |
| ContentService.Store.SubmitContactForm | frontend/src/services/supabaseService.js:6-127 | Only a complete form whose insert succeeds cleanly adds a row, holding the trimmed fields under a fresh id. The reply is `SubmitReply` of that outcome, and the other tables are unchanged. |
| ContentService.Store.GetContactMessages | frontend/src/services/supabaseService.js:187-200 | On success every stored message is listed exactly once, newest first. On failure the reply is the error. |
| ContentService.Store.DeleteContactMessage | frontend/src/services/supabaseService.js:205-218 | On success the message with that id is removed, and the other tables are unchanged. |
| ContentService.Store.UpdatePortfolioSection | frontend/src/services/supabaseService.js:241-254 | On success the section's column is replaced, and the other tables are unchanged. |
| ContentService.Store.UpdateProject | frontend/src/services/supabaseService.js:259-272 | On success the project with that id (if one exists) is replaced, and nothing else changes. |
| ContentService.Store.CreateProject | frontend/src/services/supabaseService.js:277-290 | On success a fresh id is added holding the data, and the reply carries the inserted row. |
| ContentService.Store.DeleteProject | frontend/src/services/supabaseService.js:295-308 | On success exactly that project is removed. |
| ContentService.Store.UpdateSkill | frontend/src/services/supabaseService.js:313-326 | On success the skill group with that id (if one exists) is replaced, and nothing else changes. |
| ContentService.Store.CreateSkill | frontend/src/services/supabaseService.js:331-344 | On success a fresh id is added holding the data, and the reply carries the inserted row. |
| ContentService.Store.DeleteSkill | frontend/src/services/supabaseService.js:349-362 | On success exactly that skill group is removed. |
| PortfolioProvider.ParseJsonb | frontend/src/contexts/PortfolioContext.jsx:131-141 | A falsy value becomes null. A string becomes its parse when it parses and stays itself when not. Any other value is kept. |
| PortfolioProvider.CombinedData | frontend/src/contexts/PortfolioContext.jsx:143-150 | Each section is its column after `parseJsonb`, and a missing list becomes `[]`. |
| PortfolioProvider.ProfileResult | frontend/src/contexts/PortfolioContext.jsx:42-63 | A thrown error counts as an error with no row. A reply keeps its row. With no row, the reply's error is kept. |
| PortfolioProvider.Fetch | frontend/src/contexts/PortfolioContext.jsx:21-180 | Defines the outcome of `fetchPortfolioData` path by path. Its behaviour is stated by `PortfolioProvider.LoadedIff`, `PortfolioProvider.MissingConfigFails`, `PortfolioProvider.MissingRowFails`, `PortfolioProvider.ListThrowFails` and `PortfolioProvider.RowOutweighsError`. |
| PortfolioProvider.MissingConfigFails | frontend/src/contexts/PortfolioContext.jsx:27-33 | Without both settings the load fails with the not-configured message, whatever the store would answer. |
| PortfolioProvider.MissingRowFails | frontend/src/contexts/PortfolioContext.jsx:65-93 | No row with an error means the fetch-failed message. No row and no error means the no-data message. |
| PortfolioProvider.ListThrowFails | frontend/src/contexts/PortfolioContext.jsx:103-176 | Once the row has come back, a thrown projects request publishes that error's message. So does a thrown skills request after the projects reply. |
| PortfolioProvider.RowOutweighsError | frontend/src/contexts/PortfolioContext.jsx:53-65 | Once a row came back, the error that came with it does not change the outcome. |
| PortfolioProvider.LoadedIff | frontend/src/contexts/PortfolioContext.jsx:20-179 | The load succeeds exactly when both settings are present, the profile reply has a row, and neither list request threw. The published data is then the parsed sections and the lists, each defaulting to `[]`. |
| PortfolioProvider.ProfileQuery | frontend/src/contexts/PortfolioContext.jsx:43-47 | The fixed-id `maybeSingle` query gives the row exactly when it exists, with no error. |
| PortfolioProvider.SavedSectionLoads | frontend/src/contexts/PortfolioContext.jsx:143-150 | After a section has been saved, the next load publishes exactly the saved object for it, and the other sections as before. |
| PortfolioProvider.Provider.constructor | frontend/src/contexts/PortfolioContext.jsx:14-18 | No data, loading, no error, store not in use. |
| PortfolioProvider.Provider.FetchPortfolioData | frontend/src/contexts/PortfolioContext.jsx:21-179 | `loading` ends false on every path. On success the data is published and the store marked in use. On every early return or throw, the outcome's error is set and the data is left as it was. |
| ProjectsView.Shown | frontend/src/components/Projects.jsx:10-12 | The section renders nothing exactly while loading or without data, and otherwise renders the loaded projects. |
| ProjectsView.HasCategory | frontend/src/components/Projects.jsx:14-17 | Defines the category test: the project's category equals the selected filter. |
| ProjectsView.InitialSelectionShowsAll | frontend/src/components/Projects.jsx:7-8 | The initial selection is the first filter button, and it shows every project. No other button is the show-all value. |
| ProjectsView.FilteredProjects | frontend/src/components/Projects.jsx:14-17 | `'All'` shows every project. Any other filter shows exactly the projects of that category. |
| ProjectsView.FilterExact | frontend/src/components/Projects.jsx:14-17 | A category filter keeps each project of that category as often as it occurs, and in order. |
| ProjectsView.RefilterStable | frontend/src/components/Projects.jsx:14-17 | Filtering the filtered list again with the same selection changes nothing. |
| ProjectsView.NoResultsIff | frontend/src/components/Projects.jsx:168-174 | "No projects found" shows exactly when there are no projects (under `'All'`) or none of the chosen category. |
| ProjectsView.ShowsImage | frontend/src/components/Projects.jsx:77 | Defines when a card shows its image: the text is present, non-empty, and non-empty once trimmed. |
| ProjectsView.ShowsImageIff | frontend/src/components/Projects.jsx:77 | A card shows its image exactly when the image text has a character that is not white space. |
| AdminPanel.RestoresSession | frontend/src/components/AdminPanel.jsx:104 | Defines when a stored flag restores the session: it is exactly the text `'true'`. |
| AdminPanel.AdminPassword | frontend/src/components/AdminPanel.jsx:90 | The configured password when it is set and non-empty, otherwise `'admin123'`. Never empty. |
| AdminPanel.KeepEntries | frontend/src/components/AdminPanel.jsx:1360 | Every kept entry is non-empty and trimmed. |
| AdminPanel.KeepEntriesIsMapFilter | frontend/src/components/AdminPanel.jsx:1360 | The one-pass form equals the component's `map(trim)` followed by `filter`. |
| AdminPanel.KeepEntriesSepFree | frontend/src/components/AdminPanel.jsx:1360 | Pieces without a comma give entries without a comma. |
| AdminPanel.TechnologiesText | frontend/src/components/AdminPanel.jsx:1355 | Defines the editor's display of a technology list, `join(', ')`. It is the inverse of the tokenizer, as `AdminPanel.ParseTechnologiesJoin` states. |
| AdminPanel.ParseTechnologies | frontend/src/components/AdminPanel.jsx:1423 | Every parsed entry is non-empty, trimmed and free of commas. |
| AdminPanel.KeepEntriesCons | frontend/src/components/AdminPanel.jsx:1360 | A piece in front contributes its trimmed form when that is not empty. |
| AdminPanel.KeepEntriesBlank | frontend/src/components/AdminPanel.jsx:1360 | A piece made only of white space contributes nothing. |
| AdminPanel.KeepEntriesKeep | frontend/src/components/AdminPanel.jsx:1360 | A piece that trims to a non-empty text contributes that text. |
| AdminPanel.SplitWithBlanks | frontend/src/components/AdminPanel.jsx:1423 | `a, , b,  ` splits into `a`, the two blanks-only pieces and ` b`. |
| AdminPanel.KeepBlankTail | frontend/src/components/AdminPanel.jsx:1423 | A piece with a leading blank loses it, and a blanks-only piece vanishes. |
| AdminPanel.KeepBlankRest | frontend/src/components/AdminPanel.jsx:1423 | After the first piece of `a, , b,  `, the pieces give exactly `[b]`. |
| AdminPanel.BlankPiecesDropped | frontend/src/components/AdminPanel.jsx:1423 | Typing `a, , b,  ` gives exactly `[a, b]`. |
| AdminPanel.FirstPiece | frontend/src/components/AdminPanel.jsx:1423 | The first piece of the joined text, with an optional blank in front, trims to the first entry. |
| AdminPanel.ParseBlank | frontend/src/components/AdminPanel.jsx:1423 | An empty or single-blank text parses to no entries. |
| AdminPanel.ParseSingle | frontend/src/components/AdminPanel.jsx:1423 | A single entry, with an optional blank in front, parses to itself. |
| AdminPanel.ParseStep | frontend/src/components/AdminPanel.jsx:1415-1423 | If the rest of a joined list parses back, the whole joined list parses back. |
| AdminPanel.ParseHead | frontend/src/components/AdminPanel.jsx:1415-1423 | The first entry of a joined list parses back first, followed by whatever the rest parses to. |
| AdminPanel.SplitJoinedHead | frontend/src/components/AdminPanel.jsx:1415-1423 | A joined list splits into its first entry (with the optional blank) followed by the pieces of the rest. |
| AdminPanel.ParseFrom | frontend/src/components/AdminPanel.jsx:1415-1423 | Entries joined with `', '` (after an optional blank) parse back to the same list. |
| AdminPanel.ParseTechnologiesJoin | frontend/src/components/AdminPanel.jsx:1415-1423 | Round trip: entries shown as `join(', ')` and submitted give back the same list. |
| AdminPanel.ParseTechnologiesStable | frontend/src/components/AdminPanel.jsx:1355-1360 | Showing a parsed list and submitting it again changes nothing. |
| AdminPanel.FieldMatches | frontend/src/components/AdminPanel.jsx:153-156 | Defines a field match: the lower-cased field includes the lower-cased term. |
| AdminPanel.MatchesSearch | frontend/src/components/AdminPanel.jsx:153-156 | Defines a message match: its name, email, subject or text matches the term. |
| AdminPanel.SearchResults | frontend/src/components/AdminPanel.jsx:149-162 | An empty term shows the whole inbox. Otherwise exactly the messages whose name, email, subject or text includes the term, ignoring case. |
| AdminPanel.SearchExact | frontend/src/components/AdminPanel.jsx:149-162 | The search keeps each matching message as often as it occurs in the inbox, and in inbox order. |
| AdminPanel.EmptyTermShortcut | frontend/src/components/AdminPanel.jsx:149-162 | Showing the whole inbox for an empty term gives the same as filtering with the empty term, since every text includes `''`. |
| AdminPanel.SearchIgnoresCase | frontend/src/components/AdminPanel.jsx:153-156 | Searching for the lower-cased term gives the same results as the term itself. |
| AdminPanel.WithoutId | frontend/src/components/AdminPanel.jsx:218-219 | Removing by id keeps exactly the messages with a different id. |
| AdminPanel.WithoutIdExact | frontend/src/components/AdminPanel.jsx:218-219 | The remaining messages keep their inbox order, and each occurs as often as before. |
| AdminPanel.WithoutIdNewestFirst | frontend/src/components/AdminPanel.jsx:218 | A newest-first inbox is still newest first after a delete. |
| AdminPanel.DeleteKeepsSearch | frontend/src/components/AdminPanel.jsx:218-219 | Removing from the search results gives the same as searching the inbox after the removal. |
| AdminPanel.WithoutIdDistinct | frontend/src/components/AdminPanel.jsx:218 | Removing by id keeps the ids distinct. |
| AdminPanel.ListsAfterDelete | frontend/src/components/AdminPanel.jsx:211-219 | After a successful delete, the panel's list is exactly what the store now holds. |
| AdminPanel.BlankForm | frontend/src/components/AdminPanel.jsx:82-85 | The initial form of a section has exactly its fields, and every one of them is `''`. |
| AdminPanel.BlankForms | frontend/src/components/AdminPanel.jsx:82-85 | The panel mounts with one blank form for each of the four sections. |
| AdminPanel.EditKeepsForm | frontend/src/components/AdminPanel.jsx:761-786 | Typing into one of a section's fields keeps the form with exactly that section's fields. |
| AdminPanel.Hydrate | frontend/src/components/AdminPanel.jsx:111-147 | The hydrated form has exactly the section's fields. Each is the loaded property when that is truthy, otherwise `''`. |
| AdminPanel.HydrateSaved | frontend/src/components/AdminPanel.jsx:111-147 | Hydrating from a saved form gives the form back. |
| AdminPanel.SaveReloadRestoresForm | frontend/src/components/AdminPanel.jsx:245-315 | A section form saved, loaded again and hydrated is the same form. |
| AdminPanel.SaveCallFor | frontend/src/components/AdminPanel.jsx:320-324 | A save calls update, with the draft's id, exactly when a draft is open, and create otherwise. |
| AdminPanel.NewDraftIsNotCreated | frontend/src/components/AdminPanel.jsx:984 | Saving a draft from the "Add" buttons calls update with no id, which leaves the table unchanged. |
| AdminPanel.SubmitProjectForm | frontend/src/components/AdminPanel.jsx:1421-1433 | The submitted project has parsed technologies and carries the image text. |
| AdminPanel.ProjectFormRoundTrip | frontend/src/components/AdminPanel.jsx:1410-1433 | Opening a clean project and submitting it unchanged gives it back. A second round trip never changes anything. |
| AdminPanel.SubmitSkillForm | frontend/src/components/AdminPanel.jsx:1358-1365 | The submitted skill group keeps the category and has parsed technologies. |
| AdminPanel.SkillFormRoundTrip | frontend/src/components/AdminPanel.jsx:1352-1365 | Opening a clean skill group and submitting it unchanged gives it back. A second round trip never changes anything. |
| AdminPanel.Panel.constructor | frontend/src/components/AdminPanel.jsx:69-90 | Not authenticated, empty inbox and search, loading, every form blank, no editor open. |
| AdminPanel.Panel.FetchMessages | frontend/src/components/AdminPanel.jsx:195-209 | On success the inbox is the store's messages, newest first, and the search is brought up to date. On failure nothing changes. `loading` ends false. |
| AdminPanel.Panel.RestoreSession | frontend/src/components/AdminPanel.jsx:102-108 | A stored flag of exactly `'true'` authenticates and loads the inbox. Any other value changes nothing. |
| AdminPanel.Panel.SetPassword | frontend/src/components/AdminPanel.jsx:472 | The input holds the typed password. |
| AdminPanel.Panel.Login | frontend/src/components/AdminPanel.jsx:164-182 | The right password authenticates, stores the flag and loads the inbox. A wrong one only clears the input. |
| AdminPanel.Panel.Logout | frontend/src/components/AdminPanel.jsx:184-193 | The session ends, the flag is removed and the input is cleared. |
| AdminPanel.Panel.SetSearchTerm | frontend/src/components/AdminPanel.jsx:623 | The term is set and the shown messages are its search results. |
| AdminPanel.Panel.HandleDelete | frontend/src/components/AdminPanel.jsx:211-231 | Without confirmation nothing happens. With it, the store deletes, and on success both lists drop the message while the search stays consistent. |
| AdminPanel.Panel.EditField | frontend/src/components/AdminPanel.jsx:761-786 | Only the typed field of that section's form changes. |
| AdminPanel.Panel.HydrateForms | frontend/src/components/AdminPanel.jsx:111-147 | Once the data has loaded, each present section's form becomes its hydrated form. Absent sections keep theirs. |
| AdminPanel.Panel.SaveSection | frontend/src/components/AdminPanel.jsx:245-315 | The section's form is written to its column on success. `saving` ends false. |
| AdminPanel.Panel.AddProject | frontend/src/components/AdminPanel.jsx:1063 | The editor opens on a blank draft with no id. |
| AdminPanel.Panel.EditProject | frontend/src/components/AdminPanel.jsx:1118 | The editor opens on the project, with its id. |
| AdminPanel.Panel.CancelProject | frontend/src/components/AdminPanel.jsx:1076 | The editor closes. |
| AdminPanel.Panel.SaveProject | frontend/src/components/AdminPanel.jsx:317-341 | An open draft is updated by its id and otherwise the project is created. A success closes the editor. `saving` ends false. |
| AdminPanel.Panel.HandleDeleteProject | frontend/src/components/AdminPanel.jsx:343-362 | Without confirmation nothing changes. With it, the project is deleted on success. |
| AdminPanel.Panel.AddSkill | frontend/src/components/AdminPanel.jsx:984 | The editor opens on a blank draft with no id. |
| AdminPanel.Panel.EditSkill | frontend/src/components/AdminPanel.jsx:1010 | The editor opens on the skill group, with its id. |
| AdminPanel.Panel.CancelSkill | frontend/src/components/AdminPanel.jsx:997 | The editor closes. |
| AdminPanel.Panel.SaveSkill | frontend/src/components/AdminPanel.jsx:364-388 | An open draft is updated by its id and otherwise the skill group is created. A success closes the editor. `saving` ends false. |
| AdminPanel.Panel.HandleDeleteSkill | frontend/src/components/AdminPanel.jsx:390-409 | Without confirmation nothing changes. With it, the skill group is deleted on success. |
| AdminPanel.LoginSurvivesReload | frontend/src/components/AdminPanel.jsx:102-108 | After logging in with the configured password, a reload restores the session. |
| AdminPanel.WrongPasswordIsForgotten | frontend/src/components/AdminPanel.jsx:164-182 | A wrong password neither authenticates nor leaves a flag that a reload would honour. |
| AdminPanel.LogoutEndsSession | frontend/src/components/AdminPanel.jsx:184-193 | After a logout, a reload does not restore the session. |
| AdminPanel.AddedProjectIsNotStored | frontend/src/components/AdminPanel.jsx:317-332 | A project saved from an "Add Project" draft is never stored, whatever the store answers. The editor closes exactly when the store answers without an error. |
| AdminPanel.AddedSkillIsNotStored | frontend/src/components/AdminPanel.jsx:364-379 | A skill group saved from an "Add Skill Group" draft is never stored, whatever the store answers. The editor closes exactly when the store answers without an error. |

## Left out

- Network I/O: each request's outcome (success, or its error object, or a throw) is an input to the method that makes it. Store-side behaviour beyond row ids and timestamps (row-level security, SQL constraints) is not modelled.
- Console logging, toasts, `navigate('/')` and the text of toast messages: they have no effect on state.
- `window.location.reload()` after a successful project or skill save or delete is not modelled. A reload is represented only where it matters for the session, by building a fresh `Panel` from the stored flag.
- `window.confirm` is a boolean parameter of the delete handlers.
- Local storage is the `storage` field of `Panel`. Only the `admin_authenticated` entry is modelled.
- Asynchronous scheduling of React effects and state updates: each handler runs to completion as one step. The search effect is applied wherever `messages` or `searchTerm` change. The window during which `saving` or `loading` is true is not observable.
- `PortfolioProvider.ParseJsonb`: `JSON.parse` is a parameter returning `None` when it throws, not a JSON parser.
- `JsText.ToLower`: lower-cases only ASCII letters, because full Unicode case mapping (which `toLowerCase` performs) is not available here.
- Numbers are mathematical integers: the forms hold strings, and ids and timestamps are only compared.
- `ProjectsView.FilteredProjects`: `portfolioData.projects || []` is not modelled, because the guard before it already returns when `projects` is absent.
- Null text columns: every text column of a project or skill row is a string. Only `image` may be absent. So the `|| ''` defaults of the editors apply only to `image`, and `featured || false` is the boolean itself.
- `AdminPanel.ProjectFormFor` has no contract of its own. What it promises is stated by `AdminPanel.ProjectFormRoundTrip`. The same holds for `AdminPanel.SkillFormFor` and `AdminPanel.SkillFormRoundTrip`.
- `PortfolioProvider.Fetch` has no contract of its own. Its behaviour is stated by `LoadedIff`, `MissingConfigFails`, `MissingRowFails`, `ListThrowFails` and `RowOutweighsError`.
- In `ContentService.Store.SubmitContactForm`, a body-already-used error on an insert that did take place is modelled as no row written. The store's true state in that case is unknown to the code.
- The unconfigured-store path of the contact form (`process.env` read for logging only) has no effect and is left out.
- `formatDate`, the selected-message detail view, the tab bar and all JSX rendering are not modelled, because they only display data.
- The other components (header, hero, about, skills, contact, footer, theme), the mock data, the connection test, the application shell and the entry point are not part of this model.
- Four service calls are not part of this model: `getPortfolioData`, `getProjects`, `getProjectById` and `updateMessageReadStatus`. The admin panel and the provider do not call them.
