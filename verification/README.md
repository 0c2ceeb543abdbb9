# Resume builder: document, store and editor model

A verified Dafny model of the core of a small resume builder. It has three parts:

- **The Mongoose resume schema** (`resume_schema.dfy`, module `ResumeSchema`):
  - one `Entry` constructor per section record type (education, experience, skills, projects, positions of responsibility, achievements);
  - the fields each record type declares, the `required` flags and the defaults.
- **The REST handlers** under `/api/resumes` (`resume_store.dfy`, module `ResumeStore`):
  - list, get, create, update and delete, as methods of a `Store` class that holds the collection as a `map<Id, Resume>`;
  - the "truthy merge" of PUT as a function `Merge`. The handler itself overwrites the fetched document one field at a time.
- **The editor page** (`editor_state.dfy`, module `EditorState`, and `editor_preview.dfy`, module `EditorPreview`):
  - the load-time backfill, `handleChange`, `handleArrayChange`, `addItem`, `removeItem` and the hide/show toggle, as copy-on-write functions;
  - a `Session` class whose `resume` state cell the setters replace;
  - the live preview: the `filter(!hidden)` projection, the section headings, the bullet splitting of experience descriptions, and the header, link and PDF file-name fallbacks.

`save_contract.dfy` (module `SaveContract`) connects the editor to the server. It shows what the truthy merge does to the whole editor state that the Save button sends.

`js.dfy` (module `Js`) defines the JavaScript conventions the code relies on:

- `Option` stands for a property that may be undefined or null.
- A string is truthy exactly when it is non-empty. An array or object is truthy whenever it is present.
- `IsSpace` is the whitespace set shared by `trim()` and the `\s` regex class.

Behaviour the model keeps as the code has it:

- The Experience and Projects headings test the unfiltered array length. The other four sections test the filtered length.
- The client's default skill level is `'Technical'`, while the schema default is `'Intermediate'`.
- The client writes a `hidden` flag that no record type declares.
- An empty string never overwrites on update. So clearing the title or the summary in the editor is not saved; an empty `themeColor` in a request body is ignored the same way.
- A skill added with the editor's default item has the name `''`. Saving it fails the schema's `required` check, and the update answers 500.
- A freshly created resume has the full name `'John Doe'` and the email `'john@example.com'`, as the POST handler sets them.

## Model

| member | source | states |
|---|---|---|
| ResumeSchema.DeclaredFields | server/models/Resume.js:22-72 | No record type declares `hidden`. Only skills lack `description`. Only education and experience have `current`. |
| ResumeSchema.Defaults | server/models/Resume.js:3-79 | The defaults-only document has the given id and owner, the title `'Untitled Resume'`, an empty summary, the theme colour `'#2563eb'`, all six personal fields `''`, every section present and empty, and `createdAt == updatedAt ==` the save time. |
| ResumeSchema.SchemaValid | server/models/Resume.js:4-12 | A valid document holds only skill records in its skills array. Without skills it is valid iff `userId` and `title` are non-empty; each skill's `name` is required as well (line 45). |
| ResumeSchema.DefaultsValid | server/models/Resume.js:4-12 | The defaults pass the `required` checks exactly when a non-empty `userId` is given. |
| ResumeSchema.WithSkillDefault | server/models/Resume.js:46 | A skill without `level` gets `'Intermediate'`. Any other entry is unchanged, and the record type is kept. |
| ResumeSchema.CastSkills | server/models/Resume.js:43-48 | Casting a skills array keeps its length and order, and applies the level default entry by entry. |
| ResumeSchema.WithItems | client/src/pages/Editor.jsx:90 | Replacing one section gives that section the new value. Every other section and every non-section field is kept. |
| ResumeStore.NewResume | server/routes/resumeRoutes.js:71-84 | The created document has the given owner, and the given title or `'Untitled Resume'` when it is falsy. It has the placeholder name and email, other fields at their defaults, and all six sections empty. It is schema-valid iff the owner is non-empty. |
| ResumeStore.Merge | server/routes/resumeRoutes.js:186-195 | Id, owner and timestamps are kept. A non-empty title stays non-empty. Section presence is preserved. |
| ResumeStore.ApplyBody | server/routes/resumeRoutes.js:184-195 | Overwriting the fetched document one field at a time, as the handler does, yields exactly the truthy merge. |
| ResumeStore.MergeFields | server/routes/resumeRoutes.js:186-195 | Field by field: a non-empty string replaces, and `''` or a missing value keeps the old one. Any present array or object replaces, `[]` included. Skills are cast. |
| ResumeStore.MergeIdempotent | server/routes/resumeRoutes.js:186-195 | Merging the same body twice equals merging it once. A body with none of the ten fields changes nothing. |
| ResumeStore.MergeKeepsValid | server/routes/resumeRoutes.js:191-197 | From a valid document, the merge stays valid iff the body brings no skill with an empty or missing name. |
| ResumeStore.Saved | server/models/Resume.js:77-79 | `updatedAt` moves to the save time exactly when the merge changed the document. `createdAt` never moves. |
| ResumeStore.InsertNewestFirst | server/routes/resumeRoutes.js:37 | Insertion adds exactly one occurrence of the document (multiset equality). |
| ResumeStore.InsertKeepsNewestFirst | server/routes/resumeRoutes.js:37 | Insertion keeps a list ordered by `updatedAt`, non-increasing. |
| ResumeStore.Store.List | server/routes/resumeRoutes.js:30-42 | A falsy `userId` gives 400 "User ID is required". Otherwise 200 with every stored document of that owner exactly once and no other, newest first. |
| ResumeStore.Store.Get | server/routes/resumeRoutes.js:47-58 | A stored id gives 200 with its document. An unknown id gives 404 "Resume not found". |
| ResumeStore.Store.Create | server/routes/resumeRoutes.js:63-91 | A falsy owner gives 400 and no change. Otherwise 201 and exactly one new document under a fresh id. The store invariant is kept. |
| ResumeStore.Store.Update | server/routes/resumeRoutes.js:180-205 | An unknown id gives 404 and no change. A merge that fails validation gives 500 and no change. Otherwise only that id is replaced, by the saved merge, and the response is 200 with it. |
| ResumeStore.Store.Delete | server/routes/resumeRoutes.js:210-223 | A stored id is removed alone and the response is "Resume removed". An unknown id gives 404 and no change. |
| EditorState.Backfill | client/src/pages/Editor.jsx:25-33 | Each present section is kept, and each missing one becomes `[]`. Every other field is copied. |
| EditorState.BackfillStable | client/src/pages/Editor.jsx:25-33 | Backfill is idempotent. It is the identity when all sections are present, and it keeps entries in their own sections. |
| EditorState.ChangeInfo | client/src/pages/Editor.jsx:77-85 | `handleChange` sets exactly the named personal field. The other personal fields and the rest of the document are unchanged. |
| EditorState.SetField | client/src/pages/Editor.jsx:89 | `{ ...entry, [field]: value }` reads back the value and keeps the record type. |
| EditorState.SetFieldFrame | client/src/pages/Editor.jsx:89 | Every other property of the entry is unchanged. |
| EditorState.ToggledHidden | client/src/pages/Editor.jsx:339 | The eye button flips whether the entry is hidden and keeps its record type. |
| EditorState.ToggleTwice | client/src/pages/Editor.jsx:339 | Two toggles restore a prior boolean flag. A missing flag ends as `false`. |
| EditorState.DefaultItem | client/src/pages/Editor.jsx:385-680 | The item each Add button appends has the section's record type and is not hidden. Its string fields are `''`, except that the skill level is `'Technical'`. |
| EditorState.AppendItem | client/src/pages/Editor.jsx:93-98 | `addItem` grows the section by one, with the old items as prefix and the item last. A missing section counts as empty. Nothing else changes. |
| EditorState.DropIndex | client/src/pages/Editor.jsx:101 | The index filter yields `a[..i] + a[i+1..]` for an index in range, and `a` otherwise. |
| EditorState.RemoveAt | client/src/pages/Editor.jsx:100-103 | `removeItem` removes exactly position `i` of that section. Nothing else changes. |
| EditorState.RemoveUndoesAppend | client/src/pages/Editor.jsx:93-103 | Removing the last item after adding one restores the document. |
| EditorState.EditsConform | client/src/pages/Editor.jsx:87-103 | Adding a default item, removing an item and editing a property all keep every entry in the section of its own record type. |
| EditorState.Session.Load | client/src/pages/Editor.jsx:21-33 | The loaded state is the backfilled document, with every section present and every entry in its own section. |
| EditorState.Session.SetTitle | client/src/pages/Editor.jsx:262 | Only the title changes. |
| EditorState.Session.SetSummary | client/src/pages/Editor.jsx:328 | Only the summary changes. |
| EditorState.Session.HandleChange | client/src/pages/Editor.jsx:77-85 | The new state is `ChangeInfo` of the old one. |
| EditorState.Session.HandleArrayChange | client/src/pages/Editor.jsx:87-91 | The section is copied into a fresh array and position `i` is overwritten in place. Only that element of that section changes, and the length is kept. |
| EditorState.Session.ToggleHidden | client/src/pages/Editor.jsx:339 | Only entry `i` of the section is toggled. |
| EditorState.Session.AddItem | client/src/pages/Editor.jsx:93-98 | The new state is `AppendItem` of the old one. |
| EditorState.Session.RemoveItem | client/src/pages/Editor.jsx:100-103 | The new state is `RemoveAt` of the old one. |
| EditorPreview.Visible | client/src/pages/Editor.jsx:731 | The projection is no longer than the section and holds only shown entries drawn from it. |
| EditorPreview.VisibleIsSubsequence | client/src/pages/Editor.jsx:728-731 | The projection is an order-preserving subsequence of the section. |
| EditorPreview.VisibleCounts | client/src/pages/Editor.jsx:748-752 | Each shown entry occurs as often as in the section, and each hidden one not at all. |
| EditorPreview.ToggleChangesPreviewByOne | client/src/pages/Editor.jsx:445 | A toggle keeps the section length and moves the preview length by exactly one, up or down. |
| EditorPreview.AllHiddenPreviewsEmpty | client/src/pages/Editor.jsx:810-813 | A section whose entries are all hidden previews as nothing. |
| EditorPreview.ShowsSection | client/src/pages/Editor.jsx:728-831 | A heading never stands over a missing or empty section, and every section with a shown entry has its heading. |
| EditorPreview.HeadingOverHiddenEntries | client/src/pages/Editor.jsx:763-766 | With every entry hidden, Experience and Projects still print a heading over an empty list. The other four sections print nothing. |
| EditorPreview.HeadingIffShownEntry | client/src/pages/Editor.jsx:827-831 | Education, Skills, Responsibilities and Achievements show their heading iff some entry is shown. |
| EditorPreview.SplitLines | client/src/pages/Editor.jsx:778 | `split('\n')` yields at least one piece, and no piece contains a newline. |
| EditorPreview.JoinSplit | client/src/pages/Editor.jsx:778 | Joining the pieces with `'\n'` gives back the description. |
| EditorPreview.SplitJoin | client/src/pages/Editor.jsx:778 | Splitting newline-free lines joined by `'\n'` gives back the lines. |
| EditorPreview.SkipSpace | client/src/pages/Editor.jsx:779 | The forward scan of `trim()` and of the regex's `\s*` skips whitespace only, and stops at the first character that is not whitespace or at the bound. |
| EditorPreview.BackSpace | client/src/pages/Editor.jsx:779 | The backward scan of `trim()` drops whitespace only, and stops after the last character that is not whitespace or at the bound. |
| EditorPreview.SkipSpaceExact | client/src/pages/Editor.jsx:779 | The forward scan's stopping point is the unique end of the leading whitespace run. |
| EditorPreview.BackSpaceExact | client/src/pages/Editor.jsx:779 | The backward scan's stopping point is the unique start of the trailing whitespace run. |
| EditorPreview.CleanLine | client/src/pages/Editor.jsx:779 | The result is the slice `line[c..b]`. Before it there is leading whitespace up to `a`, then a lead `line[a..c]` that is empty or one `•` followed by whitespace only. After it there is trailing whitespace only. Without a lead the result does not start with `•`. The result is trimmed and gains no newline. |
| EditorPreview.CleanKeepsPlainLine | client/src/pages/Editor.jsx:779 | A trimmed line that does not start with `•` is kept whole. |
| EditorPreview.DropEmpty | client/src/pages/Editor.jsx:779 | The `line && <li>` guard keeps only non-empty strings, each drawn from the input, and never more than the input holds. |
| EditorPreview.DropEmptyInOrder | client/src/pages/Editor.jsx:778-779 | The kept strings are an order-preserving subsequence of the input. |
| EditorPreview.DropEmptyCounts | client/src/pages/Editor.jsx:778-779 | Each non-empty string is kept as often as it occurs, and `''` never is. |
| EditorPreview.CleanedLines | client/src/pages/Editor.jsx:778-779 | At most as many items as lines. Every item is non-empty and trimmed, and newline-free lines give newline-free items. The items are the cleaned lines, in order, with exactly the empty ones dropped (multiset counts). |
| EditorPreview.Bullets | client/src/pages/Editor.jsx:778-779 | There are no more bullets than lines. Each bullet is non-empty, newline-free and trimmed. The bullets are the cleaned lines of the split description, in order, with exactly the empty ones dropped (multiset counts). |
| EditorPreview.CleanMarked | client/src/pages/Editor.jsx:779 | A line `"• " + text`, with `text` clean, renders as `text`. |
| EditorPreview.BulletsOfMarkedLines | client/src/pages/Editor.jsx:778-779 | Clean texts written one per line behind `"• "` render exactly as those texts, in order. |
| EditorPreview.PdfFileName | client/src/pages/Editor.jsx:61 | The name is the full name followed by `.pdf` when the full name is non-empty, and `Resume.pdf` otherwise. The base name is never empty. |
| EditorPreview.HeaderName | client/src/pages/Editor.jsx:703 | The header shows the full name, or `YOUR NAME` when that is falsy. It is never empty. |
| EditorPreview.LinkText | client/src/pages/Editor.jsx:710 | The link text is a suffix of the URL. |
| EditorPreview.LinkTextDropsOneScheme | client/src/pages/Editor.jsx:710-713 | A leading `http://` or `https://` is dropped, once. A URL without either is shown unchanged. |
| SaveContract.SaveBody | client/src/pages/Editor.jsx:47 | The save body carries every field of the editor state, present. |
| SaveContract.SaveRoundTrip | server/routes/resumeRoutes.js:186-195 | Suppose title, summary and theme colour are non-empty, every section is present and every skill has a level. Then the truthy merge of the save body equals the editor state with the stored id, owner and timestamps. `Saved` then moves `updatedAt`, and the real store drops `hidden` (see the Mongoose strict-mode line under Left out). |
| SaveContract.ClearedTextNotSaved | server/routes/resumeRoutes.js:186-188 | A saved summary, title or theme colour matches the editor iff it is non-empty or the stored one was already empty. |
| SaveContract.DefaultSkillFailsValidation | client/src/pages/Editor.jsx:433 | Adding the default skill and saving before naming it always fails validation. |
| SaveContract.SaveThenLoad | client/src/pages/Editor.jsx:25-33 | After a save, reloading backfills nothing: the editor shows the stored merge. |

## Left out

- The PDF upload route (server/routes/resumeRoutes.js:96-175) is not part of this model. It depends on a PDF parser and a language-model call whose output is parsed as JSON.
- The AI routes and service, the summary and text-improvement buttons, and the Express server wiring are not part of this model. They are foreign calls and I/O.
- Database identity: ids are natural numbers from a counter, not ObjectIds. A malformed id, which makes the real handlers answer 500, and database failures are not modelled.
- Mongoose's strict mode drops undeclared properties such as `hidden` when it stores an entry. The store here keeps them. Subdocument `_id`s are not modelled either.
- ResumeStore.Saved: Mongoose's change tracking is simplified to value equality between the merged and the stored document.
- ResumeStore.Merge: null and undefined are both `None`. A non-string, non-array value in a body is not modelled.
- ResumeSchema.WithSkillDefault: a skill whose `level` is `null` gets `'Intermediate'` here, because null and undefined are both `None`. Mongoose applies the default only to an undefined value, so a body skill `{ name: 'Go', level: null }` is really stored with `level: null`.
- ResumeStore.Store.List: the `userId` query value is taken as one string. A repeated key (`?userId=a&userId=b`) really arrives as an array, which is truthy, passes the check and becomes an `$in` query listing several owners' documents; that case is not modelled.
- The clock is a `now` parameter of create and update, not a monotone counter. List orders documents with equal `updatedAt` arbitrarily, as the database may.
- The formatting controls (text size, line height, spacing) use floating point and are not modelled. The html2pdf export, the toasts, and the loading and saving flags are not modelled either.
- The fetch, save and AI calls are asynchronous. The model treats each state update as one atomic step, and concurrent sessions are not modelled (last writer wins).
- EditorState.Session.HandleChange: `handleChange` is only called with `'personalInfo'`, so the model fixes the section to the personal details.
- EditorState.SetField: requires a property the record type declares, and a flag for `current` and `hidden` only, as the form's inputs do.
- EditorState.Session.HandleArrayChange: requires an index in range. The buttons only pass the indices of rendered entries. JavaScript would grow the array with a hole instead.
- EditorState.Session.Load: requires every fetched entry to have its section's record type. The schema's typed arrays ensure this for every stored document.
- EditorState.Session.AddItem: requires an item of the section's record type. The Add buttons only pass the section's default item.
- EditorState.RemoveAt: requires the section to be present, as `resume[section].filter` would throw otherwise. This always holds after the load backfill.
- EditorPreview.Bullets: takes the description as a string. An experience entry without a description makes the page throw, and that is not modelled.
- The Dashboard, Home and App pages, the axios helper and the button component are not part of this model.
