# rn_memo_app: a verified model of the note-list core

This project models the logic of the React Native note app `rn_memo_app` in Dafny and
proves properties of it. The app keeps notes, each with an id, a title, content, a
category, a date and a favourite flag (`pref`). Its modelled pieces are:

- **Note services.** `getNotes`, `saveNote`, `deleteNote` and `toggleFavorite` read the
  list stored under the key `'notes'`, change it and write it back.
- **Home screen.** It keeps its own list under `'memos'`. It filters by the category
  sentinel `'Tous les mémos'` and by a case-insensitive search. It derives the distinct
  category menu. It applies the favourite, swipe-to-delete and trash handlers with the
  `deletedRowKeys` list.
- **Note editor.** It rejects a blank title, trims the note and assigns its id, writes
  it to `'notes'` itself, and appends dictated speech.
- **Category picker.** Its add and select flow.
- **Memo card.** The `React.memo` comparator and the favourite star.
- **Drawing tools.** The tool box's press handler and palettes, plus the drawing page's
  stroke colour, injected script, canvas style and readiness guard.
- **Android widget.** It parses `title||content||date` entries.

Modules follow the source files: `Notes` (the record and the by-id list updates),
`NoteServices`, `HomeScreen`, `NoteScreen`, `CategorySelector`, `MemoCard`,
`ToolBoxDrawing`, `DrawingScreen` and `NotesWidget`. Four support modules sit beside
them: `Results` (Option and Result), `Seqs` (a filter with its laws), `JsText`
(`trim`, `toLowerCase`, `includes`, number printing) and `KotlinText` (Kotlin's
`split` on a literal delimiter).

**State and side effects**
- Components that hold state are classes. Their fields are the component's `useState`
  cells. Their methods are the event handlers, each specified against pure functions.
- The storage key is one field holding a `Slot`: nothing, unparseable text, or a note
  list.
- Whether a storage call succeeds is a boolean parameter (`readOk`, `writeOk`).
- `Date.now()` is the parameter `now`, and the locale date string is `today`.
- The outcome of recognising speech, of `getCategories` and of `addCategory` are also
  parameters.

**Ids.** An id is `null` or a number. It is truthy when it is a non-zero number, and
`===` on ids is equality. `memo.id.toString()` is decimal printing, proved injective.
As a result, deleting by row key removes exactly the memos with that id.

**Behaviour of the code worth knowing.**
- `saveNote` with a truthy id that is not stored leaves the list unchanged; the
  returned note is then not in it (`NoteServices.UpsertStoresIff`).
- A fresh id is `Date.now()`, taken with no check against the stored ids. Ids stay
  unique only when the clock value is not already an id
  (`NoteServices.UpsertKeepsUniqueIds`).
- Toggling a favourite and then saving a copy read before the toggle loses the
  toggle (`Notes.SaveOverwritesToggle`).
- `handleSearch` sets the search at once, and sets it again 300 ms later.
- `CategorySelector` imports `getCategories` and `addCategory`, which the services
  file does not define, so no category list is stored anywhere.
- The drawing page never attaches `webviewRef` to a component and never passes
  `handleWebViewLoad` to one; the canvas gets only `ref={signatureRef}`. So
  `isWebViewReady` never becomes true and no script is ever injected
  (`DrawingScreen.NothingIsInjected`, which also calls the load handler the app never
  fires).
- The widget reads the preference `notes_list`, but the app's only write to the
  `NotesWidgetPrefs` store is `putString("last_note", …)` in `WidgetUpdateModule.kt`.
  So the widget always finds the key missing and shows no notes
  (`NotesWidget.NoNotesWithoutArray`).

## Model

| member | source | states |
|---|---|---|
| Notes.ReplaceById | src/services/NoteServices.jsx:28 | the list keeps its length, and each position holds `note` exactly when its id equals `note.id`, otherwise the old note |
| Notes.ToggleById | src/services/NoteServices.jsx:65-67 | the list keeps its length, and each position holds the flipped note exactly when its id equals `id`, otherwise the old note |
| Notes.RemoveById | src/services/NoteServices.jsx:50 | `notes.filter(n => n.id !== id)`: the filter by the callback `OtherThan(id)`; what it keeps is proved in `Notes.RemoveSpec` |
| Notes.ReplaceKeepsIds | src/services/NoteServices.jsx:28 | replacing keeps every position's id, so unique ids stay unique |
| Notes.ReplaceAbsent | src/services/NoteServices.jsx:28 | replacing with an id no note has changes nothing |
| Notes.ReplacePresent | src/services/NoteServices.jsx:28 | replacing with a stored id puts `note` in the list |
| Notes.RemoveSpec | src/services/NoteServices.jsx:50 | after deleting, no note has the id, every other note keeps its number of copies, and the result is an order-preserving subsequence |
| Notes.RemoveAbsent | src/services/NoteServices.jsx:50 | deleting an absent id leaves the list unchanged |
| Notes.RemoveIdempotent | src/services/NoteServices.jsx:50 | deleting the same id twice is deleting it once |
| Notes.RemoveKeepsUniqueIds | src/services/NoteServices.jsx:50 | deleting keeps ids unique |
| Notes.ToggleTwice | src/services/NoteServices.jsx:65-67 | toggling the same id twice restores the list |
| Notes.ToggleOnlyFlipsPref | src/services/NoteServices.jsx:65-67 | toggling changes only `pref`, and only on notes with that id; ids stay unique |
| Notes.ToggleCommutes | src/services/NoteServices.jsx:65-67 | toggles of two ids commute |
| Notes.SaveOverwritesToggle | src/services/NoteServices.jsx:28 | a toggle followed by a whole-note save ends with the saved copy's flag: the toggle is lost |
| NoteServices.LoadNotes | src/services/NoteServices.jsx:9-17 | `getNotes`: the parsed list, or `[]` for a falsy value, a parse error or a failed read; the class method `GetNotes` is proved against it |
| NoteServices.AssignId | src/services/NoteServices.jsx:27-30 | the note `saveNote` returns: its own truthy id kept, otherwise `note.id = Date.now()`; properties in `UpsertExisting` and `UpsertNew` |
| NoteServices.Upsert | src/services/NoteServices.jsx:27-31 | the list `saveNote` writes: map-replace for a truthy id, otherwise append; properties in the `Upsert…` lemmas |
| NoteServices.UpsertExisting | src/services/NoteServices.jsx:27-28 | with a truthy id, saving keeps length and positions, replaces every note with that id and returns the note unchanged |
| NoteServices.UpsertUnknownId | src/services/NoteServices.jsx:27-28 | with a truthy id that is not stored, saving leaves the list unchanged |
| NoteServices.UpsertNew | src/services/NoteServices.jsx:29-31 | without a truthy id, the note gets the id `now`, is otherwise unchanged, and is appended |
| NoteServices.UpsertKeepsUniqueIds | src/services/NoteServices.jsx:27-31 | saving keeps ids unique when a new note's clock value is not already an id |
| NoteServices.UpsertStoresIff | src/services/NoteServices.jsx:27-37 | the returned note is in the written list exactly when its id was falsy or already stored |
| NoteServices.SaveOverCorruptList | src/services/NoteServices.jsx:9-31 | saving over unparseable stored text leaves only the saved note |
| NoteServices.NoteStore.constructor | src/services/NoteServices.jsx:11 | the store holds the given slot |
| NoteServices.NoteStore.GetNotes | src/services/NoteServices.jsx:9-17 | returns the stored list, or the empty list when nothing parseable is stored or the read fails |
| NoteServices.NoteStore.SaveNote | src/services/NoteServices.jsx:21-42 | on a successful write, stores `Upsert(read list, note, now)` and returns the note with its id; a failed write leaves the key and returns the error |
| NoteServices.NoteStore.DeleteNote | src/services/NoteServices.jsx:47-57 | on a successful write, stores and returns the read list without the id; a failed write leaves the key and returns the error |
| NoteServices.NoteStore.ToggleFavorite | src/services/NoteServices.jsx:62-74 | on a successful write, stores and returns the read list with that id's flag flipped; a failed write leaves the key and returns the error |
| NoteServices.DeleteTwice | src/services/NoteServices.jsx:47-57 | two deletions of one id store what the first stored |
| NoteServices.ToggleFavoriteTwice | src/services/NoteServices.jsx:62-74 | two toggles of one id store the list that was read first |
| NoteServices.SaveThenGet | src/services/NoteServices.jsx:9-37 | the next `getNotes` after a successful `saveNote` reads the upserted list, holding the returned note whenever it was new or its id stored |
| NoteServices.DeleteThenGet | src/services/NoteServices.jsx:9-52 | the next `getNotes` after a successful `deleteNote` reads the filtered list, with no note of the deleted id |
| JsText.Trim | src/pages/NoteScreen.jsx:39-40 | `String.prototype.trim`: drop the leading and the trailing white space; its shape is proved in `JsText.TrimShape` |
| JsText.TrimShape | src/pages/NoteScreen.jsx:39-40 | `trim` keeps a contiguous slice that neither starts nor ends with white space, and drops only white space on either side |
| JsText.TrimEmptyIff | src/pages/NoteScreen.jsx:29 | a string trims to empty exactly when it is all white space |
| JsText.TrimIdempotent | src/pages/NoteScreen.jsx:39-40 | trimming twice is trimming once |
| JsText.ToLower | src/pages/HomeScreen.jsx:63-67 | lower-casing keeps the length and maps each character on its own |
| JsText.ToLowerIdempotent | src/pages/HomeScreen.jsx:63-67 | lower-casing twice is lower-casing once |
| JsText.Includes | src/pages/HomeScreen.jsx:66-67 | `String.prototype.includes` as a left-to-right scan of start positions; proved equal to occurrence in `JsText.IncludesIff` |
| JsText.IncludesIff | src/pages/HomeScreen.jsx:66-67 | the left-to-right scan answers true exactly when the text occurs at some position |
| JsText.NatToString | src/pages/DrawingScreen.jsx:33 | a printed number is a non-empty string of digits, one digit long exactly below ten |
| JsText.IntToString | src/pages/HomeScreen.jsx:87 | `Number.prototype.toString()` on an integer: a minus sign for a negative number, then its decimal digits; injectivity is `JsText.IntToStringInjective` |
| JsText.IntToStringInjective | src/pages/HomeScreen.jsx:87 | distinct numbers print differently |
| KotlinText.Split | android/app/src/main/java/com/memo_app/NotesWidget.kt:43 | splitting always gives at least one part |
| KotlinText.SplitJoin | android/app/src/main/java/com/memo_app/NotesWidget.kt:43 | splitting parts joined with `\|\|` gives back the parts when no part holds a `\|` |
| HomeScreen.FilteredMemos | src/pages/HomeScreen.jsx:56-72 | the category filter (skipped for the sentinel), then the search filter when the search is non-empty; proved equal to one filter by `Listed` in `FilteredMemosSpec` |
| HomeScreen.CategoryStage | src/pages/HomeScreen.jsx:57-60 | the sentinel keeps every memo, and any other category keeps exactly the memos of that category |
| HomeScreen.SearchStage | src/pages/HomeScreen.jsx:62-69 | a non-empty search keeps exactly the memos whose lower-cased title or content contains the lower-cased search; an empty one keeps all |
| HomeScreen.FilteredMemosSpec | src/pages/HomeScreen.jsx:56-72 | `filteredMemos` is the single filter by "category matches and search occurs" |
| HomeScreen.FilteredMemosSubsequence | src/pages/HomeScreen.jsx:56-72 | `filteredMemos` is an order-preserving subsequence holding each memo exactly when it is listed |
| HomeScreen.NoFilterListsAll | src/pages/HomeScreen.jsx:57-62 | the sentinel with an empty search lists every memo in order |
| HomeScreen.EmptySearchIsCategoryOnly | src/pages/HomeScreen.jsx:60-62 | an empty search filters only by category |
| HomeScreen.SearchIgnoresCase | src/pages/HomeScreen.jsx:63-67 | searching for the lower-cased text gives the same rows |
| HomeScreen.CategoriesOf | src/pages/HomeScreen.jsx:53 | the category of every memo, position by position |
| HomeScreen.Distinct | src/pages/HomeScreen.jsx:53 | `[...new Set(xs)]` holds only values of `xs` |
| HomeScreen.DistinctMembers | src/pages/HomeScreen.jsx:53 | `[...new Set(xs)]` holds exactly the values of `xs` |
| HomeScreen.DistinctNoDuplicates | src/pages/HomeScreen.jsx:53 | `[...new Set(xs)]` holds no value twice |
| HomeScreen.DistinctOrder | src/pages/HomeScreen.jsx:53 | `[...new Set(xs)]` orders values by their first occurrence in `xs` |
| HomeScreen.DistinctSpec | src/pages/HomeScreen.jsx:53 | the three facts above together |
| HomeScreen.Categories | src/pages/HomeScreen.jsx:53 | `[...new Set(memos.map(memo => memo.category))]`: `Distinct` of `CategoriesOf` |
| HomeScreen.CategoriesSpec | src/pages/HomeScreen.jsx:53 | the menu categories have no duplicates and are exactly the memo categories |
| HomeScreen.RowKey | src/pages/HomeScreen.jsx:87 | the row key `memo.id.toString()` of a memo with a numeric id |
| HomeScreen.RemoveByKey | src/pages/HomeScreen.jsx:86-88 | `prevMemos.filter(memo => memo.id.toString() !== key)` |
| HomeScreen.RemoveByRowKey | src/pages/HomeScreen.jsx:99-101 | removing by a memo's `id.toString()` key is removing by its id |
| HomeScreen.RemoveByKeyKeepsNumericIds | src/pages/HomeScreen.jsx:86-88 | removing by key keeps every remaining id numeric |
| HomeScreen.RemoveByKeyIdempotent | src/pages/HomeScreen.jsx:86-88 | removing the same key twice is removing it once |
| HomeScreen.HomeScreen.constructor | src/pages/HomeScreen.jsx:44-49 | initial state: the given memos, the sentinel category, modal and search hidden, empty search, no deleted keys |
| HomeScreen.HomeScreen.Rows | src/pages/HomeScreen.jsx:56-72 | the rows the list shows: `FilteredMemos` of the current state |
| HomeScreen.HomeScreen.CategoryMenu | src/pages/HomeScreen.jsx:167 | the menu starts with the sentinel, followed by each memo category exactly once and nothing else |
| HomeScreen.HomeScreen.ToggleFavorite | src/pages/HomeScreen.jsx:74-80 | memos become `ToggleById(memos, id)`; nothing else changes |
| HomeScreen.HomeScreen.OnSwipeValueChange | src/pages/HomeScreen.jsx:82-90 | a swipe below -200 on a key not yet deleted appends the key and removes the memos with that key; any other swipe changes nothing |
| HomeScreen.HomeScreen.OnTrashPress | src/pages/HomeScreen.jsx:96-103 | the key is appended unconditionally and the memos with the item's id are removed |
| HomeScreen.HomeScreen.HandleCategoryPress | src/pages/HomeScreen.jsx:117-119 | opens the menu and changes nothing else |
| HomeScreen.HomeScreen.SelectCategory | src/pages/HomeScreen.jsx:130-133 | selects the category and closes the menu |
| HomeScreen.HomeScreen.ToggleSearch | src/pages/HomeScreen.jsx:147 | shows or hides the search field |
| HomeScreen.HomeScreen.HandleSearch | src/pages/HomeScreen.jsx:121-124 | the typed text becomes the search |
| HomeScreen.SwipeTwice | src/pages/HomeScreen.jsx:82-90 | after a swipe that deletes, a second swipe on the same key changes nothing; a key already recorded makes both swipes no-ops; the category, search and modal fields stay |
| HomeScreen.TrashTwice | src/pages/HomeScreen.jsx:96-102 | two trash presses remove the memo once and record the key twice |
| NoteScreen.NoteToSave | src/pages/NoteScreen.jsx:36-41 | `noteToSave`: the draft with `id: note.id \|\| Date.now()` and the title and content trimmed; properties in `NoteToSaveSpec` |
| NoteScreen.NoteToSaveSpec | src/pages/NoteScreen.jsx:36-41 | the note to save keeps a truthy id (otherwise takes `now`), is trimmed, copies category, date and flag, and gets a truthy id for any `now` but 0 |
| NoteScreen.SavedTitleNotBlank | src/pages/NoteScreen.jsx:29-39 | a note that passes validation has a non-blank title |
| NoteScreen.ReadNotes | src/pages/NoteScreen.jsx:56-57 | the editor's uncaught read: the parsed list, `[]` for a falsy value, an error for a failed read or unparseable text |
| NoteScreen.WriteList | src/pages/NoteScreen.jsx:59-63 | the editor's list to write: map-replace for a truthy id, otherwise append |
| NoteScreen.SaveNeverAppends | src/pages/NoteScreen.jsx:59-62 | with a non-zero clock the editor always replaces, never appends, and the list keeps its length |
| NoteScreen.BrandNewNoteIsNotStored | src/pages/NoteScreen.jsx:36-62 | a fresh draft, whose clock id is not stored yet, leaves the list unchanged and is not in it |
| NoteScreen.WriteListFixed | src/pages/NoteScreen.jsx:59-63 | the intended list to write: replace when the id is stored, otherwise append |
| NoteScreen.SavedNoteIsStoredFixed | src/pages/NoteScreen.jsx:55-66 | the intended save always stores the note: it replaces when the id is stored, otherwise it appends |
| NoteScreen.AppendSpeech | src/pages/NoteScreen.jsx:73 | `prevNote.content + (prevNote.content ? ' ' : '') + spokenText` |
| NoteScreen.AppendSpeechSpec | src/pages/NoteScreen.jsx:70-75 | speech on empty content becomes the content, otherwise `content + ' ' + spoken`, old content kept as a prefix |
| NoteScreen.NoteEditor.constructor | src/pages/NoteScreen.jsx:11-22 | the draft has a null id, empty title and content, category `'Catégorie'`, today's date and no flag; the recorder is hidden |
| NoteScreen.NoteEditor.SetTitle | src/pages/NoteScreen.jsx:127 | only the title changes |
| NoteScreen.NoteEditor.SetContent | src/pages/NoteScreen.jsx:135 | only the content changes |
| NoteScreen.NoteEditor.HandleVoicePress | src/pages/NoteScreen.jsx:105-108 | shows or hides the recorder |
| NoteScreen.NoteEditor.HandleSpeechResult | src/pages/NoteScreen.jsx:70-75 | the content becomes `AppendSpeech(content, spoken)`; the other fields stay |
| NoteScreen.NoteEditor.SaveNote | src/pages/NoteScreen.jsx:55-66 | a failed read or parse is returned untouched; otherwise the replaced-or-appended list is written, or the write error is returned |
| NoteScreen.NoteEditor.HandleSave | src/pages/NoteScreen.jsx:28-51 | a blank title stops the save before any storage call; otherwise `NoteToSave(note, now)` is saved and success or failure is reported |
| NoteScreen.SaveFreshDraft | src/pages/NoteScreen.jsx:28-66 | typing a title into a fresh draft and saving returns the `Saved` outcome, yet leaves the stored list unchanged |
| CategorySelector.AddedCategories | src/components/CategorySelector.jsx:27-29 | `[...categories, newCategory]` when `newCategory.trim()` is non-empty, else the list as it was |
| CategorySelector.AddSpec | src/components/CategorySelector.jsx:26-34 | a non-blank input is appended raw and untrimmed after the old list; a blank one changes nothing |
| CategorySelector.AddAllowsDuplicates | src/components/CategorySelector.jsx:29 | re-adding a listed name creates a duplicate |
| CategorySelector.AddKeepsDistinctIff | src/components/CategorySelector.jsx:29 | a duplicate-free list stays duplicate-free exactly when the added name is new |
| CategorySelector.CategorySelector.constructor | src/components/CategorySelector.jsx:14-16 | no categories, modal hidden, empty input |
| CategorySelector.CategorySelector.LoadCategories | src/components/CategorySelector.jsx:18-24 | the loaded categories replace the list; a failed load leaves it |
| CategorySelector.CategorySelector.OpenModal | src/components/CategorySelector.jsx:38 | opens the modal |
| CategorySelector.CategorySelector.SetNewCategory | src/components/CategorySelector.jsx:70 | only the input changes |
| CategorySelector.CategorySelector.HandleAddCategory | src/components/CategorySelector.jsx:26-34 | a non-blank input with a successful `addCategory` is appended, handed to `onSelect`, then the input is cleared and the modal closed; otherwise nothing changes |
| CategorySelector.CategorySelector.SelectCategory | src/components/CategorySelector.jsx:56-59 | the picked category goes to `onSelect`, the modal closes and the list is unchanged |
| CategorySelector.AddSameNameTwice | src/components/CategorySelector.jsx:26-34 | adding the same name twice lists it twice |
| MemoCard.Star | src/models/MemoCard.jsx:15-21 | the star's `color`, `solid` and `light` props from `memo.pref` |
| MemoCard.Render | src/models/MemoCard.jsx:6-27 | what a card shows: title, star, content and date |
| MemoCard.StarSpec | src/models/MemoCard.jsx:15-21 | the star is `#FFD700` and solid exactly for a favourite, `#CCC` and light otherwise |
| MemoCard.PropsAreEqual | src/models/MemoCard.jsx:28-32 | the comparator as written: equal title, content and date |
| MemoCard.PropsAreEqualEquivalence | src/models/MemoCard.jsx:28-32 | the comparator is reflexive, symmetric and transitive, and ignores `id` and `pref` |
| MemoCard.PropsAreEqualIff | src/models/MemoCard.jsx:28-32 | the comparator holds exactly when title, content and date are equal |
| MemoCard.ToggledStarIsStale | src/models/MemoCard.jsx:18-31 | a memo and its toggled copy compare equal yet render different stars |
| MemoCard.PropsAreEqualFixed | src/models/MemoCard.jsx:28-32 | the intended comparator: the written one plus equal `pref` |
| MemoCard.PropsAreEqualFixedIff | src/models/MemoCard.jsx:28-32 | the intended comparator holds exactly when the two cards render the same |
| MemoCard.StarPressFlipsRow | src/models/MemoCard.jsx:10-13 | the star reports `memo.id`, and toggling that id flips the row and changes its star |
| ToolBoxDrawing.Pressed | src/components/ToolBoxDrawing.jsx:26-37 | the tool state after one call of `handleToolPress`; its effects are proved in `PressEffects` |
| ToolBoxDrawing.PressEffects | src/components/ToolBoxDrawing.jsx:26-37 | eraser and pencil set only `isEraser`; size sets only the size; colour sets the colour and turns the eraser off; other actions change nothing |
| ToolBoxDrawing.PressIdempotent | src/components/ToolBoxDrawing.jsx:26-37 | pressing the same button twice is pressing it once |
| ToolBoxDrawing.PaletteKept | src/components/ToolBoxDrawing.jsx:13-94 | pressing only offered buttons from a palette state keeps size in {1, 2, 5, 8} and colour in the eight colours |
| ToolBoxDrawing.LastSizeWins | src/components/ToolBoxDrawing.jsx:31-32 | after any presses, the last size press decides the size |
| ToolBoxDrawing.ToolState.constructor | src/pages/DrawingScreen.jsx:12-14 | the cells hold the given eraser flag, size and colour |
| ToolBoxDrawing.ToolState.HandleToolPress | src/components/ToolBoxDrawing.jsx:26-37 | the new tool state is `Pressed(old state, press)` |
| DrawingScreen.StrokeColor | src/pages/DrawingScreen.jsx:27 | `isEraser ? 'white' : color` |
| DrawingScreen.StrokeColorSpec | src/pages/DrawingScreen.jsx:27 | with a palette colour, the stroke is white exactly when the eraser is on, and otherwise the colour |
| DrawingScreen.DrawingSettingsScript | src/pages/DrawingScreen.jsx:26-41 | the template text of `injectDrawingSettings`, with the size and the stroke colour filled in |
| DrawingScreen.ScriptAppliesTools | src/pages/DrawingScreen.jsx:26-41 | the injected script sets `ctx.lineWidth` to the size and `ctx.strokeStyle` to the stroke colour |
| DrawingScreen.ScriptDependsOnStrokeOnly | src/pages/DrawingScreen.jsx:26-41 | states with the same size and stroke colour inject the same script |
| DrawingScreen.WebStyle | src/pages/DrawingScreen.jsx:101-109 | the `webStyle` template text, with the stroke colour and the size filled in |
| DrawingScreen.WebStyleAppliesTools | src/pages/DrawingScreen.jsx:101-109 | the canvas style sets `stroke` to the stroke colour and `stroke-width` to the size |
| DrawingScreen.DrawingScreen.constructor | src/pages/DrawingScreen.jsx:10-15 | black, size 2, eraser off, not ready, ref unset |
| DrawingScreen.DrawingScreen.HandleToolChange | src/pages/DrawingScreen.jsx:43-57 | injects the settings script exactly when the page is ready and the ref is set |
| DrawingScreen.DrawingScreen.HandleWebViewLoad | src/pages/DrawingScreen.jsx:70-73 | sets ready; the same-render tool change sees the old readiness |
| DrawingScreen.NothingIsInjected | src/pages/DrawingScreen.jsx:11-44 | the ref is never attached, so no loads and presses ever lead to an injection |
| NotesWidget.NotesOf | android/app/src/main/java/com/memo_app/NotesWidget.kt:41-47 | never more notes than entries |
| NotesWidget.ReadablePrefix | android/app/src/main/java/com/memo_app/NotesWidget.kt:39-51 | never more strings than elements |
| NotesWidget.EntryNote | android/app/src/main/java/com/memo_app/NotesWidget.kt:43-46 | the note of one entry: `Note(parts[0], parts[1], parts[2])` when `split("\|\|")` gives three parts, else none; its content is pinned by `EntryRoundTrip` and `EntryWithExtraPartDropped` |
| NotesWidget.WidgetNotes | android/app/src/main/java/com/memo_app/NotesWidget.kt:35-51 | the notes the widget collects: none for text that is not an array, else the notes of the entries read before the first `JSONException` |
| NotesWidget.EntryRoundTrip | android/app/src/main/java/com/memo_app/NotesWidget.kt:43-45 | `t\|\|c\|\|d` with no `\|` in the parts parses to `(t, c, d)` |
| NotesWidget.EntryWithExtraPartDropped | android/app/src/main/java/com/memo_app/NotesWidget.kt:44 | an entry with four parts is dropped |
| NotesWidget.NotesOfAppend | android/app/src/main/java/com/memo_app/NotesWidget.kt:41-47 | the notes of two runs of entries are the notes of each, in order |
| NotesWidget.NotesOfFromEntries | android/app/src/main/java/com/memo_app/NotesWidget.kt:41-47 | every note shown comes from some entry |
| NotesWidget.NotesOfAllKept | android/app/src/main/java/com/memo_app/NotesWidget.kt:41-47 | when each entry is well formed, there is one note per entry, in order |
| NotesWidget.NoNotesWithoutArray | android/app/src/main/java/com/memo_app/NotesWidget.kt:36-40 | a missing key (read as `"[]"`) and unparseable text both give no notes |
| NotesWidget.ReadablePrefixStops | android/app/src/main/java/com/memo_app/NotesWidget.kt:42 | reading stops at the first element `getString` throws on |
| NotesWidget.ExceptionKeepsEarlierNotes | android/app/src/main/java/com/memo_app/NotesWidget.kt:39-51 | an exception keeps the notes parsed before it and drops the rest |
| NotesWidget.LoadWidgetNotes | android/app/src/main/java/com/memo_app/NotesWidget.kt:35-51 | the loop's result is `WidgetNotes(stored)`: the notes of the three-part entries read before any exception |

## Left out

- Storage I/O: AsyncStorage, SharedPreferences and `JSON.parse`/`JSON.stringify` are abstracted. A key holds a `Slot` or a `JsonText`, and the success of each call is a parameter. The JSON text format is not modelled.
- HomeScreen load and save effects (src/pages/HomeScreen.jsx:21-42): the screen is built over a given memo list. The bundled `memos.json` data and the writes to `'memos'` are foreign storage calls.
- Async interleaving: the services' read-modify-write calls are modelled one at a time. Races between them are not modelled.
- HomeScreen.HomeScreen.HandleSearch: the delayed second `setSearchText` is left out, because it is a timer. Each keystroke builds a fresh `debounce`, so no timer is ever cleared. Each keystroke's text is set again 300 ms later, which can briefly restore an older search: typing "a" then "ab" within 300 ms shows "a" again when the first timer fires.
- DrawingScreen.DrawingScreen.HandleToolChange: the `setTimeout` retry after a failed injection is left out. The effects at src/pages/DrawingScreen.jsx:59-68 that call the handler again after a render are not modelled as events either; a caller invokes the method instead.
- Voice recording (VoiceRecorderBox): the recognised text is a parameter of `HandleSpeechResult`.
- Canvas and WebView: the `Signature` canvas, `clearSignature`/`readSignature`, the drawing page's save alert and the canvas remount forced by its `key` are library behaviour.
- Android plumbing: the widget's view-building loop (NotesWidget.kt:53-71), `WidgetUpdateModule.kt`, `WidgetUpdaterModule.kt` and `MainActivity.kt` are rendering and bridge code.
- Routing and presentation: navigation after a save, the header bars, the floating button, pop-ups and style sheets. `e.stopPropagation()` on the star is event plumbing.
- Logging: the `console.log`/`console.error`/`console.warn` calls are output only. The extra `getNotes()` that `saveNote` makes just to log the list (src/services/NoteServices.jsx:23) reads without changing anything, so it is left out.
- The editor's `handleCategoryPress`, `handleTaskPress` and `handleImagePress` only log. `handleDrawingPress` only navigates.
- Clock and locale: `Date.now()` is the parameter `now`, and `toLocaleDateString('fr-FR')` is the parameter `today`.
- JsText.IsSpace: only the JavaScript white space below U+0100 and the byte-order mark. The other Unicode space separators and line separators are left out.
- JsText.LowerChar: only ASCII and Latin-1 letters are lower-cased. Other Unicode case mappings are left out.
- JsText.IntToString: prints integers only. A JavaScript number that is not an integer, or one printed in exponent form, is not modelled. Ids are integers.
- NoteServices.NoteStore.SaveNote: `note.id = Date.now()` mutates the caller's object. The model returns the note with its id instead.
- HomeScreen.HomeScreen.OnTrashPress: requires a numeric id, because `id.toString()` on a `null` id throws. The screen's `Valid()` keeps every memo id numeric.
- HomeScreen.HomeScreen.OnSwipeValueChange: the swipe distance is an exact `real`, not a floating-point number.
- HomeScreen.SwipeTwice: assumes the screen re-renders between the two swipe events. Two `onSwipeValueChange` calls in one render both see the old `deletedRowKeys`, both pass the guard at src/pages/HomeScreen.jsx:84, and record the key twice; one render's batched updates are not modelled.
- CategorySelector.CategorySelector.LoadCategories: `getCategories` and `addCategory` are imported but not exported by the services file. Their results are parameters, and no category store is invented.
- ToolBoxDrawing.ToolPress: carries a number for a size press and a string for a colour press. A call with a value of the wrong type or no value is not modelled; the buttons never make one.
- A note read from storage is taken to have the `Note` fields. Stored JSON of another shape is not modelled.

## Findings

| source | as written | input that shows it | evidently intended | confidence | as-written member | corrected member |
|---|---|---|---|---|---|---|
| src/pages/NoteScreen.jsx:38 | `id: note.id \|\| Date.now()` always gives the note a truthy id, so the editor's `saveNote` replaces and never appends | a fresh draft (id `null`) titled `"a"`, clock `1000`, stored list `[]`: success is reported and the list stays `[]` | a note with an id that is not stored yet is appended | high, not executed | NoteScreen.BrandNewNoteIsNotStored | NoteScreen.SavedNoteIsStoredFixed |
| src/models/MemoCard.jsx:29-31 | the `React.memo` comparator ignores `pref`, so toggling a favourite does not re-render the card | a memo with `pref` false toggled to true: title, content and date are equal, so the grey star stays | the card re-renders whenever what it shows changes, the star included | medium, not executed | MemoCard.ToggledStarIsStale | MemoCard.PropsAreEqualFixedIff |

The editor's `HandleSave` models the code as written. The corrected save `NoteScreen.WriteListFixed` and the corrected comparator `MemoCard.PropsAreEqualFixed` stand beside it, each with its proved property.
