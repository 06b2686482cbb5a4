/**
 * The note editor: the draft it holds, the save button's validation and the
 * note it builds from the draft, the editor's own write to the key `'notes'`,
 * and the dictation handler that appends recognised speech to the content.
 */
module NoteScreen {
  import opened Results
  import opened JsText
  import opened Notes
  import opened NoteServices

  /** The category a fresh draft carries before the user picks one. */
  const DefaultCategory := "Catégorie"

  /** `!note.title.trim()`: the title is empty once trimmed. */
  predicate TitleMissing(draft: Note) {
    Trim(draft.title) == ""
  }

  /**
   * `noteToSave`: the draft with its truthy id kept (otherwise the clock value
   * `now`) and its title and content trimmed.
   */
  function NoteToSave(draft: Note, now: int): Note {
    draft.(id := if Truthy(draft.id) then draft.id else Num(now),
           title := Trim(draft.title),
           content := Trim(draft.content))
  }

  /**
   * The note to save carries the draft's truthy id or the clock value, the trimmed
   * title and content, and the draft's category, date and favourite flag; with any
   * clock value but 0 its id is truthy.
   */
  lemma NoteToSaveSpec(draft: Note, now: int)
    ensures var n := NoteToSave(draft, now);
      && (Truthy(draft.id) ==> n.id == draft.id)
      && (!Truthy(draft.id) ==> n.id == Num(now))
      && n.title == Trim(draft.title) && n.content == Trim(draft.content)
      && Trim(n.title) == n.title && Trim(n.content) == n.content
      && n.category == draft.category && n.date == draft.date && n.pref == draft.pref
      && (now != 0 ==> Truthy(n.id))
  {
    TrimIdempotent(draft.title);
    TrimIdempotent(draft.content);
  }

  /** A note that passed validation keeps a non-empty title after trimming. */
  lemma SavedTitleNotBlank(draft: Note, now: int)
    requires !TitleMissing(draft)
    ensures NoteToSave(draft, now).title != "" && !AllSpace(NoteToSave(draft, now).title)
  {
    TrimEmptyIff(NoteToSave(draft, now).title);
    TrimIdempotent(draft.title);
  }

  /**
   * The editor's own read of `'notes'`: unlike `getNotes` it does not catch, so a
   * failed read or unparseable text is an error for the save button to report.
   */
  function ReadNotes(slot: Slot, readOk: bool): Result<seq<Note>> {
    if !readOk then Err(ReadFailed)
    else match slot
      case Absent => Ok([])
      case Unparseable => Err(ParseFailed)
      case Stored(ns) => Ok(ns)
  }

  /** The list the editor's `saveNote` writes: replace when the id is truthy, else append. */
  function WriteList(notes: seq<Note>, noteToSave: Note): seq<Note> {
    if Truthy(noteToSave.id) then ReplaceById(notes, noteToSave) else notes + [noteToSave]
  }

  /**
   * The note built by the save button always has a truthy id (the clock is never 0),
   * so the editor never takes its append branch: the list keeps its length.
   */
  lemma SaveNeverAppends(notes: seq<Note>, draft: Note, now: int)
    requires now != 0
    ensures WriteList(notes, NoteToSave(draft, now)) == ReplaceById(notes, NoteToSave(draft, now))
    ensures |WriteList(notes, NoteToSave(draft, now))| == |notes|
  {
    var n := NoteToSave(draft, now);
    assert n.id == if Truthy(draft.id) then draft.id else Num(now);
    assert Truthy(n.id);
  }

  /**
   * A brand-new draft gets the clock value as its id, which no stored note has, so
   * saving it leaves the stored list exactly as it was: the new note is not stored.
   */
  lemma BrandNewNoteIsNotStored(notes: seq<Note>, draft: Note, now: int)
    requires now != 0 && !Truthy(draft.id) && !HasId(notes, Num(now))
    ensures WriteList(notes, NoteToSave(draft, now)) == notes
    ensures NoteToSave(draft, now) !in WriteList(notes, NoteToSave(draft, now))
  {
    var n := NoteToSave(draft, now);
    assert n.id == Num(now);
    ReplaceAbsent(notes, n);
  }

  /** The save as evidently intended: replace the note with the same id, or append it when there is none. */
  function WriteListFixed(notes: seq<Note>, noteToSave: Note): seq<Note> {
    if HasId(notes, noteToSave.id) then ReplaceById(notes, noteToSave) else notes + [noteToSave]
  }

  /**
   * With the intended save, the saved note is in the list afterwards; an existing
   * note is replaced in place as before, and a new note is appended.
   */
  lemma SavedNoteIsStoredFixed(notes: seq<Note>, noteToSave: Note)
    ensures noteToSave in WriteListFixed(notes, noteToSave)
    ensures HasId(notes, noteToSave.id) && Truthy(noteToSave.id) ==>
      WriteListFixed(notes, noteToSave) == WriteList(notes, noteToSave)
    ensures !HasId(notes, noteToSave.id) ==> WriteListFixed(notes, noteToSave) == notes + [noteToSave]
  {
    if HasId(notes, noteToSave.id) {
      ReplacePresent(notes, noteToSave);
    } else {
      assert (notes + [noteToSave])[|notes|] == noteToSave;
    }
  }

  /** `handleSpeechResult`: the spoken text, after a space when there is already content. */
  function AppendSpeech(content: string, spoken: string): string {
    content + (if content != "" then " " else "") + spoken
  }

  /**
   * Dictation never overwrites: the old content is a prefix of the new one and the
   * spoken text its suffix, separated by one space exactly when there was content.
   */
  lemma AppendSpeechSpec(content: string, spoken: string)
    ensures var r := AppendSpeech(content, spoken);
      && r[..|content|] == content
      && r[|r| - |spoken|..] == spoken
      && (content == "" ==> r == spoken)
      && (content != "" ==> r == content + " " + spoken && |r| == |content| + 1 + |spoken|)
  {
  }

  /** What the save button leads to: the alert it shows. */
  datatype SaveOutcome =
    | TitleRequired  // 'Titre requis': nothing is written
    | Saved          // 'Succès', then back to the home page
    | SaveFailed     // 'Erreur': the read, parse or write threw

  /** The editor screen's state. */
  class NoteEditor {
    var note: Note
    var isRecorderVisible: bool

    /** A fresh draft: no id, empty title and content, the default category, `today`'s date. */
    constructor(today: string)
      ensures note == Note(Null, "", "", DefaultCategory, today, false)
      ensures !Truthy(note.id) && TitleMissing(note)
      ensures !isRecorderVisible
    {
      note := Note(Null, "", "", DefaultCategory, today, false);
      isRecorderVisible := false;
    }

    /** Typing in the title field. */
    method SetTitle(text: string)
      modifies this
      ensures note == old(note).(title := text) && isRecorderVisible == old(isRecorderVisible)
    {
      note := note.(title := text);
    }

    /** Typing in the content field. */
    method SetContent(text: string)
      modifies this
      ensures note == old(note).(content := text) && isRecorderVisible == old(isRecorderVisible)
    {
      note := note.(content := text);
    }

    /** `handleVoicePress`: show or hide the voice recorder. */
    method HandleVoicePress()
      modifies this
      ensures isRecorderVisible == !old(isRecorderVisible) && note == old(note)
    {
      isRecorderVisible := !isRecorderVisible;
    }

    /** `handleSpeechResult`: append the recognised text to the draft's content. */
    method HandleSpeechResult(spoken: string)
      modifies this
      ensures note == old(note).(content := AppendSpeech(old(note.content), spoken))
      ensures isRecorderVisible == old(isRecorderVisible)
    {
      note := note.(content := note.content + (if note.content != "" then " " else "") + spoken);
    }

    /**
     * The editor's `saveNote`: read `'notes'`, replace or append `noteToSave`, and
     * write the list back; a failed read, parse or write is returned as the error.
     */
    method SaveNote(store: NoteStore, noteToSave: Note, readOk: bool, writeOk: bool)
      returns (failure: Option<StorageError>)
      modifies store
      ensures ReadNotes(old(store.slot), readOk).Err? ==>
        failure == Some(ReadNotes(old(store.slot), readOk).error) && store.slot == old(store.slot)
      ensures ReadNotes(old(store.slot), readOk).Ok? && !writeOk ==>
        failure == Some(WriteFailed) && store.slot == old(store.slot)
      ensures ReadNotes(old(store.slot), readOk).Ok? && writeOk ==>
        failure == None && store.slot == Stored(WriteList(ReadNotes(old(store.slot), readOk).value, noteToSave))
    {
      var existing := ReadNotes(store.slot, readOk);
      if existing.Err? {
        return Some(existing.error);
      }
      var notes := existing.value;
      if Truthy(noteToSave.id) {
        notes := ReplaceById(notes, noteToSave);
      } else {
        notes := notes + [noteToSave];
      }
      if writeOk {
        store.slot := Stored(notes);
        failure := None;
      } else {
        failure := Some(WriteFailed);
      }
    }

    /**
     * `handleSave`: a blank title is refused before anything is read or written;
     * otherwise the trimmed note with its id is saved, and any storage error is
     * reported. The draft itself is not changed.
     */
    method HandleSave(store: NoteStore, now: int, readOk: bool, writeOk: bool) returns (outcome: SaveOutcome)
      modifies store
      ensures TitleMissing(note) ==> outcome == TitleRequired && store.slot == old(store.slot)
      ensures !TitleMissing(note) && ReadNotes(old(store.slot), readOk).Ok? && writeOk ==>
        outcome == Saved
        && store.slot == Stored(WriteList(ReadNotes(old(store.slot), readOk).value, NoteToSave(note, now)))
      ensures !TitleMissing(note) && !(ReadNotes(old(store.slot), readOk).Ok? && writeOk) ==>
        outcome == SaveFailed && store.slot == old(store.slot)
    {
      if Trim(note.title) == "" {
        return TitleRequired;
      }
      var noteToSave := NoteToSave(note, now);
      var failure := SaveNote(store, noteToSave, readOk, writeOk);
      outcome := if failure.None? then Saved else SaveFailed;
    }
  }

  /**
   * Saving a fresh draft through the editor, with every storage call succeeding,
   * reports success but leaves the stored list unchanged.
   */
  method SaveFreshDraft(store: NoteStore, today: string, title: string, now: int) returns (outcome: SaveOutcome)
    requires now != 0 && Trim(title) != ""
    requires store.slot.Stored? && !HasId(store.slot.notes, Num(now))
    modifies store
    ensures outcome == Saved
    ensures store.slot == old(store.slot)
  {
    var notes := store.slot.notes;
    var editor := new NoteEditor(today);
    editor.SetTitle(title);
    var draft := editor.note;
    assert !TitleMissing(draft) && !Truthy(draft.id);
    assert ReadNotes(store.slot, true) == Ok(notes);
    BrandNewNoteIsNotStored(notes, draft, now);
    outcome := editor.HandleSave(store, now, true, true);
  }
}
