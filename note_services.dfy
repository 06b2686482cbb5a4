/**
 * `NoteServices`: the read-modify-write operations on the note list kept under
 * the storage key `'notes'`. The key's value is held in one field of a
 * `NoteStore`; whether a storage call succeeds is an input of each operation.
 */
module NoteServices {
  import opened Results
  import opened Seqs
  import opened Notes

  /**
   * What the key `'notes'` holds: nothing (`null`, or the empty string, which is
   * falsy too), text that `JSON.parse` rejects, or the JSON of a note list.
   */
  datatype Slot = Absent | Unparseable | Stored(notes: seq<Note>)

  /**
   * `getNotes`: the stored list, and the empty list when nothing is stored or
   * when reading or parsing fails (the failure is logged and swallowed).
   */
  function LoadNotes(slot: Slot, readOk: bool): seq<Note> {
    if readOk && slot.Stored? then slot.notes else []
  }

  /** The note `saveNote` hands back: its own id if truthy, else the clock value `now`. */
  function AssignId(note: Note, now: int): Note {
    if Truthy(note.id) then note else note.(id := Num(now))
  }

  /**
   * The list `saveNote` writes: with a truthy id every note with that id is
   * replaced, otherwise the note, given the id `now`, is appended.
   */
  function Upsert(notes: seq<Note>, note: Note, now: int): seq<Note> {
    if Truthy(note.id) then ReplaceById(notes, note) else notes + [AssignId(note, now)]
  }

  /** With a truthy id, saving keeps length and positions and puts `note` at its id. */
  lemma UpsertExisting(notes: seq<Note>, note: Note, now: int)
    requires Truthy(note.id)
    ensures var r := Upsert(notes, note, now);
      |r| == |notes| && AssignId(note, now) == note
      && forall i :: 0 <= i < |notes| ==> r[i] == if notes[i].id == note.id then note else notes[i]
  {
  }

  /** With a truthy id that is not stored, saving leaves the list as it was. */
  lemma UpsertUnknownId(notes: seq<Note>, note: Note, now: int)
    requires Truthy(note.id) && !HasId(notes, note.id)
    ensures Upsert(notes, note, now) == notes
  {
    ReplaceAbsent(notes, note);
  }

  /** Without a truthy id, saving appends the note carrying the id `now` and returns it. */
  lemma UpsertNew(notes: seq<Note>, note: Note, now: int)
    requires !Truthy(note.id)
    ensures AssignId(note, now).id == Num(now)
    ensures AssignId(note, now).(id := note.id) == note
    ensures Upsert(notes, note, now) == notes + [AssignId(note, now)]
  {
  }

  /**
   * Saving keeps ids unique as long as a new note's clock value is not already
   * the id of a stored note.
   */
  lemma UpsertKeepsUniqueIds(notes: seq<Note>, note: Note, now: int)
    requires UniqueIds(notes)
    requires !Truthy(note.id) ==> !HasId(notes, Num(now))
    ensures UniqueIds(Upsert(notes, note, now))
  {
    if Truthy(note.id) {
      ReplaceKeepsIds(notes, note);
    } else {
      var r := Upsert(notes, note, now);
      assert forall i :: 0 <= i < |notes| ==> r[i] == notes[i];
    }
  }

  /**
   * The note `saveNote` returns is in the list it writes exactly when it is new
   * or its id is stored already: a truthy id that matches nothing is lost.
   */
  lemma UpsertStoresIff(notes: seq<Note>, note: Note, now: int)
    ensures AssignId(note, now) in Upsert(notes, note, now) <==> !Truthy(note.id) || HasId(notes, note.id)
  {
    var saved := AssignId(note, now);
    if !Truthy(note.id) {
      assert Upsert(notes, note, now)[|notes|] == saved;
    } else if HasId(notes, note.id) {
      ReplacePresent(notes, note);
    } else {
      ReplaceAbsent(notes, note);
    }
  }

  /**
   * A list that does not parse is read as empty, so the next save replaces it
   * by the saved note alone: everything that was stored is lost.
   */
  lemma SaveOverCorruptList(note: Note, now: int)
    requires !Truthy(note.id)
    ensures Upsert(LoadNotes(Unparseable, true), note, now) == [AssignId(note, now)]
  {
  }

  /** The storage key `'notes'` as the services see it. */
  class NoteStore {
    var slot: Slot

    constructor(initial: Slot)
      ensures slot == initial
    {
      slot := initial;
    }

    /** `getNotes`: never fails; `readOk` says whether `AsyncStorage.getItem` succeeded. */
    method GetNotes(readOk: bool) returns (notes: seq<Note>)
      ensures readOk && slot.Stored? ==> notes == slot.notes
      ensures !readOk || !slot.Stored? ==> notes == []
    {
      if readOk {
        match slot
        case Stored(ns) => notes := ns;
        case Absent => notes := [];
        case Unparseable => notes := [];
      } else {
        notes := [];
      }
    }

    /**
     * `saveNote`: read the list, replace or append, write it back and return the
     * note with its id. A rejected write rethrows and leaves the key as it was.
     */
    method SaveNote(note: Note, now: int, readOk: bool, writeOk: bool) returns (r: Result<Note>)
      modifies this
      ensures writeOk ==>
        r == Ok(AssignId(note, now)) && slot == Stored(Upsert(LoadNotes(old(slot), readOk), note, now))
      ensures !writeOk ==> r == Err(WriteFailed) && slot == old(slot)
    {
      var notes := GetNotes(readOk);
      var saved := note;
      var updatedNotes;
      if Truthy(note.id) {
        updatedNotes := ReplaceById(notes, note);
      } else {
        saved := note.(id := Num(now));
        updatedNotes := notes + [saved];
      }
      if writeOk {
        slot := Stored(updatedNotes);
        r := Ok(saved);
      } else {
        r := Err(WriteFailed);
      }
    }

    /** `deleteNote`: write back the list without the notes whose id is `id`, and return it. */
    method DeleteNote(id: Id, readOk: bool, writeOk: bool) returns (r: Result<seq<Note>>)
      modifies this
      ensures writeOk ==> r == Ok(RemoveById(LoadNotes(old(slot), readOk), id)) && slot == Stored(r.value)
      ensures !writeOk ==> r == Err(WriteFailed) && slot == old(slot)
    {
      var notes := GetNotes(readOk);
      var updatedNotes := RemoveById(notes, id);
      if writeOk {
        slot := Stored(updatedNotes);
        r := Ok(updatedNotes);
      } else {
        r := Err(WriteFailed);
      }
    }

    /** `toggleFavorite`: write back the list with the favourite flag of `id` inverted, and return it. */
    method ToggleFavorite(id: Id, readOk: bool, writeOk: bool) returns (r: Result<seq<Note>>)
      modifies this
      ensures writeOk ==> r == Ok(ToggleById(LoadNotes(old(slot), readOk), id)) && slot == Stored(r.value)
      ensures !writeOk ==> r == Err(WriteFailed) && slot == old(slot)
    {
      var notes := GetNotes(readOk);
      var updatedNotes := ToggleById(notes, id);
      if writeOk {
        slot := Stored(updatedNotes);
        r := Ok(updatedNotes);
      } else {
        r := Err(WriteFailed);
      }
    }
  }

  /**
   * What `saveNote` writes is what the next `getNotes` reads: the list with the
   * note saved into it, holding the returned note whenever that note is new or
   * its id was stored.
   */
  method SaveThenGet(store: NoteStore, note: Note, now: int) returns (saved: Result<Note>, notes: seq<Note>)
    modifies store
    ensures saved == Ok(AssignId(note, now))
    ensures notes == Upsert(LoadNotes(old(store.slot), true), note, now)
    ensures !Truthy(note.id) || HasId(LoadNotes(old(store.slot), true), note.id) ==> saved.value in notes
  {
    saved := store.SaveNote(note, now, true, true);
    notes := store.GetNotes(true);
    UpsertStoresIff(LoadNotes(old(store.slot), true), note, now);
  }

  /** After `deleteNote`, the next `getNotes` finds no note with the deleted id. */
  method DeleteThenGet(store: NoteStore, id: Id) returns (notes: seq<Note>)
    modifies store
    ensures notes == RemoveById(LoadNotes(old(store.slot), true), id)
    ensures !HasId(notes, id)
  {
    var deleted := store.DeleteNote(id, true, true);
    notes := store.GetNotes(true);
    RemoveSpec(LoadNotes(old(store.slot), true), id);
  }

  /** Deleting twice in a row leaves the key as the first deletion left it. */
  method DeleteTwice(store: NoteStore, id: Id)
    modifies store
    ensures store.slot == Stored(RemoveById(LoadNotes(old(store.slot), true), id))
  {
    var first := store.DeleteNote(id, true, true);
    var second := store.DeleteNote(id, true, true);
    RemoveIdempotent(LoadNotes(old(store.slot), true), id);
  }

  /** Toggling twice in a row restores the list that was read first. */
  method ToggleFavoriteTwice(store: NoteStore, id: Id)
    modifies store
    ensures store.slot == Stored(LoadNotes(old(store.slot), true))
  {
    var first := store.ToggleFavorite(id, true, true);
    var second := store.ToggleFavorite(id, true, true);
    ToggleTwice(LoadNotes(old(store.slot), true), id);
  }
}
