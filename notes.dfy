/**
 * The note record and the three whole-list updates the app performs on it:
 * replace-by-id (`notes.map(n => n.id === note.id ? note : n)`), delete-by-id
 * (`notes.filter(n => n.id !== id)`) and toggle-favourite-by-id
 * (`notes.map(n => n.id === id ? {...n, pref: !n.pref} : n)`).
 */
module Notes {
  import opened Seqs

  /** A note id as JavaScript holds it: `null`, or a number (a `Date.now()` timestamp). */
  datatype Id = Null | Num(value: int)

  /** JavaScript truthiness of an id: `null` and `0` are falsy. */
  predicate Truthy(id: Id) {
    id.Num? && id.value != 0
  }

  /** One stored note; `pref` is the favourite flag. */
  datatype Note = Note(id: Id, title: string, content: string, category: string, date: string, pref: bool)

  /** The note with its favourite flag inverted: `{...n, pref: !n.pref}`. */
  function Flip(n: Note): Note {
    n.(pref := !n.pref)
  }

  predicate HasId(ns: seq<Note>, id: Id) {
    exists i :: 0 <= i < |ns| && ns[i].id == id
  }

  /** The invariant the store is meant to keep: no two notes share an id. */
  predicate UniqueIds(ns: seq<Note>) {
    forall i, j :: 0 <= i < j < |ns| ==> ns[i].id != ns[j].id
  }

  /** Every note whose id is strictly equal to `note.id` becomes `note`. */
  function ReplaceById(ns: seq<Note>, note: Note): (r: seq<Note>)
    ensures |r| == |ns|
    ensures forall i :: 0 <= i < |ns| ==> r[i] == if ns[i].id == note.id then note else ns[i]
  {
    if ns == [] then []
    else [if ns[0].id == note.id then note else ns[0]] + ReplaceById(ns[1..], note)
  }

  /** The filter callback `n => n.id !== id`. */
  function OtherThan(id: Id): Note -> bool {
    (n: Note) => n.id != id
  }

  /** The notes whose id is not strictly equal to `id`. */
  function RemoveById(ns: seq<Note>, id: Id): seq<Note> {
    Filter(OtherThan(id), ns)
  }

  /** Every note whose id is strictly equal to `id` has its favourite flag inverted. */
  function ToggleById(ns: seq<Note>, id: Id): (r: seq<Note>)
    ensures |r| == |ns|
    ensures forall i :: 0 <= i < |ns| ==> r[i] == if ns[i].id == id then Flip(ns[i]) else ns[i]
  {
    if ns == [] then []
    else [if ns[0].id == id then Flip(ns[0]) else ns[0]] + ToggleById(ns[1..], id)
  }

  // ------------------------------------------------------ replace by id

  /** Replacing keeps every position's id, so it keeps ids unique. */
  lemma ReplaceKeepsIds(ns: seq<Note>, note: Note)
    ensures forall i :: 0 <= i < |ns| ==> ReplaceById(ns, note)[i].id == ns[i].id
    ensures UniqueIds(ns) ==> UniqueIds(ReplaceById(ns, note))
  {
  }

  /** An id that is not stored matches nothing: the list comes back unchanged. */
  lemma ReplaceAbsent(ns: seq<Note>, note: Note)
    requires !HasId(ns, note.id)
    ensures ReplaceById(ns, note) == ns
  {
    assert forall i :: 0 <= i < |ns| ==> ns[i].id != note.id;
  }

  /** A stored id ends up holding `note`: the saved note can be found in the list. */
  lemma ReplacePresent(ns: seq<Note>, note: Note)
    requires HasId(ns, note.id)
    ensures note in ReplaceById(ns, note)
  {
    var i :| 0 <= i < |ns| && ns[i].id == note.id;
    assert ReplaceById(ns, note)[i] == note;
  }

  // ------------------------------------------------------- remove by id

  /**
   * Deleting removes every note with the id and keeps every other note, each as
   * many times as it occurred, in its original relative order.
   */
  lemma RemoveSpec(ns: seq<Note>, id: Id)
    ensures !HasId(RemoveById(ns, id), id)
    ensures forall i :: 0 <= i < |ns| && ns[i].id != id ==> ns[i] in RemoveById(ns, id)
    ensures forall n: Note :: n.id != id ==> multiset(RemoveById(ns, id))[n] == multiset(ns)[n]
    ensures IsSubsequence(RemoveById(ns, id), ns)
  {
    FilterIsSubsequence(OtherThan(id), ns);
    forall n: Note | n.id != id ensures multiset(RemoveById(ns, id))[n] == multiset(ns)[n] {
      FilterMultiplicity(OtherThan(id), ns, n);
    }
  }

  /** Deleting an id that is not stored changes nothing. */
  lemma RemoveAbsent(ns: seq<Note>, id: Id)
    requires !HasId(ns, id)
    ensures RemoveById(ns, id) == ns
  {
    FilterAllPass(OtherThan(id), ns);
  }

  /** Deleting the same id twice is deleting it once. */
  lemma RemoveIdempotent(ns: seq<Note>, id: Id)
    ensures RemoveById(RemoveById(ns, id), id) == RemoveById(ns, id)
  {
    FilterIdempotent(OtherThan(id), ns);
  }

  /** Deleting keeps the remaining ids unique. */
  lemma {:induction false} RemoveKeepsUniqueIds(ns: seq<Note>, id: Id)
    requires UniqueIds(ns)
    ensures UniqueIds(RemoveById(ns, id))
  {
    if ns != [] {
      RemoveKeepsUniqueIds(ns[1..], id);
      var rest := RemoveById(ns[1..], id);
      assert forall k :: 0 <= k < |rest| ==> rest[k] in ns[1..];
      assert forall k :: 0 <= k < |ns[1..]| ==> ns[1..][k].id != ns[0].id;
    }
  }

  // ------------------------------------------------------ toggle by id

  /** Toggling the same id twice restores the list. */
  lemma ToggleTwice(ns: seq<Note>, id: Id)
    ensures ToggleById(ToggleById(ns, id), id) == ns
  {
    var once := ToggleById(ns, id);
    assert forall i :: 0 <= i < |ns| ==> once[i].id == ns[i].id;
  }

  /** Toggling changes the favourite flag only: every other field of every note stays. */
  lemma ToggleOnlyFlipsPref(ns: seq<Note>, id: Id)
    ensures forall i :: 0 <= i < |ns| ==>
      ToggleById(ns, id)[i].(pref := ns[i].pref) == ns[i]
      && (ToggleById(ns, id)[i].pref != ns[i].pref <==> ns[i].id == id)
    ensures UniqueIds(ns) ==> UniqueIds(ToggleById(ns, id))
  {
  }

  /** Toggles of two ids commute: neither loses the other's flip. */
  lemma ToggleCommutes(ns: seq<Note>, a: Id, b: Id)
    ensures ToggleById(ToggleById(ns, a), b) == ToggleById(ToggleById(ns, b), a)
  {
  }

  /**
   * Saving a whole note replaces a toggle made in between: the favourite flag
   * the list ends with is the one the saved copy carried.
   */
  lemma SaveOverwritesToggle(ns: seq<Note>, note: Note)
    ensures ReplaceById(ToggleById(ns, note.id), note) == ReplaceById(ns, note)
  {
  }
}
