/**
 * The home-screen widget's note list: the preference `notes_list` holds a JSON
 * array of strings `title||content||date`; each string that splits into exactly
 * three parts becomes one widget note, in array order.
 */
module NotesWidget {
  import opened Results
  import opened KotlinText

  /** The widget's `Note(title, content, date)`. */
  datatype WidgetNote = WidgetNote(title: string, content: string, date: string)

  /** One array element: a string, or a value `getString` throws a `JSONException` on. */
  datatype Element = Str(s: string) | Unreadable

  /** The preference text as `JSONArray(...)` sees it: not an array, or an array of elements. */
  datatype JsonText = Malformed | JsonArray(elements: seq<Element>)

  /** `getString("notes_list", "[]")`: a missing key reads as the empty array. */
  function NotesJson(stored: Option<JsonText>): JsonText {
    if stored.Some? then stored.value else JsonArray([])
  }

  /** The note one entry gives: its three `||`-separated parts, or nothing. */
  function EntryNote(entry: string): Option<WidgetNote> {
    var parts := Split(entry, "||");
    if |parts| == 3 then Some(WidgetNote(parts[0], parts[1], parts[2])) else None
  }

  /** The notes of the entries in `entries`, in order. */
  function NotesOf(entries: seq<string>): (r: seq<WidgetNote>)
    ensures |r| <= |entries|
  {
    if entries == [] then []
    else
      var last := EntryNote(entries[|entries| - 1]);
      NotesOf(entries[..|entries| - 1]) + (if last.Some? then [last.value] else [])
  }

  /** The strings read before the first element `getString` throws on. */
  function ReadablePrefix(elements: seq<Element>): (r: seq<string>)
    ensures |r| <= |elements|
  {
    if elements == [] || elements[0].Unreadable? then []
    else [elements[0].s] + ReadablePrefix(elements[1..])
  }

  predicate AllReadable(elements: seq<Element>) {
    forall k :: 0 <= k < |elements| ==> elements[k].Str?
  }

  /**
   * The notes the widget shows: those of the entries read before any exception;
   * text that is not an array gives none.
   */
  function WidgetNotes(stored: Option<JsonText>): seq<WidgetNote> {
    match NotesJson(stored)
    case Malformed => []
    case JsonArray(elements) => NotesOf(ReadablePrefix(elements))
  }

  // ------------------------------------------------------------ lemmas

  /** Title, content and date without a `|` come back out of the entry built from them. */
  lemma EntryRoundTrip(title: string, content: string, date: string)
    requires !HasBar(title) && !HasBar(content) && !HasBar(date)
    ensures EntryNote(title + "||" + content + "||" + date) == Some(WidgetNote(title, content, date))
  {
    var parts := [title, content, date];
    assert Join(parts[2..], "||") == date;
    assert Join(parts[1..], "||") == content + "||" + date;
    assert Join(parts, "||") == title + "||" + content + "||" + date;
    SplitJoin(parts);
  }

  /** An entry with a fourth part is dropped. */
  lemma EntryWithExtraPartDropped(a: string, b: string, c: string, d: string)
    requires !HasBar(a) && !HasBar(b) && !HasBar(c) && !HasBar(d)
    ensures EntryNote(a + "||" + b + "||" + c + "||" + d) == None
  {
    var parts := [a, b, c, d];
    assert Join(parts[3..], "||") == d;
    assert Join(parts[2..], "||") == c + "||" + d;
    assert Join(parts[1..], "||") == b + "||" + c + "||" + d;
    assert Join(parts, "||") == a + "||" + b + "||" + c + "||" + d;
    SplitJoin(parts);
  }

  /** The notes of two runs of entries are the notes of each, in order. */
  lemma {:induction false} NotesOfAppend(a: seq<string>, b: seq<string>)
    ensures NotesOf(a + b) == NotesOf(a) + NotesOf(b)
    decreases |b|
  {
    if b == [] {
      assert a + b == a;
    } else {
      var ab := a + b;
      assert ab[..|ab| - 1] == a + b[..|b| - 1];
      assert ab[|ab| - 1] == b[|b| - 1];
      NotesOfAppend(a, b[..|b| - 1]);
    }
  }

  /** Every note shown comes from some entry, with its parts in order. */
  lemma {:induction false} NotesOfFromEntries(entries: seq<string>)
    ensures forall k :: 0 <= k < |NotesOf(entries)| ==>
      exists j :: 0 <= j < |entries| && EntryNote(entries[j]) == Some(NotesOf(entries)[k])
    decreases |entries|
  {
    if entries == [] {
      assert NotesOf(entries) == [];
    } else {
      var init := entries[..|entries| - 1];
      NotesOfFromEntries(init);
      var r := NotesOf(entries);
      var last := EntryNote(entries[|entries| - 1]);
      assert r == NotesOf(init) + (if last.Some? then [last.value] else []);
      forall k | 0 <= k < |r|
        ensures exists j :: 0 <= j < |entries| && EntryNote(entries[j]) == Some(r[k])
      {
        if k < |NotesOf(init)| {
          var j :| 0 <= j < |init| && EntryNote(init[j]) == Some(NotesOf(init)[k]);
          assert entries[j] == init[j] && r[k] == NotesOf(init)[k];
        } else {
          assert last == Some(r[k]);
          assert EntryNote(entries[|entries| - 1]) == Some(r[k]);
        }
      }
    }
  }

  /** When every entry is well formed, there is one note per entry, in order. */
  lemma {:induction false} NotesOfAllKept(entries: seq<string>)
    requires forall k :: 0 <= k < |entries| ==> EntryNote(entries[k]).Some?
    ensures |NotesOf(entries)| == |entries|
    ensures forall k :: 0 <= k < |entries| ==> Some(NotesOf(entries)[k]) == EntryNote(entries[k])
    decreases |entries|
  {
    if entries != [] {
      NotesOfAllKept(entries[..|entries| - 1]);
    }
  }

  /** A missing key and text that is not an array both show no notes. */
  lemma NoNotesWithoutArray()
    ensures WidgetNotes(None) == []
    ensures WidgetNotes(Some(Malformed)) == []
  {
  }

  /** All-readable elements: the readable prefix is every string, in order. */
  lemma {:induction false} ReadablePrefixAll(elements: seq<Element>)
    requires AllReadable(elements)
    ensures |ReadablePrefix(elements)| == |elements|
    ensures forall k :: 0 <= k < |elements| ==> ReadablePrefix(elements)[k] == elements[k].s
  {
    if elements != [] {
      ReadablePrefixAll(elements[1..]);
    }
  }

  lemma {:induction false} ReadablePrefixAppend(a: seq<Element>, b: seq<Element>)
    requires AllReadable(a)
    ensures ReadablePrefix(a + b) == ReadablePrefix(a) + ReadablePrefix(b)
  {
    if a != [] {
      assert (a + b)[1..] == a[1..] + b;
      ReadablePrefixAppend(a[1..], b);
    } else {
      assert a + b == b;
    }
  }

  /** The readable prefix ends at the first unreadable element. */
  lemma ReadablePrefixStops(a: seq<Element>, b: seq<Element>)
    requires AllReadable(a)
    ensures ReadablePrefix(a + [Unreadable] + b) == ReadablePrefix(a)
  {
    var rest: seq<Element> := [Unreadable] + b;
    assert ReadablePrefix(rest) == [];
    ReadablePrefixAppend(a, rest);
    assert a + [Unreadable] + b == a + rest;
  }

  /**
   * An exception at one element ends the loop but keeps the notes read before it:
   * what follows the failing element is never shown.
   */
  lemma ExceptionKeepsEarlierNotes(a: seq<Element>, b: seq<Element>)
    requires AllReadable(a)
    ensures WidgetNotes(Some(JsonArray(a + [Unreadable] + b))) == NotesOf(ReadablePrefix(a))
  {
    ReadablePrefixStops(a, b);
  }

  /** One more readable element adds the note of its entry, if it has one. */
  lemma ReadableStep(elements: seq<Element>, i: nat)
    requires i < |elements| && elements[i].Str? && AllReadable(elements[..i])
    ensures AllReadable(elements[..i + 1])
    ensures var last := EntryNote(elements[i].s);
      NotesOf(ReadablePrefix(elements[..i + 1]))
      == NotesOf(ReadablePrefix(elements[..i])) + (if last.Some? then [last.value] else [])
  {
    var a := elements[..i];
    assert elements[..i + 1] == a + [elements[i]];
    ReadablePrefixAppend(a, [elements[i]]);
    var entries := ReadablePrefix(elements[..i + 1]);
    assert entries == ReadablePrefix(a) + [elements[i].s];
    assert entries[..|entries| - 1] == ReadablePrefix(a);
  }

  /** Where the loop stops (the end, or the first unreadable element) the readable prefix is complete. */
  lemma ReadablePrefixAt(elements: seq<Element>, i: nat)
    requires i <= |elements| && AllReadable(elements[..i])
    requires i < |elements| ==> elements[i].Unreadable?
    ensures ReadablePrefix(elements) == ReadablePrefix(elements[..i])
  {
    var rest := elements[i..];
    assert rest != [] ==> rest[0].Unreadable?;
    assert ReadablePrefix(rest) == [];
    ReadablePrefixAppend(elements[..i], rest);
    assert elements[..i] + rest == elements;
  }

  /**
   * The entry-parsing loop of `updateAppWidget`: parse the array, add the note
   * of every three-part entry, and stop at the first `JSONException`, keeping
   * what was added so far.
   */
  method LoadWidgetNotes(stored: Option<JsonText>) returns (notes: seq<WidgetNote>)
    ensures notes == WidgetNotes(stored)
  {
    var notesJson := if stored.Some? then stored.value else JsonArray([]);
    notes := [];
    if notesJson.Malformed? {
      return;
    }
    var elements := notesJson.elements;
    var i := 0;
    // `getString` throwing at element i ends the loop: the catch keeps `notes`.
    while i < |elements| && elements[i].Str?
      invariant 0 <= i <= |elements|
      invariant AllReadable(elements[..i])
      invariant notes == NotesOf(ReadablePrefix(elements[..i]))
    {
      var parts := Split(elements[i].s, "||");
      assert EntryNote(elements[i].s) == if |parts| == 3 then Some(WidgetNote(parts[0], parts[1], parts[2])) else None;
      if |parts| == 3 {
        notes := notes + [WidgetNote(parts[0], parts[1], parts[2])];
      }
      ReadableStep(elements, i);
      i := i + 1;
    }
    ReadablePrefixAt(elements, i);
    assert NotesJson(stored) == notesJson;
  }
}
