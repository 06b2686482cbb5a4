/**
 * One card of the home list: what it shows, the favourite star's attributes,
 * what pressing the star reports, and the `React.memo` comparator that decides
 * whether a new memo needs a re-render.
 */
module MemoCard {
  import opened Notes

  const StarOn := "#FFD700"
  const StarOff := "#CCC"

  /** The star icon's `color`, `solid` and `light` props. */
  datatype StarIcon = StarIcon(color: string, solid: bool, light: bool)

  /** What a card displays: title, star, content and date. */
  datatype Card = Card(title: string, star: StarIcon, content: string, date: string)

  function Star(memo: Note): StarIcon {
    if memo.pref then StarIcon(StarOn, true, false) else StarIcon(StarOff, false, true)
  }

  function Render(memo: Note): Card {
    Card(memo.title, Star(memo), memo.content, memo.date)
  }

  /** The id `onToggleFavorite` receives when the star is pressed. */
  function StarPressTarget(memo: Note): Id {
    memo.id
  }

  /** The star is gold and solid exactly for a favourite, grey and light otherwise. */
  lemma StarSpec(memo: Note)
    ensures Star(memo).solid == memo.pref && Star(memo).light == !memo.pref
    ensures Star(memo).color == StarOn <==> memo.pref
    ensures Star(memo).color == StarOff <==> !memo.pref
  {
  }

  /** The comparator as written: equal title, content and date mean "skip the re-render". */
  predicate PropsAreEqual(prev: Note, next: Note) {
    prev.title == next.title && prev.content == next.content && prev.date == next.date
  }

  /** The comparator is an equivalence relation, and it ignores `id` and `pref`. */
  lemma PropsAreEqualEquivalence(a: Note, b: Note, c: Note)
    ensures PropsAreEqual(a, a)
    ensures PropsAreEqual(a, b) ==> PropsAreEqual(b, a)
    ensures PropsAreEqual(a, b) && PropsAreEqual(b, c) ==> PropsAreEqual(a, c)
    ensures PropsAreEqual(a, a.(id := b.id, pref := b.pref))
  {
  }

  /** Equal props exactly when the card would show the same text. */
  lemma PropsAreEqualIff(a: Note, b: Note)
    ensures PropsAreEqual(a, b) <==>
      Render(a).title == Render(b).title && Render(a).content == Render(b).content
      && Render(a).date == Render(b).date
  {
  }

  /**
   * Toggling a favourite changes the star the card should show, yet the
   * comparator calls the two memos equal, so the card keeps the old star.
   */
  lemma ToggledStarIsStale(memo: Note)
    ensures PropsAreEqual(memo, Flip(memo))
    ensures Render(memo) != Render(Flip(memo))
  {
    assert Star(memo) != Star(Flip(memo));
  }

  /** The comparator as evidently intended: every prop the card shows, the favourite flag included. */
  predicate PropsAreEqualFixed(prev: Note, next: Note) {
    PropsAreEqual(prev, next) && prev.pref == next.pref
  }

  /** The intended comparator skips a re-render exactly when the card would look the same. */
  lemma PropsAreEqualFixedIff(a: Note, b: Note)
    ensures PropsAreEqualFixed(a, b) <==> Render(a) == Render(b)
  {
    if Render(a) == Render(b) {
      assert Star(a) == Star(b);
    }
  }

  /**
   * Pressing the star of row `i` and toggling the reported id flips that row's
   * favourite flag, so the card it should show has the other star.
   */
  lemma StarPressFlipsRow(memos: seq<Note>, i: nat)
    requires i < |memos|
    ensures ToggleById(memos, StarPressTarget(memos[i]))[i] == Flip(memos[i])
    ensures Star(ToggleById(memos, StarPressTarget(memos[i]))[i]) != Star(memos[i])
  {
  }
}
