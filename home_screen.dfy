/**
 * The home screen: the memo list it keeps under its own storage key `'memos'`,
 * the category and search filters over it, the category menu derived from it,
 * and the favourite, swipe-to-delete and trash-button handlers that update it.
 */
module HomeScreen {
  import opened Seqs
  import opened JsText
  import opened Notes

  /** The category sentinel under which every memo is listed. */
  const AllMemos := "Tous les mémos"

  // ------------------------------------------------------------ the query

  /** The filter callback `memo => memo.category === selectedCategory`. */
  function InCategory(selected: string): Note -> bool {
    (m: Note) => m.category == selected
  }

  /** The search callback: the lower-cased title or content includes the lower-cased search. */
  function MatchesSearch(search: string): Note -> bool {
    (m: Note) => Includes(ToLower(m.title), ToLower(search)) || Includes(ToLower(m.content), ToLower(search))
  }

  /** `filteredMemos`: the category filter, then the search filter when the search is non-empty. */
  function FilteredMemos(memos: seq<Note>, selected: string, search: string): seq<Note> {
    var byCategory := if selected == AllMemos then memos else Filter(InCategory(selected), memos);
    if search != "" then Filter(MatchesSearch(search), byCategory) else byCategory
  }

  /**
   * Whether a memo is listed, stated without the scanning algorithm: its category
   * is the selected one (or the sentinel is selected), and the search is empty or
   * occurs in the lower-cased title or content.
   */
  ghost predicate Listed(m: Note, selected: string, search: string) {
    CategoryOk(selected)(m) && SearchOk(search)(m)
  }

  ghost function ListedBy(selected: string, search: string): Note -> bool {
    (m: Note) => Listed(m, selected, search)
  }

  function CategoryOk(selected: string): Note -> bool {
    (m: Note) => selected == AllMemos || m.category == selected
  }

  ghost function SearchOk(search: string): Note -> bool {
    (m: Note) => search == "" || Occurs(ToLower(search), ToLower(m.title)) || Occurs(ToLower(search), ToLower(m.content))
  }

  lemma CategoryStage(memos: seq<Note>, selected: string)
    ensures (if selected == AllMemos then memos else Filter(InCategory(selected), memos))
      == Filter(CategoryOk(selected), memos)
  {
    if selected == AllMemos {
      FilterAllPass(CategoryOk(selected), memos);
    } else {
      FilterCongruent(InCategory(selected), CategoryOk(selected), memos);
    }
  }

  lemma SearchStage(xs: seq<Note>, search: string)
    ensures (if search != "" then Filter(MatchesSearch(search), xs) else xs) == Filter(SearchOk(search), xs)
  {
    if search != "" {
      forall i | 0 <= i < |xs| ensures MatchesSearch(search)(xs[i]) == SearchOk(search)(xs[i]) {
        IncludesIff(ToLower(xs[i].title), ToLower(search));
        IncludesIff(ToLower(xs[i].content), ToLower(search));
      }
      FilterCongruent(MatchesSearch(search), SearchOk(search), xs);
    } else {
      FilterAllPass(SearchOk(search), xs);
    }
  }

  /**
   * The query keeps exactly the listed memos, in their original order: it is the
   * single filter by `Listed`.
   */
  lemma FilteredMemosSpec(memos: seq<Note>, selected: string, search: string)
    ensures FilteredMemos(memos, selected, search) == Filter(ListedBy(selected, search), memos)
  {
    var byCategory := Filter(CategoryOk(selected), memos);
    CategoryStage(memos, selected);
    SearchStage(byCategory, search);
    assert FilteredMemos(memos, selected, search) == Filter(SearchOk(search), byCategory);
    FilterCompose(CategoryOk(selected), SearchOk(search), ListedBy(selected, search), memos);
  }

  /** The query is an order-preserving subsequence of the memos, of exactly the listed ones. */
  lemma FilteredMemosSubsequence(memos: seq<Note>, selected: string, search: string)
    ensures IsSubsequence(FilteredMemos(memos, selected, search), memos)
    ensures forall i :: 0 <= i < |memos| ==>
      (memos[i] in FilteredMemos(memos, selected, search) <==> Listed(memos[i], selected, search))
  {
    FilteredMemosSpec(memos, selected, search);
    FilterIsSubsequence(ListedBy(selected, search), memos);
  }

  /** The sentinel with an empty search lists every memo, unchanged and in order. */
  lemma NoFilterListsAll(memos: seq<Note>)
    ensures FilteredMemos(memos, AllMemos, "") == memos
  {
  }

  /** An empty search filters nothing beyond the category. */
  lemma EmptySearchIsCategoryOnly(memos: seq<Note>, selected: string)
    requires selected != AllMemos
    ensures FilteredMemos(memos, selected, "") == Filter(InCategory(selected), memos)
  {
  }

  /** The search ignores letter case on both sides. */
  lemma SearchIgnoresCase(memos: seq<Note>, selected: string, search: string)
    ensures FilteredMemos(memos, selected, ToLower(search)) == FilteredMemos(memos, selected, search)
  {
    ToLowerIdempotent(search);
    assert (search == "") == (ToLower(search) == "");
    var byCategory := if selected == AllMemos then memos else Filter(InCategory(selected), memos);
    FilterCongruent(MatchesSearch(ToLower(search)), MatchesSearch(search), byCategory);
  }

  // ------------------------------------------------------ category menu

  function CategoriesOf(memos: seq<Note>): (r: seq<string>)
    ensures |r| == |memos| && forall i :: 0 <= i < |memos| ==> r[i] == memos[i].category
  {
    if memos == [] then [] else [memos[0].category] + CategoriesOf(memos[1..])
  }

  /** `[...new Set(xs)]`: each value once, at the place where it is first inserted. */
  function Distinct<T(==)>(xs: seq<T>): (r: seq<T>)
    ensures forall i :: 0 <= i < |r| ==> r[i] in xs
  {
    if xs == [] then []
    else
      var init := xs[..|xs| - 1];
      var last := xs[|xs| - 1];
      if last in init then Distinct(init) else Distinct(init) + [last]
  }

  /** Index of the first occurrence of `x` in `xs`. */
  function FirstIndex<T(==)>(xs: seq<T>, x: T): (k: nat)
    requires x in xs
    ensures k < |xs| && xs[k] == x && x !in xs[..k]
  {
    if xs[0] == x then 0 else 1 + FirstIndex(xs[1..], x)
  }

  lemma {:induction false} FirstIndexExtend<T>(xs: seq<T>, y: T, x: T)
    requires x in xs
    ensures FirstIndex(xs + [y], x) == FirstIndex(xs, x)
  {
    if xs[0] != x {
      assert (xs + [y])[1..] == xs[1..] + [y];
      FirstIndexExtend(xs[1..], y, x);
    }
  }

  lemma FirstIndexOfNew<T>(xs: seq<T>, y: T)
    requires y !in xs
    ensures FirstIndex(xs + [y], y) == |xs|
  {
  }

  /** `[...new Set(xs)]` holds exactly the values of `xs`. */
  lemma {:induction false} DistinctMembers<T>(xs: seq<T>)
    ensures forall x :: x in Distinct(xs) <==> x in xs
  {
    if xs != [] {
      var init := xs[..|xs| - 1];
      assert xs == init + [xs[|xs| - 1]];
      DistinctMembers(init);
    }
  }

  /** `[...new Set(xs)]` holds no value twice. */
  lemma {:induction false} DistinctNoDuplicates<T>(xs: seq<T>)
    ensures NoDuplicates(Distinct(xs))
  {
    if xs != [] {
      var init := xs[..|xs| - 1];
      DistinctNoDuplicates(init);
      DistinctMembers(init);
    }
  }

  /** `[...new Set(xs)]` lists the values in the order of their first occurrence in `xs`. */
  lemma {:induction false} DistinctOrder<T>(xs: seq<T>)
    ensures forall i, j :: 0 <= i < j < |Distinct(xs)| ==>
      FirstIndex(xs, Distinct(xs)[i]) < FirstIndex(xs, Distinct(xs)[j])
  {
    if xs != [] {
      var init := xs[..|xs| - 1];
      var last := xs[|xs| - 1];
      assert xs == init + [last];
      DistinctOrder(init);
      var d := Distinct(init);
      var r := Distinct(xs);
      forall i | 0 <= i < |d|
        ensures r[i] == d[i] && FirstIndex(xs, d[i]) == FirstIndex(init, d[i])
      {
        FirstIndexExtend(init, last, d[i]);
      }
      if last !in init {
        FirstIndexOfNew(init, last);
        assert r == d + [last];
      }
    }
  }

  /**
   * `[...new Set(xs)]` holds every value of `xs` exactly once, and lists the
   * values in the order of their first occurrence in `xs`.
   */
  lemma DistinctSpec<T>(xs: seq<T>)
    ensures NoDuplicates(Distinct(xs))
    ensures forall x :: x in Distinct(xs) <==> x in xs
    ensures forall i, j :: 0 <= i < j < |Distinct(xs)| ==>
      FirstIndex(xs, Distinct(xs)[i]) < FirstIndex(xs, Distinct(xs)[j])
  {
    DistinctMembers(xs);
    DistinctNoDuplicates(xs);
    DistinctOrder(xs);
  }

  /** The categories offered by the home screen's menu (besides the sentinel). */
  function Categories(memos: seq<Note>): seq<string> {
    Distinct(CategoriesOf(memos))
  }

  /** Each memo category appears once in the menu, and nothing else does. */
  lemma CategoriesSpec(memos: seq<Note>)
    ensures NoDuplicates(Categories(memos))
    ensures forall c :: c in Categories(memos) <==> exists i :: 0 <= i < |memos| && memos[i].category == c
  {
    DistinctSpec(CategoriesOf(memos));
  }

  // --------------------------------------------------------- row keys

  /** Every memo on the home screen has a numeric id: `memo.id.toString()` is defined on each. */
  predicate NumericIds(memos: seq<Note>) {
    forall i :: 0 <= i < |memos| ==> memos[i].id.Num?
  }

  /** The row key `memo.id.toString()` of a memo with a numeric id. */
  function RowKey(m: Note): string
    requires m.id.Num?
  {
    IntToString(m.id.value)
  }

  /** The filter callback `memo => memo.id.toString() !== key`. */
  function KeyIsNot(key: string): Note -> bool {
    (m: Note) => !(m.id.Num? && IntToString(m.id.value) == key)
  }

  function RemoveByKey(memos: seq<Note>, key: string): seq<Note> {
    Filter(KeyIsNot(key), memos)
  }

  /** Removing by a memo's row key removes exactly the memos with that memo's id. */
  lemma RemoveByRowKey(memos: seq<Note>, m: Note)
    requires NumericIds(memos) && m.id.Num?
    ensures RemoveByKey(memos, RowKey(m)) == RemoveById(memos, m.id)
  {
    forall i | 0 <= i < |memos| ensures KeyIsNot(RowKey(m))(memos[i]) == OtherThan(m.id)(memos[i]) {
      if IntToString(memos[i].id.value) == RowKey(m) {
        IntToStringInjective(memos[i].id.value, m.id.value);
      }
    }
    FilterCongruent(KeyIsNot(RowKey(m)), OtherThan(m.id), memos);
  }

  lemma RemoveByKeyKeepsNumericIds(memos: seq<Note>, key: string)
    requires NumericIds(memos)
    ensures NumericIds(RemoveByKey(memos, key))
  {
  }

  /** Removing the same key twice is removing it once. */
  lemma RemoveByKeyIdempotent(memos: seq<Note>, key: string)
    ensures RemoveByKey(RemoveByKey(memos, key), key) == RemoveByKey(memos, key)
  {
    FilterIdempotent(KeyIsNot(key), memos);
  }

  /** The distance past which a left swipe deletes its row. */
  const SwipeDeleteThreshold: real := -200.0

  /** The home screen's state: the fields it updates with `useState` setters. */
  class HomeScreen {
    var memos: seq<Note>
    var selectedCategory: string
    var showCategoryModal: bool
    var showSearch: bool
    var searchText: string
    var deletedRowKeys: seq<string>

    ghost predicate Valid()
      reads this
    {
      NumericIds(memos)
    }

    /** The screen as first rendered, over the bundled memo data `initial`. */
    constructor(initial: seq<Note>)
      requires NumericIds(initial)
      ensures Valid() && memos == initial && selectedCategory == AllMemos
      ensures !showCategoryModal && !showSearch && searchText == "" && deletedRowKeys == []
    {
      memos := initial;
      selectedCategory := AllMemos;
      showCategoryModal := false;
      showSearch := false;
      searchText := "";
      deletedRowKeys := [];
    }

    /** The rows the list shows. */
    function Rows(): seq<Note>
      reads this
    {
      FilteredMemos(memos, selectedCategory, searchText)
    }

    /** The entries of the category menu: the sentinel, then each memo category once. */
    function CategoryMenu(): (r: seq<string>)
      reads this
      ensures |r| >= 1 && r[0] == AllMemos && NoDuplicates(r[1..])
      ensures forall c :: c in r[1..] <==> exists i :: 0 <= i < |memos| && memos[i].category == c
    {
      CategoriesSpec(memos);
      assert ([AllMemos] + Categories(memos))[1..] == Categories(memos);
      [AllMemos] + Categories(memos)
    }

    /** `toggleFavorite`: invert the favourite flag of the memos with id `id`. */
    method ToggleFavorite(id: Id)
      requires Valid()
      modifies this
      ensures Valid() && memos == ToggleById(old(memos), id)
      ensures deletedRowKeys == old(deletedRowKeys) && selectedCategory == old(selectedCategory)
      ensures searchText == old(searchText) && showSearch == old(showSearch)
      ensures showCategoryModal == old(showCategoryModal)
    {
      memos := ToggleById(memos, id);
    }

    /**
     * `onSwipeValueChange`: a swipe past the threshold on a row not yet deleted
     * records its key and removes the memos with that key; any other swipe
     * changes nothing.
     */
    method OnSwipeValueChange(key: string, value: real)
      requires Valid()
      modifies this
      ensures Valid()
      ensures value < SwipeDeleteThreshold && key !in old(deletedRowKeys) ==>
        deletedRowKeys == old(deletedRowKeys) + [key] && memos == RemoveByKey(old(memos), key)
      ensures !(value < SwipeDeleteThreshold && key !in old(deletedRowKeys)) ==>
        deletedRowKeys == old(deletedRowKeys) && memos == old(memos)
      ensures selectedCategory == old(selectedCategory) && searchText == old(searchText)
      ensures showSearch == old(showSearch) && showCategoryModal == old(showCategoryModal)
    {
      if value < SwipeDeleteThreshold && key !in deletedRowKeys {
        deletedRowKeys := deletedRowKeys + [key];
        RemoveByKeyKeepsNumericIds(memos, key);
        memos := RemoveByKey(memos, key);
      }
    }

    /** The trash button of a row: record the row's key, always, and remove its memo. */
    method OnTrashPress(item: Note)
      requires Valid() && item.id.Num?
      modifies this
      ensures Valid()
      ensures deletedRowKeys == old(deletedRowKeys) + [RowKey(item)]
      ensures memos == RemoveById(old(memos), item.id)
      ensures selectedCategory == old(selectedCategory) && searchText == old(searchText)
      ensures showSearch == old(showSearch) && showCategoryModal == old(showCategoryModal)
    {
      var key := RowKey(item);
      deletedRowKeys := deletedRowKeys + [key];
      RemoveByKeyKeepsNumericIds(memos, key);
      RemoveByRowKey(memos, item);
      memos := RemoveByKey(memos, key);
    }

    /** `handleCategoryPress`: open the category menu. */
    method HandleCategoryPress()
      modifies this
      ensures showCategoryModal
      ensures memos == old(memos) && selectedCategory == old(selectedCategory) && searchText == old(searchText)
      ensures showSearch == old(showSearch) && deletedRowKeys == old(deletedRowKeys)
    {
      showCategoryModal := true;
    }

    /** `selectCategory`: filter by `category` and close the menu. */
    method SelectCategory(category: string)
      modifies this
      ensures selectedCategory == category && !showCategoryModal
      ensures memos == old(memos) && searchText == old(searchText)
      ensures showSearch == old(showSearch) && deletedRowKeys == old(deletedRowKeys)
    {
      selectedCategory := category;
      showCategoryModal := false;
    }

    /** The search icon: show or hide the search field. */
    method ToggleSearch()
      modifies this
      ensures showSearch == !old(showSearch)
      ensures memos == old(memos) && selectedCategory == old(selectedCategory) && searchText == old(searchText)
      ensures showCategoryModal == old(showCategoryModal) && deletedRowKeys == old(deletedRowKeys)
    {
      showSearch := !showSearch;
    }

    /** `handleSearch`: the typed text becomes the search. */
    method HandleSearch(text: string)
      modifies this
      ensures searchText == text
      ensures memos == old(memos) && selectedCategory == old(selectedCategory)
      ensures showSearch == old(showSearch) && showCategoryModal == old(showCategoryModal)
      ensures deletedRowKeys == old(deletedRowKeys)
    {
      searchText := text;
    }
  }

  /**
   * Two swipe events on one row, with a render between them, act as the first
   * alone: once the key is recorded, the second swipe changes nothing, and a
   * key recorded before both makes both no-ops.
   */
  method SwipeTwice(screen: HomeScreen, key: string, first: real, second: real)
    requires screen.Valid()
    modifies screen
    ensures screen.Valid()
    ensures first < SwipeDeleteThreshold && key !in old(screen.deletedRowKeys) ==>
      screen.deletedRowKeys == old(screen.deletedRowKeys) + [key] && screen.memos == RemoveByKey(old(screen.memos), key)
    ensures key in old(screen.deletedRowKeys) ==>
      screen.deletedRowKeys == old(screen.deletedRowKeys) && screen.memos == old(screen.memos)
    ensures screen.selectedCategory == old(screen.selectedCategory) && screen.searchText == old(screen.searchText)
    ensures screen.showSearch == old(screen.showSearch) && screen.showCategoryModal == old(screen.showCategoryModal)
  {
    screen.OnSwipeValueChange(key, first);
    screen.OnSwipeValueChange(key, second);
  }

  /** Pressing the trash button twice removes the memo once: the second press leaves the memos alone. */
  method TrashTwice(screen: HomeScreen, item: Note)
    requires screen.Valid() && item.id.Num?
    modifies screen
    ensures screen.memos == RemoveById(old(screen.memos), item.id)
    ensures screen.deletedRowKeys == old(screen.deletedRowKeys) + [RowKey(item), RowKey(item)]
  {
    screen.OnTrashPress(item);
    screen.OnTrashPress(item);
    RemoveIdempotent(old(screen.memos), item.id);
  }
}
