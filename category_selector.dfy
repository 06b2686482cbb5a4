/**
 * The category picker of the editor: the list it shows, the add-a-category
 * input, and the modal that holds both. `selectedCategory` and `onSelect` belong
 * to the parent; the category chosen is returned to it.
 */
module CategorySelector {
  import opened Results
  import opened JsText
  import opened Seqs

  /** `newCategory.trim()` is truthy: the add button does something. */
  predicate CanAdd(input: string) {
    Trim(input) != ""
  }

  /** The list after a successful add: the raw text, untrimmed, appended when it is not blank. */
  function AddedCategories(categories: seq<string>, input: string): seq<string> {
    if CanAdd(input) then categories + [input] else categories
  }

  /**
   * A non-blank input is appended exactly as typed (no trimming) after the old
   * list, which is kept as a prefix; a blank input leaves the list as it was.
   */
  lemma AddSpec(categories: seq<string>, input: string)
    ensures var r := AddedCategories(categories, input);
      && (CanAdd(input) ==>
            |r| == |categories| + 1 && r[..|categories|] == categories && r[|categories|] == input)
      && (!CanAdd(input) ==> r == categories)
      && (!AllSpace(input) <==> CanAdd(input))
  {
    TrimEmptyIff(input);
    if CanAdd(input) {
      assert (categories + [input])[..|categories|] == categories;
    }
  }

  /** There is no duplicate check: re-adding a listed name lists it twice. */
  lemma AddAllowsDuplicates(categories: seq<string>, input: string)
    requires CanAdd(input) && input in categories
    ensures !NoDuplicates(AddedCategories(categories, input))
  {
    var r := AddedCategories(categories, input);
    var i :| 0 <= i < |categories| && categories[i] == input;
    assert r[i] == r[|categories|];
  }

  /** An add keeps a duplicate-free list duplicate-free exactly when the name is new. */
  lemma AddKeepsDistinctIff(categories: seq<string>, input: string)
    requires NoDuplicates(categories) && CanAdd(input)
    ensures NoDuplicates(AddedCategories(categories, input)) <==> input !in categories
  {
    if input in categories {
      AddAllowsDuplicates(categories, input);
    } else {
      var r := AddedCategories(categories, input);
      forall i, j | 0 <= i < j < |r| ensures r[i] != r[j] {
        if j == |categories| {
          assert r[i] == categories[i];
        }
      }
    }
  }

  /** The picker's state. */
  class CategorySelector {
    var categories: seq<string>
    var isModalVisible: bool
    var newCategory: string

    /** No categories, the modal hidden, the input empty. */
    constructor()
      ensures categories == [] && !isModalVisible && newCategory == ""
    {
      categories := [];
      isModalVisible := false;
      newCategory := "";
    }

    /**
     * The mount effect: the categories `getCategories` gives, or `None` when it
     * throws, in which case the list stays as it was.
     */
    method LoadCategories(loaded: Option<seq<string>>)
      modifies this
      ensures categories == (if loaded.Some? then loaded.value else old(categories))
      ensures isModalVisible == old(isModalVisible) && newCategory == old(newCategory)
    {
      if loaded.Some? {
        categories := loaded.value;
      }
    }

    /** Pressing the category display opens the modal. */
    method OpenModal()
      modifies this
      ensures isModalVisible && categories == old(categories) && newCategory == old(newCategory)
    {
      isModalVisible := true;
    }

    /** Typing in the new-category input. */
    method SetNewCategory(text: string)
      modifies this
      ensures newCategory == text
      ensures categories == old(categories) && isModalVisible == old(isModalVisible)
    {
      newCategory := text;
    }

    /**
     * `handleAddCategory`: with a non-blank input, and `addCategory` succeeding
     * (`addOk`), append the raw input, hand it to `onSelect`, clear the input and
     * close the modal; otherwise nothing changes and `onSelect` is not called.
     */
    method HandleAddCategory(addOk: bool) returns (selected: Option<string>)
      modifies this
      ensures !(CanAdd(old(newCategory)) && addOk) ==> selected == None && unchanged(this)
      ensures CanAdd(old(newCategory)) && addOk ==>
        && selected == Some(old(newCategory))
        && categories == AddedCategories(old(categories), old(newCategory))
        && newCategory == "" && !isModalVisible
    {
      selected := None;
      if Trim(newCategory) != "" {
        if !addOk {
          return;
        }
        categories := categories + [newCategory];
        selected := Some(newCategory);
        newCategory := "";
        isModalVisible := false;
      }
    }

    /** Pressing the `i`-th listed category: hand it to `onSelect` and close the modal. */
    method SelectCategory(i: nat) returns (selected: string)
      requires i < |categories|
      modifies this
      ensures selected == old(categories)[i]
      ensures categories == old(categories) && newCategory == old(newCategory) && !isModalVisible
    {
      selected := categories[i];
      isModalVisible := false;
    }
  }

  /** Typing the same non-blank name twice and adding it each time lists it twice. */
  method AddSameNameTwice(picker: CategorySelector, name: string)
    requires CanAdd(name)
    modifies picker
    ensures !NoDuplicates(picker.categories)
    ensures |picker.categories| == |old(picker.categories)| + 2
  {
    picker.SetNewCategory(name);
    var first := picker.HandleAddCategory(true);
    picker.SetNewCategory(name);
    var second := picker.HandleAddCategory(true);
    var before := old(picker.categories);
    assert picker.categories == before + [name] + [name];
    assert picker.categories[|before|] == picker.categories[|before| + 1];
  }
}
