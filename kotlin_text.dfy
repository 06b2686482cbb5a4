/**
 * The Kotlin text operations the Android widget uses: `String.split` with one
 * literal delimiter, and the joining it inverts.
 */
module KotlinText {

  /**
   * Kotlin's `s.split(d)` for one non-empty literal delimiter and no limit:
   * the pieces between successive leftmost non-overlapping occurrences of
   * `d`, empty pieces included.
   */
  function Split(s: string, d: string): (parts: seq<string>)
    requires d != []
    ensures |parts| >= 1
    decreases |s|
  {
    if |d| <= |s| && s[..|d|] == d then [""] + Split(s[|d|..], d)
    else if s == [] then [""]
    else
      var rest := Split(s[1..], d);
      [[s[0]] + rest[0]] + rest[1..]
  }

  /** Joining pieces with `d` between them: the inverse of `Split`. */
  function Join(parts: seq<string>, d: string): string
    requires |parts| >= 1
  {
    if |parts| == 1 then parts[0] else parts[0] + d + Join(parts[1..], d)
  }

  predicate HasBar(s: string) {
    exists i :: 0 <= i < |s| && s[i] == '|'
  }

  /** A piece with no `|` in it is taken whole, up to the next `||`. */
  lemma {:induction false} SplitBarFree(x: string, rest: string)
    requires !HasBar(x)
    ensures Split(x, "||") == [x]
    ensures Split(x + "||" + rest, "||") == [x] + Split(rest, "||")
  {
    if x == [] {
      assert (x + "||" + rest)[..2] == "||";
      assert (x + "||" + rest)[2..] == rest;
    } else {
      assert x[0] != '|';
      SplitBarFree(x[1..], rest);
      assert (x + "||" + rest)[1..] == x[1..] + "||" + rest;
      assert [x[0]] + x[1..] == x;
    }
  }

  /** Splitting what was joined gives back the pieces, when no piece holds a `|`. */
  lemma {:induction false} SplitJoin(parts: seq<string>)
    requires |parts| >= 1
    requires forall k :: 0 <= k < |parts| ==> !HasBar(parts[k])
    ensures Split(Join(parts, "||"), "||") == parts
  {
    if |parts| == 1 {
      SplitBarFree(parts[0], "");
    } else {
      var tail := parts[1..];
      assert forall k :: 0 <= k < |tail| ==> tail[k] == parts[k + 1];
      SplitJoin(tail);
      var rest := Join(tail, "||");
      assert Join(parts, "||") == parts[0] + "||" + rest;
      SplitBarFree(parts[0], rest);
      assert parts == [parts[0]] + tail;
    }
  }
}
