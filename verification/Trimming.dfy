/** What `String.prototype.trim` removes, for texts of any representation. */
module Trimming {

  /** The codes of white space and line ends. */
  predicate IsSpaceCode(n: int) {
    || 9 <= n <= 13 || n == 32 || n == 0xA0 || n == 0x1680 || 0x2000 <= n <= 0x200A
    || n == 0x2028 || n == 0x2029 || n == 0x202F || n == 0x205F || n == 0x3000 || n == 0xFEFF
  }

  function TrimWhere<T>(space: T -> bool, s: seq<T>): (r: seq<T>)
    ensures |r| <= |s|
    ensures r != [] ==> !space(r[0]) && !space(r[|r| - 1])
  {
    if s == [] then []
    else if space(s[0]) then TrimWhere(space, s[1..])
    else if space(s[|s| - 1]) then TrimWhere(space, s[..|s| - 1])
    else s
  }

  /** Trimming takes white space from both ends and nothing else. */
  lemma {:induction false} TrimParts<T>(space: T -> bool, s: seq<T>) returns (before: seq<T>, after: seq<T>)
    ensures s == before + TrimWhere(space, s) + after && forall c :: c in before + after ==> space(c)
    decreases |s|
  {
    if s == [] {
      before, after := [], [];
    } else if space(s[0]) {
      var rest: seq<T>;
      rest, after := TrimParts(space, s[1..]);
      before := [s[0]] + rest;
      hide TrimWhere;
      assert s == [s[0]] + s[1..];
      assert [s[0]] + (rest + TrimWhere(space, s[1..]) + after) == before + TrimWhere(space, s[1..]) + after;
    } else if space(s[|s| - 1]) {
      var rest: seq<T>;
      before, rest := TrimParts(space, s[..|s| - 1]);
      after := rest + [s[|s| - 1]];
      hide TrimWhere;
      assert s == s[..|s| - 1] + [s[|s| - 1]];
    } else {
      before, after := [], [];
    }
  }
}
