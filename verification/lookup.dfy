/** First-match linear search with a default, the loop shared by every task
    lookup of the system (`getTask`, `getTaskByName`). */
module Lookup {

  /** The first element of `s`, scanning from the front, for which `matches`
      holds; `zero` when no element matches. */
  function FirstOr<T>(s: seq<T>, matches: T -> bool, zero: T): T
    decreases |s|
  {
    if |s| == 0 then zero
    else if matches(s[0]) then s[0]
    else FirstOr(s[1..], matches, zero)
  }

  /** The search returns the first matching element, or `zero` when none
      matches. */
  lemma {:induction false} FirstOrFinds<T>(s: seq<T>, matches: T -> bool, zero: T)
    ensures var r := FirstOr(s, matches, zero);
      && (forall i :: 0 <= i < |s| && matches(s[i]) && (forall j :: 0 <= j < i ==> !matches(s[j])) ==> r == s[i])
      && ((forall i :: 0 <= i < |s| ==> !matches(s[i])) ==> r == zero)
    decreases |s|
  {
    if |s| > 0 && !matches(s[0]) {
      var rest := s[1..];
      FirstOrFinds(rest, matches, zero);
      forall i | 0 < i < |s| && matches(s[i]) && (forall j :: 0 <= j < i ==> !matches(s[j]))
        ensures FirstOr(s, matches, zero) == s[i]
      {
        assert rest[i - 1] == s[i];
        forall j | 0 <= j < i - 1 ensures !matches(rest[j]) {
          assert rest[j] == s[j + 1];
        }
      }
      if forall i :: 0 <= i < |s| ==> !matches(s[i]) {
        forall i | 0 <= i < |rest| ensures !matches(rest[i]) {
          assert rest[i] == s[i + 1];
        }
      }
    }
  }
}
