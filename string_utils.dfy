/** utils/string_utils.go: case-insensitive membership of a string in a list. */
module StringUtils {
  import opened Text

  /** StringContainsIgnoreCase: a left-to-right search that stops at the
      first element equal to the query ignoring case. */
  function StringContainsIgnoreCase(slice: seq<string>, query: string): (found: bool)
    ensures found <==> exists i :: 0 <= i < |slice| && EqualFold(slice[i], query)
  {
    if slice == [] then false
    else
      var rest := StringContainsIgnoreCase(slice[1..], query);
      assert forall i :: 1 <= i < |slice| ==> slice[i] == slice[1..][i - 1];
      EqualFold(slice[0], query) || rest
  }

  /** A query that is literally in the list is found. */
  lemma LiteralMemberFound(slice: seq<string>, query: string)
    requires query in slice
    ensures StringContainsIgnoreCase(slice, query)
  {
    var i :| 0 <= i < |slice| && slice[i] == query;
    EqualFoldIsEquivalence(query, query, query);
  }

  /** Changing the ASCII case of the query does not change the answer. */
  lemma QueryCaseIrrelevant(slice: seq<string>, query: string)
    ensures StringContainsIgnoreCase(slice, ToUpper(query)) == StringContainsIgnoreCase(slice, query)
    ensures StringContainsIgnoreCase(slice, ToLower(query)) == StringContainsIgnoreCase(slice, query)
  {
    forall i | 0 <= i < |slice|
      ensures EqualFold(slice[i], ToUpper(query)) == EqualFold(slice[i], query)
      ensures EqualFold(slice[i], ToLower(query)) == EqualFold(slice[i], query)
    {
      EqualFoldIgnoresCase(slice[i], query);
    }
  }
}
