/** Helpers shared by the provider's resources (internal/provider/common.go). */
module Common {

  /** Linear membership test over a slice of strings: stops at the first
      element equal to `str`. Equality is exact, so no case folding happens. */
  function Contains(s: seq<string>, str: string): (found: bool)
    ensures found <==> exists i :: 0 <= i < |s| && s[i] == str
    ensures s == [] ==> !found
  {
    if s == [] then false
    else if s[0] == str then true
    else
      var rest := Contains(s[1..], str);
      assert rest ==> exists i :: 1 <= i < |s| && s[i] == str by {
        if rest {
          var i :| 0 <= i < |s[1..]| && s[1..][i] == str;
          assert s[i + 1] == str;
        }
      }
      rest
  }

  /** Whatever index the match sits at, the search finds it. */
  lemma {:induction false} ContainsEveryElement(s: seq<string>, i: nat)
    requires i < |s|
    ensures Contains(s, s[i])
  {
    if i > 0 && s[0] != s[i] {
      assert s[1..][i - 1] == s[i];
      ContainsEveryElement(s[1..], i - 1);
    }
  }
}
