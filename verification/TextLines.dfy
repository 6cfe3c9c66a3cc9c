/** Lines and occurrences in a text. */
module TextLines {
  /** Length of the first line without its newline. */
  function LineLength(text: string): (n: nat)
    ensures n <= |text|
    ensures '\n' !in text[..n]
    ensures n < |text| ==> text[n] == '\n'
  {
    if text == [] || text[0] == '\n' then 0
    else
      var n := LineLength(text[1..]);
      assert text[..n + 1] == [text[0]] + text[1..][..n];
      n + 1
  }

  lemma {:induction false} LineLengthIs(text: string, n: nat)
    requires n <= |text| && '\n' !in text[..n] && (n < |text| ==> text[n] == '\n')
    ensures LineLength(text) == n
  {
    if n == 0 {
    } else {
      assert text[0] in text[..n];
      assert text[1..][..n - 1] == text[..n][1..];
      LineLengthIs(text[1..], n - 1);
    }
  }

  predicate OccursAt(s: string, part: string, i: nat)
  {
    i + |part| <= |s| && forall k :: 0 <= k < |part| ==> s[i + k] == part[k]
  }
}
