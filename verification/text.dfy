/** Python's substring test `pat in text` on `str` values. */
module Text {

  /** `pat` occurs in `text` starting at index `i`. */
  predicate OccursAt(pat: string, text: string, i: int) {
    0 <= i && i + |pat| <= |text| && text[i..i + |pat|] == pat
  }

  /** `pat in text`, scanning `text` from the left. */
  function Contains(text: string, pat: string): (b: bool)
    ensures b <==> exists i :: OccursAt(pat, text, i)
    decreases |text|
  {
    if |text| < |pat| then
      false
    else if text[..|pat|] == pat then
      assert OccursAt(pat, text, 0);
      true
    else
      var b := Contains(text[1..], pat);
      assert forall i :: OccursAt(pat, text[1..], i) <==> OccursAt(pat, text, i + 1) by {
        forall i ensures OccursAt(pat, text[1..], i) <==> OccursAt(pat, text, i + 1) {
          if 0 <= i && i + |pat| <= |text[1..]| {
            assert text[1..][i..i + |pat|] == text[i + 1..i + 1 + |pat|];
          }
        }
      }
      assert forall i :: OccursAt(pat, text, i) ==> i >= 1 && OccursAt(pat, text[1..], i - 1);
      b
  }
}
