/**
  The numeric text field of the adjustment dialog: whenever its text changes, every
  character that is not a minus sign or an ASCII digit is dropped, and the text is
  written back only when that dropped something.
*/
module NumericText {

  /** The characters the field keeps. */
  const AllowedCharacters: string := "-0123456789"

  predicate IsAllowed(ch: char) {
    ch in AllowedCharacters
  }

  predicate AllAllowed(s: string) {
    forall i :: 0 <= i < |s| ==> IsAllowed(s[i])
  }

  /** `s.filter { "-0123456789".contains($0) }` */
  function Filter(s: string): (r: string)
    ensures AllAllowed(r)
    ensures |r| <= |s|
  {
    if s == [] then []
    else (if IsAllowed(s[0]) then [s[0]] else []) + Filter(s[1..])
  }

  /** `a` can be obtained from `b` by deleting characters. */
  predicate IsSubsequence(a: string, b: string)
    decreases |b|
  {
    if a == [] then true
    else if b == [] then false
    else if a[0] == b[0] then IsSubsequence(a[1..], b[1..])
    else IsSubsequence(a, b[1..])
  }

  /** The filtered text is the input with characters deleted, the rest in their original order. */
  lemma {:induction false} FilterIsSubsequence(s: string)
    ensures IsSubsequence(Filter(s), s)
  {
    if s != [] {
      FilterIsSubsequence(s[1..]);
      if IsAllowed(s[0]) {
        assert Filter(s)[1..] == Filter(s[1..]);
      } else {
        assert Filter(s) == Filter(s[1..]);
      }
    }
  }

  /** Every allowed character is kept as often as it occurs; every other one is dropped. */
  lemma {:induction false} FilterKeepsAllowed(s: string)
    ensures forall ch :: IsAllowed(ch) ==> multiset(Filter(s))[ch] == multiset(s)[ch]
    ensures forall ch :: !IsAllowed(ch) ==> multiset(Filter(s))[ch] == 0
  {
    if s != [] {
      FilterKeepsAllowed(s[1..]);
      assert s == [s[0]] + s[1..];
      assert multiset(s) == multiset([s[0]]) + multiset(s[1..]);
    }
  }

  /** A text that holds only allowed characters passes the filter unchanged, and only such a text does. */
  lemma {:induction false} FilterKeepsCleanText(s: string)
    ensures Filter(s) == s <==> AllAllowed(s)
  {
    if s != [] {
      FilterKeepsCleanText(s[1..]);
      if !IsAllowed(s[0]) {
        assert |Filter(s)| <= |s[1..]| < |s|;
      }
    }
  }

  /** Filtering twice is filtering once, so the write-back does not change the text again. */
  lemma FilterIdempotent(s: string)
    ensures Filter(Filter(s)) == Filter(s)
  {
    FilterKeepsCleanText(Filter(s));
  }

  /** The filter does not check number syntax: minus signs pass wherever and however often they occur. */
  lemma MinusSignsPassAnywhere()
    ensures Filter("1--2-") == "1--2-"
  {
    FilterKeepsCleanText("1--2-");
  }

  /** The `text` binding of `NumericTextField`. */
  class NumericTextField {
    var text: string

    constructor(text: string)
      ensures this.text == text
    {
      this.text := text;
    }

    /**
      The `onChange(of: text)` handler, run after `text` took its new value: write back the
      filtered text when it differs; `rewritten` says whether it did.
    */
    method OnChange() returns (rewritten: bool)
      modifies this
      ensures text == Filter(old(text))
      ensures rewritten <==> !AllAllowed(old(text))
    {
      var newValue := text;
      var filtered := Filter(newValue);
      FilterKeepsCleanText(newValue);
      if filtered != newValue {
        text := filtered;
        rewritten := true;
      } else {
        rewritten := false;
      }
    }

    /**
      The user edits the text to `newValue`: the handler runs, and when it writes back, the
      write-back fires it once more, which then leaves the text alone.
    */
    method Edit(newValue: string) returns (rewrittenAgain: bool)
      modifies this
      ensures text == Filter(newValue)
      ensures !rewrittenAgain
    {
      text := newValue;
      var rewritten := OnChange();
      rewrittenAgain := false;
      if rewritten {
        rewrittenAgain := OnChange();
        FilterIdempotent(newValue);
      }
    }
  }
}
