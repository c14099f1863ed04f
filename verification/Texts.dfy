/** Finding separators in texts. */
module Texts {

  /** The end of a string in C. */
  const NUL: char := '\0'

  predicate Without(s: string, stops: set<char>) {
    forall i :: 0 <= i < |s| ==> s[i] !in stops
  }

  /** Where the first part of a text ends: before the first of the given characters or at the end of the text. */
  function PartEnd(text: string, stops: set<char>): (end: nat)
    ensures end <= |text|
  {
    if text == "" || text[0] in stops then 0 else 1 + PartEnd(text[1..], stops)
  }

  lemma {:induction false} PartEndIs(part: string, more: string, stops: set<char>)
    requires Without(part, stops) && (more == "" || more[0] in stops)
    ensures PartEnd(part + more, stops) == |part|
  {
    if part == "" {
      assert part + more == more;
    } else {
      assert (part + more)[1..] == part[1..] + more;
      PartEndIs(part[1..], more, stops);
    }
  }

  /** A part that has no stop in it only moves the end of what follows. */
  lemma {:induction false} PartEndAfter(part: string, more: string, stops: set<char>)
    requires Without(part, stops)
    ensures PartEnd(part + more, stops) == |part| + PartEnd(more, stops)
  {
    if part == "" {
      assert part + more == more;
    } else {
      assert (part + more)[1..] == part[1..] + more;
      PartEndAfter(part[1..], more, stops);
    }
  }

  lemma {:induction false} PartEndMeans(text: string, stops: set<char>)
    ensures Without(text[..PartEnd(text, stops)], stops)
    ensures PartEnd(text, stops) < |text| ==> text[PartEnd(text, stops)] in stops
  {
    if text != "" && text[0] !in stops {
      PartEndMeans(text[1..], stops);
      assert text[..PartEnd(text, stops)] == [text[0]] + text[1..][..PartEnd(text[1..], stops)];
    }
  }
}
