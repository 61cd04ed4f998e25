/** Global text replacement, as `String.prototype.replace` does it for a literal pattern with the g flag. */
module Text {
  /** `s.replace(/pat/g, rep)` for a literal pattern: leftmost matches, without overlap. */
  function ReplaceAll(s: string, pat: string, rep: string): string
    requires |pat| > 0
  {
    if |s| == 0 then ""
    else if pat <= s then rep + ReplaceAll(s[|pat|..], pat, rep)
    else [s[0]] + ReplaceAll(s[1..], pat, rep)
  }

  lemma StepPast(c: char, rest: string, pat: string, rep: string)
    requires |pat| > 0 && !(pat <= [c] + rest)
    ensures ReplaceAll([c] + rest, pat, rep) == [c] + ReplaceAll(rest, pat, rep)
  {
    assert ([c] + rest)[1..] == rest;
  }

  lemma MatchReplaced(rest: string, pat: string, rep: string)
    requires |pat| > 0
    ensures ReplaceAll(pat + rest, pat, rep) == rep + ReplaceAll(rest, pat, rep)
  {
    assert (pat + rest)[|pat|..] == rest;
  }
}
