/**
  Warm-up prompts are cut from a full prompt at a fraction of its length, preferably at a blank line, otherwise
  at a line end, otherwise anywhere. A prefix cache can reuse one warm-up prompt for the next only if they nest.
 */
module CheckpointCut {
  import opened Common

  /** `text.rfind(needle, 0, end)`: the last match that lies within the first `end` characters, or -1. */
  function RFind(text: string, needle: string, end: nat): int {
    RFindFrom(text, needle, Min(end, |text|) - |needle|)
  }

  function RFindFrom(text: string, needle: string, at: int): int
    requires at + |needle| <= |text|
    decreases at
  {
    if at < 0 then -1
    else if text[at..at + |needle|] == needle then at
    else RFindFrom(text, needle, at - 1)
  }

  /** `int(x)`: truncation toward zero. */
  function Truncate(x: real): int {
    if x >= 0.0 then x.Floor else -(-x).Floor
  }

  function Target(prompt: string, fraction: real): nat {
    Max(1, Truncate(|prompt| as real * fraction))
  }

  const BLANK_LINE := "\n\n"
  const LINE_END := "\n"

  function Boundary(prompt: string, target: nat): int {
    var blank := RFind(prompt, BLANK_LINE, target);
    var line := if blank < target / 2 then RFind(prompt, LINE_END, target) else blank;
    if line < target / 2 then target else line
  }

  /** `text[:end]` for an `end` that is not negative. */
  function Take(text: string, end: int): string {
    if end < 0 then "" else text[..Min(end, |text|)]
  }

  function Checkpoint(prompt: string, fraction: real): string {
    Take(prompt, Boundary(prompt, Target(prompt, fraction)))
  }

  // ---- what the search finds -------------------------------------------------

  ghost predicate OccursAt(text: string, needle: string, i: int) {
    0 <= i && i + |needle| <= |text| && text[i..i + |needle|] == needle
  }

  lemma {:induction false} RFindFromIsLast(text: string, needle: string, at: int)
    requires at + |needle| <= |text|
    ensures var r := RFindFrom(text, needle, at);
            (r == -1 || (OccursAt(text, needle, r) && r <= at))
            && forall i :: r < i <= at ==> !OccursAt(text, needle, i)
    decreases at
  {
    if at >= 0 && text[at..at + |needle|] != needle {
      RFindFromIsLast(text, needle, at - 1);
    }
  }

  lemma RFindIsLast(text: string, needle: string, end: nat)
    ensures var r := RFind(text, needle, end);
            (r == -1 || (OccursAt(text, needle, r) && r + |needle| <= end))
            && forall i :: r < i && i + |needle| <= end ==> !OccursAt(text, needle, i)
  {
    RFindFromIsLast(text, needle, Min(end, |text|) - |needle|);
  }

  lemma BlankLineIsTwoLineEnds(text: string, i: int)
    ensures OccursAt(text, BLANK_LINE, i) <==> OccursAt(text, LINE_END, i) && OccursAt(text, LINE_END, i + 1)
    ensures OccursAt(text, LINE_END, i) <==> 0 <= i < |text| && text[i] == '\n'
  {
    if 0 <= i < |text| {
      assert text[i..i + 1] == [text[i]];
    }
    if 0 <= i && i + 2 <= |text| {
      assert text[i..i + 2] == [text[i], text[i + 1]];
      assert text[i + 1..i + 2] == [text[i + 1]];
    }
  }

  /**
    The cut in words: never past the target and never in its first half; at the last blank line in the second
    half if there is one, otherwise at the last line end there, otherwise at the target itself.
   */
  lemma BoundaryMeaning(prompt: string, target: nat)
    ensures var cut := Boundary(prompt, target);
            target / 2 <= cut <= target
    ensures var cut := Boundary(prompt, target);
            forall i :: cut < i && i + 2 <= target ==> !OccursAt(prompt, BLANK_LINE, i)
    ensures var cut := Boundary(prompt, target);
            cut == target
            || OccursAt(prompt, BLANK_LINE, cut)
            || (OccursAt(prompt, LINE_END, cut)
                && (forall i :: target / 2 <= i && i + 2 <= target ==> !OccursAt(prompt, BLANK_LINE, i))
                && (forall i :: cut < i < target ==> !OccursAt(prompt, LINE_END, i)))
    ensures var cut := Boundary(prompt, target);
            (cut == target <==> forall i :: target / 2 <= i < target ==> !OccursAt(prompt, LINE_END, i))
  {
    RFindIsLast(prompt, BLANK_LINE, target);
    RFindIsLast(prompt, LINE_END, target);
    forall i {
      BlankLineIsTwoLineEnds(prompt, i);
    }
  }

  // ---- nesting -----------------------------------------------------------------

  lemma BoundaryMonotone(prompt: string, small: nat, large: nat)
    requires small <= large
    ensures Boundary(prompt, small) <= Boundary(prompt, large)
  {
    BoundaryMeaning(prompt, small);
    BoundaryMeaning(prompt, large);
    var a, b := Boundary(prompt, small), Boundary(prompt, large);
    BlankLineIsTwoLineEnds(prompt, a);
    BlankLineIsTwoLineEnds(prompt, b);
    assert small / 2 <= large / 2;
  }

  lemma ScaleMonotone(n: real, x: real, y: real)
    requires 0.0 <= n && x <= y
    ensures n * x <= n * y
  {
    assert n * (y - x) >= 0.0;
  }

  lemma TargetMonotone(prompt: string, small: real, large: real)
    requires small <= large
    ensures Target(prompt, small) <= Target(prompt, large)
  {
    ScaleMonotone(|prompt| as real, small, large);
  }

  lemma TargetWithinPrompt(prompt: string, fraction: real)
    requires fraction <= 1.0 && prompt != ""
    ensures Target(prompt, fraction) <= |prompt|
  {
    TargetMonotone(prompt, fraction, 1.0);
    assert |prompt| as real * 1.0 == |prompt| as real;
  }

  lemma TakesNest(text: string, a: int, b: int)
    requires a <= b
    ensures Take(text, a) <= Take(text, b) <= text
  {
  }

  /** The target is the fraction of the prompt's length, rounded down, and never less than one character. */
  lemma TargetMeaning(prompt: string, fraction: real)
    ensures var length, target := |prompt| as real * fraction, Target(prompt, fraction);
            (length < 2.0 ==> target == 1) && (length >= 1.0 ==> target as real <= length < (target + 1) as real)
  {
  }

  /** Warm-up prompts nest: a smaller fraction gives a prefix of a larger fraction's prompt, and of the whole. */
  lemma CheckpointsNest(prompt: string, small: real, large: real)
    requires small <= large
    ensures Checkpoint(prompt, small) <= Checkpoint(prompt, large) <= prompt
  {
    TargetMonotone(prompt, small, large);
    BoundaryMonotone(prompt, Target(prompt, small), Target(prompt, large));
    TakesNest(prompt, Boundary(prompt, Target(prompt, small)), Boundary(prompt, Target(prompt, large)));
  }

  /** For a nonempty prompt and a fraction of at most one, the cut keeps between half the target and the target. */
  lemma CheckpointLength(prompt: string, fraction: real)
    requires fraction <= 1.0 && prompt != ""
    ensures Target(prompt, fraction) <= |prompt|
    ensures Target(prompt, fraction) / 2 <= |Checkpoint(prompt, fraction)| <= Target(prompt, fraction)
  {
    TargetWithinPrompt(prompt, fraction);
    BoundaryMeaning(prompt, Target(prompt, fraction));
  }
}
