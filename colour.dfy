/** Terminal colouring of the logs package (`cW` and its colour codes). The
    middleware package colours its stack output the same way. */
module Colour {
  import opened Text

  const Escape: char := '\U{1B}'

  const NYellow: string := "\U{1B}[33m"
  const BRed: string := "\U{1B}[31;1m"
  const BGreen: string := "\U{1B}[32;1m"
  const BYellow: string := "\U{1B}[33;1m"
  const BBlue: string := "\U{1B}[34;1m"
  const BMagenta: string := "\U{1B}[35;1m"
  const BCyan: string := "\U{1B}[36;1m"
  const BWhite: string := "\U{1B}[37;1m"
  const Reset: string := "\U{1B}[0m"

  /** One of the colour sequences above: escape, '[', a code. */
  predicate IsColour(color: string)
  {
    color in {NYellow, BRed, BGreen, BYellow, BBlue, BMagenta, BCyan, BWhite}
  }

  /** What `cW` writes: the text, wrapped in the colour and the reset
      sequence only when the output is a terminal and colour is asked for.
      The text is already formatted (the format verbs are applied by the
      caller). */
  function CW(isTTY: bool, useColor: bool, color: string, s: string): string
  {
    if isTTY && useColor then color + s + Reset else s
  }

  /** Escape bytes appear in the output exactly when the output is a terminal
      and colour is asked for; otherwise the text is written unchanged, and
      either way the text itself is written. */
  lemma CWColoursIff(isTTY: bool, useColor: bool, color: string, s: string)
    requires IsColour(color) && Escape !in s
    ensures Escape in CW(isTTY, useColor, color, s) <==> isTTY && useColor
    ensures !(isTTY && useColor) ==> CW(isTTY, useColor, color, s) == s
    ensures Contains(CW(isTTY, useColor, color, s), s)
  {
    if isTTY && useColor {
      assert CW(isTTY, useColor, color, s)[0] == Escape;
      ContainsMiddle(color, s, Reset);
    } else {
      ContainsMiddle("", s, "");
      assert "" + s + "" == s;
    }
  }
}
