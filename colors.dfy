/** The colour mix of the booster LED and the comparison of two mixes. */
module Colors {

  /** Which of red, green and blue a mix holds; all eight combinations, dark included, are valid. */
  datatype ColorMix = ColorMix(hasRed: bool, hasGreen: bool, hasBlue: bool)

  /** The dark mix, which the guess starts from. */
  const NoColor := ColorMix(false, false, false)

  /** `after` holds every colour that `before` holds: a guess only ever grows. */
  predicate Extends(before: ColorMix, after: ColorMix)
  {
    (before.hasRed ==> after.hasRed) &&
    (before.hasGreen ==> after.hasGreen) &&
    (before.hasBlue ==> after.hasBlue)
  }

  /** The guess is right exactly when it is the actual mix. */
  function Match(guessColor: ColorMix, actualColor: ColorMix): (r: bool)
    ensures r <==> guessColor == actualColor
  {
    guessColor.hasBlue == actualColor.hasBlue &&
    guessColor.hasGreen == actualColor.hasGreen &&
    guessColor.hasRed == actualColor.hasRed
  }

  /** Match is an equivalence: reflexive, symmetric and transitive. */
  lemma MatchIsEquivalence(a: ColorMix, b: ColorMix, c: ColorMix)
    ensures Match(a, a)
    ensures Match(a, b) == Match(b, a)
    ensures Match(a, b) && Match(b, c) ==> Match(a, c)
  {
  }

  /** Extends is a preorder, so a guess that grows on every step has grown overall. */
  lemma ExtendsIsPreorder(a: ColorMix, b: ColorMix, c: ColorMix)
    ensures Extends(a, a)
    ensures Extends(a, b) && Extends(b, c) ==> Extends(a, c)
  {
  }
}
