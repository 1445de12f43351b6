/**
 * The guess handler of the colour test: the bottom button moves an arrow down a four-row menu
 * (Red, Green, Blue, End test), the top button selects the option under the arrow.
 * It keeps no state of its own; the arrow position and the guess are passed in and handed back.
 */
module GuessInput {
  import opened Board
  import opened Colors

  /** Display rows of the first option ("Red") and the last option ("End test"). */
  const TOP_OPTION_POS: U32 := 1
  const BOTTOM_OPTION_POS: U32 := 4

  /** Menu indices, counted from the top option: the colours of `color_t`, then END. */
  const RED: U32 := 0
  const GREEN: U32 := 1
  const BLUE: U32 := 2
  const END: U32 := 3

  /** Display columns of the arrow and of the selection star. */
  const ARROW_COL: U32 := 1
  const STAR_COL: U32 := 9

  /** The arrow is on one of the four menu rows. */
  predicate InRange(arrowPos: int)
  {
    TOP_OPTION_POS <= arrowPos <= BOTTOM_OPTION_POS
  }

  /** The arrow is on the Red, Green or Blue row. */
  predicate OnColor(arrowPos: int)
  {
    TOP_OPTION_POS <= arrowPos < TOP_OPTION_POS + END
  }

  /**
   * Where one bottom press moves the arrow: an unsigned increment, and back to the top row
   * once past the bottom row. Only the largest unsigned value, which wraps to 0, escapes the menu.
   */
  function Advance(arrowPos: U32): (next: U32)
    ensures InRange(arrowPos) ==> InRange(next) && next == arrowPos % 4 + 1
    ensures arrowPos < BOTTOM_OPTION_POS ==> next == arrowPos + 1
    ensures BOTTOM_OPTION_POS <= arrowPos < U32_LIMIT - 1 ==> next == TOP_OPTION_POS
    ensures arrowPos == U32_LIMIT - 1 ==> next == 0
  {
    var moved := (arrowPos + 1) % U32_LIMIT;
    if moved > BOTTOM_OPTION_POS then TOP_OPTION_POS else moved
  }

  /**
   * The guess after a top press with the arrow on row `arrowPos`. The option is the unsigned
   * difference from the top row, so row 0 and every row past Blue select nothing.
   */
  function Select(guessColor: ColorMix, arrowPos: U32): (selected: ColorMix)
    ensures Extends(guessColor, selected)
    ensures arrowPos == TOP_OPTION_POS + RED ==> selected == guessColor.(hasRed := true)
    ensures arrowPos == TOP_OPTION_POS + GREEN ==> selected == guessColor.(hasGreen := true)
    ensures arrowPos == TOP_OPTION_POS + BLUE ==> selected == guessColor.(hasBlue := true)
    ensures !OnColor(arrowPos) ==> selected == guessColor
  {
    var choice := (arrowPos - TOP_OPTION_POS) % U32_LIMIT;
    if choice == RED then guessColor.(hasRed := true)
    else if choice == GREEN then guessColor.(hasGreen := true)
    else if choice == BLUE then guessColor.(hasBlue := true)
    else guessColor
  }

  /** Selecting the same option twice is the same as selecting it once. */
  lemma SelectIdempotent(guessColor: ColorMix, arrowPos: U32)
    ensures Select(Select(guessColor, arrowPos), arrowPos) == Select(guessColor, arrowPos)
  {
  }

  /** The guess after top presses on the rows `rows`, in that order. */
  function SelectRows(guessColor: ColorMix, rows: seq<U32>): ColorMix
    decreases |rows|
  {
    if rows == [] then guessColor else SelectRows(Select(guessColor, rows[0]), rows[1..])
  }

  /** However many selections are made, no colour of the guess is ever cleared. */
  lemma {:induction false} SelectRowsExtends(guessColor: ColorMix, rows: seq<U32>)
    ensures Extends(guessColor, SelectRows(guessColor, rows))
    decreases |rows|
  {
    if rows != [] {
      var next := Select(guessColor, rows[0]);
      SelectRowsExtends(next, rows[1..]);
      ExtendsIsPreorder(guessColor, next, SelectRows(next, rows[1..]));
    }
  }

  /** The characters one call draws: the arrow erased and redrawn on a move, then the star on a selection. */
  function GuessDraws(arrowPos: U32, newPos: U32, bottomPushed: bool, topPushed: bool): (draws: seq<Action>)
    ensures forall a | a in draws :: a.DrawChar?
  {
    (if bottomPushed then [DrawChar(arrowPos, ARROW_COL, ' '), DrawChar(newPos, ARROW_COL, '>')] else [])
    + (if topPushed then [DrawChar(newPos, STAR_COL, '*')] else [])
  }

  /**
   * One call of the guess handler. The move is applied first, so when both buttons are
   * pressed the selection is made on the new row. Selecting END, or any row that is not a
   * colour, finishes the test and leaves the guess as it was.
   */
  method Guess(arrowPos: U32, guessColor: ColorMix, bottomPushed: bool, topPushed: bool)
    returns (newPos: U32, newGuess: ColorMix, finished: bool, actions: seq<Action>)
    ensures newPos == if bottomPushed then Advance(arrowPos) else arrowPos
    ensures newGuess == if topPushed then Select(guessColor, newPos) else guessColor
    ensures finished <==> topPushed && !OnColor(newPos)
    ensures actions == GuessDraws(arrowPos, newPos, bottomPushed, topPushed)
    ensures InRange(arrowPos) ==> InRange(newPos)
    ensures Extends(guessColor, newGuess)
    ensures finished ==> newGuess == guessColor
  {
    newPos := arrowPos;
    newGuess := guessColor;
    finished := false;
    actions := [];

    if bottomPushed {
      actions := actions + [DrawChar(newPos, ARROW_COL, ' ')];
      newPos := (newPos + 1) % U32_LIMIT;
      if newPos > BOTTOM_OPTION_POS {
        newPos := TOP_OPTION_POS;
      }
      actions := actions + [DrawChar(newPos, ARROW_COL, '>')];
    }

    if topPushed {
      actions := actions + [DrawChar(newPos, STAR_COL, '*')];
      var choice := (newPos - TOP_OPTION_POS) % U32_LIMIT;
      if choice == RED {
        newGuess := newGuess.(hasRed := true);
      } else if choice == GREEN {
        newGuess := newGuess.(hasGreen := true);
      } else if choice == BLUE {
        newGuess := newGuess.(hasBlue := true);
      } else {
        finished := true;
      }
    }
  }

  /** The arrow row after `n` bottom presses, with no top press, starting from `arrowPos`. */
  function PressBottom(arrowPos: U32, n: nat): U32
    decreases n
  {
    if n == 0 then arrowPos else PressBottom(Advance(arrowPos), n - 1)
  }

  /** From any menu row, `n` bottom presses land on row ((arrowPos - 1 + n) mod 4) + 1. */
  lemma {:induction false} PressBottomWraps(arrowPos: U32, n: nat)
    requires InRange(arrowPos)
    ensures InRange(PressBottom(arrowPos, n))
    ensures PressBottom(arrowPos, n) == (arrowPos - 1 + n) % 4 + 1
    decreases n
  {
    if n > 0 {
      PressBottomWraps(Advance(arrowPos), n - 1);
      if arrowPos == BOTTOM_OPTION_POS {
        assert (n - 1) % 4 == (3 + n) % 4;
      }
    }
  }

  /** Four bottom presses bring the arrow back to where it started. */
  lemma FourPressesReturn(arrowPos: U32)
    requires InRange(arrowPos)
    ensures PressBottom(arrowPos, 4) == arrowPos
  {
    PressBottomWraps(arrowPos, 4);
  }

  /** From Red, five bottom presses land on Green, and a top press there adds green to the guess. */
  lemma FivePressesSelectGreen(guessColor: ColorMix)
    ensures PressBottom(TOP_OPTION_POS, 5) == TOP_OPTION_POS + GREEN
    ensures Select(guessColor, PressBottom(TOP_OPTION_POS, 5)) == guessColor.(hasGreen := true)
  {
    PressBottomWraps(TOP_OPTION_POS, 5);
  }
}
