/**
 * The test machine: it generates a hidden colour mix one colour per call, lights the LEDs
 * for it on the next call, then hands the buttons to the guess handler until End is selected.
 * Its state persists from call to call, so it is an object whose fields the calls update.
 */
module TestMachine {
  import opened Board
  import opened Colors
  import opened GuessInput

  /** The phases of one test, in the order they are passed through. */
  datatype TestState = Setup | Lightup | Testing

  /** Position of a phase in that order; within one test it never decreases. */
  function Rank(s: TestState): nat
  {
    match s
    case Setup => 0
    case Lightup => 1
    case Testing => 2
  }

  /** The random bit: the exclusive-or of the parities of the two joystick samples. */
  function RandomBit(vx: U32, vy: U32): (bit: bool)
    ensures bit <==> vx % 2 != vy % 2
  {
    ((vx % 2) as bv1 ^ (vy % 2) as bv1) == 1
  }

  /** What a new test does to the LEDs: blue, green and red switched off, in that order. */
  const AllLedsOff: seq<Action> := [LedOff(BlueLed), LedOff(GreenLed), LedOff(RedLed)]

  /** The LEDs the presentation phase switches on: one per colour of the mix, red first. */
  function LightUp(actualColor: ColorMix): (actions: seq<Action>)
    ensures forall a | a in actions :: a.LedOn?
    ensures LedOn(RedLed) in actions <==> actualColor.hasRed
    ensures LedOn(GreenLed) in actions <==> actualColor.hasGreen
    ensures LedOn(BlueLed) in actions <==> actualColor.hasBlue
    ensures |actions| == (if actualColor.hasRed then 1 else 0) + (if actualColor.hasGreen then 1 else 0)
                         + (if actualColor.hasBlue then 1 else 0)
    ensures actualColor.hasRed ==> actions[0] == LedOn(RedLed)
    ensures actualColor.hasBlue ==> actions[|actions| - 1] == LedOn(BlueLed)
    ensures actions == [] <==> actualColor == NoColor
  {
    (if actualColor.hasRed then [LedOn(RedLed)] else [])
    + (if actualColor.hasGreen then [LedOn(GreenLed)] else [])
    + (if actualColor.hasBlue then [LedOn(BlueLed)] else [])
  }

  class TestFsm {
    /** The hidden mix and the user's guess. */
    var actualColor: ColorMix
    var guessColor: ColorMix
    /** Which colour the next setup call assigns: 0 red, 1 green, 2 blue, anything else none. */
    var colorIndex: nat
    var testState: TestState
    /** Display row of the menu arrow. */
    var arrowPos: U32

    /**
     * The object invariant: setup has visited at most the three colours and the later phases
     * come after the fourth setup call; the guess stays dark until the user can make it; the
     * arrow is on a menu row, or on row 0 before the first test.
     */
    ghost predicate Valid()
      reads this
    {
      (testState == Setup ==> colorIndex <= END) &&
      (testState != Setup ==> colorIndex == END + 1) &&
      (testState != Testing ==> guessColor == NoColor) &&
      arrowPos <= BOTTOM_OPTION_POS
    }

    /** The machine as the program starts: every static variable zero. */
    constructor ()
      ensures Valid()
      ensures actualColor == NoColor && guessColor == NoColor
      ensures colorIndex == RED && testState == Setup && arrowPos == 0
    {
      actualColor := NoColor;
      guessColor := NoColor;
      colorIndex := RED;
      testState := Setup;
      arrowPos := 0;
    }

    /** A call with these inputs ends the test: it can only happen in the testing phase. */
    ghost predicate WouldFinish(newTest: bool, bottomPushed: bool, topPushed: bool)
      reads this
    {
      !newTest && testState == Testing && topPushed &&
      !OnColor(if bottomPushed then Advance(arrowPos) else arrowPos)
    }

    /**
     * How one call changes the state. A new test clears the per-test state and runs the
     * first setup step; setup assigns red, green, blue on successive calls and moves on at
     * the fourth; lightup lasts one call; testing hands the arrow and the guess to the guess
     * handler. The hidden mix is only written during setup.
     */
    twostate predicate Stepped(newTest: bool, vx: U32, vy: U32, bottomPushed: bool, topPushed: bool)
      reads this
    {
      (newTest ==>
        testState == Setup && colorIndex == RED + 1 && arrowPos == TOP_OPTION_POS &&
        guessColor == NoColor && actualColor == old(actualColor).(hasRed := RandomBit(vx, vy))) &&
      (!newTest && old(testState) == Setup ==>
        colorIndex == old(colorIndex) + 1 && guessColor == old(guessColor) && arrowPos == old(arrowPos) &&
        (old(colorIndex) == RED ==> testState == Setup && actualColor == old(actualColor).(hasRed := RandomBit(vx, vy))) &&
        (old(colorIndex) == GREEN ==> testState == Setup && actualColor == old(actualColor).(hasGreen := RandomBit(vx, vy))) &&
        (old(colorIndex) == BLUE ==> testState == Setup && actualColor == old(actualColor).(hasBlue := RandomBit(vx, vy))) &&
        (old(colorIndex) == END ==> testState == Lightup && actualColor == old(actualColor))) &&
      (!newTest && old(testState) == Lightup ==>
        testState == Testing && actualColor == old(actualColor) && guessColor == old(guessColor) &&
        colorIndex == old(colorIndex) && arrowPos == old(arrowPos)) &&
      (!newTest && old(testState) == Testing ==>
        testState == Testing && actualColor == old(actualColor) && colorIndex == old(colorIndex) &&
        arrowPos == (if bottomPushed then Advance(old(arrowPos)) else old(arrowPos)) &&
        guessColor == (if topPushed then Select(old(guessColor), arrowPos) else old(guessColor)))
    }

    /**
     * The peripheral calls of one call: all LEDs off on a new test, then nothing during setup,
     * the hidden colours on in lightup, the arrow and star characters in testing.
     */
    twostate predicate Emitted(newTest: bool, bottomPushed: bool, topPushed: bool, actions: seq<Action>)
      reads this
    {
      (newTest ==> actions == AllLedsOff) &&
      (!newTest && old(testState) == Setup ==> actions == []) &&
      (!newTest && old(testState) == Lightup ==> actions == LightUp(actualColor)) &&
      (!newTest && old(testState) == Testing ==>
        actions == GuessDraws(old(arrowPos), arrowPos, bottomPushed, topPushed))
    }

    /**
     * One call of the test machine. `newTest` resets the per-test state first; the joystick
     * samples `vx`, `vy` are used only during setup and the buttons only during testing.
     * `result` is None when the caller's result variable is left unwritten.
     */
    method Tick(newTest: bool, vx: U32, vy: U32, bottomPushed: bool, topPushed: bool)
      returns (finished: bool, result: Option<bool>, actions: seq<Action>)
      requires Valid()
      modifies this
      ensures Valid()
      // the test ends only from the testing phase, and only then is the verdict written
      ensures finished <==> old(WouldFinish(newTest, bottomPushed, topPushed))
      ensures result == if finished then Some(Match(guessColor, actualColor)) else None
      ensures Stepped(newTest, vx, vy, bottomPushed, topPushed)
      ensures Emitted(newTest, bottomPushed, topPushed, actions)
      // within one test: phases never go back, the hidden mix is frozen after setup,
      // the guess only grows and the arrow stays on the menu
      ensures !newTest ==> Rank(old(testState)) <= Rank(testState)
      ensures !newTest && old(testState) != Setup ==> actualColor == old(actualColor)
      ensures !newTest ==> Extends(old(guessColor), guessColor)
      ensures newTest || InRange(old(arrowPos)) ==> InRange(arrowPos)
    {
      finished := false;
      result := None;
      actions := [];

      if newTest {
        testState := Setup;
        colorIndex := RED;
        arrowPos := TOP_OPTION_POS;
        actions := actions + [LedOff(BlueLed), LedOff(GreenLed), LedOff(RedLed)];
        guessColor := guessColor.(hasRed := false);
        guessColor := guessColor.(hasGreen := false);
        guessColor := guessColor.(hasBlue := false);
      }

      match testState {
        case Setup =>
          var randomBit := RandomBit(vx, vy);
          if colorIndex == RED {
            actualColor := actualColor.(hasRed := randomBit);
          } else if colorIndex == GREEN {
            actualColor := actualColor.(hasGreen := randomBit);
          } else if colorIndex == BLUE {
            actualColor := actualColor.(hasBlue := randomBit);
          } else {
            testState := Lightup;
          }
          colorIndex := colorIndex + 1;
        case Lightup =>
          if actualColor.hasRed {
            actions := actions + [LedOn(RedLed)];
          }
          if actualColor.hasGreen {
            actions := actions + [LedOn(GreenLed)];
          }
          if actualColor.hasBlue {
            actions := actions + [LedOn(BlueLed)];
          }
          testState := Testing;
        case Testing =>
          var draws;
          arrowPos, guessColor, finished, draws := Guess(arrowPos, guessColor, bottomPushed, topPushed);
          actions := actions + draws;
      }

      if finished {
        result := Some(Match(guessColor, actualColor));
      }
    }
  }
}
