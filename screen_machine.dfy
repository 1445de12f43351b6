/**
 * The root machine of the colour test, called once per pass of the main loop. It walks the
 * screens opening, instructions, test and result, and drives the test machine while the
 * test screen is up.
 */
module ScreenMachine {
  import opened Board
  import opened Colors
  import opened GuessInput
  import opened TestMachine

  /** Waits of the one-shot timer, in milliseconds. */
  const OPENING_WAIT: nat := 1000
  const ENDTEST_WAIT: nat := 2000

  datatype ScreenState = Inception | Opening | Instructions | Test | TestEnd

  /** The only screen each screen may move to: result goes back to instructions, not to opening. */
  function Successor(s: ScreenState): ScreenState
  {
    match s
    case Inception => Opening
    case Opening => Instructions
    case Instructions => Test
    case Test => TestEnd
    case TestEnd => Instructions
  }

  /** The output flags one tick computes. */
  datatype Outputs = Outputs(
    drawOpeningScreen: bool,
    drawInstructionsScreen: bool,
    drawTestScreen: bool,
    drawEndScreen: bool,
    startSWTimer: bool)

  const NoOutputs := Outputs(false, false, false, false, false)

  /** How many screens the flags ask to draw. */
  function DrawCount(out: Outputs): nat
  {
    (if out.drawOpeningScreen then 1 else 0) + (if out.drawInstructionsScreen then 1 else 0) +
    (if out.drawTestScreen then 1 else 0) + (if out.drawEndScreen then 1 else 0)
  }

  /**
   * The peripheral calls the flags lead to, in program order: the timer first, then the
   * screen. The timer is always started with the opening wait, the result screen's included.
   */
  function Perform(out: Outputs, result: bool): (actions: seq<Action>)
    ensures forall a | a in actions :: a.StartTimer? ==> a.waitMs == OPENING_WAIT
    ensures StartTimer(OPENING_WAIT) in actions <==> out.startSWTimer
    ensures out.startSWTimer ==> actions[0] == StartTimer(OPENING_WAIT)
    ensures DrawOpeningScreen in actions <==> out.drawOpeningScreen
    ensures DrawInstructionsScreen in actions <==> out.drawInstructionsScreen
    ensures DrawTestScreen in actions <==> out.drawTestScreen
    ensures DrawEndTestScreen(result) in actions <==> out.drawEndScreen
    ensures forall a | a in actions && a.DrawEndTestScreen? :: a.correct == result
    ensures |actions| == DrawCount(out) + (if out.startSWTimer then 1 else 0)
  {
    (if out.startSWTimer then [StartTimer(OPENING_WAIT)] else []) + Screens(out, result)
  }

  /** The screen calls the flags lead to, opening first, result last; no timer among them. */
  function Screens(out: Outputs, result: bool): (actions: seq<Action>)
    ensures forall a | a in actions :: !a.StartTimer?
    ensures DrawOpeningScreen in actions <==> out.drawOpeningScreen
    ensures DrawInstructionsScreen in actions <==> out.drawInstructionsScreen
    ensures DrawTestScreen in actions <==> out.drawTestScreen
    ensures DrawEndTestScreen(result) in actions <==> out.drawEndScreen
    ensures forall a | a in actions && a.DrawEndTestScreen? :: a.correct == result
    ensures |actions| == DrawCount(out)
  {
    var upper := (if out.drawOpeningScreen then [DrawOpeningScreen] else [])
      + (if out.drawInstructionsScreen then [DrawInstructionsScreen] else []);
    var lower := (if out.drawTestScreen then [DrawTestScreen] else [])
      + (if out.drawEndScreen then [DrawEndTestScreen(result)] else []);
    upper + lower
  }

  class ScreensFsm {
    var state: ScreenState
    /** Set on entry to the test screen, consumed by the first test tick. */
    var newTest: bool
    /** The test machine, whose state lives as long as the program. */
    const test: TestFsm

    /**
     * The object invariant: the new-test flag is only ever up on the test screen, and once the
     * first test tick has run, the arrow of the test machine is on a menu row.
     */
    ghost predicate Valid()
      reads this, test
    {
      test.Valid() &&
      (newTest ==> state == Test) &&
      (state == Test && !newTest ==> InRange(test.arrowPos))
    }

    constructor ()
      ensures Valid()
      ensures state == Inception && !newTest
      ensures fresh(test)
      ensures test.testState == Setup && test.colorIndex == RED && test.arrowPos == 0
      ensures test.actualColor == NoColor && test.guessColor == NoColor
    {
      state := Inception;
      newTest := false;
      test := new TestFsm();
    }

    /**
     * One pass of the main loop. `timerExpired` is what the one-shot timer reports, and
     * `bottomPushed`, `topPushed`, `vx`, `vy` are what the buttons and the joystick give
     * to whichever part reads them on this tick.
     */
    method Tick(timerExpired: bool, bottomPushed: bool, topPushed: bool, vx: U32, vy: U32)
      returns (out: Outputs, actions: seq<Action>)
      requires Valid()
      modifies this, test
      ensures Valid()
      // the screen cycle is strict: stay, or move to the one successor, drawing exactly one screen
      ensures state == old(state) || state == Successor(old(state))
      ensures DrawCount(out) == if state == old(state) then 0 else 1
      ensures out.drawOpeningScreen <==> state != old(state) && state == Opening
      ensures out.drawInstructionsScreen <==> state != old(state) && state == Instructions
      ensures out.drawTestScreen <==> state != old(state) && state == Test
      ensures out.drawEndScreen <==> state != old(state) && state == TestEnd
      ensures out.startSWTimer <==> state != old(state) && (state == Opening || state == TestEnd)
      // the trigger of each transition
      ensures old(state) == Inception ==> state == Opening
      ensures old(state) == Opening ==> (state == Instructions <==> timerExpired)
      ensures old(state) == Instructions ==> (state == Test <==> bottomPushed) && newTest == bottomPushed
      ensures old(state) == Test ==> (state == TestEnd <==> old(test.WouldFinish(newTest, bottomPushed, topPushed)))
      ensures old(state) == TestEnd ==> (state == Instructions <==> timerExpired)
      // the new-test flag reaches the test machine on the first test tick only
      ensures old(state) == Test ==> !newTest
      ensures old(state) != Instructions && old(state) != Test ==> newTest == old(newTest)
      // on the test screen the test machine takes exactly one step, a reset one on the first tick
      ensures old(state) == Test ==> test.Stepped(old(newTest), vx, vy, bottomPushed, topPushed)
      ensures old(state) == Test && old(newTest) ==>
        test.testState == Setup && test.colorIndex == RED + 1 && test.arrowPos == TOP_OPTION_POS &&
        test.guessColor == NoColor
      ensures old(state) != Test ==> unchanged(test)
      // what is performed: the test machine's calls, then the timer, then the screen
      ensures old(state) != Test ==> actions == Perform(out, false)
      ensures old(state) == Test ==>
        var tail := Perform(out, Match(test.guessColor, test.actualColor));
        |tail| <= |actions| && actions[|actions| - |tail|..] == tail &&
        test.Emitted(old(newTest), bottomPushed, topPushed, actions[..|actions| - |tail|])
      ensures out.drawEndScreen ==>
        DrawEndTestScreen(Match(test.guessColor, test.actualColor)) in actions
      ensures forall a | a in actions && a.DrawEndTestScreen? :: a.correct == Match(test.guessColor, test.actualColor)
      ensures forall a | a in actions :: a.StartTimer? ==> a.waitMs == OPENING_WAIT
    {
      out := NoOutputs;
      // the C local `result` is uninitialised and read only when the result screen is drawn
      var result := false;
      var testActions: seq<Action> := [];

      match state {
        case Inception =>
          state := Opening;
          out := out.(drawOpeningScreen := true, startSWTimer := true);
        case Opening =>
          if timerExpired {
            state := Instructions;
            out := out.(drawInstructionsScreen := true);
          }
        case Instructions =>
          if bottomPushed {
            state := Test;
            newTest := true;
            out := out.(drawTestScreen := true);
          }
        case Test =>
          var testFinished, verdict;
          testFinished, verdict, testActions := test.Tick(newTest, vx, vy, bottomPushed, topPushed);
          if testFinished {
            result := verdict.value;
            state := TestEnd;
            out := out.(drawEndScreen := true, startSWTimer := true);
          }
          newTest := false;
          assert out.drawEndScreen || out == NoOutputs;
        case TestEnd =>
          if timerExpired {
            state := Instructions;
            out := out.(drawInstructionsScreen := true);
          }
      }

      actions := testActions + Perform(out, result);
    }
  }
}
