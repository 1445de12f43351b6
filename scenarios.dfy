/** Runs of several ticks, driven through the machines' contracts alone. */
module Scenarios {
  import opened Board
  import opened Colors
  import opened GuessInput
  import opened TestMachine
  import opened ScreenMachine

  /**
   * A new test takes four setup calls (red, green, blue, then the move on), one presentation
   * call and only then reaches the testing phase; whatever the buttons do meanwhile is ignored,
   * no call finishes, and the only LED calls are all-off, then on for the hidden colours.
   */
  method NewTestRun(m: TestFsm, vx: seq<U32>, vy: seq<U32>, bottom: seq<bool>, top: seq<bool>)
    returns (finished: seq<bool>, actions: seq<seq<Action>>)
    requires m.Valid()
    requires |vx| == 5 && |vy| == 5 && |bottom| == 5 && |top| == 5
    modifies m
    ensures m.Valid()
    ensures finished == [false, false, false, false, false]
    ensures m.actualColor == ColorMix(RandomBit(vx[0], vy[0]), RandomBit(vx[1], vy[1]), RandomBit(vx[2], vy[2]))
    ensures m.testState == Testing && m.guessColor == NoColor && m.arrowPos == TOP_OPTION_POS
    ensures actions == [AllLedsOff, [], [], [], LightUp(m.actualColor)]
  {
    var f0, _, a0 := m.Tick(true, vx[0], vy[0], bottom[0], top[0]);
    assert m.testState == Setup && m.colorIndex == GREEN;
    var f1, _, a1 := m.Tick(false, vx[1], vy[1], bottom[1], top[1]);
    var f2, _, a2 := m.Tick(false, vx[2], vy[2], bottom[2], top[2]);
    assert m.testState == Setup && m.colorIndex == END;
    var f3, _, a3 := m.Tick(false, vx[3], vy[3], bottom[3], top[3]);
    assert m.testState == Lightup;
    var f4, _, a4 := m.Tick(false, vx[4], vy[4], bottom[4], top[4]);
    finished := [f0, f1, f2, f3, f4];
    actions := [a0, a1, a2, a3, a4];
  }

  /**
   * From the instructions screen: a bottom press opens the test screen, then five test ticks
   * with the buttons released bring the test machine to the testing phase with the hidden mix
   * drawn from the three samples.
   */
  method StartTest(s: ScreensFsm, vx: seq<U32>, vy: seq<U32>)
    requires s.Valid() && s.state == Instructions
    requires |vx| == 3 && |vy| == 3
    modifies s, s.test
    ensures s.Valid() && s.state == Test && !s.newTest
    ensures s.test.testState == Testing && s.test.guessColor == NoColor && s.test.arrowPos == TOP_OPTION_POS
    ensures s.test.actualColor == ColorMix(RandomBit(vx[0], vy[0]), RandomBit(vx[1], vy[1]), RandomBit(vx[2], vy[2]))
  {
    var out, actions := s.Tick(false, true, false, 0, 0);
    assert out.drawTestScreen && s.newTest;
    out, actions := s.Tick(false, false, false, vx[0], vy[0]);
    assert actions == AllLedsOff;
    out, actions := s.Tick(false, false, false, vx[1], vy[1]);
    out, actions := s.Tick(false, false, false, vx[2], vy[2]);
    out, actions := s.Tick(false, false, false, 0, 0);
    out, actions := s.Tick(false, false, false, 0, 0);
  }

  /** From power-up: the opening screen, then the instructions once the timer expires. */
  method Boot() returns (s: ScreensFsm)
    ensures fresh(s) && fresh(s.test)
    ensures s.Valid() && s.state == Instructions
  {
    s := new ScreensFsm();
    var out, actions := s.Tick(false, false, false, 0, 0);
    assert s.state == Opening;
    out, actions := s.Tick(true, false, false, 0, 0);
  }

  /** During the test, bottom presses alone move the arrow down and leave both mixes alone. */
  method MoveDown(s: ScreensFsm, n: nat)
    requires s.Valid() && s.state == Test && !s.newTest && s.test.testState == Testing
    requires InRange(s.test.arrowPos) && s.test.arrowPos + n <= BOTTOM_OPTION_POS
    modifies s, s.test
    ensures s.Valid() && s.state == Test && !s.newTest && s.test.testState == Testing
    ensures s.test.arrowPos == old(s.test.arrowPos) + n
    ensures s.test.guessColor == old(s.test.guessColor) && s.test.actualColor == old(s.test.actualColor)
  {
    var k := 0;
    while k < n
      invariant 0 <= k <= n
      invariant s.Valid() && s.state == Test && !s.newTest && s.test.testState == Testing
      invariant s.test.arrowPos == old(s.test.arrowPos) + k
      invariant s.test.guessColor == old(s.test.guessColor) && s.test.actualColor == old(s.test.actualColor)
    {
      var out, actions := s.Tick(false, true, false, 0, 0);
      k := k + 1;
    }
  }

  /**
   * Hidden mix red and blue; the user selects Red, moves to End and selects it. The guess is
   * red only, so the result screen says wrong, and only that; a button on the result screen
   * does nothing, the timer brings back the instructions.
   */
  method WrongGuess() returns (verdictShown: seq<Action>, back: ScreenState)
    ensures DrawEndTestScreen(false) in verdictShown
    ensures DrawEndTestScreen(true) !in verdictShown
    ensures back == Instructions
  {
    var s := Boot();
    StartTest(s, [1, 0, 1], [0, 0, 0]);
    assert s.test.actualColor == ColorMix(true, false, true);
    var out, actions := s.Tick(false, false, true, 0, 0);
    assert s.test.guessColor == ColorMix(true, false, false) && s.state == Test;
    MoveDown(s, 3);
    out, verdictShown := s.Tick(false, false, true, 0, 0);
    assert s.state == TestEnd;
    out, actions := s.Tick(false, true, true, 0, 0);
    assert s.state == TestEnd;
    out, actions := s.Tick(true, false, false, 0, 0);
    back := s.state;
  }

  /**
   * Hidden mix dark; the user moves straight to End, pressing both buttons on the last move,
   * so the selection falls on End. The guess stays dark and the result screen says right, and only that.
   */
  method DarkRightGuess() returns (verdictShown: seq<Action>)
    ensures DrawEndTestScreen(true) in verdictShown
    ensures DrawEndTestScreen(false) !in verdictShown
  {
    var s := Boot();
    StartTest(s, [0, 1, 2], [0, 1, 2]);
    assert s.test.actualColor == NoColor;
    MoveDown(s, 2);
    var out;
    out, verdictShown := s.Tick(false, true, true, 0, 0);
    assert s.state == TestEnd && s.test.guessColor == NoColor;
  }
}
