/** One cycle of `analysis_loop` in app_deprecated.py: every frame is
    classified, the side-to-move field is overwritten with the user's
    colour, and a position is evaluated when the rules check accepts it and
    it differs from the last one evaluated. There is no baseline wait. The
    rules check (`chess.Board`, `is_valid`, `is_game_over(claim_draw=True)`)
    is the pair of oracles `isValid` and `isGameOver`. */
module LoopDeprecated {
  import opened PyStr
  import opened Fen
  import opened State

  /** The position sent to the engine: the unpadded fields of
      `raw_fen.split(" ")` with field 1 replaced by the user's colour. */
  function EvalFen(raw: String, userColor: Color): String
    requires |Split(raw, ' ')| >= 2
  {
    Join(WithSideToMove(Split(raw, ' '), userColor), ' ')
  }

  /** The engine position keeps every classifier field verbatim except the
      side to move, which is the user's colour. */
  lemma EvalFenFields(raw: String, userColor: Color)
    requires |Split(raw, ' ')| >= 2
    ensures Split(EvalFen(raw, userColor), ' ') == Split(raw, ' ')[1 := userColor.Code()]
  {
    var f := WithSideToMove(Split(raw, ' '), userColor);
    assert ' ' !in userColor.Code();
    assert forall i :: 0 <= i < |f| ==> ' ' !in f[i];
    SplitJoin(f, ' ');
  }

  /** One pass of the `while self.analysis_active` body. With fewer than two
      fields the assignment to `fen_parts[1]` raises IndexError, which
      nothing catches, so the thread ends. */
  function StepDeprecated<I>(s: AppState<I>, raw: String, userColor: Color,
                             isValid: String -> bool, isGameOver: String -> bool): (r: Step<I>)
    ensures EvalDiscipline(s, r)
    ensures r.state == s.(lastFen := r.state.lastFen)
    ensures r.action == Crashed <==> ' ' !in raw
    ensures r.action.Rejected? || r.action.Repeated? || r.action.Evaluated? ==>
      |Split(raw, ' ')| >= 2 && r.action.fen == EvalFen(raw, userColor)
    ensures r.action.Rejected? <==>
      |Split(raw, ' ')| >= 2 && (!isValid(EvalFen(raw, userColor)) || isGameOver(EvalFen(raw, userColor)))
    ensures r.action.Evaluated? ==> isValid(r.action.fen) && !isGameOver(r.action.fen)
    ensures r.action.Repeated? ==> r.action.fen == s.lastFen
    ensures r.action in {Crashed} || r.action.Rejected? || r.action.Repeated? || r.action.Evaluated?
  {
    var parts := Split(raw, ' ');
    SplitSingleField(raw, ' ');
    if |parts| < 2 then Step(s, Crashed)
    else
      var e := EvalFen(raw, userColor);
      if !isValid(e) || isGameOver(e) then Step(s, Rejected(e))
      else if e != s.lastFen then Step(s.(lastFen := e), Evaluated(e))
      else Step(s, Repeated(e))
  }

  /** From the initial state the first frame the rules check accepts is
      always evaluated: `last_fen` starts empty and no engine position is
      empty. */
  lemma DeprecatedFirstValidEvaluated<I>(raw: String, userColor: Color,
                                        isValid: String -> bool, isGameOver: String -> bool)
    requires |Split(raw, ' ')| >= 2
    requires isValid(EvalFen(raw, userColor)) && !isGameOver(EvalFen(raw, userColor))
    ensures StepDeprecated(Initial<I>(), raw, userColor, isValid, isGameOver).action
      == Evaluated(EvalFen(raw, userColor))
  {
    SplitSingleField(raw, ' ');
    JoinHasSeparator(WithSideToMove(Split(raw, ' '), userColor), ' ');
  }

  /** The same frame twice in a row is evaluated at most once: after an
      evaluation the identical frame is a repeat. */
  lemma DeprecatedRepeatSuppressed<I>(s: AppState<I>, raw: String, userColor: Color,
                                     isValid: String -> bool, isGameOver: String -> bool)
    ensures var r1 := StepDeprecated(s, raw, userColor, isValid, isGameOver);
      r1.action.Evaluated? ==>
        StepDeprecated(r1.state, raw, userColor, isValid, isGameOver) == Step(r1.state, Repeated(r1.action.fen))
  {
  }

  /** A frame of the loop: the classifier output and the colour selected
      when it was taken. */
  datatype Frame = Frame(raw: String, userColor: Color)

  /** The loop over successive frames, ending at the first crash. */
  function RunDeprecated<I>(s: AppState<I>, frames: seq<Frame>,
                            isValid: String -> bool, isGameOver: String -> bool): (steps: seq<Step<I>>)
    ensures |steps| <= |frames|
    ensures |frames| > 0 ==> |steps| > 0
    decreases |frames|
  {
    if |frames| == 0 then []
    else
      var r := StepDeprecated(s, frames[0].raw, frames[0].userColor, isValid, isGameOver);
      if r.action == Crashed then [r]
      else [r] + RunDeprecated(r.state, frames[1..], isValid, isGameOver)
  }

  lemma {:induction false} RunDeprecatedDisciplined<I>(s: AppState<I>, frames: seq<Frame>,
                                                      isValid: String -> bool, isGameOver: String -> bool)
    ensures Disciplined(s, RunDeprecated(s, frames, isValid, isGameOver))
    decreases |frames|
  {
    if |frames| > 0 {
      var r := StepDeprecated(s, frames[0].raw, frames[0].userColor, isValid, isGameOver);
      if r.action != Crashed {
        RunDeprecatedDisciplined(r.state, frames[1..], isValid, isGameOver);
        assert RunDeprecated(s, frames, isValid, isGameOver)[1..]
          == RunDeprecated(r.state, frames[1..], isValid, isGameOver);
      }
    }
  }

  /** Over any run, consecutive engine positions differ and `last_fen` ends
      as the last position evaluated. */
  lemma DeprecatedRunNoRepeats<I>(s: AppState<I>, frames: seq<Frame>,
                                 isValid: String -> bool, isGameOver: String -> bool)
    ensures var steps := RunDeprecated(s, frames, isValid, isGameOver);
      && NoAdjacentRepeats(EvaluatedFens(steps))
      && (|EvaluatedFens(steps)| > 0 ==> EvaluatedFens(steps)[0] != s.lastFen)
      && (|EvaluatedFens(steps)| > 0 ==>
            Final(s, steps).lastFen == EvaluatedFens(steps)[|EvaluatedFens(steps)| - 1])
  {
    RunDeprecatedDisciplined(s, frames, isValid, isGameOver);
    DisciplinedRun(s, RunDeprecated(s, frames, isValid, isGameOver));
  }
}
