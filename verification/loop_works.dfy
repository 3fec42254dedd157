/** One cycle of `analysis_loop` in app_WORKS.py: the side to move is
    inferred geometrically from the first square that changed between the
    previous layout and the new one. The rules check (`chess.Board` plus
    `is_valid`) is the oracle `isValid`. */
module LoopWorks {
  import opened PyStr
  import opened Fen
  import opened State
  import opened Mover

  /** `self.my_color`: set to "w" in the constructor and never reassigned. */
  const MyColor: Color := White

  /** The layout: field 0 of the padded classifier output. */
  function LayoutOf(raw: String): String
  {
    PadFields(raw)[0]
  }

  /** The position sent to the engine: the padded fields with field 1
      replaced by the user's colour, joined by spaces. */
  function EvalFen(raw: String): String
  {
    Join(WithSideToMove(PadFields(raw), MyColor), ' ')
  }

  /** The engine position keeps every padded field except the side to move,
      which is "w". */
  lemma EvalFenFields(raw: String)
    ensures Split(EvalFen(raw), ' ') == PadFields(raw)[1 := "w"]
  {
    var f := WithSideToMove(PadFields(raw), MyColor);
    assert forall i :: 0 <= i < |f| ==> ' ' !in f[i];
    SplitJoin(f, ' ');
  }

  /** One pass of the `while self.analysis_active` body for classifier
      output `raw`. The baseline is replaced by the new layout before the
      mover check, unless that check raises. */
  function StepWorks<I>(s: AppState<I>, raw: String, isValid: String -> bool): (r: Step<I>)
    ensures EvalDiscipline(s, r)
    ensures r.state.(lastBoardLayout := s.lastBoardLayout, lastFen := s.lastFen) == s
    ensures r.action == Crashed ==> r.state == s
    ensures r.action != Crashed ==> r.state.lastBoardLayout == LayoutOf(raw)
  {
    var layout := LayoutOf(raw);
    if s.lastBoardLayout == "" then
      Step(s.(lastBoardLayout := layout), Baseline)
    else
      AfterDetection(s, layout, DetectMovedColor(s.lastBoardLayout, layout), EvalFen(raw), isValid)
  }

  /** The cycle once a baseline exists, given the outcome `d` of the mover
      check against it and the position `e` the engine would receive. */
  function AfterDetection<I>(s: AppState<I>, layout: String, d: Detection, e: String,
                             isValid: String -> bool): (r: Step<I>)
    ensures EvalDiscipline(s, r)
    ensures r.state.(lastBoardLayout := s.lastBoardLayout, lastFen := s.lastFen) == s
    ensures r.action == Crashed <==> d == IndexError
    ensures r.action == Crashed ==> r.state == s
    ensures r.action != Crashed ==> r.state.lastBoardLayout == layout
  {
    match d
    case IndexError => Step(s, Crashed)
    case Undetected => Step(s.(lastBoardLayout := layout), NoMover)
    case Detected(mover) =>
      var s1 := s.(lastBoardLayout := layout);
      if mover.Opposite() != MyColor then Step(s1, OpponentsTurn)
      else CheckAndEvaluate(s1, e, isValid)
  }

  /** The tail of the cycle once it is the user's turn: the rules check,
      then the comparison with `last_fen`. */
  function CheckAndEvaluate<I>(s: AppState<I>, e: String, isValid: String -> bool): (r: Step<I>)
    ensures EvalDiscipline(s, r)
    ensures r.state == s.(lastFen := r.state.lastFen)
    ensures r.action == Rejected(e) <==> !isValid(e)
    ensures r.action == Evaluated(e) <==> isValid(e) && e != s.lastFen
    ensures r.action == Repeated(e) <==> isValid(e) && e == s.lastFen
    ensures r.action in {Rejected(e), Evaluated(e), Repeated(e)}
  {
    if !isValid(e) then Step(s, Rejected(e))
    else if e != s.lastFen then Step(s.(lastFen := e), Evaluated(e))
    else Step(s, Repeated(e))
  }

  /** Which branch a cycle takes, as a function of the tracked layout, the
      mover detected against it, the rules check and `last_fen`. */
  lemma WorksStepCases<I>(s: AppState<I>, raw: String, isValid: String -> bool)
    ensures var a := StepWorks(s, raw, isValid).action;
      var d := DetectMovedColor(s.lastBoardLayout, LayoutOf(raw));
      && (a == Baseline <==> s.lastBoardLayout == "")
      && (a == Crashed <==> s.lastBoardLayout != "" && d == IndexError)
      && (a == NoMover <==> s.lastBoardLayout != "" && d == Undetected)
      && (a == OpponentsTurn <==> s.lastBoardLayout != "" && d == Detected(White))
      && (a == Rejected(EvalFen(raw)) <==>
            s.lastBoardLayout != "" && d == Detected(Black) && !isValid(EvalFen(raw)))
      && (a == Repeated(EvalFen(raw)) <==>
            s.lastBoardLayout != "" && d == Detected(Black) && isValid(EvalFen(raw)) && EvalFen(raw) == s.lastFen)
      && (a.Rejected? || a.Repeated? || a.Evaluated? ==> a.fen == EvalFen(raw))
  {
  }

  /** The engine is asked about a frame exactly when a layout is already
      being tracked, black is found to have moved (so it is white's turn,
      the user's colour), the position passes the rules check, and it
      differs from the last position evaluated. */
  lemma WorksEvaluatesIff<I>(s: AppState<I>, raw: String, isValid: String -> bool)
    ensures StepWorks(s, raw, isValid).action == Evaluated(EvalFen(raw)) <==>
      && s.lastBoardLayout != ""
      && DetectMovedColor(s.lastBoardLayout, LayoutOf(raw)) == Detected(Black)
      && isValid(EvalFen(raw))
      && EvalFen(raw) != s.lastFen
    ensures StepWorks(s, raw, isValid).action.Evaluated? ==>
      StepWorks(s, raw, isValid).action == Evaluated(EvalFen(raw))
  {
  }

  /** While no layout is tracked, a frame only becomes the baseline, and the
      next frame compares against it. */
  lemma WorksFirstFrameIsBaseline<I>(s: AppState<I>, raw: String, isValid: String -> bool)
    requires s.lastBoardLayout == ""
    ensures StepWorks(s, raw, isValid) == Step(s.(lastBoardLayout := LayoutOf(raw)), Baseline)
  {
  }

  /** Classifying the same picture again never reaches the engine: the
      layout compared with itself yields no mover (or, for a layout with a
      short row, the crash). */
  lemma WorksSameLayoutNotEvaluated<I>(s: AppState<I>, raw: String, isValid: String -> bool)
    requires s.lastBoardLayout == LayoutOf(raw) && s.lastBoardLayout != ""
    ensures StepWorks(s, raw, isValid).action in {NoMover, Crashed}
    ensures WellFormed(LayoutOf(raw)) ==> StepWorks(s, raw, isValid).action == NoMover
  {
    DetectMovedColorSame(LayoutOf(raw));
  }

  /** A white piece appearing on an empty board means white moved, so it is
      black's turn: not the user's, and nothing is evaluated. */
  lemma WorksOnePawnIsOpponentsTurn<I>(s: AppState<I>, raw: String, isValid: String -> bool)
    requires s.lastBoardLayout == "8/8/8/8/8/8/8/8"
    requires LayoutOf(raw) == "8/8/8/8/8/8/8/4P3"
    ensures StepWorks(s, raw, isValid).action == OpponentsTurn
  {
    OnePawnDetected();
  }

  /** The same classifier output twice in a row is evaluated at most once. */
  lemma WorksRepeatEvaluatedOnce<I>(s: AppState<I>, raw: String, isValid: String -> bool)
    ensures var r1 := StepWorks(s, raw, isValid);
      r1.action != Crashed ==> !StepWorks(r1.state, raw, isValid).action.Evaluated?
  {
    var r1 := StepWorks(s, raw, isValid);
    if r1.action != Crashed && LayoutOf(raw) != "" {
      WorksSameLayoutNotEvaluated(r1.state, raw, isValid);
    }
  }

  /** The loop over successive classifier outputs. An uncaught exception
      ends the thread, so nothing after a crash is processed. */
  function RunWorks<I>(s: AppState<I>, raws: seq<String>, isValid: String -> bool): (steps: seq<Step<I>>)
    ensures |steps| <= |raws|
    ensures |raws| > 0 ==> |steps| > 0
    decreases |raws|
  {
    if |raws| == 0 then []
    else
      var r := StepWorks(s, raws[0], isValid);
      if r.action == Crashed then [r] else [r] + RunWorks(r.state, raws[1..], isValid)
  }

  lemma {:induction false} RunWorksDisciplined<I>(s: AppState<I>, raws: seq<String>, isValid: String -> bool)
    ensures Disciplined(s, RunWorks(s, raws, isValid))
    decreases |raws|
  {
    if |raws| > 0 {
      var r := StepWorks(s, raws[0], isValid);
      if r.action != Crashed {
        RunWorksDisciplined(r.state, raws[1..], isValid);
        assert RunWorks(s, raws, isValid)[1..] == RunWorks(r.state, raws[1..], isValid);
      }
    }
  }

  /** Over any run, the engine never receives the same position twice in a
      row, and `last_fen` ends as the last position it received. */
  lemma WorksRunNoRepeats<I>(s: AppState<I>, raws: seq<String>, isValid: String -> bool)
    ensures var steps := RunWorks(s, raws, isValid);
      && NoAdjacentRepeats(EvaluatedFens(steps))
      && (|EvaluatedFens(steps)| > 0 ==> EvaluatedFens(steps)[0] != s.lastFen)
      && (|EvaluatedFens(steps)| > 0 ==>
            Final(s, steps).lastFen == EvaluatedFens(steps)[|EvaluatedFens(steps)| - 1])
  {
    RunWorksDisciplined(s, raws, isValid);
    DisciplinedRun(s, RunWorks(s, raws, isValid));
  }
}
