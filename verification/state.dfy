/** The analysis state shared by the three loop variants, the outcome of one
    loop cycle, and the discipline every evaluating variant keeps on
    `last_fen`: it changes only when a new position is sent to the engine. */
module State {
  import opened PyStr
  import opened Wrappers

  /** `region_box`: left, top, width, height of the captured screen area. */
  datatype Region = Region(x: int, y: int, w: int, h: int)

  /** The fields of the application object the core reads and writes.
      `lastImg` is absent until the first call of the pixel gate. `I` is the
      captured image, compared only for equality. */
  datatype AppState<I> = AppState(
    lastBoardLayout: String,
    lastFen: String,
    lastImg: Option<I>,
    lastRenderedFen: String,
    lastRenderedMove: String,
    analysisActive: bool,
    regionBox: Option<Region>)

  /** The state right after construction. */
  function Initial<I>(): (s: AppState<I>)
    ensures s.lastFen == "" && s.lastBoardLayout == "" && s.lastImg == None
    ensures s.lastRenderedFen == "" && s.lastRenderedMove == ""
    ensures !s.analysisActive && s.regionBox == None
  {
    AppState("", "", None, "", "", false, None)
  }

  /** What one cycle of an analysis loop did. */
  datatype Action =
    | GateSkipped            // the pixel gate saw no change; nothing was classified
    | Baseline               // first observation recorded, nothing evaluated
    | NoMover                // no side could be inferred from the layout diff
    | OpponentsTurn          // the inferred side to move is not the user's
    | Rejected(fen: String)  // the rules check refused the position
    | Repeated(fen: String)  // same position as the last one evaluated
    | Evaluated(fen: String) // position sent to the engine and shown
    | GuiUpdated(fen: String) // `update_gui` (engine query and display) returned normally
    | GuiRaised(fen: String) // `update_gui` was called and raised
    | Crashed                // an uncaught exception ended the analysis thread

  datatype Step<I> = Step(state: AppState<I>, action: Action)

  /** One cycle respects the evaluation discipline: an evaluation is of a
      position different from the last one and becomes the new `last_fen`;
      any other outcome leaves `last_fen` alone. */
  predicate EvalDiscipline<I>(s: AppState<I>, r: Step<I>)
  {
    && (r.action.Evaluated? ==> r.action.fen != s.lastFen && r.state.lastFen == r.action.fen)
    && (!r.action.Evaluated? ==> r.state.lastFen == s.lastFen)
  }

  /** Every cycle of a run, each starting from the previous cycle's state,
      keeps the discipline. */
  predicate Disciplined<I>(s: AppState<I>, steps: seq<Step<I>>)
    decreases |steps|
  {
    |steps| > 0 ==> EvalDiscipline(s, steps[0]) && Disciplined(steps[0].state, steps[1..])
  }

  /** The state after a run. */
  function Final<I>(s: AppState<I>, steps: seq<Step<I>>): AppState<I>
  {
    if |steps| == 0 then s else steps[|steps| - 1].state
  }

  /** The positions sent to the engine during a run, in order. */
  function EvaluatedFens<I>(steps: seq<Step<I>>): seq<String>
    decreases |steps|
  {
    if |steps| == 0 then []
    else (if steps[0].action.Evaluated? then [steps[0].action.fen] else []) + EvaluatedFens(steps[1..])
  }

  predicate NoAdjacentRepeats(xs: seq<String>)
  {
    forall i :: 0 < i < |xs| ==> xs[i - 1] != xs[i]
  }

  /** The last element of `xs`, or `d` when `xs` is empty. */
  function LastOr(xs: seq<String>, d: String): String
  {
    if |xs| == 0 then d else xs[|xs| - 1]
  }

  /** In a disciplined run `last_fen` ends as the last position evaluated,
      or as it began when nothing was evaluated. */
  lemma {:induction false} DisciplinedFinal<I>(s: AppState<I>, steps: seq<Step<I>>)
    requires Disciplined(s, steps)
    ensures Final(s, steps).lastFen == LastOr(EvaluatedFens(steps), s.lastFen)
    decreases |steps|
  {
    if |steps| > 0 {
      var r, rest := steps[0], steps[1..];
      DisciplinedFinal(r.state, rest);
      assert Final(s, steps) == Final(r.state, rest);
      var tail := EvaluatedFens(rest);
      if r.action.Evaluated? {
        assert EvaluatedFens(steps) == [r.action.fen] + tail;
      } else {
        assert EvaluatedFens(steps) == tail;
      }
    }
  }

  /** In a disciplined run consecutive evaluated positions differ, and the
      first differs from the starting `last_fen`. */
  lemma {:induction false} DisciplinedNoRepeats<I>(s: AppState<I>, steps: seq<Step<I>>)
    requires Disciplined(s, steps)
    ensures NoAdjacentRepeats(EvaluatedFens(steps))
    ensures |EvaluatedFens(steps)| > 0 ==> EvaluatedFens(steps)[0] != s.lastFen
    decreases |steps|
  {
    if |steps| > 0 {
      var r, rest := steps[0], steps[1..];
      DisciplinedNoRepeats(r.state, rest);
      var tail := EvaluatedFens(rest);
      if r.action.Evaluated? {
        var e := EvaluatedFens(steps);
        assert e == [r.action.fen] + tail;
        forall i | 0 < i < |e|
          ensures e[i - 1] != e[i]
        {
          if i > 1 {
            assert e[i - 1] == tail[i - 2] && e[i] == tail[i - 1];
          }
        }
      } else {
        assert EvaluatedFens(steps) == tail;
      }
    }
  }

  /** In a disciplined run the engine never sees the same position twice in
      a row, the first position differs from the starting `last_fen`, and
      `last_fen` ends as the last position evaluated (or as it began). */
  lemma DisciplinedRun<I>(s: AppState<I>, steps: seq<Step<I>>)
    requires Disciplined(s, steps)
    ensures NoAdjacentRepeats(EvaluatedFens(steps))
    ensures |EvaluatedFens(steps)| > 0 ==> EvaluatedFens(steps)[0] != s.lastFen
    ensures |EvaluatedFens(steps)| > 0 ==>
      Final(s, steps).lastFen == EvaluatedFens(steps)[|EvaluatedFens(steps)| - 1]
    ensures |EvaluatedFens(steps)| == 0 ==> Final(s, steps).lastFen == s.lastFen
  {
    DisciplinedNoRepeats(s, steps);
    DisciplinedFinal(s, steps);
  }
}
