# FENVision-AI board-change acceptance, modelled in Dafny

FENVision-AI watches a screen region that shows a chess board. It classifies
each capture into a Forsyth-Edwards Notation (FEN) string, as in section 16.1
of the PGN Standard. It then decides whether to send that position to a chess
engine and with which side to move. The decision logic exists in three
variants, one per application file:

- `app_WORKS.py` infers the side to move geometrically. It diffs the new
  piece layout against the previous one and takes the first changed square
  that has a piece letter on either side.
- `app_deprecated.py` always uses the user's colour as the side to move. It
  evaluates any accepted position that differs from the last one evaluated.
- `app.py` puts a pixel-change gate in front of the classifier. After a
  baseline frame, it sends every frame that passes the gate to `update_gui`,
  which queries the engine.

This project models these loops as pure step functions over one immutable
state record (`State.AppState`). It also models the small pure helpers around
them:

- run-length row expansion (`expand_row`);
- first-difference mover detection (`detect_moved_color`);
- FEN field padding;
- the pixel gate;
- render de-duplication and arrow extraction;
- the integer part of the evaluation bar;
- drag-rectangle normalisation;
- the start/stop controls.

The needed Python string semantics are defined explicitly in `PyStr`:
`split` with an explicit separator keeps empty fields, plus `join`, `strip`,
`isdigit`, `isupper` and `islower`.

External collaborators are represented as follows:

- The classifier is represented by its output string.
- Captured images are an opaque type compared only for equality.
- The rules library (`chess.Board` validity, `is_game_over`) is a set of
  function parameters.
- Whether `update_gui` raises is a per-frame input.
- Engine evaluation is an emitted action (`Evaluated`, `GuiUpdated`,
  `GuiRaised`).

Files:

- `pystr.dfy`: Python string semantics.
- `wrappers.dfy`: the optional value.
- `fen.dfy`: colours, row expansion, field padding, side-to-move splice.
- `mover.dfy`: mover detection and its reference characterisation.
- `state.dfy`: the state record, cycle outcomes, and the "no repeated evaluation" discipline.
- `gate.dfy`: the pixel gate.
- `render.dfy`: render de-duplication and arrows.
- `evalbar.dfy`: the evaluation bar.
- `controls.dfy`: region and start/stop.
- `loop_works.dfy`, `loop_deprecated.dfy`, `loop_app.dfy`: the three loops.

Behaviour of the code worth knowing, which the model reproduces:

- In `detect_moved_color`, a scanned row that expands to fewer than eight
  squares raises IndexError (`Mover.Detection.IndexError`). In app_WORKS.py
  nothing catches it, so the analysis thread ends (`Crashed`) with
  `last_board_layout` not updated. Rows longer than eight squares are
  accepted, and only their first eight squares are read.
- app.py calls `update_gui`, and so the engine, for every frame that passes
  the pixel gate after the baseline, including an unchanged position; the
  comparison with `last_fen` only logs. It sets `last_fen` only when
  `update_gui` returns, and without any rules check.
- app_deprecated.py overwrites the classifier's side-to-move field with the
  user's colour.
- app_WORKS.py evaluates only when the inferred side to move equals
  `my_color`, which is fixed at "w", so only a detected black move leads to
  an evaluation.
- app_WORKS.py replaces `last_board_layout` before the rules check, while
  `last_fen` changes only for a position that passed it.

## Model

| member | source | states |
|---|---|---|
| PyStr.Join | app.py:394 | `sep.join(parts)`; its properties are the round trips `PyStr.JoinSplit` and `PyStr.SplitJoin` and `PyStr.JoinHasSeparator` |
| PyStr.Split | app.py:444-445 | `str.split(sep)` always yields at least one field, and no field contains the separator |
| PyStr.JoinSplit | app.py:393-394 | joining the fields of a split with the same separator restores the string |
| PyStr.SplitJoin | app.py:393-394 | splitting a join of separator-free fields restores the fields (the other half of the round trip) |
| PyStr.SplitLength | app.py:444-447 | a split has one more field than the string has separators, so a layout has 8 rows iff it has 7 slashes |
| PyStr.SplitSingleField | app_deprecated.py:207-208 | a split has a single field iff the separator is absent |
| PyStr.JoinHasSeparator | app_deprecated.py:209 | joining two or more fields yields a string containing the separator (hence non-empty) |
| PyStr.SplitFirstIsPrefix | app_WORKS.py:289-291 | the first field is the prefix up to the first separator |
| PyStr.Strip | app.py:393 | `strip()` returns a slice of the input with only whitespace removed around it and no whitespace at either end |
| PyStr.StripIdempotent | app.py:393 | stripping twice equals stripping once |
| Fen.ExpandRow | app.py:434-441 | `expand_row`; its properties are `Fen.ExpandRowConcat`, `Fen.ExpandRowNoDigits`, `Fen.ExpandRowCharacters` and `Fen.ExpandRowLength` |
| Fen.ExpandChar | app.py:436-440 | a digit d becomes d dots; any other character is copied |
| Fen.ExpandRowConcat | app.py:434-441 | row expansion distributes over concatenation |
| Fen.ExpandRowNoDigits | app.py:434-441 | a row without digits expands to itself |
| Fen.ExpandRowCharacters | app.py:434-441 | the expansion has no digits, and each of its characters is a dot or a character of the row |
| Fen.ExpandRowLength | app.py:434-441 | the expanded length is the sum of the digits plus the count of other characters |
| Fen.PadFields | app.py:393 | exactly 6 fields: the supplied fields in order, then "-" for missing ones, with surplus dropped; no field contains a space |
| Fen.FullFen | app.py:393-394 | `full_fen`; its properties are `Fen.FullFenNonEmpty`, `Fen.FullFenFields` and `Fen.FullFenOfSixFields` |
| Fen.JoinSixLength | app.py:394 | six fields joined by spaces have five separating spaces |
| Fen.FullFenNonEmpty | app.py:393-396 | the padded position string `full_fen` is never empty (length at least 5) |
| Fen.FullFenFields | app.py:393-394 | splitting `full_fen` on spaces gives back exactly the six padded fields |
| Fen.FullFenOfSixFields | app.py:393-394 | padding leaves a stripped six-field classifier output unchanged |
| Fen.LayoutIsFirstField | app_WORKS.py:289-291 | the layout is field 0: the stripped output up to its first space |
| Fen.WithSideToMove | app_WORKS.py:315-316 | field 1 becomes the side-to-move code; every other field is kept |
| Mover.DetectMovedColor | app.py:443-449 | a layout that does not split into exactly 8 rows on either side gives None |
| Mover.Scan | app.py:451-460 | the nested scan over the 64 squares; characterised by `Mover.ScanStops`, `Mover.ScanAllClean` and `Mover.ScanWitness` |
| Mover.ScanAllClean | app.py:451-460 | when no square from `k` on stops the scan, the result is None |
| Mover.DetectMovedColorSpec | app.py:451-460 | reference characterisation: the first square in row-major order that is out of range or holds a letter difference decides the result (colour at a letter difference, IndexError past a short row); with no such square the result is None |
| Mover.ScanStops | app.py:451-460 | the scan returns what the first stopping square dictates |
| Mover.ScanWitness | app.py:451-460 | every non-None scan result is justified by a first stopping square, and None means every scanned square is clean |
| Mover.DetectSingleChange | app.py:455-459 | for two well-formed layouts differing in one square with a letter involved, the mover is white iff an uppercase letter is involved (uppercase wins) |
| Mover.DetectMovedColorSymmetric | app_WORKS.py:343-360 | swapping old and new layouts does not change the result |
| Mover.DetectMovedColorSame | app_WORKS.py:343-360 | a layout compared with itself never names a mover, and gives None when every row expands to at least 8 squares |
| Mover.OnePawnRows | app_WORKS.py:351-359 | layouts with the rows of the empty board and of that board with a white pawn added on e1 give mover white |
| Mover.OnePawnDetected | app_WORKS.py:351-359 | "8/8/8/8/8/8/8/8" followed by "8/8/8/8/8/8/8/4P3" gives mover white |
| State.Initial | app.py:47-168 | initially `last_fen`, the baseline and the last rendered position and move are empty, no image is cached, no region is set and analysis is off; so the first `render_fen_to_board` always draws, since `full_fen` is never empty |
| State.DisciplinedRun | app_deprecated.py:218-221 | in a run where `last_fen` changes only on evaluation of a new position, the engine never receives the same position twice in a row, and `last_fen` ends as the last position evaluated |
| Gate.HasBoardChanged | app.py:360-368 | the first call reports a change; later calls report a change iff the image differs from the cached one; the newest image is always cached |
| Gate.GateComparesWithPrevious | app.py:360-368 | over a run each capture is compared with the capture just before it, not with the last changed one |
| Render.ParseSquare | app.py:272-273 | `parse_square` succeeds exactly on a file letter a-h followed by a rank digit 1-8 |
| Render.SquareNameRoundTrip | app.py:272-273 | square parsing and naming are inverse |
| Render.RenderFenToBoard | app.py:254-275 | a repeat of the last (fen, move) pair is a no-op; otherwise both are recorded, and an arrow from chars 0-1 to chars 2-3 is drawn only for a 4-character move; an unparsable 4-character move raises |
| Render.FirstRenderDraws | app.py:255-259 | the first `render_fen_to_board` after start-up always draws, because nothing has been rendered and `full_fen` is never empty |
| Render.RenderTwice | app.py:254-259 | rendering the same pair twice in a row draws once |
| Render.RenderArrowForMove | app.py:271-275 | a move made of two square names yields the arrow between those squares |
| EvalBar.Clamp | app_deprecated.py:194 | the score is clamped into [-1000, 1000] and kept when already inside |
| EvalBar.ClampNegate | app.py:346-349 | clamping commutes with negation |
| EvalBar.ClampMonotone | app_deprecated.py:194 | clamping is monotone and idempotent |
| EvalBar.DrawEvalBarDeprecated | app_deprecated.py:191-197 | the bar shows `Clamp` of the score, with no colour flip, and is green iff the score is at least 0 |
| EvalBar.DrawEvalBar | app.py:341-356 | the bar shows `Clamp` of the score negated for a black user; green iff that flipped score is at least 0; "M"/"-M" iff the flipped score reaches +1000/-1000; otherwise the pawn label shows the clamped score |
| EvalBar.EvalBarVariants | app.py:345-349 | for white, the app.py bar equals the app_deprecated.py bar; for black it is the mirror image |
| Controls.RegionOf | app_deprecated.py:127 | region size is non-negative, both drag end points lie on its border, and its edges are exactly the two x and two y coordinates |
| Controls.RegionSymmetric | app_deprecated.py:127 | the region does not depend on drag direction |
| Controls.OnMouseUp | app_deprecated.py:122-128 | a release after a press sets the region; without a press the region is unchanged |
| Controls.StartAnalysis | app_deprecated.py:134-140 | starting is refused iff no region was ever set; otherwise the flag is set and a thread starts |
| Controls.StopAnalysis | app_deprecated.py:147-149 | stopping clears the flag and nothing else |
| Controls.ColorChangeRestarts | app_deprecated.py:142-145 | after a colour change the loop runs and a thread starts iff a region is set |
| Controls.ZeroRegionStarts | app_deprecated.py:134-140 | a zero-size region is accepted and analysis starts |
| LoopWorks.LayoutOf | app_WORKS.py:289-291 | `layout`, field 0 of the padded output; characterised by `Fen.LayoutIsFirstField` |
| LoopWorks.EvalFen | app_WORKS.py:315-316 | `eval_fen`; characterised by `LoopWorks.EvalFenFields` |
| LoopWorks.EvalFenFields | app_WORKS.py:315-316 | the engine position has the padded fields with field 1 set to "w" |
| LoopWorks.StepWorks | app_WORKS.py:289-332 | `last_fen` changes only on evaluating a new position; only the baseline and `last_fen` change; a crash changes nothing; otherwise the baseline becomes the new layout |
| LoopWorks.AfterDetection | app_WORKS.py:301-331 | a crash happens iff the mover check raised, and then nothing changes; otherwise the baseline becomes the new layout before the turn and rules checks |
| LoopWorks.CheckAndEvaluate | app_WORKS.py:318-331 | rejected iff the rules check fails; evaluated iff the position is valid and differs from `last_fen`; a repeat otherwise; only `last_fen` may change |
| LoopWorks.WorksStepCases | app_WORKS.py:294-331 | each branch (baseline, crash, no mover, opponent's turn, rejected, repeated) happens exactly under its condition on the baseline, the detected mover, the rules check and `last_fen` |
| LoopWorks.WorksEvaluatesIff | app_WORKS.py:309-331 | evaluation happens iff tracking, black moved, the position is valid, and it differs from `last_fen` |
| LoopWorks.WorksFirstFrameIsBaseline | app_WORKS.py:294-298 | with no baseline, a frame only becomes the baseline |
| LoopWorks.WorksSameLayoutNotEvaluated | app_WORKS.py:301-307 | an unchanged layout gives no mover (or the short-row crash) and is never evaluated |
| LoopWorks.WorksRepeatEvaluatedOnce | app_WORKS.py:301-331 | the same classifier output twice in a row is evaluated at most once |
| LoopWorks.WorksOnePawnIsOpponentsTurn | app_WORKS.py:309-313 | after the empty board "8/8/8/8/8/8/8/8", the layout "8/8/8/8/8/8/8/4P3" (white moved) makes it black's turn, so the cycle is skipped |
| LoopWorks.RunWorksDisciplined | app_WORKS.py:328-331 | every cycle of a run keeps the `last_fen` discipline |
| LoopWorks.WorksRunNoRepeats | app_WORKS.py:328-331 | over any run, consecutive engine positions differ and `last_fen` ends as the last one |
| LoopDeprecated.EvalFen | app_deprecated.py:207-209 | `eval_fen`; characterised by `LoopDeprecated.EvalFenFields` |
| LoopDeprecated.EvalFenFields | app_deprecated.py:207-209 | the engine position keeps every classifier field verbatim except field 1, which is the user's colour |
| LoopDeprecated.StepDeprecated | app_deprecated.py:207-221 | the cycle crashes iff the output has no space; invalid or finished positions are rejected; evaluation happens iff the position is new; only `last_fen` changes, and only on evaluation |
| LoopDeprecated.DeprecatedFirstValidEvaluated | app_deprecated.py:218-221 | from the initial state, the first accepted frame is always evaluated |
| LoopDeprecated.DeprecatedRepeatSuppressed | app_deprecated.py:218-221 | right after an evaluation, the identical frame is a repeat |
| LoopDeprecated.RunDeprecatedDisciplined | app_deprecated.py:199-222 | every cycle of a run keeps the `last_fen` discipline |
| LoopDeprecated.DeprecatedRunNoRepeats | app_deprecated.py:199-222 | over any run, consecutive engine positions differ and `last_fen` ends as the last one |
| LoopApp.StepApp | app.py:371-419 | the newest image is always cached; the gate skip happens iff the image is unchanged; a baseline happens iff it changed and `last_fen` is empty; otherwise `update_gui` is called; `last_fen` is updated unless `update_gui` raised |
| LoopApp.GateSkipIgnoresClassifier | app.py:377-381 | a gate-rejected frame's result does not depend on the classifier output |
| LoopApp.FirstFrameNotEvaluated | app.py:396-401 | the first classified frame only sets `last_fen` and never calls `update_gui` |
| LoopApp.SamePositionStillUpdates | app.py:403-415 | an unchanged position still goes to `update_gui` |
| LoopApp.LastFenStaysSet | app.py:393-401 | once set, `last_fen` is never emptied |
| LoopApp.RunAppNoBaselineOnceSet | app.py:396-401 | once `last_fen` is set, no later frame is a baseline |
| LoopApp.RunAppBaselineFirst | app.py:373-401 | every frame before the baseline was gate-skipped, so a run has at most one baseline |
| LoopApp.RunAppUpdateAfterBaseline | app.py:396-411 | from an empty `last_fen`, `update_gui` is only reached after a baseline frame |

## Left out

- ccn_model.py: a floating-point PyTorch network over an external library.
- Screen capture, resizing, saving `live_frame.png` and the classifier (`load_image`, `predict_fen`) are not modelled. The classifier output is an input string. app.py classifies twice (app.py:383-391), and only the second, final `raw_fen` is modelled.
- The chess engine wrapper (`get_best_move`, `restart_stockfish`) is left out. An engine query is the emitted action `Evaluated(fen)`. In app.py it is the call of `update_gui`, whose raising is a per-frame input.
- python-chess is represented by oracle parameters: board validity and `is_game_over(claim_draw=True)` for the loops, and `parse_square` is modelled exactly. The `chess.Board` construction in `render_fen_to_board` is left out. So is the path at app.py:261-267 where a constructor failure leaves `board` unbound; it depends on library exceptions.
- Tkinter widgets, `set_status`, `update_board_image`, `on_resize`, `generate_empty_board`, `choose_model`, the rubber-band drawing in `on_mouse_down`/`on_mouse_drag` and the Escape binding are presentation only. The press position `region_start` is an input of `Controls.OnMouseUp`.
- Threads and timing are concurrency and pacing concerns and are left out. This covers the analysis thread, `threaded_render`, `root.after`, the cooldown sleeps, and the crash-restart recursion at app.py:424-429. `Controls.StartAnalysis` reports a thread start as a boolean. The run functions process a given sequence of frames instead of polling `analysis_active`.
- The interleaving of `update_gui`'s parts is asynchronous in app.py, so it is not composed into the loop step. Those parts are the engine query, the threaded render and the eval-bar drawing. The render and the bar are modelled on their own (`Render`, `EvalBar`).
- The eval-bar fill fraction, the fill height and the float `score / 100` are not modelled. Only the integer flip, clamp, colour and the choice of label are.
- Logging and status messages are left out. This includes app.py's `try`/`else` branch, which prints "No change detected" after every successful update.
- `expand_row` and `detect_moved_color` are modelled once. They are identical in app.py and app_WORKS.py. In app.py they are defined but never called.
- PyStr.IsDigit: only the ASCII digits are modelled. Python's `isdigit` also accepts other Unicode digits, for which `int(ch)` can raise.
- PyStr.IsUpper: only ASCII letters are modelled. Python's `isupper`/`islower` also classify other cased Unicode letters.
- Gate.GateRun: the contract states only the length; `Gate.GateComparesWithPrevious` states what each answer is.
- LoopWorks.RunWorks: the contract states only the run's length bounds. The properties of runs are stated by the lemmas about it.
- LoopDeprecated.RunDeprecated: the contract states only the run's length bounds. The properties of runs are stated by the lemmas about it.
- LoopWorks.CheckAndEvaluate: `update_gui` is assumed to return after an evaluation. app_WORKS.py:330-331 sets `last_fen` and then calls it with no `try`, so a raise there would end the thread with `last_fen` already updated. The model emits `Evaluated` and the run continues. Whether the GUI and engine call raises depends on code outside this model.
- LoopDeprecated.StepDeprecated: `update_gui` is assumed to return after an evaluation. app_deprecated.py:220-221 sets `last_fen` and then calls it with no `try`, so a raise there would end the thread with `last_fen` already updated. The model emits `Evaluated` and the run continues.
- LoopApp.RunApp: the contract states only that there is one step per frame. The properties of runs are stated by the lemmas about it.
