/** One cycle of `analysis_loop` in app.py: the pixel gate decides whether
    the frame is classified at all; the first classified frame only becomes
    `last_fen`; every later classified frame goes to `update_gui`, which
    queries the engine and redraws, whether or not its position is new.
    Whether `update_gui` raises is an input of the cycle. */
module LoopApp {
  import opened PyStr
  import opened Fen
  import opened Wrappers
  import opened State
  import opened Gate

  /** A captured frame: the resized screenshot, the classifier's output for
      it (only read when the gate lets the frame through) and whether
      `update_gui` raises for it. */
  datatype Frame<I> = Frame(img: I, raw: String, guiRaises: bool)

  /** One pass of the `while self.analysis_active` body. */
  function StepApp<I(==)>(s: AppState<I>, f: Frame<I>): (r: Step<I>)
    ensures r.state.lastImg == Some(f.img)
    ensures r.state.(lastImg := s.lastImg, lastFen := s.lastFen) == s
    ensures r.action == GateSkipped <==> s.lastImg == Some(f.img)
    ensures r.action == Baseline <==> s.lastImg != Some(f.img) && s.lastFen == ""
    ensures r.action == Baseline ==> r.state.lastFen == FullFen(f.raw)
    ensures r.action == GuiUpdated(FullFen(f.raw)) <==>
      s.lastImg != Some(f.img) && s.lastFen != "" && !f.guiRaises
    ensures r.action == GuiRaised(FullFen(f.raw)) <==>
      s.lastImg != Some(f.img) && s.lastFen != "" && f.guiRaises
    ensures r.action.GuiUpdated? ==> r.state.lastFen == r.action.fen
    ensures !r.action.GuiUpdated? && !r.action.Baseline? ==> r.state.lastFen == s.lastFen
  {
    var (changed, cache) := HasBoardChanged(s.lastImg, f.img);
    var s1 := s.(lastImg := cache);
    if !changed then Step(s1, GateSkipped)
    else
      var full := FullFen(f.raw);
      if s.lastFen == "" then Step(s1.(lastFen := full), Baseline)
      else if f.guiRaises then Step(s1, GuiRaised(full))
      else Step(s1.(lastFen := full), GuiUpdated(full))
  }

  /** A frame the gate rejects is never classified: the cycle's result does
      not depend on the classifier output or on `update_gui`. */
  lemma GateSkipIgnoresClassifier<I>(s: AppState<I>, img: I, raw1: String, raw2: String, g1: bool, g2: bool)
    requires s.lastImg == Some(img)
    ensures StepApp(s, Frame(img, raw1, g1)) == StepApp(s, Frame(img, raw2, g2))
  {
  }

  /** The first classified frame never reaches `update_gui`. */
  lemma FirstFrameNotEvaluated<I>(f: Frame<I>)
    ensures StepApp(Initial<I>(), f).action == Baseline
    ensures StepApp(Initial<I>(), f).state.lastFen == FullFen(f.raw)
  {
  }

  /** Once tracking, a classified frame goes to `update_gui` even when its
      position equals `last_fen`: the comparison only logs. */
  lemma SamePositionStillUpdates<I>(s: AppState<I>, f: Frame<I>)
    requires s.lastFen != "" && s.lastFen == FullFen(f.raw) && s.lastImg != Some(f.img)
    ensures StepApp(s, f).action in {GuiUpdated(s.lastFen), GuiRaised(s.lastFen)}
  {
  }

  /** `last_fen` is never emptied again after the baseline, because the
      padded position string is never empty. */
  lemma LastFenStaysSet<I>(s: AppState<I>, f: Frame<I>)
    ensures s.lastFen != "" || StepApp(s, f).action == Baseline ==> StepApp(s, f).state.lastFen != ""
  {
    FullFenNonEmpty(f.raw);
  }

  /** The loop over successive frames. */
  function RunApp<I(==)>(s: AppState<I>, frames: seq<Frame<I>>): (steps: seq<Step<I>>)
    ensures |steps| == |frames|
    decreases |frames|
  {
    if |frames| == 0 then []
    else
      var r := StepApp(s, frames[0]);
      [r] + RunApp(r.state, frames[1..])
  }

  /** Once `last_fen` is set, no frame of a run is a baseline again. */
  lemma {:induction false} RunAppNoBaselineOnceSet<I>(s: AppState<I>, frames: seq<Frame<I>>)
    requires s.lastFen != ""
    ensures forall j :: 0 <= j < |RunApp(s, frames)| ==> RunApp(s, frames)[j].action != Baseline
    decreases |frames|
  {
    if |frames| > 0 {
      var r := StepApp(s, frames[0]);
      LastFenStaysSet(s, frames[0]);
      RunAppNoBaselineOnceSet(r.state, frames[1..]);
      assert RunApp(s, frames) == [r] + RunApp(r.state, frames[1..]);
    }
  }

  /** Every frame of a run before a baseline frame was stopped by the pixel
      gate. Hence a run has at most one baseline, and no frame reaches
      `update_gui` before it. */
  lemma {:induction false} RunAppBaselineFirst<I>(s: AppState<I>, frames: seq<Frame<I>>)
    ensures forall j, i :: 0 <= i < j < |RunApp(s, frames)| && RunApp(s, frames)[j].action == Baseline ==>
      RunApp(s, frames)[i].action == GateSkipped
    decreases |frames|
  {
    if |frames| > 0 {
      var r := StepApp(s, frames[0]);
      var rest := RunApp(r.state, frames[1..]);
      assert RunApp(s, frames) == [r] + rest;
      if r.action == GateSkipped {
        RunAppBaselineFirst(r.state, frames[1..]);
      } else {
        LastFenStaysSet(s, frames[0]);
        RunAppNoBaselineOnceSet(r.state, frames[1..]);
      }
    }
  }

  /** Starting from an empty `last_fen`, a frame reaches `update_gui` only
      after a baseline frame. */
  lemma {:induction false} RunAppUpdateAfterBaseline<I>(s: AppState<I>, frames: seq<Frame<I>>, j: nat)
    requires s.lastFen == ""
    requires j < |RunApp(s, frames)|
    requires RunApp(s, frames)[j].action.GuiUpdated? || RunApp(s, frames)[j].action.GuiRaised?
    ensures exists i :: 0 <= i < j && RunApp(s, frames)[i].action == Baseline
    decreases |frames|
  {
    var r := StepApp(s, frames[0]);
    var rest := RunApp(r.state, frames[1..]);
    assert RunApp(s, frames) == [r] + rest;
    if r.action == Baseline {
      assert RunApp(s, frames)[0].action == Baseline;
    } else {
      assert j > 0 && RunApp(s, frames)[j] == rest[j - 1];
      RunAppUpdateAfterBaseline(r.state, frames[1..], j - 1);
      var i :| 0 <= i < j - 1 && rest[i].action == Baseline;
      assert RunApp(s, frames)[i + 1].action == Baseline;
    }
  }
}
