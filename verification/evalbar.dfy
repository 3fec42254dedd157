/** The integer part of `draw_eval_bar`: orientation flip, clamping to one
    thousand centipawns either way, bar colour and the mate label. The fill
    fraction, fill height and the pawn value `score / 100` are floats and
    are not part of this model. */
module EvalBar {
  import opened Fen

  const Limit: int := 1000

  /** `max(min(score, 1000), -1000)`. */
  function Clamp(score: int): (c: int)
    ensures -Limit <= c <= Limit
    ensures -Limit <= score <= Limit ==> c == score
    ensures score > Limit ==> c == Limit
    ensures score < -Limit ==> c == -Limit
  {
    if score > Limit then Limit else if score < -Limit then -Limit else score
  }

  /** Clamping commutes with negation, so flipping before or after clamping
      gives the same bar. */
  lemma ClampNegate(score: int)
    ensures Clamp(-score) == -Clamp(score)
  {
  }

  /** Clamping is monotone and idempotent. */
  lemma ClampMonotone(a: int, b: int)
    requires a <= b
    ensures Clamp(a) <= Clamp(b)
    ensures Clamp(Clamp(a)) == Clamp(a)
  {
  }

  /** The bar: clamped score and whether it is drawn green (else red). */
  datatype Bar = Bar(clamped: int, green: bool)

  /** The label next to the bar in app.py: the score in pawns while it is
      below one thousand centipawns in size, otherwise "M" or "-M". */
  datatype Label = Pawns(centipawns: int) | Mate | MinusMate

  datatype Display = Display(bar: Bar, caption: Label)

  function BarOf(clamped: int): (b: Bar)
    requires -Limit <= clamped <= Limit
    ensures b.clamped == clamped
    ensures b.green <==> clamped >= 0
  {
    Bar(clamped, clamped >= 0)
  }

  /** `draw_eval_bar` in app_deprecated.py: no flip for the user's colour. */
  function DrawEvalBarDeprecated(score: int): (b: Bar)
    ensures b.clamped == Clamp(score)
    ensures b.green <==> score >= 0
  {
    BarOf(Clamp(score))
  }

  /** `draw_eval_bar` in app.py: the score is negated when the user plays
      black, then clamped, coloured and labelled. */
  function DrawEvalBar(score: int, userColor: Color): (d: Display)
    ensures d.bar.clamped == Clamp(if userColor == Black then -score else score)
    ensures d.bar.green <==> (if userColor == Black then -score else score) >= 0
    ensures d.caption == Mate <==> (if userColor == Black then -score else score) >= Limit
    ensures d.caption == MinusMate <==> (if userColor == Black then -score else score) <= -Limit
    ensures d.caption.Pawns? ==> d.caption.centipawns == d.bar.clamped
  {
    var flipped := if userColor == Black then -score else score;
    var c := Clamp(flipped);
    var caption := if -Limit < c < Limit then Pawns(c) else if c > 0 then Mate else MinusMate;
    Display(BarOf(c), caption)
  }

  /** For white the app.py bar is the app_deprecated.py bar; for black it is
      its mirror image, except that a score of zero is green on both sides. */
  lemma EvalBarVariants(score: int)
    ensures DrawEvalBar(score, White).bar == DrawEvalBarDeprecated(score)
    ensures DrawEvalBar(score, Black).bar.clamped == -DrawEvalBarDeprecated(score).clamped
    ensures score != 0 ==> DrawEvalBar(score, Black).bar.green == !DrawEvalBarDeprecated(score).green
    ensures DrawEvalBar(score, Black).bar == DrawEvalBar(-score, White).bar
  {
    ClampNegate(score);
  }
}
