/** `render_fen_to_board` in app.py: the (position, best move) de-duplication
    and the arrow drawn for a four-character engine move. The SVG drawing,
    PNG conversion and file output are not part of this model. */
module Render {
  import opened PyStr
  import opened Fen
  import opened Wrappers
  import opened State

  /** A square index as the chess library numbers them: a1 = 0, b1 = 1, ...,
      h8 = 63. */
  type Square = k: nat | k < 64

  /** `chess.parse_square(name)`: the index of `name` in the list of the 64
      square names "a1" .. "h8"; any other string raises ValueError (None). */
  function ParseSquare(name: String): (r: Option<Square>)
    ensures r.Some? <==> |name| == 2 && 'a' <= name[0] <= 'h' && '1' <= name[1] <= '8'
  {
    if |name| == 2 && 'a' <= name[0] <= 'h' && '1' <= name[1] <= '8'
    then Some(((name[1] as int) - ('1' as int)) * 8 + ((name[0] as int) - ('a' as int)))
    else None
  }

  /** The name of a square: file letter then rank digit. */
  function SquareName(sq: Square): (name: String)
    ensures |name| == 2 && 'a' <= name[0] <= 'h' && '1' <= name[1] <= '8'
  {
    [(('a' as int) + sq % 8) as char, (('1' as int) + sq / 8) as char]
  }

  /** Parsing and naming are inverse: every valid name parses to the square
      that prints back as it, and every square's name parses to it. */
  lemma SquareNameRoundTrip(sq: Square, name: String)
    ensures ParseSquare(SquareName(sq)) == Some(sq)
    ensures ParseSquare(name).Some? ==> SquareName(ParseSquare(name).value) == name
  {
  }

  /** The arrow and the two highlighted squares. */
  datatype Arrow = Arrow(from: Square, to: Square)

  datatype RenderOutcome =
    | Unchanged               // same position and move as the last render
    | Drawn(arrow: Option<Arrow>)
    | SquareRaised            // a four-character move that is not two square names

  /** One call of `render_fen_to_board(fen, best_move)`. A repeat of the last
      (position, move) pair returns at once. Otherwise the pair is recorded
      before anything is drawn, and a four-character move becomes an arrow
      from its first two characters to its last two. */
  function RenderFenToBoard<I>(s: AppState<I>, fen: String, move: String): (r: (AppState<I>, RenderOutcome))
    ensures fen == s.lastRenderedFen && move == s.lastRenderedMove ==> r == (s, Unchanged)
    ensures !(fen == s.lastRenderedFen && move == s.lastRenderedMove) ==>
      r.0 == s.(lastRenderedFen := fen, lastRenderedMove := move) && !r.1.Unchanged?
    ensures r.1.Drawn? && r.1.arrow.Some? ==>
      |move| == 4 && SquareName(r.1.arrow.value.from) == move[..2] && SquareName(r.1.arrow.value.to) == move[2..]
    ensures r.1.Drawn? && r.1.arrow.None? ==> |move| != 4
    ensures r.1.SquareRaised? ==> |move| == 4 && (ParseSquare(move[..2]).None? || ParseSquare(move[2..]).None?)
  {
    if fen == s.lastRenderedFen && move == s.lastRenderedMove then (s, Unchanged)
    else
      var s' := s.(lastRenderedFen := fen, lastRenderedMove := move);
      if |move| == 4 then
        match (ParseSquare(move[..2]), ParseSquare(move[2..]))
        case (Some(a), Some(b)) =>
          SquareNameRoundTrip(a, move[..2]);
          SquareNameRoundTrip(b, move[2..]);
          (s', Drawn(Some(Arrow(a, b))))
        case _ => (s', SquareRaised)
      else (s', Drawn(None))
  }

  /** Rendering the same pair twice in a row draws once: the second call is
      a no-op. */
  lemma RenderTwice<I>(s: AppState<I>, fen: String, move: String)
    ensures var (s1, _) := RenderFenToBoard(s, fen, move);
      RenderFenToBoard(s1, fen, move) == (s1, Unchanged)
  {
  }

  /** A move made of two square names always yields its arrow. */
  lemma RenderArrowForMove<I>(s: AppState<I>, fen: String, from: Square, to: Square)
    requires !(fen == s.lastRenderedFen && SquareName(from) + SquareName(to) == s.lastRenderedMove)
    ensures RenderFenToBoard(s, fen, SquareName(from) + SquareName(to)).1 == Drawn(Some(Arrow(from, to)))
  {
    var m := SquareName(from) + SquareName(to);
    assert m[..2] == SquareName(from) && m[2..] == SquareName(to);
    SquareNameRoundTrip(from, m[..2]);
    SquareNameRoundTrip(to, m[2..]);
  }

  /** The first render after start-up always draws: the initial state holds
      no rendered position, and a padded position string is never empty. */
  lemma FirstRenderDraws<I>(raw: String, move: String)
    ensures !RenderFenToBoard(Initial<I>(), FullFen(raw), move).1.Unchanged?
  {
  }
}
