/** Position-string helpers shared by the three analysis loops: colours,
    run-length row expansion, padding of a classifier output to the six
    space-separated fields of a Forsyth-Edwards Notation record (section 16.1
    of the PGN Standard), and the side-to-move splice. */
module Fen {
  import opened PyStr

  /** A side, written "w" or "b" in a position string. */
  datatype Color = White | Black {
    function Code(): (s: String)
      ensures |s| == 1
    {
      match this
      case White => "w"
      case Black => "b"
    }

    function Opposite(): (c: Color)
      ensures c != this
    {
      match this
      case White => Black
      case Black => White
    }
  }

  /** The expansion of one character of a layout row: a digit `d` becomes
      `d` dots, anything else is copied. */
  function ExpandChar(c: char): (r: String)
    ensures IsDigit(c) ==> |r| == DigitValue(c) && forall i :: 0 <= i < |r| ==> r[i] == '.'
    ensures !IsDigit(c) ==> r == [c]
  {
    if IsDigit(c) then Repeat('.', DigitValue(c)) else [c]
  }

  /** `expand_row`: the loop over the row, appending each character's
      expansion to what was built from the characters before it. */
  function ExpandRow(row: String): String
    decreases |row|
  {
    if |row| == 0 then "" else ExpandRow(row[..|row| - 1]) + ExpandChar(row[|row| - 1])
  }

  /** Expansion distributes over concatenation. */
  lemma {:induction false} ExpandRowConcat(a: String, b: String)
    ensures ExpandRow(a + b) == ExpandRow(a) + ExpandRow(b)
    decreases |b|
  {
    if |b| == 0 {
      assert a + b == a;
    } else {
      var b' := b[..|b| - 1];
      assert (a + b)[..|a + b| - 1] == a + b';
      ExpandRowConcat(a, b');
    }
  }

  /** A row without digits is returned unchanged. */
  lemma {:induction false} ExpandRowNoDigits(row: String)
    requires forall i :: 0 <= i < |row| ==> !IsDigit(row[i])
    ensures ExpandRow(row) == row
    decreases |row|
  {
    if |row| > 0 {
      ExpandRowNoDigits(row[..|row| - 1]);
      assert row == row[..|row| - 1] + [row[|row| - 1]];
    }
  }

  /** The expansion never holds a digit, and it is built only of dots and
      the row's own non-digit characters. */
  lemma {:induction false} ExpandRowCharacters(row: String)
    ensures forall i :: 0 <= i < |ExpandRow(row)| ==>
      !IsDigit(ExpandRow(row)[i]) && (ExpandRow(row)[i] == '.' || ExpandRow(row)[i] in row)
    decreases |row|
  {
    if |row| > 0 {
      var pre := row[..|row| - 1];
      ExpandRowCharacters(pre);
      assert forall c :: c in pre ==> c in row;
    }
  }

  /** The expanded length is the sum of the digits plus the number of
      non-digit characters. */
  function Width(row: String): nat
    decreases |row|
  {
    if |row| == 0 then 0
    else Width(row[..|row| - 1]) + (if IsDigit(row[|row| - 1]) then DigitValue(row[|row| - 1]) else 1)
  }

  lemma {:induction false} ExpandRowLength(row: String)
    ensures |ExpandRow(row)| == Width(row)
    decreases |row|
  {
    if |row| > 0 {
      ExpandRowLength(row[..|row| - 1]);
    }
  }

  /** Six copies of the placeholder field "-". */
  function Placeholders(): (r: seq<String>)
    ensures |r| == 6 && forall i :: 0 <= i < 6 ==> r[i] == "-"
  {
    ["-", "-", "-", "-", "-", "-"]
  }

  /** `(raw_fen.strip().split(" ") + ["-"] * 6)[:6]`: the classifier output
      cut into exactly six fields. Fields the classifier supplied are kept
      in order, missing ones become "-", and surplus ones are dropped. */
  function PadFields(raw: String): (r: seq<String>)
    ensures |r| == 6
    ensures forall i :: 0 <= i < 6 && i < |Split(Strip(raw), ' ')| ==> r[i] == Split(Strip(raw), ' ')[i]
    ensures forall i :: |Split(Strip(raw), ' ')| <= i < 6 ==> r[i] == "-"
    ensures forall i :: 0 <= i < 6 ==> ' ' !in r[i]
  {
    (Split(Strip(raw), ' ') + Placeholders())[..6]
  }

  /** `" ".join(fen_parts)` after padding. */
  function FullFen(raw: String): String
  {
    Join(PadFields(raw), ' ')
  }

  /** Joining six fields puts five spaces between them, so the padded
      position string is never empty. */
  lemma JoinSixLength(f: seq<String>)
    requires |f| == 6
    ensures Join(f, ' ') == f[0] + " " + f[1] + " " + f[2] + " " + f[3] + " " + f[4] + " " + f[5]
    ensures |Join(f, ' ')| >= 5
  {
    var f1, f2, f3, f4 := f[1..], f[2..], f[3..], f[4..];
    assert f1[1..] == f2 && f2[1..] == f3 && f3[1..] == f4 && f4[1..] == [f[5]];
    assert Join(f4, ' ') == f[4] + " " + f[5];
    assert Join(f3, ' ') == f[3] + " " + Join(f4, ' ');
    assert Join(f2, ' ') == f[2] + " " + Join(f3, ' ');
    assert Join(f1, ' ') == f[1] + " " + Join(f2, ' ');
  }

  lemma FullFenNonEmpty(raw: String)
    ensures |FullFen(raw)| >= 5
  {
    JoinSixLength(PadFields(raw));
  }

  /** Splitting the padded position string on spaces gives back the six
      fields: the padded record and its string form carry the same data. */
  lemma FullFenFields(raw: String)
    ensures Split(FullFen(raw), ' ') == PadFields(raw)
  {
    SplitJoin(PadFields(raw), ' ');
  }

  /** Padding is the identity on a stripped classifier output that already
      has exactly six fields. */
  lemma FullFenOfSixFields(raw: String)
    requires |Split(Strip(raw), ' ')| == 6
    ensures FullFen(raw) == Strip(raw)
  {
    var parts := Split(Strip(raw), ' ');
    assert PadFields(raw) == parts;
    JoinSplit(Strip(raw), ' ');
  }

  /** The layout is field 0: the stripped output up to its first space. */
  lemma LayoutIsFirstField(raw: String)
    ensures PadFields(raw)[0] == Split(Strip(raw), ' ')[0]
    ensures |PadFields(raw)[0]| <= |Strip(raw)|
    ensures PadFields(raw)[0] == Strip(raw)[..|PadFields(raw)[0]|]
    ensures ' ' !in PadFields(raw)[0]
  {
    SplitFirstIsPrefix(Strip(raw), ' ');
  }

  /** `fen_parts[1] = turn` followed by `" ".join(fen_parts)`. */
  function WithSideToMove(fields: seq<String>, turn: Color): (r: seq<String>)
    requires |fields| >= 2
    ensures |r| == |fields|
    ensures r[1] == turn.Code()
    ensures forall i :: 0 <= i < |fields| && i != 1 ==> r[i] == fields[i]
  {
    fields[1 := turn.Code()]
  }
}
