/** `detect_moved_color`: which side moved between two layout strings,
    decided by the first differing square in row-major order. */
module Mover {
  import opened PyStr
  import opened Fen

  /** The three things the Python function can do: return a colour, return
      None, or raise IndexError when it indexes past the end of an expanded
      row shorter than eight squares. */
  datatype Detection = Detected(color: Color) | Undetected | IndexError

  /** Rows of a layout: the fields of `layout.split("/")`. */
  function Rows(layout: String): seq<String>
  {
    Split(layout, '/')
  }

  /** Both sides have exactly eight rows, so the scan can start. */
  predicate EightRows(o: seq<String>, n: seq<String>)
  {
    |o| == 8 && |n| == 8
  }

  /** Every row run through `expand_row`. Expansion cannot fail, so
      expanding all eight rows up front reads the same squares as the
      Python loop, which expands row `r` when it reaches it. */
  function ExpandRows(rows: seq<String>): (r: seq<String>)
    ensures |r| == |rows|
    ensures forall i :: 0 <= i < |rows| ==> r[i] == ExpandRow(rows[i])
  {
    seq(|rows|, i requires 0 <= i < |rows| => ExpandRow(rows[i]))
  }

  /** Square `k` of the 64 scanned squares is row `k / 8`, column `k % 8` of
      the expanded rows `eo` (old) and `en` (new); it can be read on both
      sides when both rows reach column `k % 8`. */
  predicate InRange(eo: seq<String>, en: seq<String>, k: nat)
    requires EightRows(eo, en) && k < 64
  {
    k % 8 < |eo[k / 8]| && k % 8 < |en[k / 8]|
  }

  function OldCell(eo: seq<String>, en: seq<String>, k: nat): char
    requires EightRows(eo, en) && k < 64 && InRange(eo, en, k)
  {
    eo[k / 8][k % 8]
  }

  function NewCell(eo: seq<String>, en: seq<String>, k: nat): char
    requires EightRows(eo, en) && k < 64 && InRange(eo, en, k)
  {
    en[k / 8][k % 8]
  }

  predicate IsLetter(c: char)
  {
    IsUpper(c) || IsLower(c)
  }

  /** The square differs and a piece letter is involved on at least one side. */
  predicate LetterDiff(eo: seq<String>, en: seq<String>, k: nat)
    requires EightRows(eo, en) && k < 64 && InRange(eo, en, k)
  {
    OldCell(eo, en, k) != NewCell(eo, en, k) && (IsLetter(OldCell(eo, en, k)) || IsLetter(NewCell(eo, en, k)))
  }

  /** The scan passes square `k` without returning or raising. */
  predicate Clean(eo: seq<String>, en: seq<String>, k: nat)
    requires EightRows(eo, en) && k < 64
  {
    InRange(eo, en, k) && !LetterDiff(eo, en, k)
  }

  /** Colour reported at a letter difference: white when either side's
      letter is uppercase, black otherwise. */
  function CellColor(eo: seq<String>, en: seq<String>, k: nat): Color
    requires EightRows(eo, en) && k < 64 && InRange(eo, en, k)
  {
    if IsUpper(OldCell(eo, en, k)) || IsUpper(NewCell(eo, en, k)) then White else Black
  }

  /** What the scan does at a square that stops it. */
  function StopResult(eo: seq<String>, en: seq<String>, k: nat): Detection
    requires EightRows(eo, en) && k < 64
  {
    if InRange(eo, en, k) then Detected(CellColor(eo, en, k)) else IndexError
  }

  /** The nested `for r in range(8): for c in range(8)` loop from square `k` on. */
  function Scan(eo: seq<String>, en: seq<String>, k: nat): Detection
    requires EightRows(eo, en) && k <= 64
    decreases 64 - k
  {
    if k == 64 then Undetected
    else if !InRange(eo, en, k) then IndexError
    else if LetterDiff(eo, en, k) then Detected(CellColor(eo, en, k))
    else Scan(eo, en, k + 1)
  }

  /** `detect_moved_color(old_fen, new_fen)`. A layout that does not split
      into exactly eight rows gives None before any square is read. */
  function DetectMovedColor(oldLayout: String, newLayout: String): (r: Detection)
    ensures |Rows(oldLayout)| != 8 || |Rows(newLayout)| != 8 ==> r == Undetected
  {
    var o := Rows(oldLayout);
    var n := Rows(newLayout);
    if !EightRows(o, n) then Undetected else Scan(ExpandRows(o), ExpandRows(n), 0)
  }

  /** Square `m` is the first square, from `k` on, that stops the scan. */
  predicate FirstStop(eo: seq<String>, en: seq<String>, k: nat, m: nat)
    requires EightRows(eo, en)
  {
    k <= m < 64 && (forall j :: k <= j < m ==> Clean(eo, en, j)) && !Clean(eo, en, m)
  }

  /** The scan returns what its first stopping square dictates. */
  lemma {:induction false} ScanStops(eo: seq<String>, en: seq<String>, k: nat, m: nat)
    requires EightRows(eo, en) && FirstStop(eo, en, k, m)
    ensures Scan(eo, en, k) == StopResult(eo, en, m)
    decreases m - k
  {
    if k < m {
      assert Clean(eo, en, k);
      assert FirstStop(eo, en, k + 1, m);
      ScanStops(eo, en, k + 1, m);
    }
  }

  /** With no stopping square the scan returns None. */
  lemma {:induction false} ScanAllClean(eo: seq<String>, en: seq<String>, k: nat)
    requires EightRows(eo, en) && k <= 64
    requires forall j :: k <= j < 64 ==> Clean(eo, en, j)
    ensures Scan(eo, en, k) == Undetected
    decreases 64 - k
  {
    if k < 64 {
      assert Clean(eo, en, k);
      ScanAllClean(eo, en, k + 1);
    }
  }

  /** Whatever the scan returns, some square justifies it. */
  lemma {:induction false} ScanWitness(eo: seq<String>, en: seq<String>, k: nat)
    requires EightRows(eo, en) && k <= 64
    ensures Scan(eo, en, k) == Undetected ==> forall j :: k <= j < 64 ==> Clean(eo, en, j)
    ensures Scan(eo, en, k) != Undetected ==> exists m :: FirstStop(eo, en, k, m)
    decreases 64 - k
  {
    if k < 64 {
      if Clean(eo, en, k) {
        ScanWitness(eo, en, k + 1);
        if Scan(eo, en, k + 1) != Undetected {
          var m :| FirstStop(eo, en, k + 1, m);
          assert FirstStop(eo, en, k, m);
        }
      } else {
        assert FirstStop(eo, en, k, k);
      }
    }
  }

  /** Reference characterisation of `detect_moved_color`: with eight rows on
      each side, the result is decided by the first square that stops the
      scan (a letter difference, or a column past the end of a short row);
      with no such square the result is None. */
  lemma DetectMovedColorSpec(oldLayout: String, newLayout: String)
    requires EightRows(Rows(oldLayout), Rows(newLayout))
    ensures var eo, en := ExpandRows(Rows(oldLayout)), ExpandRows(Rows(newLayout));
      && (DetectMovedColor(oldLayout, newLayout) == Undetected <==> forall j :: 0 <= j < 64 ==> Clean(eo, en, j))
      && (forall m :: FirstStop(eo, en, 0, m) && InRange(eo, en, m) ==>
            DetectMovedColor(oldLayout, newLayout) == Detected(CellColor(eo, en, m)))
      && (forall m :: FirstStop(eo, en, 0, m) && !InRange(eo, en, m) ==>
            DetectMovedColor(oldLayout, newLayout) == IndexError)
  {
    var eo, en := ExpandRows(Rows(oldLayout)), ExpandRows(Rows(newLayout));
    ScanWitness(eo, en, 0);
    if forall j :: 0 <= j < 64 ==> Clean(eo, en, j) {
      ScanAllClean(eo, en, 0);
    }
    forall m | FirstStop(eo, en, 0, m)
      ensures Scan(eo, en, 0) == StopResult(eo, en, m)
    {
      ScanStops(eo, en, 0, m);
    }
  }

  /** Swapping the two layouts does not change the answer. */
  lemma {:induction false} ScanSymmetric(eo: seq<String>, en: seq<String>, k: nat)
    requires EightRows(eo, en) && k <= 64
    ensures Scan(eo, en, k) == Scan(en, eo, k)
    decreases 64 - k
  {
    if k < 64 && InRange(eo, en, k) && !LetterDiff(eo, en, k) {
      ScanSymmetric(eo, en, k + 1);
    }
  }

  lemma DetectMovedColorSymmetric(a: String, b: String)
    ensures DetectMovedColor(a, b) == DetectMovedColor(b, a)
  {
    if EightRows(Rows(a), Rows(b)) {
      ScanSymmetric(ExpandRows(Rows(a)), ExpandRows(Rows(b)), 0);
    }
  }

  /** Every row of an eight-row layout expands to at least eight squares. */
  predicate WellFormed(layout: String)
  {
    |Rows(layout)| == 8 && forall r :: 0 <= r < 8 ==> |ExpandRow(Rows(layout)[r])| >= 8
  }

  /** A layout compared with itself never names a mover; it gives None when
      every expanded row is long enough. */
  lemma {:induction false} ScanSame(eo: seq<String>, k: nat)
    requires EightRows(eo, eo) && k <= 64
    ensures !Scan(eo, eo, k).Detected?
    ensures (forall r :: 0 <= r < 8 ==> |eo[r]| >= 8) ==> Scan(eo, eo, k) == Undetected
    decreases 64 - k
  {
    if k < 64 && InRange(eo, eo, k) {
      ScanSame(eo, k + 1);
    }
  }

  lemma DetectMovedColorSame(layout: String)
    ensures !DetectMovedColor(layout, layout).Detected?
    ensures WellFormed(layout) ==> DetectMovedColor(layout, layout) == Undetected
  {
    if |Rows(layout)| == 8 {
      ScanSame(ExpandRows(Rows(layout)), 0);
    }
  }

  /** Two well-formed layouts whose expanded rows differ in exactly one of
      the 64 scanned squares, with a piece letter on at least one side of
      it: the mover is white iff an uppercase letter is involved. */
  lemma DetectSingleChange(oldLayout: String, newLayout: String, m: nat)
    requires WellFormed(oldLayout) && WellFormed(newLayout) && m < 64
    requires var eo, en := ExpandRows(Rows(oldLayout)), ExpandRows(Rows(newLayout));
      forall j :: 0 <= j < 64 && j != m ==> OldCell(eo, en, j) == NewCell(eo, en, j)
    requires var eo, en := ExpandRows(Rows(oldLayout)), ExpandRows(Rows(newLayout));
      OldCell(eo, en, m) != NewCell(eo, en, m) && (IsLetter(OldCell(eo, en, m)) || IsLetter(NewCell(eo, en, m)))
    ensures var eo, en := ExpandRows(Rows(oldLayout)), ExpandRows(Rows(newLayout));
      DetectMovedColor(oldLayout, newLayout)
        == Detected(if IsUpper(OldCell(eo, en, m)) || IsUpper(NewCell(eo, en, m)) then White else Black)
  {
    var eo, en := ExpandRows(Rows(oldLayout)), ExpandRows(Rows(newLayout));
    assert FirstStop(eo, en, 0, m);
    ScanStops(eo, en, 0, m);
  }

  /** The rows of the empty board "8/8/8/8/8/8/8/8". */
  lemma RowsOfEmptyBoard()
    ensures Rows("8/8/8/8/8/8/8/8") == ["8", "8", "8", "8", "8", "8", "8", "8"]
  {
    var empty := ["8", "8", "8", "8", "8", "8", "8", "8"];
    assert Join(empty, '/') == "8/8/8/8/8/8/8/8";
    SplitJoin(empty, '/');
  }

  /** The rows of "8/8/8/8/8/8/8/4P3": a white pawn on e1. */
  lemma RowsOfOnePawnBoard()
    ensures Rows("8/8/8/8/8/8/8/4P3") == ["8", "8", "8", "8", "8", "8", "8", "4P3"]
  {
    var pawn := ["8", "8", "8", "8", "8", "8", "8", "4P3"];
    assert Join(pawn, '/') == "8/8/8/8/8/8/8/4P3";
    SplitJoin(pawn, '/');
  }

  lemma ExpandEight()
    ensures ExpandRow("8") == "........"
  {
    assert "8"[..0] == "";
  }

  lemma ExpandPawnRow()
    ensures ExpandRow("4P3") == "....P..."
  {
    assert "4P3"[..2] == "4P";
    assert "4P"[..1] == "4";
    assert "4"[..0] == "";
  }

  /** An expanded empty board against an expanded empty board with a white
      pawn on e1 of the last row. */
  lemma ScanOnePawn(eo: seq<String>, en: seq<String>)
    requires EightRows(eo, en)
    requires forall r :: 0 <= r < 8 ==> eo[r] == "........"
    requires forall r :: 0 <= r < 7 ==> en[r] == "........"
    requires en[7] == "....P..."
    ensures Scan(eo, en, 0) == Detected(White)
  {
    forall j | 0 <= j < 60
      ensures Clean(eo, en, j)
    {
      assert j / 8 < 7 || j % 8 < 4;
    }
    assert FirstStop(eo, en, 0, 60);
    ScanStops(eo, en, 0, 60);
  }

  /** Layouts with the rows of the empty board and of the board with one
      white pawn added on e1: the mover is white. */
  lemma OnePawnRows(a: String, b: String)
    requires Rows(a) == ["8", "8", "8", "8", "8", "8", "8", "8"]
    requires Rows(b) == ["8", "8", "8", "8", "8", "8", "8", "4P3"]
    ensures DetectMovedColor(a, b) == Detected(White)
  {
    ExpandEight(); ExpandPawnRow();
    ScanOnePawn(ExpandRows(Rows(a)), ExpandRows(Rows(b)));
  }

  /** The empty board "8/8/8/8/8/8/8/8" followed by "8/8/8/8/8/8/8/4P3", the
      same board with a white pawn added on e1: the mover is white. */
  lemma OnePawnDetected()
    ensures DetectMovedColor("8/8/8/8/8/8/8/8", "8/8/8/8/8/8/8/4P3") == Detected(White)
  {
    RowsOfEmptyBoard();
    RowsOfOnePawnBoard();
    OnePawnRows("8/8/8/8/8/8/8/8", "8/8/8/8/8/8/8/4P3");
  }
}
