/**
 * Vertical placement of the wrong-answer lines in the downloadable report
 * (downloadResultPDF, neetMockTest/script.js, lines 285-293). The cursor y
 * starts at 95 on the first page and advances by 7 per line; before a line is
 * written, if y exceeds 270 a new page is added and y restarts at 20. The
 * drawing calls themselves are not modelled; only where each line goes.
 */
module ReportLayout {
  import opened Scoring

  const FIRST_LINE_Y := 95
  const LINE_STEP := 7
  const PAGE_BOTTOM := 270
  const PAGE_TOP := 20

  /** Lines that fit on the first page: y = 95, 102, ..., 270. */
  const FIRST_PAGE_LINES := (PAGE_BOTTOM - FIRST_LINE_Y) / LINE_STEP + 1
  /** Lines that fit on each later page: y = 20, 27, ..., 265. */
  const PAGE_LINES := (PAGE_BOTTOM - PAGE_TOP) / LINE_STEP + 1

  /** One report line: the wrong-log entry it prints, on which page (1-based) and at which y. */
  datatype Line = Line(entry: WrongEntry, page: nat, y: int)

  datatype Placement = Placement(page: nat, y: int)

  /** Closed form of where the i-th line (0-based) lands. */
  function Slot(i: nat): Placement {
    if i < FIRST_PAGE_LINES then Placement(1, FIRST_LINE_Y + LINE_STEP * i)
    else
      var j := i - FIRST_PAGE_LINES;
      Placement(2 + j / PAGE_LINES, PAGE_TOP + LINE_STEP * (j % PAGE_LINES))
  }

  /** Every line is placed inside the printable band 20..270 of a page. */
  lemma SlotInBand(i: nat)
    ensures PAGE_TOP <= Slot(i).y <= PAGE_BOTTOM
    ensures Slot(i).page >= 1
  {
    if i >= FIRST_PAGE_LINES {
      var j := i - FIRST_PAGE_LINES;
      assert 0 <= j % PAGE_LINES < PAGE_LINES;
    }
  }

  /**
   * The cursor rule, stated on the closed form: the line after line i starts
   * a new page at y = 20 exactly when y + 7 exceeds 270; otherwise it is on
   * the same page, 7 lower.
   */
  lemma SlotNext(i: nat)
    ensures Slot(i).y + LINE_STEP > PAGE_BOTTOM ==> Slot(i + 1) == Placement(Slot(i).page + 1, PAGE_TOP)
    ensures Slot(i).y + LINE_STEP <= PAGE_BOTTOM ==> Slot(i + 1) == Placement(Slot(i).page, Slot(i).y + LINE_STEP)
  {
    if i + 1 >= FIRST_PAGE_LINES {
      if i + 1 == FIRST_PAGE_LINES {
        assert Slot(i).y == 270;
      } else {
        var j := i - FIRST_PAGE_LINES;
        var q, r := j / PAGE_LINES, j % PAGE_LINES;
        assert j == PAGE_LINES * q + r && 0 <= r < PAGE_LINES;
        if r == PAGE_LINES - 1 {
          assert j + 1 == PAGE_LINES * (q + 1);
          assert (j + 1) / PAGE_LINES == q + 1 && (j + 1) % PAGE_LINES == 0;
        } else {
          assert j + 1 == PAGE_LINES * q + (r + 1);
          assert (j + 1) / PAGE_LINES == q && (j + 1) % PAGE_LINES == r + 1;
        }
      }
    }
  }

  /** Lines never go back: page and, within a page, y strictly increase. */
  lemma SlotOrdered(i: nat)
    ensures Slot(i).page < Slot(i + 1).page || (Slot(i).page == Slot(i + 1).page && Slot(i).y < Slot(i + 1).y)
    ensures Slot(i + 1).page <= Slot(i).page + 1
  {
    SlotNext(i);
  }

  /** The forEach over wrongLog with its y cursor. */
  method LayOut(wrongLog: seq<WrongEntry>) returns (lines: seq<Line>)
    ensures |lines| == |wrongLog|
    ensures forall k :: 0 <= k < |lines| ==> lines[k] == Line(wrongLog[k], Slot(k).page, Slot(k).y)
    ensures forall k :: 0 <= k < |lines| ==> PAGE_TOP <= lines[k].y <= PAGE_BOTTOM
  {
    var y := FIRST_LINE_Y;
    var page := 1;
    lines := [];
    for i := 0 to |wrongLog|
      invariant |lines| == i
      invariant forall k :: 0 <= k < i ==> lines[k] == Line(wrongLog[k], Slot(k).page, Slot(k).y)
      invariant i == 0 ==> y == FIRST_LINE_Y && page == 1
      invariant i > 0 ==> y == Slot(i - 1).y + LINE_STEP && page == Slot(i - 1).page
    {
      if i > 0 {
        SlotNext(i - 1);
      }
      if y > PAGE_BOTTOM {
        page := page + 1;
        y := PAGE_TOP;
      }
      lines := lines + [Line(wrongLog[i], page, y)];
      y := y + LINE_STEP;
    }
    forall k | 0 <= k < |lines|
      ensures PAGE_TOP <= lines[k].y <= PAGE_BOTTOM
    {
      SlotInBand(k);
    }
  }
}
