/**
 * The grid arithmetic of `draw_cards_to_pdf`: how many card columns and rows
 * fit inside the half-inch margins, the shrinking fallback for a card larger
 * than the printable area, where each slot lies and how many pages a deck
 * needs. Dimensions are exact reals in PostScript points; Python's `//` on
 * the source's positive floats is `Floor` of the exact quotient.
 */
module Layout {

  /** Points per inch (`reportlab.lib.units.inch`). */
  const Inch: real := 72.0

  /** Points per millimetre (`reportlab.lib.units.mm`). */
  const Mm: real := Inch / 25.4

  /** The page margin: half an inch on each side. */
  const Margin: real := 0.5 * Inch

  datatype PaperSize = PaperSize(width: real, height: real)

  /** The three sizes the program offers (`letter`, `A4`, `legal`). */
  const Letter: PaperSize := PaperSize(8.5 * Inch, 11.0 * Inch)
  const A4: PaperSize := PaperSize(210.0 * Mm, 297.0 * Mm)
  const Legal: PaperSize := PaperSize(8.5 * Inch, 14.0 * Inch)

  /** The default card: 1.5 by 2.5 inches. */
  const DefaultCardWidth: real := 1.5 * Inch
  const DefaultCardHeight: real := 2.5 * Inch

  function AvailableWidth(paper: PaperSize): real
  {
    paper.width - 2.0 * Margin
  }

  function AvailableHeight(paper: PaperSize): real
  {
    paper.height - 2.0 * Margin
  }

  /** The page leaves a printable area inside its margins. */
  predicate Printable(paper: PaperSize)
  {
    AvailableWidth(paper) > 0.0 && AvailableHeight(paper) > 0.0
  }

  /** Python's `int(a // b)` on positive floats. */
  function FloorDiv(a: real, b: real): (q: int)
    requires b > 0.0
    ensures q as real * b <= a < (q + 1) as real * b
  {
    var q := (a / b).Floor;
    MulLeDiv(q as real, a, b);
    MulLeDiv(a / b, (q + 1) as real, 1.0 / b);
    q
  }

  /** The layout decided once per run: the (possibly shrunk) card and the grid. */
  datatype Grid = Grid(paper: PaperSize, cardWidth: real, cardHeight: real, cols: nat, rows: nat)
  {
    function CardsPerPage(): nat
    {
      rows * cols
    }

    /** The grid fills the printable area with whole cards and at least one per page. */
    predicate Valid()
    {
      && Printable(paper)
      && cardWidth > 0.0 && cardHeight > 0.0
      && cols >= 1 && rows >= 1
      && cols as real * cardWidth <= AvailableWidth(paper)
      && rows as real * cardHeight <= AvailableHeight(paper)
    }
  }

  function Min(a: real, b: real): real
  {
    if a <= b then a else b
  }

  function Max(a: int, b: int): int
  {
    if a >= b then a else b
  }

  /**
   * Lines 102-119: columns and rows by floor division of the printable area;
   * when no card fits, each card side longer than the printable area is cut
   * to it and the grid recomputed, with at least one column and one row.
   */
  function ComputeGrid(paper: PaperSize, cardWidth: real, cardHeight: real): (g: Grid)
    requires Printable(paper) && cardWidth > 0.0 && cardHeight > 0.0
    ensures g.Valid() && g.paper == paper
  {
    var aw, ah := AvailableWidth(paper), AvailableHeight(paper);
    var cols, rows := FloorDiv(aw, cardWidth), FloorDiv(ah, cardHeight);
    AxisFacts(aw, cardWidth);
    AxisFacts(ah, cardHeight);
    NonZeroProduct(rows, cols);
    if rows * cols != 0 then
      Grid(paper, cardWidth, cardHeight, cols, rows)
    else
      var w, h := Min(cardWidth, aw), Min(cardHeight, ah);
      Grid(paper, w, h, Max(1, FloorDiv(aw, w)), Max(1, FloorDiv(ah, h)))
  }

  /** The grid is as large as the page allows: one more column or one more row would not fit. */
  lemma GridIsMaximal(paper: PaperSize, cardWidth: real, cardHeight: real)
    requires Printable(paper) && cardWidth > 0.0 && cardHeight > 0.0
    ensures var g := ComputeGrid(paper, cardWidth, cardHeight);
            && AvailableWidth(paper) < (g.cols + 1) as real * g.cardWidth
            && AvailableHeight(paper) < (g.rows + 1) as real * g.cardHeight
  {
    AxisFacts(AvailableWidth(paper), cardWidth);
    AxisFacts(AvailableHeight(paper), cardHeight);
  }

  /**
   * A card side that fits is kept; a side longer than the printable area is
   * cut to it and leaves room for one card along that axis. So the fallback
   * of lines 110-119 changes nothing when at least one card fits.
   */
  lemma GridCardSize(paper: PaperSize, cardWidth: real, cardHeight: real)
    requires Printable(paper) && cardWidth > 0.0 && cardHeight > 0.0
    ensures var g := ComputeGrid(paper, cardWidth, cardHeight);
            && (cardWidth <= AvailableWidth(paper) ==> g.cardWidth == cardWidth && g.cols == FloorDiv(AvailableWidth(paper), cardWidth))
            && (cardWidth > AvailableWidth(paper) ==> g.cardWidth == AvailableWidth(paper) && g.cols == 1)
            && (cardHeight <= AvailableHeight(paper) ==> g.cardHeight == cardHeight && g.rows == FloorDiv(AvailableHeight(paper), cardHeight))
            && (cardHeight > AvailableHeight(paper) ==> g.cardHeight == AvailableHeight(paper) && g.rows == 1)
  {
    AxisFacts(AvailableWidth(paper), cardWidth);
    AxisFacts(AvailableHeight(paper), cardHeight);
    NonZeroProduct(FloorDiv(AvailableHeight(paper), cardHeight), FloorDiv(AvailableWidth(paper), cardWidth));
  }

  /** `(total + per_page - 1) // per_page`. */
  function TotalPages(total: nat, perPage: nat): nat
    requires perPage >= 1
  {
    (total + perPage - 1) / perPage
  }

  /** Left edge of the card in column `col` (`margin + col * card_width`). */
  function SlotX(g: Grid, col: nat): real
  {
    Margin + col as real * g.cardWidth
  }

  /** Bottom edge of the card in row `row`, rows counted from the top of the page. */
  function SlotY(g: Grid, row: nat): real
  {
    g.paper.height - Margin - (row + 1) as real * g.cardHeight
  }

  // ---------------------------------------------------------------- lemmas

  lemma MulLeDiv(x: real, a: real, b: real)
    requires b > 0.0
    ensures x <= a / b <==> x * b <= a
    ensures x > a / b <==> x * b > a
  {
    assert (a / b) * b == a;
  }

  /** Whole cards across a positive length: none when the card is longer, one when it is as long. */
  lemma FloorDivFacts(a: real, b: real)
    requires a > 0.0 && b > 0.0
    ensures FloorDiv(a, b) >= 0
    ensures FloorDiv(a, b) >= 1 <==> b <= a
    ensures b == a ==> FloorDiv(a, b) == 1
  {
    QuotientFacts(FloorDiv(a, b), a, b);
  }

  /** The same, for any `q` with `q * b <= a < (q + 1) * b`. */
  lemma QuotientFacts(q: int, a: real, b: real)
    requires a > 0.0 && b > 0.0
    requires q as real * b <= a < (q + 1) as real * b
    ensures q >= 0
    ensures q >= 1 <==> b <= a
    ensures b == a ==> q == 1
  {
    QuotientNonNegative(q, a, b);
    if q >= 1 {
      AtLeastOnce(q, b);
    } else {
      MulSucc(0, b);
    }
    if b == a {
      QuotientOfItself(q, b);
    }
  }

  lemma QuotientNonNegative(q: int, a: real, b: real)
    requires a > 0.0 && b > 0.0 && a < (q + 1) as real * b
    ensures q >= 0
  {
    if q < 0 {
      MulMono(q + 1, 0, b);
    }
  }

  lemma QuotientOfItself(q: int, b: real)
    requires b > 0.0 && q as real * b <= b < (q + 1) as real * b
    ensures q == 1
  {
    QuotientNonNegative(q, b, b);
    if q == 0 {
      MulSucc(0, b);
    } else if q >= 2 {
      MulMono(2, q, b);
      MulSucc(1, b);
    }
  }

  /** Both outcomes along one axis, for the available length `a` and the card length `c`. */
  lemma AxisFacts(a: real, c: real)
    requires a > 0.0 && c > 0.0
    ensures FloorDiv(a, c) >= 0
    ensures FloorDiv(a, c) >= 1 <==> c <= a
    ensures var c' := Min(c, a);
            var n' := Max(1, FloorDiv(a, c'));
            && n' >= 1 && n' as real * c' <= a < (n' + 1) as real * c'
            && (c <= a ==> c' == c && n' == FloorDiv(a, c))
            && (c > a ==> c' == a && n' == 1)
  {
    FloorDivFacts(a, c);
    FloorDivFacts(a, Min(c, a));
  }

  lemma NonZeroProduct(a: int, b: int)
    requires a >= 0 && b >= 0
    ensures a * b != 0 <==> a >= 1 && b >= 1
  {
    if a >= 1 && b >= 1 {
      assert a * b >= b;
    }
  }

  lemma AtLeastOnce(q: int, b: real)
    requires q >= 1 && b > 0.0
    ensures b <= q as real * b
  {
    assert q as real * b - b == (q - 1) as real * b;
    MulMono(0, q - 1, b);
  }

  lemma MulMono(m: int, n: int, w: real)
    requires m <= n && w > 0.0
    ensures m as real * w <= n as real * w
  {
    assert n as real * w - m as real * w == (n - m) as real * w;
  }

  /** The page count is the ceiling of total / perPage: the fewest pages that hold the deck. */
  lemma TotalPagesIsCeiling(total: nat, perPage: nat)
    requires perPage >= 1
    ensures var pages := TotalPages(total, perPage);
            && total <= pages * perPage
            && (pages == 0 <==> total == 0)
            && (pages > 0 ==> (pages - 1) * perPage < total)
  {
    var pages := TotalPages(total, perPage);
    var t := total + perPage - 1;
    assert t == pages * perPage + t % perPage;
    if pages > 0 {
      assert (pages - 1) * perPage == pages * perPage - perPage;
    }
  }

  /** Every slot of the grid lies inside the margins of the page. */
  lemma SlotInsideMargins(g: Grid, row: nat, col: nat)
    requires g.Valid() && row < g.rows && col < g.cols
    ensures Margin <= SlotX(g, col)
    ensures SlotX(g, col) + g.cardWidth <= g.paper.width - Margin
    ensures Margin <= SlotY(g, row)
    ensures SlotY(g, row) + g.cardHeight <= g.paper.height - Margin
  {
    ColumnInside(g, col);
    RowInside(g, row);
  }

  lemma ColumnInside(g: Grid, col: nat)
    requires g.cardWidth > 0.0 && col < g.cols && g.cols as real * g.cardWidth <= AvailableWidth(g.paper)
    ensures Margin <= SlotX(g, col)
    ensures SlotX(g, col) + g.cardWidth <= g.paper.width - Margin
  {
    var w := g.cardWidth;
    MulMono(0, col, w);
    MulSucc(col, w);
    MulMono(col + 1, g.cols, w);
    assert SlotX(g, col) + w == Margin + (col + 1) as real * w;
  }

  lemma RowInside(g: Grid, row: nat)
    requires g.cardHeight > 0.0 && row < g.rows && g.rows as real * g.cardHeight <= AvailableHeight(g.paper)
    ensures Margin <= SlotY(g, row)
    ensures SlotY(g, row) + g.cardHeight <= g.paper.height - Margin
  {
    var h := g.cardHeight;
    MulMono(0, row, h);
    MulSucc(row, h);
    MulMono(row + 1, g.rows, h);
    assert SlotY(g, row) + h == g.paper.height - Margin - row as real * h;
  }

  lemma MulSucc(n: int, w: real)
    ensures (n + 1) as real * w == n as real * w + w
  {
  }

  /** Two different slots of one page do not overlap. */
  lemma SlotsDisjoint(g: Grid, row1: nat, col1: nat, row2: nat, col2: nat)
    requires g.Valid() && (row1, col1) != (row2, col2)
    ensures || SlotX(g, col1) + g.cardWidth <= SlotX(g, col2)
            || SlotX(g, col2) + g.cardWidth <= SlotX(g, col1)
            || SlotY(g, row1) + g.cardHeight <= SlotY(g, row2)
            || SlotY(g, row2) + g.cardHeight <= SlotY(g, row1)
  {
    if col1 < col2 {
      ColumnsApart(g, col1, col2);
    } else if col2 < col1 {
      ColumnsApart(g, col2, col1);
    } else if row1 < row2 {
      RowsApart(g, row1, row2);
    } else {
      RowsApart(g, row2, row1);
    }
  }

  lemma ColumnsApart(g: Grid, c1: nat, c2: nat)
    requires g.cardWidth > 0.0 && c1 < c2
    ensures SlotX(g, c1) + g.cardWidth <= SlotX(g, c2)
  {
    var w := g.cardWidth;
    MulSucc(c1, w);
    MulMono(c1 + 1, c2, w);
    assert SlotX(g, c1) + w == Margin + (c1 + 1) as real * w;
  }

  lemma RowsApart(g: Grid, r1: nat, r2: nat)
    requires g.cardHeight > 0.0 && r1 < r2
    ensures SlotY(g, r2) + g.cardHeight <= SlotY(g, r1)
  {
    var h := g.cardHeight;
    MulSucc(r2, h);
    MulMono(r1 + 1, r2, h);
    assert SlotY(g, r2) + h == g.paper.height - Margin - r2 as real * h;
  }

  /** The three offered paper sizes all leave a printable area. */
  lemma StandardSizesPrintable()
    ensures Printable(Letter) && Printable(A4) && Printable(Legal)
  {
  }

  /** Letter paper with the default card: 5 columns by 4 rows, so a 50-card deck takes 3 pages. */
  lemma LetterDefaultGrid()
    ensures var g := ComputeGrid(Letter, DefaultCardWidth, DefaultCardHeight);
            g.cols == 5 && g.rows == 4 && g.CardsPerPage() == 20
            && g.cardWidth == 108.0 && g.cardHeight == 180.0
            && TotalPages(50, g.CardsPerPage()) == 3
            && TotalPages(25, g.CardsPerPage()) == 2
  {
    assert FloorDiv(540.0, 108.0) == 5;
    assert FloorDiv(720.0, 180.0) == 4;
  }

  /** A card larger than the printable area is cut to it: one card per page. */
  lemma OversizedCardGrid()
    ensures var g := ComputeGrid(Letter, 10.0 * Inch, 12.0 * Inch);
            g.cols == 1 && g.rows == 1 && g.cardWidth == 540.0 && g.cardHeight == 720.0
  {
  }
}
