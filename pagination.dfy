/**
 * The page loop of `draw_cards_to_pdf`: `card_index` walks the deck while
 * pages are filled row by row, left to right, and a page is finished (its
 * footer drawn, `showPage`) whenever the grid is full or the deck runs out.
 * The drawing itself is left to the canvas; this module records where each
 * card goes and which footers are written.
 */
module Pagination {
  import opened Layout

  /**
   * One card drawn: its page (0-based, the canvas page number minus one),
   * its row from the top and column from the left, the lower-left corner of
   * its border, and its position in the deck.
   */
  datatype Slot = Slot(page: nat, row: nat, col: nat, x: real, y: real, index: nat)

  /** The footer "Page {number} of {of}" of one finished page. */
  datatype Footer = Footer(number: nat, of: nat)

  /** Where the card at deck position `i` goes: row-major, `CardsPerPage()` to a page. */
  function SlotAt(g: Grid, i: nat): Slot
    requires g.Valid()
  {
    var perPage := g.CardsPerPage();
    var k := i % perPage;
    Slot(i / perPage, k / g.cols, k % g.cols, SlotX(g, k % g.cols), SlotY(g, k / g.cols), i)
  }

  /** The slots of the first `n` cards of the deck, in deck order. */
  function Placement(g: Grid, n: nat): (r: seq<Slot>)
    requires g.Valid()
    ensures |r| == n
  {
    seq(n, i requires 0 <= i < n => SlotAt(g, i))
  }

  /** The number of slots on page `p`. */
  function CardsOnPage(slots: seq<Slot>, p: nat): nat
  {
    if slots == [] then 0
    else CardsOnPage(slots[..|slots| - 1], p) + (if slots[|slots| - 1].page == p then 1 else 0)
  }

  /**
   * Lines 121-209: the whole page loop. Every card of the deck is placed
   * exactly once, in deck order, at `SlotAt`; one footer is written per
   * page, numbered from 1 and giving the precomputed page count.
   */
  method Paginate(g: Grid, total: nat) returns (slots: seq<Slot>, footers: seq<Footer>)
    requires g.Valid()
    ensures slots == Placement(g, total)
    ensures |footers| == TotalPages(total, g.CardsPerPage())
    ensures forall p :: 0 <= p < |footers| ==> footers[p] == Footer(p + 1, |footers|)
  {
    var perPage := g.CardsPerPage();
    PerPagePositive(g);
    var totalPages := TotalPages(total, perPage);
    var cardIndex := 0;
    slots, footers := [], [];
    while cardIndex < total
      invariant cardIndex <= total
      invariant slots == Placement(g, cardIndex)
      invariant |footers| == TotalPages(cardIndex, perPage)
      invariant cardIndex < total ==> cardIndex == |footers| * perPage
      invariant forall p :: 0 <= p < |footers| ==> footers[p] == Footer(p + 1, totalPages)
      decreases total - cardIndex
    {
      var page := |footers|;
      ghost var pageStart := cardIndex;
      ghost var rowStart := cardIndex;
      var row := 0;
      while row < g.rows
        invariant row <= g.rows
        invariant rowStart == pageStart + row * g.cols
        invariant cardIndex == rowStart <= total
        invariant slots == Placement(g, cardIndex)
      {
        var col := 0;
        while col < g.cols
          invariant col <= g.cols
          invariant cardIndex == rowStart + col <= total
          invariant slots == Placement(g, cardIndex)
        {
          if cardIndex >= total {
            break;
          }
          var x := Margin + col as real * g.cardWidth;
          var y := g.paper.height - Margin - (row + 1) as real * g.cardHeight;
          PlaceCard(g, page, row, col, cardIndex, slots);
          slots := slots + [Slot(page, row, col, x, y, cardIndex)];
          cardIndex := cardIndex + 1;
          col := col + 1;
        }
        if cardIndex >= total {
          break;
        }
        RowStep(row, g.cols);
        row := row + 1;
        rowStart := cardIndex;
      }
      PageDone(cardIndex, pageStart, page, perPage, row, g);
      footers := footers + [Footer(page + 1, totalPages)];
    }
  }

  /** Appending the slot computed by the loop body extends the placement by one card. */
  lemma PlaceCard(g: Grid, page: nat, row: nat, col: nat, cardIndex: nat, slots: seq<Slot>)
    requires g.Valid() && row < g.rows && col < g.cols
    requires cardIndex == page * g.CardsPerPage() + row * g.cols + col
    requires slots == Placement(g, cardIndex)
    ensures slots + [Slot(page, row, col, Margin + col as real * g.cardWidth,
                          g.paper.height - Margin - (row + 1) as real * g.cardHeight, cardIndex)]
            == Placement(g, cardIndex + 1)
  {
    SlotAtGrid(g, page, row, col);
    var s := SlotAt(g, cardIndex);
    assert s == Slot(page, row, col, Margin + col as real * g.cardWidth,
                     g.paper.height - Margin - (row + 1) as real * g.cardHeight, cardIndex);
    PlacementStep(g, cardIndex);
  }

  lemma PlacementStep(g: Grid, n: nat)
    requires g.Valid()
    ensures Placement(g, n + 1) == Placement(g, n) + [SlotAt(g, n)]
  {
  }

  // ---------------------------------------------------------------- lemmas

  lemma PerPagePositive(g: Grid)
    requires g.Valid()
    ensures g.CardsPerPage() >= 1
  {
    assert g.rows * g.cols >= g.cols;
  }

  lemma RowStep(row: nat, cols: nat)
    ensures row * cols + cols == (row + 1) * cols
  {
  }

  /** A page loop started at `page * perPage` and placed at least one card, at most `perPage`. */
  lemma PageDone(cardIndex: nat, pageStart: nat, page: nat, perPage: nat, row: nat, g: Grid)
    requires g.Valid() && perPage == g.CardsPerPage()
    requires pageStart == page * perPage && row <= g.rows
    requires cardIndex <= pageStart + row * g.cols + g.cols
    requires cardIndex >= pageStart + row * g.cols
    requires row == g.rows ==> cardIndex == pageStart + row * g.cols
    requires pageStart < cardIndex
    ensures cardIndex <= pageStart + perPage
    ensures TotalPages(cardIndex, perPage) == page + 1
    ensures cardIndex < pageStart + perPage ==> row < g.rows
    ensures cardIndex == pageStart + perPage ==> cardIndex == (page + 1) * perPage
  {
    PerPagePositive(g);
    if row < g.rows {
      MulMonoNat(row + 1, g.rows, g.cols);
    }
    DivRange(cardIndex + perPage - 1, page + 1, perPage);
  }

  /** `n // d == q` exactly when `q * d <= n < (q + 1) * d`. */
  lemma DivRange(n: nat, q: nat, d: nat)
    requires d >= 1
    ensures n / d == q <==> q * d <= n < (q + 1) * d
  {
    var q0, r0 := n / d, n % d;
    assert n == q0 * d + r0;
    if q * d <= n < (q + 1) * d {
      if q0 < q {
        MulMonoNat(q0 + 1, q, d);
      } else if q0 > q {
        MulMonoNat(q + 1, q0, d);
      }
    }
  }

  lemma MulMonoNat(m: nat, n: nat, d: nat)
    requires m <= n
    ensures m * d <= n * d
  {
    assert n * d - m * d == (n - m) * d;
  }

  /** `n == q * d + r` with `0 <= r < d` fixes the quotient and the remainder. */
  lemma DivModUnique(n: nat, d: nat, q: nat, r: nat)
    requires d >= 1 && r < d && n == q * d + r
    ensures n / d == q && n % d == r
  {
    DivRange(n, q, d);
    assert q * d <= n < (q + 1) * d;
  }

  /** The card at `page * perPage + row * cols + col` goes to that page, row and column. */
  lemma SlotAtGrid(g: Grid, page: nat, row: nat, col: nat)
    requires g.Valid() && row < g.rows && col < g.cols
    ensures var i := page * g.CardsPerPage() + row * g.cols + col;
            SlotAt(g, i) == Slot(page, row, col, SlotX(g, col), SlotY(g, row), i)
  {
    var perPage := g.CardsPerPage();
    var k := row * g.cols + col;
    MulMonoNat(row + 1, g.rows, g.cols);
    assert k < perPage;
    DivModUnique(page * perPage + k, perPage, page, k);
    DivModUnique(k, g.cols, row, col);
  }

  /** Each slot lies on the grid, and page, row and column read back the deck position row-major. */
  lemma SlotAtRowMajor(g: Grid, i: nat)
    requires g.Valid()
    ensures var s := SlotAt(g, i);
            && s.index == i && s.row < g.rows && s.col < g.cols
            && s.page * g.CardsPerPage() + s.row * g.cols + s.col == i
  {
    var perPage := g.CardsPerPage();
    PerPagePositive(g);
    var k := i % perPage;
    assert i == (i / perPage) * perPage + k;
    assert k == (k / g.cols) * g.cols + k % g.cols;
    if k / g.cols >= g.rows {
      MulMonoNat(g.rows, k / g.cols, g.cols);
      assert false;
    }
  }

  /** Every card is drawn inside the page margins. */
  lemma PlacementInsideMargins(g: Grid, n: nat, i: nat)
    requires g.Valid() && i < n
    ensures var s := Placement(g, n)[i];
            && Margin <= s.x && s.x + g.cardWidth <= g.paper.width - Margin
            && Margin <= s.y && s.y + g.cardHeight <= g.paper.height - Margin
  {
    SlotAtRowMajor(g, i);
    SlotInsideMargins(g, SlotAt(g, i).row, SlotAt(g, i).col);
  }

  /** Two cards on the same page do not overlap. */
  lemma PlacementNoOverlap(g: Grid, n: nat, i: nat, j: nat)
    requires g.Valid() && i < n && j < n && i != j
    requires Placement(g, n)[i].page == Placement(g, n)[j].page
    ensures var a, b := Placement(g, n)[i], Placement(g, n)[j];
            || a.x + g.cardWidth <= b.x || b.x + g.cardWidth <= a.x
            || a.y + g.cardHeight <= b.y || b.y + g.cardHeight <= a.y
  {
    var a, b := SlotAt(g, i), SlotAt(g, j);
    SlotAtRowMajor(g, i);
    SlotAtRowMajor(g, j);
    SlotsDisjoint(g, a.row, a.col, b.row, b.col);
  }

  /** Cards are placed in increasing row-major order: page first, then row, then column. */
  lemma PlacementOrdered(g: Grid, n: nat, i: nat, j: nat)
    requires g.Valid() && i < j < n
    ensures var a, b := Placement(g, n)[i], Placement(g, n)[j];
            || a.page < b.page
            || (a.page == b.page && a.row < b.row)
            || (a.page == b.page && a.row == b.row && a.col < b.col)
  {
    var a, b := SlotAt(g, i), SlotAt(g, j);
    SlotAtRowMajor(g, i);
    SlotAtRowMajor(g, j);
    RowMajorOrder(a.page, a.row, a.col, b.page, b.row, b.col, g.rows, g.cols);
  }

  /** Positions written as page, row and column in mixed radix compare lexicographically. */
  lemma RowMajorOrder(pa: nat, ra: nat, ca: nat, pb: nat, rb: nat, cb: nat, rows: nat, cols: nat)
    requires ra < rows && rb < rows && ca < cols && cb < cols
    requires pa * (rows * cols) + ra * cols + ca < pb * (rows * cols) + rb * cols + cb
    ensures pa < pb || (pa == pb && ra < rb) || (pa == pb && ra == rb && ca < cb)
  {
    var perPage := rows * cols;
    var ka, kb := ra * cols + ca, rb * cols + cb;
    DigitBelow(ra, ca, rows, cols);
    DigitBelow(rb, cb, rows, cols);
    if pa > pb {
      DigitOrder(pb, kb, pa, ka, perPage);
      assert false;
    } else if pa == pb && ra > rb {
      DigitOrder(rb, cb, ra, ca, cols);
      assert false;
    }
  }

  /** `row * cols + col` is below `rows * cols`. */
  lemma DigitBelow(row: nat, col: nat, rows: nat, cols: nat)
    requires row < rows && col < cols
    ensures row * cols + col < rows * cols
  {
    MulMonoNat(row + 1, rows, cols);
  }

  /** A higher leading digit gives a larger number, whatever the lower digits below the base. */
  lemma DigitOrder(q1: nat, r1: nat, q2: nat, r2: nat, d: nat)
    requires q1 < q2 && r1 < d
    ensures q1 * d + r1 < q2 * d + r2
  {
    MulMonoNat(q1 + 1, q2, d);
  }

  function Clamp(x: int, hi: nat): nat
  {
    if x < 0 then 0 else if x > hi then hi else x
  }

  /** Page `p` holds the deck positions from `p * perPage` up to the end of the page or of the deck. */
  lemma {:induction false} CardsOnPageCount(g: Grid, n: nat, p: nat)
    requires g.Valid()
    ensures CardsOnPage(Placement(g, n), p) == Clamp(n - p * g.CardsPerPage(), g.CardsPerPage())
  {
    if n > 0 {
      var perPage := g.CardsPerPage();
      PerPagePositive(g);
      assert Placement(g, n)[..n - 1] == Placement(g, n - 1);
      CardsOnPageCount(g, n - 1, p);
      DivRange(n - 1, p, perPage);
      assert (p + 1) * perPage == p * perPage + perPage;
    }
  }

  /**
   * Every page but the last holds exactly `CardsPerPage()` cards, the last
   * holds between one and `CardsPerPage()`, and no card lies beyond it.
   */
  lemma PagesFull(g: Grid, total: nat, p: nat)
    requires g.Valid()
    ensures var pages, perPage := TotalPages(total, g.CardsPerPage()), g.CardsPerPage();
            var count := CardsOnPage(Placement(g, total), p);
            && (p + 1 < pages ==> count == perPage)
            && (p + 1 == pages ==> 1 <= count <= perPage)
            && (p >= pages ==> count == 0)
  {
    var perPage := g.CardsPerPage();
    PerPagePositive(g);
    TotalPagesIsCeiling(total, perPage);
    CardsOnPageCount(g, total, p);
    PageShare(total, p, perPage, TotalPages(total, perPage));
  }

  /** The arithmetic behind `PagesFull`. */
  lemma PageShare(total: nat, p: nat, perPage: nat, pages: nat)
    requires perPage >= 1
    requires total <= pages * perPage
    requires pages == 0 <==> total == 0
    requires pages > 0 ==> (pages - 1) * perPage < total
    ensures var count := Clamp(total - p * perPage, perPage);
            && (p + 1 < pages ==> count == perPage)
            && (p + 1 == pages ==> 1 <= count <= perPage)
            && (p >= pages ==> count == 0)
  {
    if p + 1 < pages {
      MulMonoNat(p + 2, pages, perPage);
      assert (p + 2) * perPage == p * perPage + 2 * perPage;
      assert (pages - 1) * perPage == pages * perPage - perPage;
    } else if p + 1 == pages {
      assert (p + 1) * perPage == p * perPage + perPage;
    } else {
      MulMonoNat(pages, p, perPage);
    }
  }

  /** The default Letter layout puts a 50-card deck on pages of 20, 20 and 10 cards. */
  lemma LetterDefaultPages()
    ensures var g := ComputeGrid(Letter, DefaultCardWidth, DefaultCardHeight);
            && CardsOnPage(Placement(g, 50), 0) == 20
            && CardsOnPage(Placement(g, 50), 1) == 20
            && CardsOnPage(Placement(g, 50), 2) == 10
  {
    var g := ComputeGrid(Letter, DefaultCardWidth, DefaultCardHeight);
    LetterDefaultGrid();
    CardsOnPageCount(g, 50, 0);
    CardsOnPageCount(g, 50, 1);
    CardsOnPageCount(g, 50, 2);
  }
}
