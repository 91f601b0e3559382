/** The card grid of pdf/pdf_renderer.py.  Lengths are exact reals in one unit. */
module PdfGrid {

  import opened Basics

  /** A row (or column) of `n` equal cells, `gap` apart, filling a length. */
  datatype Line = Line(n: nat, length: real, gap: real)

  function CellSize(l: Line): real
    requires l.n >= 1
  {
    (l.length - (l.n - 1) as real * l.gap) / l.n as real
  }

  function Times(k: nat, step: real): real { k as real * step }

  /** Where cell `k` starts. */
  function Start(l: Line, k: nat): real
    requires l.n >= 1
  {
    Times(k, CellSize(l) + l.gap)
  }

  predicate Within(l: Line, k: nat)
    requires l.n >= 1
  {
    0.0 <= Start(l, k) && Start(l, k) + CellSize(l) <= l.length
  }

  /** The two cells have no inner point in common. */
  predicate Apart(l: Line, j: nat, k: nat)
    requires l.n >= 1
  {
    Start(l, j) + CellSize(l) <= Start(l, k) || Start(l, k) + CellSize(l) <= Start(l, j)
  }

  ghost predicate LineFits(l: Line)
    requires l.n >= 1
  {
    && (forall k: nat :: k < l.n ==> Within(l, k))
    && (forall j: nat, k: nat :: j < k < l.n ==> Apart(l, j, k))
  }

  lemma CellsFill(l: Line)
    requires l.n >= 1
    ensures Start(l, l.n - 1) + CellSize(l) == l.length
  {
    var n := l.n as real;
    var w := CellSize(l);
    assert w * n == l.length - (n - 1.0) * l.gap;
    assert (l.n - 1) as real == n - 1.0;
    assert (n - 1.0) * (w + l.gap) + w == n * w + (n - 1.0) * l.gap;
  }

  lemma StepUp(a: nat, b: nat, step: real)
    requires a <= b && step >= 0.0
    ensures Times(a, step) <= Times(b, step)
  {
    assert (b - a) as real * step >= 0.0;
    assert b as real == a as real + (b - a) as real;
  }

  lemma NextStart(l: Line, k: nat)
    requires l.n >= 1
    ensures Start(l, k + 1) == Start(l, k) + CellSize(l) + l.gap
  {
    assert (k + 1) as real == k as real + 1.0;
  }

  /** A line of cells of positive size fits exactly when its gap is not negative
      (or there is one cell only). */
  lemma LineFitsIff(l: Line)
    requires l.n >= 1 && CellSize(l) > 0.0
    ensures LineFits(l) <==> l.n == 1 || l.gap >= 0.0
  {
    CellsFill(l);
    var step := CellSize(l) + l.gap;
    if l.n == 1 {
      assert Start(l, 0) == 0.0;
      assert Within(l, 0);
    } else if l.gap >= 0.0 {
      forall k: nat | k < l.n ensures Within(l, k) {
        StepUp(0, k, step);
        StepUp(k, l.n - 1, step);
      }
      forall j: nat, k: nat | j < k < l.n ensures Apart(l, j, k) {
        NextStart(l, j);
        StepUp(j + 1, k, step);
      }
    } else {
      NextStart(l, 0);
      assert Start(l, 0) == 0.0;
      assert !Apart(l, 0, 1) || !Within(l, 1);
    }
  }

  // ---- the grid ------------------------------------------------------------

  datatype Settings = Settings(
    pageWidth: real, pageHeight: real,
    left: real, right: real, top: real, bottom: real,
    spacingX: real, spacingY: real,
    cardsPerRow: int, cardsPerPage: int
  )

  function Max(a: int, b: int): int { if a >= b then a else b }

  function Cols(s: Settings): nat { Max(1, s.cardsPerRow) }

  function Rows(s: Settings): nat { Max(1, Max(Cols(s), s.cardsPerPage) / Cols(s)) }

  function PerPage(s: Settings): (n: nat)
    ensures n >= 1
  {
    Product(Rows(s), Cols(s));
    Rows(s) * Cols(s)
  }

  /** A page holds the most full rows that the requested number has room for, and at
      least one row. */
  lemma PerPageIs(s: Settings)
    ensures Cols(s) == if s.cardsPerRow >= 1 then s.cardsPerRow else 1
    ensures PerPage(s) == Rows(s) * Cols(s)
    ensures s.cardsPerPage >= Cols(s) ==> PerPage(s) <= s.cardsPerPage < PerPage(s) + Cols(s)
    ensures s.cardsPerPage < Cols(s) ==> PerPage(s) == Cols(s)
  {
    var n := Max(Cols(s), s.cardsPerPage);
    FullRows(n, Cols(s));
    assert Rows(s) == n / Cols(s);
  }

  lemma FullRows(n: nat, c: nat)
    requires 1 <= c <= n
    ensures n / c >= 1 && n / c * c <= n < n / c * c + c
    ensures n == c ==> n / c * c == c
  {
    assert n == c * (n / c) + n % c;
    LessByProduct(c, 0, n / c + 1);
    if n / c == 0 {
      assert false;
    }
  }

  lemma Product(a: nat, b: nat)
    requires a >= 1 && b >= 1
    ensures a * b >= 1
  {
  }

  function Across(s: Settings): Line { Line(Cols(s), s.pageWidth - s.left - s.right, s.spacingX) }

  function Upward(s: Settings): Line { Line(Rows(s), s.pageHeight - s.top - s.bottom, s.spacingY) }

  /** The size check of the renderer. */
  predicate Printable(s: Settings) { CellSize(Across(s)) > 0.0 && CellSize(Upward(s)) > 0.0 }

  /** Page, row counted from the bottom, and column of the i-th card. */
  datatype Cell = Cell(page: nat, row: nat, col: nat)

  lemma QuotientBound(k: nat, a: nat, b: nat)
    requires b >= 1 && k < a * b
    ensures k / b < a && k == b * (k / b) + k % b
  {
    LessByProduct(b, k / b, a);
  }

  lemma LessByProduct(b: nat, x: int, y: int)
    requires b * x < b * y
    ensures x < y
  {
  }

  /** The cell of card `k` of a page with `rows` rows of `cols` cards. */
  function CellOn(page: nat, k: nat, rows: nat, cols: nat): (c: Cell)
    requires rows >= 1 && cols >= 1 && k < rows * cols
    ensures c.row < rows && c.col < cols
  {
    QuotientBound(k, rows, cols);
    Cell(page, rows - 1 - k / cols, k % cols)
  }

  function CellOf(s: Settings, i: nat): (c: Cell)
    ensures c.row < Rows(s) && c.col < Cols(s)
  {
    CellOn(i / PerPage(s), i % PerPage(s), Rows(s), Cols(s))
  }

  /** No two cards share a cell. */
  lemma CellsAreDistinct(s: Settings, i: nat, j: nat)
    requires CellOf(s, i) == CellOf(s, j)
    ensures i == j
  {
    var p := PerPage(s);
    QuotientBound(i % p, Rows(s), Cols(s));
    QuotientBound(j % p, Rows(s), Cols(s));
    assert i == p * (i / p) + i % p;
    assert j == p * (j / p) + j % p;
  }

  lemma CellOnIsUsed(page: nat, row: nat, col: nat, rows: nat, cols: nat)
    requires row < rows && col < cols
    ensures var k := (rows - 1 - row) * cols + col;
            0 <= k < rows * cols && CellOn(page, k, rows, cols) == Cell(page, row, col)
  {
    var q := rows - 1 - row;
    assert q * cols <= (rows - 1) * cols;
    assert (rows - 1) * cols + cols == rows * cols;
    Quotient(q, cols, col);
  }

  /** Every cell of every page is some card's, so a full page is a full grid. */
  lemma CellIsUsed(s: Settings, c: Cell) returns (i: nat)
    requires c.row < Rows(s) && c.col < Cols(s)
    ensures CellOf(s, i) == c
  {
    CellOnIsUsed(c.page, c.row, c.col, Rows(s), Cols(s));
    var k: nat := (Rows(s) - 1 - c.row) * Cols(s) + c.col;
    i := c.page * PerPage(s) + k;
    Quotient(c.page, PerPage(s), k);
  }

  lemma Quotient(q: nat, b: nat, r: nat)
    requires r < b
    ensures (q * b + r) / b == q && (q * b + r) % b == r
  {
    var n := q * b + r;
    assert n == b * (n / b) + n % b;
    LessByProduct(b, n / b, q + 1);
    LessByProduct(b, q, n / b + 1);
  }

  predicate Inside(s: Settings, c: Cell) {
    var (x, y) := (s.left + Start(Across(s), c.col), s.bottom + Start(Upward(s), c.row));
    && s.left <= x && x + CellSize(Across(s)) <= s.pageWidth - s.right
    && s.bottom <= y && y + CellSize(Upward(s)) <= s.pageHeight - s.top
  }

  /** The two cards have no inner point in common. */
  predicate Disjoint(s: Settings, c: Cell, d: Cell) {
    c.page != d.page || Apart(Across(s), c.col, d.col) || Apart(Upward(s), c.row, d.row)
  }

  /** Every one of `n` cards inside the margins, no two overlapping. */
  predicate LayoutIsRight(s: Settings, n: nat) {
    && (forall i :: 0 <= i < n ==> Inside(s, CellOf(s, i)))
    && (forall i, j :: 0 <= i < j < n ==> Disjoint(s, CellOf(s, i), CellOf(s, j)))
  }

  /** Do `n` cards use two columns, two rows? */
  predicate UsesColumns(s: Settings, n: nat) { n >= 2 && Cols(s) >= 2 }

  predicate UsesRows(s: Settings, n: nat) { n > Cols(s) && Rows(s) >= 2 }

  /** Room for the cells of one direction: a gap that is not negative when two are used,
      and otherwise a cell no longer than the whole length. */
  predicate HasRoom(l: Line, several: bool)
    requires l.n >= 1
  {
    if several then l.gap >= 0.0 else CellSize(l) <= l.length
  }

  /** In terms of the settings: a lone cell has room unless the gap is more negative
      than the whole length. */
  lemma LoneCellHasRoom(l: Line)
    requires l.n >= 1
    ensures HasRoom(l, false) <==> l.n == 1 || l.length + l.gap >= 0.0
  {
    CellsFill(l);
    var m := (l.n - 1) as real;
    assert CellSize(l) * (m + 1.0) == l.length - m * l.gap;
    if l.n > 1 {
      assert (l.length - CellSize(l)) * (m + 1.0) == m * (l.length + l.gap);
      SameSign(l.length - CellSize(l), m + 1.0);
      SameSign(l.length + l.gap, m);
    }
  }

  lemma SameSign(x: real, c: real)
    requires c > 0.0
    ensures x * c >= 0.0 <==> x >= 0.0
  {
  }

  /** The cell of the first cards on a page. */
  lemma FirstCells(s: Settings, i: nat)
    requires i < PerPage(s)
    ensures i < Cols(s) ==> CellOf(s, i) == Cell(0, Rows(s) - 1, i)
    ensures i == Cols(s) ==> Rows(s) >= 2 && CellOf(s, i) == Cell(0, Rows(s) - 2, 0)
  {
    Quotient(0, PerPage(s), i);
    if i < Cols(s) {
      Quotient(0, Cols(s), i);
    } else if i == Cols(s) {
      Quotient(1, Cols(s), 0);
    }
  }

  lemma SecondRowExists(s: Settings)
    ensures Rows(s) >= 2 ==> Cols(s) < PerPage(s)
    ensures Cols(s) >= 2 ==> 1 < PerPage(s)
    ensures Cols(s) <= PerPage(s)
  {
    assert Rows(s) >= 2 ==> Rows(s) * Cols(s) >= 2 * Cols(s);
    assert Rows(s) * Cols(s) >= 1 * Cols(s);
  }

  /** Cards beyond the first column or off the top row show that several are used. */
  lemma UsedCells(s: Settings, n: nat, i: nat)
    requires i < n
    ensures CellOf(s, i).col != 0 ==> UsesColumns(s, n)
    ensures CellOf(s, i).row != Rows(s) - 1 ==> UsesRows(s, n)
  {
    SecondRowExists(s);
    if i < Cols(s) {
      FirstCells(s, i);
    }
  }

  lemma LoneCells(l: Line)
    requires l.n >= 1 && CellSize(l) > 0.0
    ensures Within(l, 0) <==> CellSize(l) <= l.length
    ensures Within(l, l.n - 1) <==> CellSize(l) <= l.length
  {
    CellsFill(l);
    assert Start(l, 0) == 0.0;
  }

  lemma RoomForCell(l: Line, several: bool, k: nat)
    requires l.n >= 1 && CellSize(l) > 0.0 && k < l.n && HasRoom(l, several)
    requires several || k == 0 || k == l.n - 1
    ensures Within(l, k)
  {
    LineFitsIff(l);
    LoneCells(l);
  }

  lemma SpacedLayoutIsRight(s: Settings, n: nat)
    requires Printable(s)
    requires HasRoom(Across(s), UsesColumns(s, n)) && HasRoom(Upward(s), UsesRows(s, n))
    ensures LayoutIsRight(s, n)
  {
    LineFitsIff(Across(s));
    LineFitsIff(Upward(s));
    forall i | 0 <= i < n ensures Inside(s, CellOf(s, i)) {
      var c := CellOf(s, i);
      UsedCells(s, n, i);
      RoomForCell(Across(s), UsesColumns(s, n), c.col);
      RoomForCell(Upward(s), UsesRows(s, n), c.row);
    }
    forall i, j | 0 <= i < j < n ensures Disjoint(s, CellOf(s, i), CellOf(s, j)) {
      var (c, d) := (CellOf(s, i), CellOf(s, j));
      UsedCells(s, n, i);
      UsedCells(s, n, j);
      if c == d {
        CellsAreDistinct(s, i, j);
      } else if c.page == d.page && c.col != d.col {
        LinesApart(Across(s), c.col, d.col);
      } else if c.page == d.page {
        LinesApart(Upward(s), c.row, d.row);
      }
    }
  }

  lemma LinesApart(l: Line, j: nat, k: nat)
    requires l.n >= 1 && LineFits(l) && j < l.n && k < l.n
    ensures j != k ==> Apart(l, j, k)
  {
    if j < k {
      assert Apart(l, j, k);
    } else if k < j {
      assert Apart(l, k, j);
    }
  }

  /** Once the size check passes, the layout of `n` cards is right exactly when there is
      room in both directions. */
  lemma LayoutIsRightIff(s: Settings, n: nat)
    requires Printable(s)
    ensures LayoutIsRight(s, n) <==>
              n == 0 || (HasRoom(Across(s), UsesColumns(s, n)) && HasRoom(Upward(s), UsesRows(s, n)))
  {
    if n > 0 && LayoutIsRight(s, n) {
      SecondRowExists(s);
      FirstCells(s, 0);
      assert Inside(s, CellOf(s, 0));
      LoneCells(Across(s));
      LoneCells(Upward(s));
      if UsesColumns(s, n) {
        FirstCells(s, 1);
        assert Inside(s, CellOf(s, 1)) && Disjoint(s, CellOf(s, 0), CellOf(s, 1));
        SameCellOverlaps(Upward(s), Rows(s) - 1);
        NeighboursNeedGap(Across(s), 0);
      }
      if UsesRows(s, n) {
        FirstCells(s, Cols(s));
        assert Inside(s, CellOf(s, Cols(s))) && Disjoint(s, CellOf(s, 0), CellOf(s, Cols(s)));
        SameCellOverlaps(Across(s), 0);
        NeighboursNeedGap(Upward(s), Rows(s) - 2);
      }
    } else if n > 0 && HasRoom(Across(s), UsesColumns(s, n)) && HasRoom(Upward(s), UsesRows(s, n)) {
      SpacedLayoutIsRight(s, n);
    }
  }

  /** Two neighbours, one of them at an end, fit and stay apart only across a gap that
      is not negative. */
  lemma NeighboursNeedGap(l: Line, k: nat)
    requires l.n >= 2 && CellSize(l) > 0.0 && (k == 0 || k == l.n - 2)
    requires Within(l, k) && Within(l, k + 1) && (Apart(l, k, k + 1) || Apart(l, k + 1, k))
    ensures l.gap >= 0.0
  {
    CellsFill(l);
    NextStart(l, k);
    assert Start(l, 0) == 0.0;
  }

  lemma SameCellOverlaps(l: Line, k: nat)
    requires l.n >= 1 && CellSize(l) > 0.0
    ensures !Apart(l, k, k)
  {
  }

  // ---- the page loop ---------------------------------------------------------

  /** One drawn card: lower left corner, size, printed number. */
  datatype Placed = Placed(page: nat, x: real, y: real, width: real, height: real, number: nat)

  function PlaceOf(s: Settings, i: nat): Placed {
    var c := CellOf(s, i);
    Placed(c.page, s.left + Start(Across(s), c.col), s.bottom + Start(Upward(s), c.row),
           CellSize(Across(s)), CellSize(Upward(s)), i + 1)
  }

  /** Card `i` carries the number i + 1 and stands on page i / perPage, in reading order:
      left to right, then top to bottom. */
  lemma PlaceIs(s: Settings, i: nat)
    ensures var (p, k) := (PlaceOf(s, i), i % PerPage(s));
            && p.number == i + 1 && p.page == i / PerPage(s)
            && p.width == CellSize(Across(s)) && p.height == CellSize(Upward(s))
            && p.x == s.left + (k % Cols(s)) as real * (p.width + s.spacingX)
            && p.y == s.bottom + (Rows(s) - 1 - k / Cols(s)) as real * (p.height + s.spacingY)
  {
    QuotientBound(i % PerPage(s), Rows(s), Cols(s));
  }

  lemma PlaceFromCell(s: Settings, i: nat, page: nat, row: nat, col: nat)
    requires CellOf(s, i) == Cell(page, row, col)
    ensures PlaceOf(s, i) == Placed(
              page,
              s.left + Times(col, CellSize(Across(s)) + s.spacingX),
              s.bottom + Times(row, CellSize(Upward(s)) + s.spacingY),
              CellSize(Across(s)), CellSize(Upward(s)), i + 1)
  {
  }

  function Places(s: Settings, n: nat): (ps: seq<Placed>)
    ensures |ps| == n
  {
    if n == 0 then [] else Places(s, n - 1) + [PlaceOf(s, n - 1)]
  }

  lemma {:induction false} PlacesAt(s: Settings, n: nat, i: nat)
    requires i < n
    ensures Places(s, n)[i] == PlaceOf(s, i)
  {
    if i < n - 1 {
      PlacesAt(s, n - 1, i);
    }
  }

  lemma PageTurns(i: nat, p: nat)
    requires i >= 1 && p >= 1
    ensures i / p == (i - 1) / p + if i % p == 0 then 1 else 0
  {
    var (q, r) := ((i - 1) / p, (i - 1) % p);
    assert i - 1 == p * q + r;
    if r + 1 < p {
      Quotient(q, p, r + 1);
      assert i == q * p + (r + 1);
    } else {
      Quotient(q + 1, p, 0);
      assert i == (q + 1) * p;
    }
  }

  /** generate_cards_pdf: draws the cards in order, turning the page when it is full.
      None is the ValueError of the size check. */
  method GenerateCardsPdf(s: Settings, n: nat) returns (r: Option<seq<Placed>>, pages: nat)
    ensures r.None? <==> !Printable(s)
    ensures r.Some? ==> r.value == Places(s, n) && forall i :: 0 <= i < n ==> r.value[i] == PlaceOf(s, i)
    ensures r.Some? && n > 0 ==> (pages - 1) * PerPage(s) < n <= pages * PerPage(s)
  {
    var cols := Cols(s);
    var rows := Rows(s);
    var cardsPerPage := PerPage(s);
    var cardWidth := CellSize(Across(s));
    var cardHeight := CellSize(Upward(s));
    pages := 1;
    if cardWidth <= 0.0 || cardHeight <= 0.0 {
      return None, pages;
    }
    var drawn := [];
    var i := 0;
    while i < n
      invariant 0 <= i <= n && drawn == Places(s, i)
      invariant pages == 1 + if i == 0 then 0 else (i - 1) / cardsPerPage
    {
      var cardOnPage := i % cardsPerPage;
      if i > 0 {
        PageTurns(i, cardsPerPage);
      }
      if cardOnPage == 0 && i > 0 {
        pages := pages + 1;
      }
      QuotientBound(cardOnPage, rows, cols);
      var col := cardOnPage % cols;
      var row := rows - 1 - cardOnPage / cols;
      var x := s.left + Times(col, cardWidth + s.spacingX);
      var y := s.bottom + Times(row, cardHeight + s.spacingY);
      assert CellOf(s, i) == Cell(pages - 1, row, col);
      PlaceFromCell(s, i, pages - 1, row, col);
      drawn := drawn + [Placed(pages - 1, x, y, cardWidth, cardHeight, i + 1)];
      i := i + 1;
    }
    r := Some(drawn);
    forall k | 0 <= k < n ensures drawn[k] == PlaceOf(s, k) {
      PlacesAt(s, n, k);
    }
    if n > 0 {
      PagesNeeded(n, cardsPerPage);
    }
  }

  lemma PagesNeeded(n: nat, p: nat)
    requires n >= 1 && p >= 1
    ensures var q := (n - 1) / p; q * p < n <= (q + 1) * p
  {
    var (q, r) := ((n - 1) / p, (n - 1) % p);
    assert n - 1 == p * q + r;
    assert (q + 1) * p == q * p + p;
  }
}
