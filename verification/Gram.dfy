/** The display panel's frame memory: pixels written through a cursor that runs over an address window. */
module Gram {
  import opened Bits
  import opened Division

  const WIDTH: nat := 480
  const HEIGHT: nat := 480
  const CELLS: nat := WIDTH * HEIGHT
  const U16: nat := 0x1_0000

  const SOFTWARE_RESET: nat := 0x01
  const COLUMN_ADDRESS: nat := 0x2A
  const ROW_ADDRESS: nat := 0x2B
  const MEMORY_WRITE: nat := 0x2C
  const WRITE_CONTINUE: nat := 0x3C

  /** The part of the memory that the panel shows. */
  datatype Viewport = Viewport(x: nat, y: nat, width: nat, height: nat)

  datatype Window = Window(x0: nat, x1: nat, y0: nat, y1: nat)

  datatype Panel = Panel(gram: seq<nat>, window: Window, x: nat, y: nat, completed: nat, high: Option<Byte>,
                         command: nat, params: seq<Byte>, header: seq<Byte>, viewport: Viewport)

  /** A window inside the memory that is at least partly shown. */
  predicate Counts(w: Window, v: Viewport) {
    && w.x0 <= w.x1 < WIDTH && w.y0 <= w.y1 < HEIGHT
    && w.x0 < v.x + v.width
    && w.x1 >= v.x
    && w.y0 < v.y + v.height
    && w.y1 >= v.y
  }

  function Stored(gram: seq<nat>, x: nat, y: nat, value: nat): seq<nat>
    requires |gram| == CELLS
  {
    if x < WIDTH && y < HEIGHT then gram[y * WIDTH + x := value] else gram
  }

  /** The cursor's registers are 16 bits wide. */
  function Advance(p: Panel): Panel {
    var x := (p.x + 1) % U16;
    if x <= p.window.x1 then p.(x := x)
    else
      var y := (p.y + 1) % U16;
      if y <= p.window.y1 then p.(x := p.window.x0, y := y)
      else p.(x := p.window.x0, y := p.window.y0,
        completed := p.completed + if Counts(p.window, p.viewport) then 1 else 0)
  }

  function WritePixel(p: Panel, value: nat): Panel
    requires |p.gram| == CELLS
  {
    Advance(p.(gram := Stored(p.gram, p.x, p.y, value)))
  }

  function WritePixels(p: Panel, values: seq<nat>): (r: Panel)
    requires |p.gram| == CELLS
    ensures |r.gram| == CELLS
    ensures r.window == p.window
    ensures r.viewport == p.viewport
  {
    if values == [] then p else WritePixel(WritePixels(p, values[..|values| - 1]), values[|values| - 1])
  }

  // ----- Where pixel k goes -----

  /** The window's registers are 16 bits wide; their order is up to the guest. */
  predicate WindowOk(w: Window) {
    w.x0 < U16 && w.x1 < U16 && w.y0 < U16 && w.y1 < U16
  }

  /** With its bounds the wrong way round a window is one column wide, or one row high. */
  function LastColumn(w: Window): nat { if w.x0 <= w.x1 then w.x1 else w.x0 }
  function LastRow(w: Window): nat { if w.y0 <= w.y1 then w.y1 else w.y0 }

  function Columns(w: Window): int { LastColumn(w) - w.x0 + 1 }
  function Rows(w: Window): int { LastRow(w) - w.y0 + 1 }

  function Quot(k: nat, n: int): nat
    requires n > 0
  {
    k / n
  }

  function ColumnOf(w: Window, k: nat): nat
    requires WindowOk(w)
  {
    w.x0 + k % Columns(w)
  }

  function RowOf(w: Window, k: nat): nat
    requires WindowOk(w)
  {
    w.y0 + Quot(k, Columns(w)) % Rows(w)
  }

  function Passes(w: Window, k: nat): nat
    requires WindowOk(w)
  {
    Quot(Quot(k, Columns(w)), Rows(w))
  }

  lemma {:induction false} NextCount(k: nat, w: int)
    requires w > 0
    ensures k % w < w - 1 ==> (k + 1) % w == k % w + 1 && Quot(k + 1, w) == Quot(k, w)
    ensures k % w == w - 1 ==> (k + 1) % w == 0 && Quot(k + 1, w) == Quot(k, w) + 1
  {
    assert k == k / w * w + k % w;
    if k % w < w - 1 {
      Quotient(k + 1, w, k / w, k % w + 1);
    } else {
      assert k + 1 == (k / w + 1) * w;
      Quotient(k + 1, w, k / w + 1, 0);
    }
  }

  /** The next pixel's place: the next column, or the next row, or the window's start with one more pass made. */
  lemma {:induction false} NextPlace(w: Window, k: nat)
    requires WindowOk(w)
    ensures w.x0 <= ColumnOf(w, k) <= LastColumn(w) && w.y0 <= RowOf(w, k) <= LastRow(w)
    ensures ColumnOf(w, k) < LastColumn(w) ==>
      ColumnOf(w, k + 1) == ColumnOf(w, k) + 1 && RowOf(w, k + 1) == RowOf(w, k) && Passes(w, k + 1) == Passes(w, k)
    ensures ColumnOf(w, k) == LastColumn(w) && RowOf(w, k) < LastRow(w) ==>
      ColumnOf(w, k + 1) == w.x0 && RowOf(w, k + 1) == RowOf(w, k) + 1 && Passes(w, k + 1) == Passes(w, k)
    ensures ColumnOf(w, k) == LastColumn(w) && RowOf(w, k) == LastRow(w) ==>
      ColumnOf(w, k + 1) == w.x0 && RowOf(w, k + 1) == w.y0 && Passes(w, k + 1) == Passes(w, k) + 1
  {
    NextCount(k, Columns(w));
    NextCount(Quot(k, Columns(w)), Rows(w));
    hide Quot;
  }

  lemma {:induction false} FirstPlace(w: Window)
    requires WindowOk(w)
    ensures ColumnOf(w, 0) == w.x0 && RowOf(w, 0) == w.y0 && Passes(w, 0) == 0
  {
    Quotient(0, Columns(w), 0, 0);
    Quotient(0, Rows(w), 0, 0);
  }

  predicate AtPlace(p: Panel, k: nat)
    requires WindowOk(p.window)
  {
    p.x == ColumnOf(p.window, k) && p.y == RowOf(p.window, k)
  }

  function CompletedAfter(p: Panel, k: nat): nat
    requires WindowOk(p.window)
  {
    p.completed + if Counts(p.window, p.viewport) then Passes(p.window, k) else 0
  }

  /** No register wraps to a place other than the window's start. */
  predicate NoWrap(w: Window) {
    if LastColumn(w) == U16 - 1 then w.x0 == 0 && Rows(w) == 1 else LastRow(w) < U16 - 1 || w.y0 == 0
  }

  /** One step of the cursor from a place in the window; a pass over a window that counts ends without wrapping. */
  lemma {:induction false} AdvanceCases(p: Panel)
    requires WindowOk(p.window) && NoWrap(p.window)
    requires p.window.x0 <= p.x <= LastColumn(p.window) && p.window.y0 <= p.y <= LastRow(p.window)
    ensures var w, q := p.window, Advance(p);
      && (p.x < LastColumn(w) ==> q == p.(x := p.x + 1))
      && (p.x == LastColumn(w) && p.y < LastRow(w) ==> q == p.(x := w.x0, y := p.y + 1))
      && (p.x == LastColumn(w) && p.y == LastRow(w) ==>
            q == p.(x := w.x0, y := w.y0, completed := p.completed + if Counts(w, p.viewport) then 1 else 0))
  {
    var w := p.window;
    if w.x1 == U16 - 1 || w.y1 == U16 - 1 { assert !Counts(w, p.viewport); }
    hide Counts;
  }

  lemma {:induction false} OneMore(start: nat, p: Panel, k: nat)
    requires WindowOk(p.window) && NoWrap(p.window) && AtPlace(p, k)
    requires p.completed == start + if Counts(p.window, p.viewport) then Passes(p.window, k) else 0
    ensures AtPlace(Advance(p), k + 1)
    ensures Advance(p).completed == start + if Counts(p.window, p.viewport) then Passes(p.window, k + 1) else 0
  {
    NextPlace(p.window, k);
    AdvanceCases(p);
    hide ColumnOf, RowOf, Passes, Counts, Advance, NoWrap, LastColumn, LastRow;
  }

  lemma {:induction false} PixelsStep(p: Panel, values: seq<nat>)
    requires |p.gram| == CELLS && values != []
    ensures var q := WritePixels(p, values[..|values| - 1]);
      WritePixels(p, values) == Advance(q.(gram := Stored(q.gram, q.x, q.y, values[|values| - 1])))
  {
  }

  /** The cursor's law where no register wraps astray: in particular for any window inside the memory. */
  lemma {:induction false} CursorLaw(p: Panel, values: seq<nat>)
    requires |p.gram| == CELLS && WindowOk(p.window) && NoWrap(p.window)
    requires p.x == p.window.x0 && p.y == p.window.y0
    ensures var r := WritePixels(p, values); AtPlace(r, |values|) && r.completed == CompletedAfter(p, |values|)
  {
    if values == [] {
      FirstPlace(p.window);
    } else {
      var k := |values| - 1;
      CursorLaw(p, values[..k]);
      PixelsStep(p, values);
      var q := WritePixels(p, values[..k]);
      hide WritePixels, Advance, AtPlace, Passes, Counts, Stored, NoWrap;
      OneMore(p.completed, q.(gram := Stored(q.gram, q.x, q.y, values[k])), k)
        by { AtPlaceOf(q, q.(gram := Stored(q.gram, q.x, q.y, values[k])), k); }
    }
  }

  lemma {:induction false} AtPlaceOf(p: Panel, q: Panel, k: nat)
    requires WindowOk(p.window) && AtPlace(p, k) && q.window == p.window && q.x == p.x && q.y == p.y
    ensures AtPlace(q, k)
  {
  }

  // ----- What the memory holds afterwards -----

  /** Cell of pixel k, if it lies in the memory. */
  function CellOf(w: Window, k: nat): Option<nat>
    requires WindowOk(w)
  {
    if ColumnOf(w, k) < WIDTH && RowOf(w, k) < HEIGHT then Some(RowOf(w, k) * WIDTH + ColumnOf(w, k)) else None
  }

  function Area(w: Window): int {
    Columns(w) * Rows(w)
  }

  lemma {:induction false} Recombine(c: nat, h: nat, r: nat, w: nat, b: nat)
    requires b < w && r < h
    ensures (c * h + r) * w + b == c * (w * h) + (r * w + b)
    ensures 0 <= r * w + b < w * h
    ensures w * h > 0
  {
    Regroup(c, h, r, w);
    assert (r + 1) * w <= h * w;
  }

  lemma {:induction false} Regroup(c: nat, h: nat, r: nat, w: nat)
    ensures (c * h + r) * w == c * (w * h) + r * w
  {
  }

  lemma {:induction false} TwoDigits(k: nat, w: nat, h: nat, c: nat, r: nat, b: nat)
    requires k == (c * h + r) * w + b && b < w && r < h
    ensures w * h > 0 && k % (w * h) == r * w + b && k / (w * h) == c
  {
    Recombine(c, h, r, w, b);
    Quotient(k, w * h, c, r * w + b);
  }

  lemma {:induction false} RowsAndColumns(k: nat, w: nat, h: nat)
    requires w > 0 && h > 0
    ensures w * h > 0
    ensures Quot(k, w) % h * w + k % w == k % (w * h)
    ensures Quot(Quot(k, w), h) == Quot(k, w * h)
  {
    var a, b := Quot(k, w), k % w;
    var c, r := Quot(a, h), a % h;
    assert k == a * w + b;
    assert a == c * h + r;
    TwoDigits(k, w, h, c, r, b);
  }

  /** Two pixels less than a whole pass apart never share a cell. */
  lemma {:induction false} CellsDiffer(w: Window, j: nat, k: nat)
    requires WindowOk(w) && j < k < j + Area(w)
    ensures !(ColumnOf(w, j) == ColumnOf(w, k) && RowOf(w, j) == RowOf(w, k))
    ensures CellOf(w, j).Some? ==> CellOf(w, j) != CellOf(w, k)
  {
    RowsAndColumns(j, Columns(w), Rows(w));
    RowsAndColumns(k, Columns(w), Rows(w));
    hide Quot;
    RemaindersDiffer(j, k, Area(w));
    hide Area, Columns, Rows;
    if CellOf(w, j).Some? && CellOf(w, j) == CellOf(w, k) {
      SameCell(RowOf(w, j), ColumnOf(w, j), RowOf(w, k), ColumnOf(w, k));
    }
  }

  lemma {:induction false} SameCell(y: nat, x: nat, v: nat, u: nat)
    requires x < WIDTH && u < WIDTH && y * WIDTH + x == v * WIDTH + u
    ensures x == u && y == v
  {
  }

  lemma {:induction false} RemaindersDiffer(j: nat, k: nat, n: nat)
    requires j < k < j + n
    ensures j % n != k % n
  {
    assert j == j / n * n + j % n && k == k / n * n + k % n;
    var d := k / n - j / n;
    assert k - j == d * n + (k % n - j % n) by { Spread(k / n, j / n, n); }
    assert d >= 1 ==> d * n >= n;
    assert d <= 0 ==> d * n <= 0;
  }

  lemma {:induction false} Spread(a: int, b: int, n: int)
    ensures (a - b) * n == a * n - b * n
  {
  }

  lemma {:induction false} StoredAtPlace(q: Panel, k: nat, value: nat)
    requires |q.gram| == CELLS && WindowOk(q.window) && AtPlace(q, k)
    ensures CellOf(q.window, k).Some? ==> CellOf(q.window, k).value < CELLS
    ensures Stored(q.gram, q.x, q.y, value) ==
      (match CellOf(q.window, k) case Some(c) => q.gram[c := value] case None => q.gram)
  {
    hide ColumnOf, RowOf;
  }

  lemma {:induction false} AdvanceKeepsGram(p: Panel)
    ensures Advance(p).gram == p.gram
  {
  }

  lemma {:induction false} PrefixOk(p: Panel, values: seq<nat>)
    requires |p.gram| == CELLS && WindowOk(p.window) && NoWrap(p.window) && values != []
    requires p.x == p.window.x0 && p.y == p.window.y0
    ensures var q, k := WritePixels(p, values[..|values| - 1]), |values| - 1;
      && (CellOf(p.window, k).Some? ==> CellOf(p.window, k).value < CELLS)
      && WritePixels(p, values).gram ==
           (match CellOf(p.window, k) case Some(c) => q.gram[c := values[k]] case None => q.gram)
  {
    hide *;
    var k := |values| - 1;
    CursorLaw(p, values[..k]);
    PixelsStep(p, values);
    var q := WritePixels(p, values[..k]);
    StoredAtPlace(q, k, values[k]);
    AdvanceKeepsGram(q.(gram := Stored(q.gram, q.x, q.y, values[k])));
  }

  /** The pixels of the last pass are in their cells. */
  lemma {:induction false} LastPassStays(p: Panel, values: seq<nat>, k: nat)
    requires |p.gram| == CELLS && WindowOk(p.window) && NoWrap(p.window)
    requires p.x == p.window.x0 && p.y == p.window.y0
    requires k < |values| <= k + Area(p.window) && CellOf(p.window, k).Some?
    ensures WritePixels(p, values).gram[CellOf(p.window, k).value] == values[k]
    decreases |values|
  {
    PrefixOk(p, values);
    hide WritePixels, CellOf, Area;
    if k < |values| - 1 {
      CellsDiffer(p.window, k, |values| - 1);
      LastPassStays(p, values[..|values| - 1], k);
    }
  }

  /** A cell that no pixel goes to keeps its contents. */
  lemma {:induction false} OthersStay(p: Panel, values: seq<nat>, cell: nat)
    requires |p.gram| == CELLS && WindowOk(p.window) && NoWrap(p.window)
    requires p.x == p.window.x0 && p.y == p.window.y0 && cell < CELLS
    requires forall k :: 0 <= k < |values| ==> CellOf(p.window, k) != Some(cell)
    ensures WritePixels(p, values).gram[cell] == p.gram[cell]
    decreases |values|
  {
    if values != [] {
      PrefixOk(p, values);
      OthersStay(p, values[..|values| - 1], cell);
    }
  }

  predicate InWindow(w: Window, cell: nat) {
    w.x0 <= cell % WIDTH <= LastColumn(w) && w.y0 <= cell / WIDTH <= LastRow(w)
  }

  lemma {:induction false} CellsInWindow(w: Window, k: nat)
    requires WindowOk(w)
    ensures CellOf(w, k).Some? ==> InWindow(w, CellOf(w, k).value)
  {
    NextPlace(w, k);
    if CellOf(w, k).Some? { Quotient(CellOf(w, k).value, WIDTH, RowOf(w, k), ColumnOf(w, k)); }
  }

  /**
    Any number of pixels written from the start of a window: each pixel of the last pass stands at its column and row,
    no cell outside the window has changed, and every full pass over a window that shows has been counted.
   */
  lemma {:induction false} WindowWritten(p: Panel, values: seq<nat>)
    requires |p.gram| == CELLS && WindowOk(p.window) && NoWrap(p.window)
    requires p.x == p.window.x0 && p.y == p.window.y0
    ensures var w, r, n := p.window, WritePixels(p, values), |values|;
      && (forall k {:trigger CellOf(w, k)} :: 0 <= k < n <= k + Area(w) && CellOf(w, k).Some? ==>
           r.gram[CellOf(w, k).value] == values[k])
      && (forall cell {:trigger InWindow(w, cell)} :: 0 <= cell < CELLS && !InWindow(w, cell) ==>
           r.gram[cell] == p.gram[cell])
      && Area(w) > 0
      && r.completed == p.completed + (if Counts(w, p.viewport) then n / Area(w) else 0)
  {
    var w, n := p.window, |values|;
    forall k {:trigger CellOf(w, k)} | 0 <= k < n <= k + Area(w) && CellOf(w, k).Some?
      ensures WritePixels(p, values).gram[CellOf(w, k).value] == values[k]
    {
      LastPassStays(p, values, k);
    }
    forall cell {:trigger InWindow(w, cell)} | 0 <= cell < CELLS && !InWindow(w, cell)
      ensures WritePixels(p, values).gram[cell] == p.gram[cell]
    {
      forall k | 0 <= k < n ensures CellOf(w, k) != Some(cell) { CellsInWindow(w, k); }
      OthersStay(p, values, cell);
    }
    CursorLaw(p, values);
    RowsAndColumns(n, Columns(w), Rows(w));
  }

  // ----- When the cursor's law holds -----

  function Blank(n: nat): (r: seq<nat>)
    ensures |r| == n
  {
    seq(n, i => 0)
  }

  /** The last pixel of the first row and of the window. */
  lemma {:induction false} EndPlaces(w: Window)
    requires WindowOk(w)
    ensures ColumnOf(w, Columns(w) - 1) == LastColumn(w)
    ensures RowOf(w, Columns(w) - 1) == w.y0
    ensures Area(w) > 0
    ensures ColumnOf(w, Area(w) - 1) == LastColumn(w)
    ensures RowOf(w, Area(w) - 1) == LastRow(w)
  {
    var c, r := Columns(w), Rows(w);
    Quotient(c - 1, c, 0, c - 1);
    Quotient(0, r, 0, 0);
    Recombine(0, r, r - 1, c, c - 1);
    assert (r - 1) * c + (c - 1) == c * r - 1;
    Quotient(c * r - 1, c, r - 1, c - 1);
    Quotient(r - 1, r, 0, r - 1);
  }

  lemma {:induction false} AdvanceLoses(q: Panel)
    requires WindowOk(q.window) && !NoWrap(q.window)
    ensures var k: nat := if LastColumn(q.window) == U16 - 1 then Columns(q.window) - 1
      else (EndPlaces(q.window); Area(q.window) - 1);
      AtPlace(q, k) ==> !AtPlace(Advance(q), k + 1)
  {
    EndPlaces(q.window);
    var k := if LastColumn(q.window) == U16 - 1 then Columns(q.window) - 1 else Area(q.window) - 1;
    NextPlace(q.window, k);
    hide ColumnOf, RowOf, Passes, Counts, Area, Columns, Rows;
  }

  lemma {:induction false} LostAfter(p: Panel, values: seq<nat>)
    requires |p.gram| == CELLS && WindowOk(p.window) && values != []
    requires var q := WritePixels(p, values[..|values| - 1]);
      forall r: Panel {:trigger Advance(r)} :: r == q.(gram := r.gram) && AtPlace(q, |values| - 1) ==>
        !AtPlace(Advance(r), |values|)
    ensures exists some :: !AtPlace(WritePixels(p, some), |some|)
  {
    hide *;
    var first := values[..|values| - 1];
    PixelsStep(p, values);
    var q := WritePixels(p, first);
    if AtPlace(q, |first|) {
      assert !AtPlace(WritePixels(p, values), |values|);
    } else {
      assert !AtPlace(WritePixels(p, first), |first|);
    }
  }

  lemma {:induction false} PlacesLost(p: Panel)
    requires |p.gram| == CELLS && WindowOk(p.window) && !NoWrap(p.window) && p.x == p.window.x0 && p.y == p.window.y0
    ensures exists values :: !AtPlace(WritePixels(p, values), |values|)
  {
    EndPlaces(p.window);
    var k: nat := if LastColumn(p.window) == U16 - 1 then Columns(p.window) - 1 else Area(p.window) - 1;
    hide WritePixels, Advance, AtPlace, Area, NoWrap, Columns;
    var values := Blank(k + 1);
    var q := WritePixels(p, values[..k]);
    forall r: Panel {:trigger Advance(r)} | r == q.(gram := r.gram) && AtPlace(q, k)
      ensures !AtPlace(Advance(r), k + 1)
    {
      AtPlaceOf(q, r, k);
      AdvanceLoses(r);
    }
    LostAfter(p, values);
  }

  /**
    Pixel k lands at column x0 + k mod w and row y0 + (k div w) mod h, for all k, exactly for the windows where
    nothing wraps.
   */
  lemma {:induction false} PlacesKeptExactly(p: Panel)
    requires |p.gram| == CELLS && WindowOk(p.window) && p.x == p.window.x0 && p.y == p.window.y0
    ensures NoWrap(p.window) <==> forall values :: AtPlace(WritePixels(p, values), |values|)
  {
    if NoWrap(p.window) {
      forall values ensures AtPlace(WritePixels(p, values), |values|) { CursorLaw(p, values); }
    } else {
      PlacesLost(p);
    }
  }
}
