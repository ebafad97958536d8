/** The time x latency grid behind the latency heatmap, against the plain log of the
    requests recorded in it. */
module LatencyHeat {
  /** A recorded request: its latency in ms and its instant, in nanoseconds from the
      start of the run. */
  datatype Event = Event(ms: real, offset: int)

  /** 500 ms, in nanoseconds. */
  const BIN: int := 500_000_000
  const BIN_MS: nat := 500
  const MAX_COLS: nat := 300
  const BOUNDS: seq<int> := [5, 10, 25, 50, 100, 250, 500, 1000, 2500, 5000]
  const ROWS: nat := 11

  // -------------------------------------------------------------------------
  // Bands and columns
  // -------------------------------------------------------------------------

  /** Inclusive below, exclusive above; the first band is open below, the last above. */
  predicate InBand(ms: real, row: nat) {
    row < ROWS && (row > 0 ==> ms >= BOUNDS[row - 1] as real) && (row < ROWS - 1 ==> ms < BOUNDS[row] as real)
  }

  function RowFrom(ms: real, i: nat): (row: nat)
    requires i < ROWS && (i > 0 ==> ms >= BOUNDS[i - 1] as real)
    ensures InBand(ms, row)
    decreases ROWS - i
  {
    if i < |BOUNDS| && ms >= BOUNDS[i] as real then RowFrom(ms, i + 1) else i
  }

  function RowFor(ms: real): (row: nat)
    ensures InBand(ms, row)
  {
    RowFrom(ms, 0)
  }

  lemma BoundsIncrease(i: nat, j: nat)
    requires i < j < |BOUNDS|
    ensures BOUNDS[i] < BOUNDS[j]
  {
    assert BOUNDS[0] < BOUNDS[1] < BOUNDS[2] < BOUNDS[3] < BOUNDS[4] < BOUNDS[5];
    assert BOUNDS[5] < BOUNDS[6] < BOUNDS[7] < BOUNDS[8] < BOUNDS[9];
  }

  /** The bands do not overlap. */
  lemma BandUnique(ms: real, row: nat, row': nat)
    requires InBand(ms, row) && InBand(ms, row')
    ensures row == row'
  {
    if row + 1 < row' {
      BoundsIncrease(row, row' - 1);
    } else if row' + 1 < row {
      BoundsIncrease(row', row - 1);
    }
  }

  /** latencyRowFor */
  method LatencyRowFor(ms: real) returns (row: nat)
    ensures InBand(ms, row) && row == RowFor(ms)
  {
    for i := 0 to |BOUNDS|
      invariant i > 0 ==> ms >= BOUNDS[i - 1] as real
    {
      if ms < BOUNDS[i] as real {
        BandUnique(ms, i, RowFor(ms));
        return i;
      }
    }
    BandUnique(ms, |BOUNDS|, RowFor(ms));
    return |BOUNDS|;
  }

  datatype RowSnap = RowSnap(lo: int, hi: int)

  /** The labels name the bands: a request lies in band r exactly when its latency is
      within the labelled range, hi 0 meaning no upper end. */
  ghost predicate Labels(meta: seq<RowSnap>) {
    && |meta| == ROWS
    && forall r: nat, ms: real :: r < ROWS && ms >= 0.0 ==>
         (RowFor(ms) == r <==> meta[r].lo as real <= ms && (meta[r].hi == 0 || ms < meta[r].hi as real))
  }

  lemma LabelsFromBounds(meta: seq<RowSnap>)
    requires |meta| == ROWS
    requires forall r :: 0 <= r < ROWS ==> meta[r].lo == if r == 0 then 0 else BOUNDS[r - 1]
    requires forall r :: 0 <= r < ROWS ==> meta[r].hi == if r == ROWS - 1 then 0 else BOUNDS[r]
    ensures Labels(meta)
  {
    forall r: nat, ms: real | r < ROWS && ms >= 0.0
      ensures RowFor(ms) == r <==> meta[r].lo as real <= ms && (meta[r].hi == 0 || ms < meta[r].hi as real)
    {
      if InBand(ms, r) {
        BandUnique(ms, r, RowFor(ms));
      }
      assert r < ROWS - 1 ==> BOUNDS[r] != 0;
    }
  }

  /** latencyRowsMeta */
  method LatencyRowsMeta() returns (out: seq<RowSnap>)
    ensures Labels(out)
  {
    out := [];
    var lo := 0;
    for i := 0 to |BOUNDS|
      invariant |out| == i && lo == if i == 0 then 0 else BOUNDS[i - 1]
      invariant forall r :: 0 <= r < i ==> out[r].lo == if r == 0 then 0 else BOUNDS[r - 1]
      invariant forall r :: 0 <= r < i ==> out[r].hi == BOUNDS[r]
    {
      out := out + [RowSnap(lo, BOUNDS[i])];
      lo := BOUNDS[i];
    }
    out := out + [RowSnap(lo, 0)];
    LabelsFromBounds(out);
  }

  /** Integer division as Go does it, towards zero. */
  function GoDiv(a: int, b: int): int
    requires b > 0
  {
    if a >= 0 then a / b else -((-a) / b)
  }

  /** A request stamped before the start counts as one at the start. */
  function At(e: Event): nat {
    if e.offset < 0 then 0 else e.offset
  }

  // -------------------------------------------------------------------------
  // Counting the log
  // -------------------------------------------------------------------------

  /** How many logged requests of a band fall into [lo, hi) nanoseconds. */
  ghost function CountIn(log: seq<Event>, row: nat, lo: int, hi: int): nat {
    if log == [] then 0
    else
      var e := log[|log| - 1];
      CountIn(log[..|log| - 1], row, lo, hi) + if RowFor(e.ms) == row && lo <= At(e) < hi then 1 else 0
  }

  lemma CountAppend(log: seq<Event>, e: Event, row: nat, lo: int, hi: int)
    ensures CountIn(log + [e], row, lo, hi)
         == CountIn(log, row, lo, hi) + if RowFor(e.ms) == row && lo <= At(e) < hi then 1 else 0
  {
    assert (log + [e])[..|log|] == log;
  }

  lemma {:induction false} CountSplit(log: seq<Event>, row: nat, lo: int, mid: int, hi: int)
    requires lo <= mid <= hi
    ensures CountIn(log, row, lo, hi) == CountIn(log, row, lo, mid) + CountIn(log, row, mid, hi)
  {
    if log != [] {
      CountSplit(log[..|log| - 1], row, lo, mid, hi);
    }
  }

  lemma {:induction false} CountBeyond(log: seq<Event>, row: nat, lo: int, hi: int, hi': int)
    requires hi <= hi' && forall i :: 0 <= i < |log| ==> At(log[i]) < hi
    ensures CountIn(log, row, lo, hi) == CountIn(log, row, lo, hi')
  {
    if log != [] {
      CountBeyond(log[..|log| - 1], row, lo, hi, hi');
    }
  }

  function Sum(s: seq<nat>): nat {
    if s == [] then 0 else Sum(s[..|s| - 1]) + s[|s| - 1]
  }

  function SumAll(cells: seq<seq<nat>>): nat {
    if cells == [] then 0 else SumAll(cells[..|cells| - 1]) + Sum(cells[|cells| - 1])
  }

  /** Adjacent columns of width w add up to the count of the stretch they cover. */
  lemma {:induction false} ColumnsAddUp(log: seq<Event>, row: nat, s: seq<nat>, from: nat, w: nat)
    requires forall c :: 0 <= c < |s| ==> s[c] == CountIn(log, row, (from + c) * w, (from + c + 1) * w)
    ensures Sum(s) == CountIn(log, row, from * w, (from + |s|) * w)
  {
    if s == [] {
      EmptyStretch(log, row, from * w);
    } else {
      var last := |s| - 1;
      ColumnsAddUp(log, row, s[..last], from, w);
      assert from * w <= (from + last) * w <= (from + last + 1) * w by {
        Scale(from, from + last, w);
        Scale(from + last, from + last + 1, w);
      }
      CountSplit(log, row, from * w, (from + last) * w, (from + last + 1) * w);
    }
  }

  lemma {:induction false} EmptyStretch(log: seq<Event>, row: nat, at: int)
    ensures CountIn(log, row, at, at) == 0
  {
    if log != [] {
      EmptyStretch(log[..|log| - 1], row, at);
    }
  }

  lemma Scale(a: nat, b: nat, w: nat)
    requires a <= b
    ensures a * w <= b * w
  {
    assert b * w == a * w + (b - a) * w;
  }

  /** Requests in the first n bands. */
  ghost function CountBelow(log: seq<Event>, n: nat, hi: int): nat {
    if n == 0 then 0 else CountBelow(log, n - 1, hi) + CountIn(log, n - 1, 0, hi)
  }

  lemma {:induction false} CountBelowAppend(log: seq<Event>, e: Event, n: nat, hi: int)
    requires At(e) < hi
    ensures CountBelow(log + [e], n, hi) == CountBelow(log, n, hi) + if RowFor(e.ms) < n then 1 else 0
  {
    if n > 0 {
      CountBelowAppend(log, e, n - 1, hi);
      CountAppend(log, e, n - 1, 0, hi);
    }
  }

  lemma {:induction false} CountBelowNothing(n: nat, hi: int)
    ensures CountBelow([], n, hi) == 0
  {
    if n > 0 {
      CountBelowNothing(n - 1, hi);
    }
  }

  /** Over all bands, every request before hi is counted once. */
  lemma {:induction false} BandsCoverTheLog(log: seq<Event>, hi: int)
    requires forall i :: 0 <= i < |log| ==> At(log[i]) < hi
    ensures CountBelow(log, ROWS, hi) == |log|
  {
    if log == [] {
      CountBelowNothing(ROWS, hi);
    } else {
      var init, e := log[..|log| - 1], log[|log| - 1];
      BandsCoverTheLog(init, hi);
      CountBelowAppend(init, e, ROWS, hi);
      assert log == init + [e];
    }
  }

  // -------------------------------------------------------------------------
  // Merging columns
  // -------------------------------------------------------------------------

  function Min(a: int, b: int): int {
    if a < b then a else b
  }

  function CeilDiv(a: nat, b: nat): nat
    requires b > 0
  {
    (a + b - 1) / b
  }

  /** The sum of row[lo..hi], cut off at the end of the row. */
  function Stretch(row: seq<nat>, lo: nat, hi: nat): nat
    requires lo <= hi
  {
    Sum(row[Min(lo, |row|)..Min(hi, |row|)])
  }

  lemma BucketBounds(c: nat, factor: nat)
    requires factor > 0
    ensures (c / factor) * factor <= c < (c / factor + 1) * factor
  {}

  lemma BucketFits(c: nat, n: nat, factor: nat)
    requires factor > 0 && c < n
    ensures c / factor < CeilDiv(n, factor)
  {
    BucketBounds(c, factor);
    BucketBounds(n + factor - 1, factor);
    var q, m := c / factor, CeilDiv(n, factor);
    if q >= m {
      Scale(m, q, factor);
    }
  }

  /** Taking in column c adds to a stretch exactly when it lies inside. */
  lemma StretchStep(row: seq<nat>, c: nat, lo: nat, hi: nat)
    requires c < |row| && lo <= hi
    ensures Stretch(row[..c + 1], lo, hi) == Stretch(row[..c], lo, hi) + if lo <= c < hi then row[c] else 0
  {
    var longer, shorter := row[..c + 1][Min(lo, c + 1)..Min(hi, c + 1)], row[..c][Min(lo, c)..Min(hi, c)];
    if lo <= c < hi {
      assert longer == row[lo..c + 1] && shorter == row[lo..c];
      assert longer[..|longer| - 1] == shorter;
    } else {
      assert longer == shorter;
    }
  }

  /** The sum of the j-th group of `factor` columns. */
  function GroupSum(row: seq<nat>, j: nat, factor: nat): nat {
    Scale(j, j + 1, factor);
    Stretch(row, j * factor, (j + 1) * factor)
  }

  lemma GroupStep(row: seq<nat>, c: nat, j: nat, factor: nat)
    requires factor > 0 && c < |row|
    ensures GroupSum(row[..c + 1], j, factor) == GroupSum(row[..c], j, factor) + if j == c / factor then row[c] else 0
  {
    var q := c / factor;
    BucketBounds(c, factor);
    Scale(j, j + 1, factor);
    if j < q {
      Scale(j + 1, q, factor);
    } else if j > q {
      Scale(q + 1, j, factor);
    }
    StretchStep(row, c, j * factor, (j + 1) * factor);
  }

  /** One merged row: its j-th entry sums the j-th group of `factor` columns. */
  ghost predicate GroupsOf(row: seq<nat>, out: seq<nat>, factor: nat) {
    forall j :: 0 <= j < |out| ==> out[j] == GroupSum(row, j, factor)
  }

  lemma GroupsStep(row: seq<nat>, c: nat, out: seq<nat>, factor: nat)
    requires factor > 0 && c < |row| && c / factor < |out|
    requires GroupsOf(row[..c], out, factor)
    ensures GroupsOf(row[..c + 1], out[c / factor := out[c / factor] + row[c]], factor)
  {
    forall j | 0 <= j < |out|
      ensures GroupSum(row[..c + 1], j, factor) == GroupSum(row[..c], j, factor) + if j == c / factor then row[c] else 0
    {
      GroupStep(row, c, j, factor);
    }
  }

  lemma GroupsStart(out: seq<nat>, factor: nat)
    requires forall j :: 0 <= j < |out| ==> out[j] == 0
    ensures GroupsOf([], out, factor)
  {}

  ghost predicate Merged(row: seq<nat>, out: seq<nat>, factor: nat)
    requires factor > 0
  {
    |out| == CeilDiv(|row|, factor) && GroupsOf(row, out, factor)
  }

  method MergeRow(row: seq<nat>, factor: nat) returns (out: seq<nat>)
    requires factor > 0
    ensures Merged(row, out, factor)
  {
    var merged := new nat[CeilDiv(|row|, factor)](_ => 0);
    GroupsStart(merged[..], factor);
    for c := 0 to |row|
      invariant GroupsOf(row[..c], merged[..], factor)
    {
      BucketFits(c, |row|, factor);
      GroupsStep(row, c, merged[..], factor);
      var j := c / factor;
      ghost var before := merged[..];
      merged[j] := merged[j] + row[c];
      assert merged[..] == before[j := before[j] + row[c]];
    }
    assert row[..|row|] == row;
    out := merged[..];
  }

  /** downsampleCols */
  method DownsampleCols(cells: seq<seq<nat>>, factor: nat) returns (out: seq<seq<nat>>)
    ensures factor <= 1 ==> out == cells
    ensures factor > 1 ==> |out| == |cells| && forall r :: 0 <= r < |cells| ==> Merged(cells[r], out[r], factor)
  {
    if factor <= 1 {
      return cells;
    }
    out := [];
    for r := 0 to |cells|
      invariant |out| == r && forall r' :: 0 <= r' < r ==> Merged(cells[r'], out[r'], factor)
    {
      var merged := MergeRow(cells[r], factor);
      out := out + [merged];
    }
  }

  /** The merged grid is narrow enough, with the smallest factor that makes it so. */
  lemma FactorIsLeast(cols: nat, factor: nat)
    requires cols > MAX_COLS && factor == CeilDiv(cols, MAX_COLS)
    ensures factor > 1 && CeilDiv(cols, factor) <= MAX_COLS
    ensures forall f: nat :: 0 < f < factor ==> CeilDiv(cols, f) > MAX_COLS
  {
    BucketBounds(cols + MAX_COLS - 1, MAX_COLS);
    assert cols <= factor * MAX_COLS < cols + MAX_COLS;
    BucketBounds(cols + factor - 1, factor);
    if CeilDiv(cols, factor) > MAX_COLS {
      Scale(MAX_COLS + 1, CeilDiv(cols, factor), factor);
    }
    forall f: nat | 0 < f < factor
      ensures CeilDiv(cols, f) > MAX_COLS
    {
      BucketBounds(cols + f - 1, f);
      if CeilDiv(cols, f) <= MAX_COLS {
        Scale(CeilDiv(cols, f), MAX_COLS, f);
        Scale(f, factor - 1, MAX_COLS);
      }
    }
  }

  // -------------------------------------------------------------------------
  // The grid
  // -------------------------------------------------------------------------

  /** What a snapshot owes its reader about the log, with w the reported column width
      in nanoseconds. */
  ghost predicate Refines(log: seq<Event>, cells: seq<seq<nat>>, cols: nat, w: nat) {
    && |cells| == ROWS
    && (forall r :: 0 <= r < ROWS ==> |cells[r]| == cols)
    && (forall r, c :: 0 <= r < ROWS && 0 <= c < cols ==> cells[r][c] == CountIn(log, r, c * w, (c + 1) * w))
    && (forall i :: 0 <= i < |log| ==> At(log[i]) < cols * w)
  }

  ghost predicate IsMaximum(cells: seq<seq<nat>>, max: nat) {
    && (forall r, c :: 0 <= r < |cells| && 0 <= c < |cells[r]| ==> cells[r][c] <= max)
    && (max > 0 ==> exists r, c :: 0 <= r < |cells| && 0 <= c < |cells[r]| && cells[r][c] == max)
  }

  lemma {:induction false} RowsAddUp(log: seq<Event>, cells: seq<seq<nat>>, cols: nat, w: nat, n: nat)
    requires Refines(log, cells, cols, w) && n <= ROWS
    ensures SumAll(cells[..n]) == CountBelow(log, n, cols * w)
  {
    if n > 0 {
      RowsAddUp(log, cells, cols, w, n - 1);
      assert cells[..n][..n - 1] == cells[..n - 1];
      ColumnsAddUp(log, n - 1, cells[n - 1], 0, w);
    }
  }

  /** Nothing is lost or counted twice: the cells add up to the number of requests. */
  lemma TotalsConserved(log: seq<Event>, cells: seq<seq<nat>>, cols: nat, w: nat)
    requires Refines(log, cells, cols, w)
    ensures SumAll(cells) == |log|
  {
    RowsAddUp(log, cells, cols, w, ROWS);
    assert cells[..ROWS] == cells;
    BandsCoverTheLog(log, cols * w);
  }

  /** A group of fine columns counts the stretch of time it covers. */
  lemma GroupCounts(log: seq<Event>, r: nat, row: seq<nat>, j: nat, factor: nat, w: nat)
    requires factor > 0 && j < CeilDiv(|row|, factor)
    requires forall c :: 0 <= c < |row| ==> row[c] == CountIn(log, r, c * w, (c + 1) * w)
    requires forall i :: 0 <= i < |log| ==> At(log[i]) < |row| * w
    ensures GroupSum(row, j, factor) == CountIn(log, r, j * (factor * w), (j + 1) * (factor * w))
  {
    var lo, hi := j * factor, (j + 1) * factor;
    Scale(j, j + 1, factor);
    BucketBounds(|row| + factor - 1, factor);
    Scale(j + 1, CeilDiv(|row|, factor), factor);
    var top := Min(hi, |row|);
    assert lo < |row|;
    var s := row[lo..top];
    forall c | 0 <= c < |s|
      ensures s[c] == CountIn(log, r, (lo + c) * w, (lo + c + 1) * w)
    {
      assert s[c] == row[lo + c];
    }
    ColumnsAddUp(log, r, s, lo, w);
    assert GroupSum(row, j, factor) == CountIn(log, r, lo * w, top * w);
    Scale(top, hi, w);
    if top < hi {
      CountBeyond(log, r, lo * w, top * w, hi * w);
    }
    ProductAssoc(j, factor, w);
    ProductAssoc(j + 1, factor, w);
  }

  lemma ProductAssoc(a: nat, b: nat, c: nat)
    ensures a * b * c == a * (b * c)
  {}

  /** Merging columns keeps the refinement, at the widened column width. */
  lemma MergeRefines(log: seq<Event>, cells: seq<seq<nat>>, cols: nat, out: seq<seq<nat>>, factor: nat, w: nat)
    requires Refines(log, cells, cols, w) && factor > 0
    requires |out| == |cells| && forall r :: 0 <= r < |cells| ==> Merged(cells[r], out[r], factor)
    ensures Refines(log, out, CeilDiv(cols, factor), factor * w)
  {
    var cols' := CeilDiv(cols, factor);
    forall r, c | 0 <= r < ROWS && 0 <= c < cols'
      ensures out[r][c] == CountIn(log, r, c * (factor * w), (c + 1) * (factor * w))
    {
      GroupCounts(log, r, cells[r], c, factor, w);
      assert Merged(cells[r], out[r], factor);
    }
    forall i | 0 <= i < |log|
      ensures At(log[i]) < cols' * (factor * w)
    {
      BucketBounds(cols + factor - 1, factor);
      Scale(cols, cols' * factor, w);
      ProductAssoc(cols', factor, w);
    }
  }

  method MaxCell(cells: seq<seq<nat>>) returns (max: nat)
    ensures IsMaximum(cells, max)
  {
    max := 0;
    for r := 0 to |cells|
      invariant IsMaximum(cells[..r], max)
    {
      var row := cells[r];
      assert cells[..r + 1][r] == row;
      for c := 0 to |row|
        invariant forall r', c' :: 0 <= r' < r && 0 <= c' < |cells[r']| ==> cells[r'][c'] <= max
        invariant forall c' :: 0 <= c' < c ==> row[c'] <= max
        invariant max > 0 ==> exists r', c' :: 0 <= r' <= r && 0 <= c' < |cells[r']| && cells[r'][c'] == max
      {
        if row[c] > max {
          max := row[c];
        }
      }
    }
    assert cells[..|cells|] == cells;
  }

  /** Requests of a band in one 500 ms column. */
  ghost function CellCount(log: seq<Event>, r: nat, c: nat): nat {
    CountIn(log, r, c * BIN, (c + 1) * BIN)
  }

  /** The fine columns the log spans: one behind the latest request. */
  ghost function Width(log: seq<Event>): nat {
    if log == [] then 0
    else
      var before, col := Width(log[..|log| - 1]), At(log[|log| - 1]) / BIN + 1;
      if col > before then col else before
  }

  /** The sparse columns hold exactly the counts of the log. */
  ghost predicate Counts(grid: map<nat, seq<nat>>, maxCol: nat, log: seq<Event>) {
    && (forall c :: c in grid ==> c <= maxCol && |grid[c]| == ROWS)
    && (if grid == map[] then log == [] && maxCol == 0 else maxCol + 1 == Width(log))
    && (forall i :: 0 <= i < |log| ==> At(log[i]) / BIN in grid)
    && (forall c, r :: c in grid && 0 <= r < ROWS ==> grid[c][r] == CellCount(log, r, c))
  }

  lemma ColumnOf(e: Event, col: nat)
    requires col == if GoDiv(e.offset, BIN) < 0 then 0 else GoDiv(e.offset, BIN)
    ensures col == At(e) / BIN
    ensures forall c: nat :: c * BIN <= At(e) < (c + 1) * BIN <==> c == col
  {
    BucketBounds(At(e), BIN);
    forall c: nat
      ensures c * BIN <= At(e) < (c + 1) * BIN <==> c == col
    {
      if c < col {
        Scale(c + 1, col, BIN);
      } else if c > col {
        Scale(col + 1, c, BIN);
      }
    }
  }

  /** A column nobody recorded into counts nothing. */
  lemma {:induction false} UnseenColumn(log: seq<Event>, col: nat, r: nat)
    requires forall i :: 0 <= i < |log| ==> At(log[i]) / BIN != col
    ensures CellCount(log, r, col) == 0
  {
    if log != [] {
      var e := log[|log| - 1];
      UnseenColumn(log[..|log| - 1], col, r);
      assert At(e) / BIN != col;
      ColumnOf(Event(e.ms, At(e)), At(e) / BIN);
    }
  }

  lemma RecordCell(log: seq<Event>, e: Event, col: nat, r: nat, c: nat)
    requires forall c: nat :: c * BIN <= At(e) < (c + 1) * BIN <==> c == col
    ensures CellCount(log + [e], r, c) == CellCount(log, r, c) + if c == col && r == RowFor(e.ms) then 1 else 0
  {
    CountAppend(log, e, r, c * BIN, (c + 1) * BIN);
  }

  /** The column a request goes to: the one it has, or a fresh one of zeros. */
  function ColumnIn(grid: map<nat, seq<nat>>, col: nat): (r: seq<nat>)
    ensures (forall c :: c in grid ==> |grid[c]| == ROWS) ==> |r| == ROWS
  {
    if col in grid then grid[col] else [0, 0, 0, 0, 0, 0, 0, 0, 0, 0, 0]
  }

  lemma ColumnInCounts(grid: map<nat, seq<nat>>, maxCol: nat, log: seq<Event>, col: nat)
    requires Counts(grid, maxCol, log)
    ensures |ColumnIn(grid, col)| == ROWS
    ensures forall r :: 0 <= r < ROWS ==> ColumnIn(grid, col)[r] == CellCount(log, r, col)
  {
    if col !in grid {
      forall r | 0 <= r < ROWS
        ensures CellCount(log, r, col) == 0
      {
        UnseenColumn(log, col, r);
      }
    }
  }

  /** Bumping one cell takes one more request into account. */
  lemma RecordKeepsCounts(grid: map<nat, seq<nat>>, maxCol: nat, log: seq<Event>, e: Event, col: nat, r0: seq<nat>)
    requires Counts(grid, maxCol, log)
    requires col == At(e) / BIN && forall c: nat :: c * BIN <= At(e) < (c + 1) * BIN <==> c == col
    requires |r0| == ROWS && forall r :: 0 <= r < ROWS ==> r0[r] == CellCount(log, r, col)
    ensures Counts(grid[col := r0[RowFor(e.ms) := r0[RowFor(e.ms)] + 1]],
                   if col > maxCol then col else maxCol, log + [e])
  {
    var row := RowFor(e.ms);
    var grid' := grid[col := r0[row := r0[row] + 1]];
    assert col in grid';
    assert (log + [e])[..|log|] == log;
    forall c, r | c in grid' && 0 <= r < ROWS
      ensures grid'[c][r] == CellCount(log + [e], r, c)
    {
      RecordCell(log, e, col, r, c);
    }
  }

  lemma RecordStep(grid: map<nat, seq<nat>>, maxCol: nat, log: seq<Event>, ms: real, offset: int, col: nat,
                   bumped: map<nat, seq<nat>>, top: nat)
    requires Counts(grid, maxCol, log)
    requires col == if GoDiv(offset, BIN) < 0 then 0 else GoDiv(offset, BIN)
    requires var r, row := ColumnIn(grid, col), RowFor(ms);
      |r| == ROWS && bumped == grid[col := r[row := r[row] + 1]]
    requires top == if col > maxCol then col else maxCol
    ensures Counts(bumped, top, log + [Event(ms, offset)])
  {
    var e := Event(ms, offset);
    ColumnOf(e, col);
    ColumnInCounts(grid, maxCol, log, col);
    RecordKeepsCounts(grid, maxCol, log, e, col, ColumnIn(grid, col));
  }

  class Grid {
    var grid: map<nat, seq<nat>>
    var maxCol: nat
    ghost var log: seq<Event>

    ghost predicate Valid()
      reads this
    {
      Counts(grid, maxCol, log)
    }

    constructor ()
      ensures Valid() && log == []
    {
      grid, maxCol, log := map[], 0, [];
    }

    /** record */
    method Record(ms: real, offset: int)
      requires Valid()
      modifies this
      ensures Valid() && log == old(log) + [Event(ms, offset)]
    {
      var q := GoDiv(offset, BIN);
      var col: nat := if q < 0 then 0 else q;
      var row := LatencyRowFor(ms);
      var r := ColumnIn(grid, col);
      var bumped := grid[col := r[row := r[row] + 1]];
      var top := if col > maxCol then col else maxCol;
      RecordStep(grid, maxCol, log, ms, offset, col, bumped, top);
      grid, maxCol, log := bumped, top, log + [Event(ms, offset)];
    }

    /** snapshot: a dense grid of at most MAX_COLS columns, the count of its busiest
        cell, and the column width in milliseconds, no wider than it has to be. */
    method Snapshot() returns (cells: seq<seq<nat>>, maxCount: nat, binWidthMs: nat, ghost factor: nat)
      requires Valid()
      ensures IsWidening(factor, Width(log)) && binWidthMs == BIN_MS * factor
      ensures Refines(log, cells, CeilDiv(Width(log), factor), binWidthMs * 1_000_000)
      ensures SumAll(cells) == |log|
      ensures IsMaximum(cells, maxCount)
    {
      binWidthMs, factor := BIN_MS, 1;
      var cols: nat := 0;
      if grid != map[] {
        cols := maxCol + 1;
      }
      var out := FillDense(grid, cols);
      DenseRefines(grid, maxCol, log, out, cols);
      if cols > MAX_COLS {
        var f := (cols + MAX_COLS - 1) / MAX_COLS;
        out := WidenBins(log, out, cols, f);
        binWidthMs := binWidthMs * f;
        factor := f;
      }
      maxCount := MaxCell(out);
      cells := out;
      TotalsConserved(log, cells, CeilDiv(cols, factor), binWidthMs * 1_000_000);
    }
  }

  method WidenBins(ghost log: seq<Event>, dense: seq<seq<nat>>, cols: nat, f: nat) returns (cells: seq<seq<nat>>)
    requires cols > MAX_COLS && f == CeilDiv(cols, MAX_COLS) && Refines(log, dense, cols, BIN)
    ensures IsWidening(f, cols) && Refines(log, cells, CeilDiv(cols, f), BIN * f)
  {
    FactorIsLeast(cols, f);
    cells := DownsampleCols(dense, f);
    MergeRefines(log, dense, cols, cells, f, BIN);
  }

  /** f is the least number of fine columns to merge that keeps the grid in bounds. */
  ghost predicate IsWidening(f: nat, cols: nat) {
    && f > 0 && CeilDiv(cols, f) <= MAX_COLS
    && forall g: nat :: 0 < g < f ==> CeilDiv(cols, g) > MAX_COLS
  }

  /** The dense grid a sparse one stands for. */
  ghost predicate IsDense(grid: map<nat, seq<nat>>, out: seq<seq<nat>>, n: nat) {
    && |out| == ROWS
    && (forall r :: 0 <= r < ROWS ==> |out[r]| == n)
    && (forall c :: c in grid ==> |grid[c]| == ROWS)
    && forall r, c :: 0 <= r < ROWS && 0 <= c < n ==> out[r][c] == if c in grid then grid[c][r] else 0
  }

  /** The columns arrive in map order; each is written into its place. */
  method FillDense(grid: map<nat, seq<nat>>, n: nat) returns (out: seq<seq<nat>>)
    requires forall c :: c in grid ==> c < n && |grid[c]| == ROWS
    ensures IsDense(grid, out, n)
  {
    out := seq(ROWS, _ => seq(n, _ => 0));
    var left := grid;
    while left != map[]
      invariant left.Keys <= grid.Keys && forall c :: c in left ==> left[c] == grid[c]
      invariant IsDense(grid - left.Keys, out, n)
      decreases left.Keys
    {
      var col :| col in left;
      out := WriteColumn(out, col, left[col], n);
      ghost var before := left;
      left := left - {col};
      assert (grid - left.Keys).Keys == (grid - before.Keys).Keys + {col};
    }
    assert grid - left.Keys == grid;
  }

  method WriteColumn(out0: seq<seq<nat>>, col: nat, rc: seq<nat>, n: nat) returns (out: seq<seq<nat>>)
    requires |out0| == ROWS && |rc| == ROWS && col < n && forall r :: 0 <= r < ROWS ==> |out0[r]| == n
    ensures |out| == ROWS && forall r :: 0 <= r < ROWS ==> out[r] == out0[r][col := rc[r]]
  {
    out := out0;
    for r := 0 to ROWS
      invariant |out| == ROWS
      invariant forall r' :: 0 <= r' < ROWS ==> out[r'] == if r' < r then out0[r'][col := rc[r']] else out0[r']
    {
      out := out[r := out[r][col := rc[r]]];
    }
  }

  lemma DenseRefines(grid: map<nat, seq<nat>>, maxCol: nat, log: seq<Event>, out: seq<seq<nat>>, n: nat)
    requires Counts(grid, maxCol, log) && IsDense(grid, out, n)
    requires n == if grid == map[] then 0 else maxCol + 1
    ensures Refines(log, out, n, BIN)
    ensures n == Width(log)
  {
    forall r, c | 0 <= r < ROWS && 0 <= c < n
      ensures out[r][c] == CountIn(log, r, c * BIN, (c + 1) * BIN)
    {
      if c !in grid {
        UnseenColumn(log, c, r);
      }
    }
    forall i | 0 <= i < |log|
      ensures At(log[i]) < n * BIN
    {
      BucketBounds(At(log[i]), BIN);
      assert At(log[i]) / BIN in grid;
      Scale(At(log[i]) / BIN + 1, n, BIN);
    }
  }
}
