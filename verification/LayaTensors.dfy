/** Packing laid-out rows into flat row-major tensors, as both Laya backends do, and scattering the scores of
    the rows that were run back to the requests. */
module LayaTensors {
  import opened LayaLayout
  import opened Lists
  import opened Wrappers

  // ----------------------------------------------------------- padded row-major form

  function Padded<T>(row: seq<T>, width: nat, fill: T): (r: seq<T>)
    requires |row| <= width
    ensures |r| == width && forall c :: 0 <= c < width ==> r[c] == if c < |row| then row[c] else fill
  {
    row + seq(width - |row|, _ => fill)
  }

  ghost predicate Within<T>(rows: seq<seq<T>>, width: nat) {
    forall r :: 0 <= r < |rows| ==> |rows[r]| <= width
  }

  function Flat<T>(rows: seq<seq<T>>, width: nat, fill: T): seq<T>
    requires Within(rows, width)
    decreases |rows|
  {
    if rows == [] then []
    else Flat(rows[..|rows| - 1], width, fill) + Padded(rows[|rows| - 1], width, fill)
  }

  lemma {:induction false} FlatLength<T>(rows: seq<seq<T>>, width: nat, fill: T)
    requires Within(rows, width)
    ensures |Flat(rows, width, fill)| == |rows| * width
    decreases |rows|
  {
    if rows != [] {
      OneMore(|rows| - 1, width);
      FlatLength(rows[..|rows| - 1], width, fill);
    }
  }

  lemma {:induction false} FlatPrefix<T>(rows: seq<seq<T>>, width: nat, fill: T, r: nat)
    requires Within(rows, width) && r < |rows|
    ensures |Flat(rows[..r], width, fill)| + width <= |Flat(rows, width, fill)|
    decreases |rows|
  {
    if r < |rows| - 1 {
      FlatPrefix(rows[..|rows| - 1], width, fill, r);
      assert rows[..|rows| - 1][..r] == rows[..r];
    }
  }

  /** Reading a flat tensor at row * width + column gives the row's own element, or the fill. */
  lemma {:induction false} FlatAt<T>(rows: seq<seq<T>>, width: nat, fill: T, r: nat, c: nat)
    requires Within(rows, width) && r < |rows| && c < width
    ensures 0 <= r * width + c < |Flat(rows, width, fill)|
    ensures Flat(rows, width, fill)[r * width + c] == if c < |rows[r]| then rows[r][c] else fill
    decreases |rows|
  {
    var n := |rows| - 1;
    FlatLength(rows[..n], width, fill);
    if r < n { FlatAt(rows[..n], width, fill, r, c); }
  }

  /** Assign the fill everywhere, then copy each row to its offset. */
  method Pack(rows: seq<seq<int>>, width: nat, fill: int) returns (flat: array<int>)
    requires Within(rows, width)
    ensures fresh(flat) && flat[..] == Flat(rows, width, fill)
  {
    FlatLength(rows, width, fill);
    flat := new int[|rows| * width](_ => fill);
    var start: nat := 0;
    for r := 0 to |rows|
      invariant start <= flat.Length == |Flat(rows, width, fill)|
      invariant flat[..start] == Flat(rows[..r], width, fill)
      invariant forall k :: start <= k < flat.Length ==> flat[k] == fill
    {
      FlatPrefix(rows, width, fill, r);
      assert |flat[..start]| == start;
      CopyAt(flat, start, rows[r], width, fill);
      assert rows[..r + 1][..r] == rows[..r];
      assert flat[..start + width] == flat[..start] + flat[start..start + width];
      start := start + width;
    }
    assert rows[..|rows|] == rows;
    assert |flat[..start]| == start;
  }

  method CopyAt(flat: array<int>, start: nat, row: seq<int>, width: nat, fill: int)
    requires |row| <= width && start + width <= flat.Length
    requires forall k :: start <= k < start + width ==> flat[k] == fill
    modifies flat
    ensures flat[..start] == old(flat[..start]) && flat[start..start + width] == Padded(row, width, fill)
    ensures forall k :: start + width <= k < flat.Length ==> flat[k] == old(flat[k])
  {
    for c := 0 to |row|
      invariant flat[..start] == old(flat[..start])
      invariant forall k :: start <= k < start + c ==> flat[k] == row[k - start]
      invariant forall k :: start + c <= k < flat.Length ==> flat[k] == old(flat[k])
    {
      flat[start + c] := row[c];
    }
  }

  // --------------------------------------------------------------- batch dimensions

  /** The largest size, but no less than a floor. */
  function Widest(floor: nat, sizes: seq<nat>): (w: nat)
    ensures w >= floor && forall i :: 0 <= i < |sizes| ==> sizes[i] <= w
    ensures w == floor || w in sizes
    decreases |sizes|
  {
    if sizes == [] then floor
    else
      var rest, last := Widest(floor, sizes[..|sizes| - 1]), sizes[|sizes| - 1];
      if last > rest then last else rest
  }

  function IdSizes(rows: seq<Row>): (r: seq<nat>)
    ensures |r| == |rows| && forall i :: 0 <= i < |r| ==> r[i] == |rows[i].ids|
  {
    seq(|rows|, i requires 0 <= i < |rows| => |rows[i].ids|)
  }

  function MarkerSizes(rows: seq<Row>): (r: seq<nat>)
    ensures |r| == |rows| && forall i :: 0 <= i < |r| ==> r[i] == |rows[i].markers|
  {
    seq(|rows|, i requires 0 <= i < |rows| => |rows[i].markers|)
  }

  /** Running maxima over the batch, from 8 tokens and 2 markers. */
  method Dimensions(rows: seq<Row>) returns (length: nat, width: nat)
    ensures length == Widest(8, IdSizes(rows)) && width == Widest(2, MarkerSizes(rows))
  {
    length, width := 8, 2;
    for i := 0 to |rows|
      invariant length == Widest(8, IdSizes(rows)[..i]) && width == Widest(2, MarkerSizes(rows)[..i])
    {
      assert IdSizes(rows)[..i + 1][..i] == IdSizes(rows)[..i];
      assert MarkerSizes(rows)[..i + 1][..i] == MarkerSizes(rows)[..i];
      length := Max(length, |rows[i].ids|);
      width := Max(width, |rows[i].markers|);
    }
    assert IdSizes(rows)[..|rows|] == IdSizes(rows) && MarkerSizes(rows)[..|rows|] == MarkerSizes(rows);
  }

  /** The division test before allocation passes exactly when both products fit the limit. */
  lemma DimensionTest(batch: nat, length: nat, width: nat, limit: nat)
    requires length >= 8 && width >= 2
    ensures batch <= limit / Max(length, width) <==> batch * length <= limit && batch * width <= limit
  {
    var m := Max(length, width);
    var q := limit / m;
    Quotient(limit, m);
    assert limit < m * q + m;
    if batch <= q {
      Scaled(batch, length, m);
      Scaled(batch, width, m);
      Scaled(m, batch, q);
    } else {
      Scaled(m, q + 1, batch);
      assert m * (q + 1) == m * q + m;
    }
  }

  lemma Scaled(k: nat, a: nat, b: nat)
    requires a <= b
    ensures k * a <= k * b
  {
  }

  // ------------------------------------------------------------------- the tensors

  function Ids(rows: seq<Row>): (r: seq<seq<int>>)
    ensures |r| == |rows| && forall i :: 0 <= i < |r| ==> r[i] == rows[i].ids
  {
    seq(|rows|, i requires 0 <= i < |rows| => rows[i].ids)
  }

  function Markers(rows: seq<Row>): (r: seq<seq<int>>)
    ensures |r| == |rows| && forall i :: 0 <= i < |r| ==> r[i] == rows[i].markers
  {
    seq(|rows|, i requires 0 <= i < |rows| => rows[i].markers)
  }

  function Ones<T>(rows: seq<seq<T>>): (r: seq<seq<int>>)
    ensures |r| == |rows|
    ensures forall i :: 0 <= i < |r| ==> |r[i]| == |rows[i]| && forall k :: 0 <= k < |r[i]| ==> r[i][k] == 1
  {
    seq(|rows|, i requires 0 <= i < |rows| => seq(|rows[i]|, _ => 1))
  }

  function Trues<T>(rows: seq<seq<T>>): (r: seq<seq<bool>>)
    ensures |r| == |rows| && forall i :: 0 <= i < |r| ==> |r[i]| == |rows[i]| && forall k :: 0 <= k < |r[i]| ==> r[i][k]
  {
    seq(|rows|, i requires 0 <= i < |rows| => seq(|rows[i]|, _ => true))
  }

  /** The marker mask lives in a pooled buffer of any size and content: only the part in use is cleared and set. */
  method PackMask(pooled: array<bool>, rows: seq<seq<bool>>, width: nat) returns (mask: array<bool>)
    requires Within(rows, width) && forall r, c :: 0 <= r < |rows| && 0 <= c < |rows[r]| ==> rows[r][c]
    modifies pooled
    ensures mask == pooled || fresh(mask)
    ensures |Flat(rows, width, false)| <= mask.Length && mask[..|Flat(rows, width, false)|] == Flat(rows, width, false)
  {
    FlatLength(rows, width, false);
    var size := |rows| * width;
    mask := Cleared(pooled, size);
    var start: nat := 0;
    for r := 0 to |rows|
      invariant start <= size == |Flat(rows, width, false)| && size <= mask.Length
      invariant mask[..start] == Flat(rows[..r], width, false)
      invariant forall k :: start <= k < size ==> !mask[k]
    {
      FlatPrefix(rows, width, false, r);
      assert |mask[..start]| == start;
      assert rows[..r + 1] == rows[..r] + [rows[r]];
      start := AppendTrue(mask, start, rows[..r], rows[r], width, size);
    }
    assert rows[..|rows|] == rows;
    assert |mask[..start]| == start;
  }

  method Cleared(pooled: array<bool>, size: nat) returns (mask: array<bool>)
    modifies pooled
    ensures (mask == pooled || fresh(mask)) && size <= mask.Length && forall k :: 0 <= k < size ==> !mask[k]
  {
    mask := pooled;
    if pooled.Length < size { mask := new bool[size](_ => true); }
    for k := 0 to size
      invariant forall j :: 0 <= j < k ==> !mask[j]
    {
      mask[k] := false;
    }
  }

  method AppendTrue(mask: array<bool>, start: nat, ghost before: seq<seq<bool>>, row: seq<bool>, width: nat, size: nat)
    returns (end: nat)
    requires Within(before, width) && |row| <= width && (forall c :: 0 <= c < |row| ==> row[c])
    requires start + width <= size <= mask.Length
    requires mask[..start] == Flat(before, width, false) && forall k :: start <= k < size ==> !mask[k]
    modifies mask
    ensures Within(before + [row], width) && end == start + width && mask[..end] == Flat(before + [row], width, false)
    ensures forall k :: end <= k < size ==> !mask[k]
  {
    SetTrue(mask, start, row, width, size);
    end := start + width;
    assert (before + [row])[..|before|] == before;
    assert mask[..end] == mask[..start] + mask[start..end];
  }

  method SetTrue(mask: array<bool>, start: nat, row: seq<bool>, width: nat, size: nat)
    requires |row| <= width && start + width <= size <= mask.Length && forall c :: 0 <= c < |row| ==> row[c]
    requires forall k :: start <= k < size ==> !mask[k]
    modifies mask
    ensures mask[..start] == old(mask[..start]) && mask[start..start + width] == Padded(row, width, false)
    ensures forall k :: start + width <= k < size ==> !mask[k]
  {
    for c := 0 to |row|
      invariant mask[..start] == old(mask[..start])
      invariant forall k :: start <= k < size ==> (mask[k] <==> k < start + c)
    {
      mask[start + c] := true;
    }
  }

  /** Tensors of src/laya.cpp read at one cell: the row's token under attention, or padding without. */
  lemma TokenCell(rows: seq<Row>, pad: int, length: nat, r: nat, c: nat, at: nat)
    requires r < |rows| && c < length && at == r * length + c && Within(Ids(rows), length)
    ensures var ids, attention := Flat(Ids(rows), length, pad), Flat(Ones(Ids(rows)), length, 0);
            && at < |ids| && at < |attention|
            && (if c < |rows[r].ids| then ids[at] == rows[r].ids[c] && attention[at] == 1
                else ids[at] == pad && attention[at] == 0)
  {
    FlatAt(Ids(rows), length, pad, r, c);
    FlatAt(Ones(Ids(rows)), length, 0, r, c);
  }

  /** A marker cell is masked in exactly when it holds one of the row's markers. */
  lemma MarkerCell(rows: seq<Row>, width: nat, r: nat, c: nat, at: nat)
    requires r < |rows| && c < width && at == r * width + c && Within(Markers(rows), width)
    ensures var positions, mask := Flat(Markers(rows), width, 0), Flat(Trues(Markers(rows)), width, false);
            && at < |positions| && at < |mask|
            && (if c < |rows[r].markers| then positions[at] == rows[r].markers[c] && mask[at]
                else positions[at] == 0 && !mask[at])
  {
    FlatAt(Markers(rows), width, 0, r, c);
    FlatAt(Trues(Markers(rows)), width, false, r, c);
  }

  // ------------------------------------------------------------ native flat markers

  /** The native graph wants markers as positions in the flat token tensor; unused columns point at their row. */
  function FlatMarkers(r: nat, row: Row, length: nat, width: nat): (m: seq<int>)
    ensures |m| == width
    ensures forall c :: 0 <= c < width ==> m[c] == r * length + if c < |row.markers| then row.markers[c] else 0
  {
    seq(width, c requires 0 <= c < width => r * length + if c < |row.markers| then row.markers[c] else 0)
  }

  function AllFlatMarkers(rows: seq<Row>, length: nat, width: nat): (m: seq<seq<int>>)
    ensures |m| == |rows| && forall r :: 0 <= r < |m| ==> m[r] == FlatMarkers(r, rows[r], length, width)
  {
    seq(|rows|, r requires 0 <= r < |rows| => FlatMarkers(r, rows[r], length, width))
  }

  method PackNativeMarkers(rows: seq<Row>, length: nat, width: nat) returns (flat: seq<int>)
    ensures Within(AllFlatMarkers(rows, length, width), width)
    ensures flat == Flat(AllFlatMarkers(rows, length, width), width, 0)
  {
    ghost var all := AllFlatMarkers(rows, length, width);
    flat := [];
    for r := 0 to |rows|
      invariant flat == Flat(all[..r], width, 0)
    {
      ghost var before := flat;
      for c := 0 to width
        invariant flat == before + all[r][..c]
      {
        flat := flat + [r * length + if c < |rows[r].markers| then rows[r].markers[c] else 0];
      }
      assert all[..r + 1][..r] == all[..r];
      assert Padded(all[r], width, 0) == all[r] == all[r][..width];
    }
    assert all[..|rows|] == all;
  }

  /** Every active flat marker of an accepted batch points at a mask token of its own row. */
  lemma NativeMarkersPoint(rows: seq<Row>, mask: int, pad: int, length: nat, width: nat, r: nat, c: nat, at: nat)
    requires r < |rows| && c < |rows[r].markers| <= width && at == r * width + c
    requires Within(Ids(rows), length) && Within(AllFlatMarkers(rows, length, width), width)
    requires 0 <= rows[r].markers[c] < |rows[r].ids| && rows[r].ids[rows[r].markers[c]] == mask
    ensures var flat, ids := Flat(AllFlatMarkers(rows, length, width), width, 0), Flat(Ids(rows), length, pad);
            && at < |flat| && r * length <= flat[at] < r * length + length && flat[at] < |ids|
            && ids[flat[at]] == mask
  {
    FlatAt(AllFlatMarkers(rows, length, width), width, 0, r, c);
    FlatAt(Ids(rows), length, pad, r, rows[r].markers[c]);
  }

  // ------------------------------------------------------ omitted rows and scattering

  /** Indices of the requests that are run: all but those with a single option. */
  function Run(single: seq<bool>): (rows: seq<nat>)
    ensures forall k :: 0 <= k < |rows| ==> rows[k] < |single| && !single[rows[k]]
    ensures forall j, k :: 0 <= j < k < |rows| ==> rows[j] < rows[k]
    decreases |single|
  {
    if single == [] then []
    else Run(single[..|single| - 1]) + if single[|single| - 1] then [] else [|single| - 1]
  }

  lemma {:induction false} RunCovers(single: seq<bool>, i: nat)
    requires i < |single| && !single[i]
    ensures exists k :: 0 <= k < |Run(single)| && Run(single)[k] == i
    decreases |single|
  {
    var n := |single| - 1;
    if i < n {
      RunCovers(single[..n], i);
      var k :| 0 <= k < |Run(single[..n])| && Run(single[..n])[k] == i;
      assert Run(single)[k] == i;
    } else {
      assert Run(single)[|Run(single)| - 1] == i;
    }
  }

  /** What is answered: the certain response where nothing is run, the model's responses where their rows are. */
  ghost predicate Scattered<R>(single: seq<bool>, certain: R, raw: seq<R>, responses: seq<R>) {
    && |responses| == |single| && |raw| == |Run(single)|
    && (forall i :: 0 <= i < |single| && single[i] ==> responses[i] == certain)
    && (forall k :: 0 <= k < |raw| ==> responses[Run(single)[k]] == raw[k])
  }

  lemma RowInside(k: nat, n: nat, width: nat)
    requires k < n
    ensures k * width + width <= n * width
  {
    assert (k + 1) * width <= n * width;
  }

  function Slice<L>(raw: seq<L>, start: nat, count: nat): (r: seq<L>)
    requires start + count <= |raw|
    ensures |r| == count && forall c :: 0 <= c < count ==> r[c] == raw[start + c]
  {
    raw[start..start + count]
  }

  /** The active scores of row k in a flat output of n rows. */
  function RowOf<L>(raw: seq<L>, n: nat, k: nat, width: nat, count: nat): seq<L>
    requires k < n && count <= width && |raw| == n * width
  {
    RowInside(k, n, width);
    Slice(raw, k * width, count)
  }

  predicate RowUsable<L>(scores: seq<L>, usable: L -> bool) {
    forall i :: 0 <= i < |scores| ==> usable(scores[i])
  }

  /** A model output is taken when it has one score for every row and column and every active score is usable. */
  ghost predicate Usable<L>(raw: seq<L>, counts: seq<nat>, width: nat, usable: L -> bool)
    requires forall k :: 0 <= k < |counts| ==> counts[k] <= width
  {
    && |raw| == |counts| * width
    && forall k :: 0 <= k < |counts| ==> forall x :: x in RowOf(raw, |counts|, k, width, counts[k]) ==> usable(x)
  }

  function Scored<T, L, R>(batch: seq<T>, counts: seq<nat>, raw: seq<L>, width: nat,
    score: (T, seq<L>) -> R): (r: seq<R>)
    requires |batch| == |counts| && |raw| == |counts| * width && forall k :: 0 <= k < |counts| ==> counts[k] <= width
    ensures |r| == |batch|
    ensures forall k :: 0 <= k < |r| ==> r[k] == score(batch[k], RowOf(raw, |counts|, k, width, counts[k]))
  {
    seq(|batch|, k requires 0 <= k < |batch| => score(batch[k], RowOf(raw, |counts|, k, width, counts[k])))
  }

  function Width(counts: seq<nat>, rows: seq<nat>): (w: nat)
    requires forall k :: 0 <= k < |rows| ==> rows[k] < |counts|
    ensures w >= 2 && forall k :: 0 <= k < |rows| ==> counts[rows[k]] <= w
  {
    assert forall k :: 0 <= k < |rows| ==> Pick(counts, rows)[k] <= Widest(2, Pick(counts, rows));
    Widest(2, Pick(counts, rows))
  }

  /** predict_batch of the native backend around the model call, of which nothing is assumed. A single option answers
      itself with probability one and is left out. An output of the wrong size or with an unusable active score is
      refused as a whole; otherwise every request that was run is scored from its own slice of the flat output. */
  method Predict<T, L, R>(items: seq<T>, counts: seq<nat>, single: seq<bool>, certain: R, forward: seq<T> -> seq<L>,
                          usable: L -> bool, score: (T, seq<L>) -> R) returns (result: Option<seq<R>>)
    requires |items| == |counts| == |single|
    ensures var rows := Run(single);
            var raw, active, width := forward(Pick(items, rows)), Pick(counts, rows), Width(counts, rows);
            match result
            case None => rows != [] && !Usable(raw, active, width, usable)
            case Some(responses) =>
              && (rows == [] ==> responses == seq(|items|, _ => certain))
              && (rows != [] ==>
                    && Usable(raw, active, width, usable)
                    && Scattered(single, certain, Scored(Pick(items, rows), active, raw, width, score), responses))
  {
    var rows, batch, width := RowsToRun(items, counts, single);
    if rows == [] { return Some(seq(|items|, _ => certain)); }
    var raw := forward(batch);
    if |raw| != |rows| * width { return None; }
    result := ScoreRows(single, certain, batch, Pick(counts, rows), raw, width, usable, score);
  }

  /** The loop over the requests: all but the single options join the batch, and its width is the running maximum. */
  method RowsToRun<T>(items: seq<T>, counts: seq<nat>, single: seq<bool>)
      returns (rows: seq<nat>, batch: seq<T>, width: nat)
    requires |items| == |counts| == |single|
    ensures rows == Run(single) && batch == Pick(items, rows) && width == Width(counts, rows)
  {
    rows, batch, width := [], [], 2;
    for i := 0 to |items|
      invariant rows == Run(single[..i]) && batch == Pick(items, rows) && width == Width(counts, rows)
    {
      assert single[..i + 1][..i] == single[..i];
      if !single[i] {
        WidthNext(counts, rows, i);
        rows := rows + [i];
        batch := batch + [items[i]];
        width := Max(width, counts[i]);
      }
    }
    assert single[..|single|] == single;
  }

  /** The loop over the rows of the output: check the active scores of a row, then score it into its request's place. */
  method ScoreRows<T, L, R>(single: seq<bool>, certain: R, batch: seq<T>, active: seq<nat>, raw: seq<L>, width: nat,
                            usable: L -> bool, score: (T, seq<L>) -> R) returns (result: Option<seq<R>>)
    requires |batch| == |active| == |Run(single)| && |raw| == |active| * width
    requires forall k :: 0 <= k < |active| ==> active[k] <= width
    ensures result.Some? <==> Usable(raw, active, width, usable)
    ensures result.Some? ==> Scattered(single, certain, Scored(batch, active, raw, width, score), result.value)
  {
    var rows, responses := Run(single), seq(|single|, _ => certain);
    ghost var scored := Scored(batch, active, raw, width, score);
    for k := 0 to |rows|
      invariant |responses| == |single|
      invariant forall j :: 0 <= j < k ==> forall x :: x in RowOf(raw, |active|, j, width, active[j]) ==> usable(x)
      invariant forall i :: 0 <= i < |single| && single[i] ==> responses[i] == certain
      invariant forall j :: 0 <= j < k ==> responses[rows[j]] == scored[j]
    {
      var slice := RowOf(raw, |active|, k, width, active[k]);
      if !RowUsable(slice, usable) { return None; }
      responses := responses[rows[k] := score(batch[k], slice)];
    }
    return Some(responses);
  }

  /** The width is two or the count of some row. */
  lemma WidthIs(counts: seq<nat>, rows: seq<nat>)
    requires forall k :: 0 <= k < |rows| ==> rows[k] < |counts|
    ensures Width(counts, rows) == 2 || exists k :: 0 <= k < |rows| && counts[rows[k]] == Width(counts, rows)
  {
  }

  lemma WidthNext(counts: seq<nat>, rows: seq<nat>, i: nat)
    requires i < |counts| && forall k :: 0 <= k < |rows| ==> rows[k] < |counts|
    ensures Width(counts, rows + [i]) == Max(Width(counts, rows), counts[i])
  {
    assert Pick(counts, rows + [i])[..|rows|] == Pick(counts, rows);
  }

  /** When the model scores each row on its own, every request gets what its own scores give, in caller order. */
  lemma ScoresReturnInOrder<T, L, R>(items: seq<T>, counts: seq<nat>, single: seq<bool>, certain: R,
      logits: T -> seq<L>, score: (T, seq<L>) -> R, raw: seq<L>, responses: seq<R>)
    requires |items| == |counts| == |single|
    requires forall i :: 0 <= i < |items| ==> |logits(items[i])| == counts[i]
    requires var rows := Run(single);
             var active, width := Pick(counts, rows), Width(counts, rows);
             && |raw| == |rows| * width
             && (forall k :: 0 <= k < |rows| ==> RowOf(raw, |rows|, k, width, active[k]) == logits(items[rows[k]]))
             && Scattered(single, certain, Scored(Pick(items, rows), active, raw, width, score), responses)
    ensures forall i :: 0 <= i < |items| ==>
              responses[i] == if single[i] then certain else score(items[i], logits(items[i]))
  {
    forall i | 0 <= i < |items| && !single[i] ensures responses[i] == score(items[i], logits(items[i])) {
      RunCovers(single, i);
      var k :| 0 <= k < |Run(single)| && Run(single)[k] == i;
    }
  }
}
