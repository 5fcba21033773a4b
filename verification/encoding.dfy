/** `one_hot_encode`: turns a raw matrix whose categorical columns hold labels
    into a numeric design matrix. Columns are visited left to right; a plain
    column is copied through as numbers, a categorical column is replaced, in
    place, by one 0/1 indicator column per distinct value in sorted order
    (without the smallest value when `dropFirst` is set).
 */
module Encoding {
  import opened Outcomes
  import opened Linalg

  /** A cell of the raw matrix: a number, or a category label held as text. */
  datatype Cell = Num(value: real) | Text(text: string)

  // ---------------------------------------------------------------------------
  // The order `np.unique` sorts by
  // ---------------------------------------------------------------------------

  /** Lexicographic order on strings by code point, as Python compares `str`. */
  predicate TextBelow(a: string, b: string)
    decreases |a|
  {
    if |a| == 0 then |b| > 0
    else |b| > 0 && (a[0] < b[0] || (a[0] == b[0] && TextBelow(a[1..], b[1..])))
  }

  /** Numbers by value and texts lexicographically. A number is placed below
      every text only to make the order total; the encoder never sorts a
      column that mixes the two (see `Sortable`). */
  predicate Below(a: Cell, b: Cell) {
    if a.Num? && b.Num? then a.value < b.value
    else if a.Text? && b.Text? then TextBelow(a.text, b.text)
    else a.Num?
  }

  lemma {:induction false} TextBelowIrreflexive(a: string)
    ensures !TextBelow(a, a)
    decreases |a|
  {
    if |a| > 0 {
      TextBelowIrreflexive(a[1..]);
    }
  }

  lemma {:induction false} TextBelowTransitive(a: string, b: string, c: string)
    requires TextBelow(a, b) && TextBelow(b, c)
    ensures TextBelow(a, c)
    decreases |a|
  {
    if |a| > 0 && a[0] == b[0] && b[0] == c[0] {
      TextBelowTransitive(a[1..], b[1..], c[1..]);
    }
  }

  lemma {:induction false} TextBelowTotal(a: string, b: string)
    ensures a == b || TextBelow(a, b) || TextBelow(b, a)
    decreases |a|
  {
    if |a| > 0 && |b| > 0 && a[0] == b[0] {
      TextBelowTotal(a[1..], b[1..]);
      if a[1..] == b[1..] {
        assert a == [a[0]] + a[1..] && b == [b[0]] + b[1..];
      }
    }
  }

  lemma BelowIrreflexive(a: Cell)
    ensures !Below(a, a)
  {
    if a.Text? {
      TextBelowIrreflexive(a.text);
    }
  }

  lemma BelowTransitive(a: Cell, b: Cell, c: Cell)
    requires Below(a, b) && Below(b, c)
    ensures Below(a, c)
  {
    if a.Text? && b.Text? && c.Text? {
      TextBelowTransitive(a.text, b.text, c.text);
    }
  }

  lemma BelowTotal(a: Cell, b: Cell)
    ensures a == b || Below(a, b) || Below(b, a)
  {
    if a.Text? && b.Text? {
      TextBelowTotal(a.text, b.text);
    }
  }

  lemma BelowAsymmetric(a: Cell, b: Cell)
    requires Below(a, b)
    ensures !Below(b, a) && a != b
  {
    BelowIrreflexive(a);
    if Below(b, a) {
      BelowTransitive(a, b, a);
    }
  }

  // ---------------------------------------------------------------------------
  // `np.unique`: the sorted sequence of distinct values
  // ---------------------------------------------------------------------------

  /** Strictly increasing, hence free of duplicates. */
  predicate Increasing(s: seq<Cell>) {
    forall i, j {:trigger Below(s[i], s[j])} :: 0 <= i < j < |s| ==> Below(s[i], s[j])
  }

  /** Adds `x` to a strictly increasing sequence, keeping it so. */
  function Insert(s: seq<Cell>, x: Cell): (r: seq<Cell>)
    requires Increasing(s)
    ensures Increasing(r)
    ensures forall c :: c in r <==> c in s || c == x
  {
    if |s| == 0 then [x]
    else if x == s[0] then s
    else if Below(x, s[0]) then
      var r := [x] + s;
      assert Increasing(r) by {
        forall i, j | 0 <= i < j < |r|
          ensures Below(r[i], r[j])
        {
          if i == 0 && j > 1 {
            BelowTransitive(x, s[0], r[j]);
          }
        }
      }
      r
    else
      BelowTotal(x, s[0]);
      var t := Insert(s[1..], x);
      assert Increasing([s[0]] + t) by {
        forall k | 0 <= k < |t|
          ensures Below(s[0], t[k])
        {
          assert t[k] in t;
          if t[k] != x {
            var i :| 0 <= i < |s[1..]| && s[1..][i] == t[k];
            assert s[i + 1] == t[k];
          }
        }
      }
      assert forall c :: c in s <==> c == s[0] || c in s[1..] by {
        assert s == [s[0]] + s[1..];
      }
      [s[0]] + t
  }

  /** The sorted distinct values of `col`, as `np.unique` returns them. */
  function Unique(col: seq<Cell>): (u: seq<Cell>)
    ensures Increasing(u)
    ensures forall c :: c in u <==> c in col
  {
    if |col| == 0 then []
    else
      assert forall c :: c in col <==> c == col[0] || c in col[1..] by {
        assert col == [col[0]] + col[1..];
      }
      Insert(Unique(col[1..]), col[0])
  }

  /** A strictly increasing sequence is determined by its elements: `Unique`
      is the only sorted, duplicate-free listing of a column's values. */
  lemma {:induction false} IncreasingDetermined(a: seq<Cell>, b: seq<Cell>)
    requires Increasing(a) && Increasing(b)
    requires forall c :: c in a <==> c in b
    ensures a == b
    decreases |a|
  {
    if |b| > 0 {
      assert b[0] in b;
    }
    if |a| > 0 {
      assert a[0] in a;
      assert |b| > 0;
      assert b[0] in b;
      if a[0] != b[0] {
        var i :| 0 <= i < |a| && a[i] == b[0];
        var j :| 0 <= j < |b| && b[j] == a[0];
        assert Below(a[0], b[0]);
        assert Below(b[0], a[0]);
        BelowAsymmetric(a[0], b[0]);
      }
      forall c
        ensures c in a[1..] <==> c in b[1..]
      {
        TailMembership(a, c);
        TailMembership(b, c);
      }
      IncreasingDetermined(a[1..], b[1..]);
      assert a == [a[0]] + a[1..] && b == [b[0]] + b[1..];
    }
  }

  /** In a strictly increasing sequence the tail holds every element but the head. */
  lemma TailMembership(s: seq<Cell>, c: Cell)
    requires Increasing(s) && |s| > 0
    ensures c in s[1..] <==> c in s && c != s[0]
  {
    if c in s[1..] {
      var i :| 0 <= i < |s[1..]| && s[1..][i] == c;
      assert Below(s[0], s[i + 1]);
      BelowIrreflexive(c);
    }
    if c in s && c != s[0] {
      var i :| 0 <= i < |s| && s[i] == c;
      assert s[1..][i - 1] == c;
    }
  }

  /** The labels of one categorical column, in output order: strictly
      increasing values of the column, all of them unless `dropFirst`. */
  function Categories(col: seq<Cell>, dropFirst: bool): (ks: seq<Cell>)
    ensures Increasing(ks)
    ensures forall c :: c in ks ==> c in col
    ensures !dropFirst ==> forall c :: c in col ==> c in ks
  {
    var u := Unique(col);
    if dropFirst && |u| > 0 then u[1..] else u
  }

  // ---------------------------------------------------------------------------
  // Encoding column by column
  // ---------------------------------------------------------------------------

  /** `np.unique` can sort the column: it does not mix numbers and texts. */
  predicate Sortable(col: seq<Cell>) {
    (forall r :: 0 <= r < |col| ==> col[r].Num?) || (forall r :: 0 <= r < |col| ==> col[r].Text?)
  }

  predicate AllNumbers(col: seq<Cell>) {
    forall r :: 0 <= r < |col| ==> col[r].Num?
  }

  /** The exception, if any, that encoding input column `i` raises. */
  function ColumnFault(X: Grid<Cell>, cats: seq<int>, i: nat): Option<Error>
    requires Wf(X) && i < X.width
  {
    var col := Column(X, i);
    if i in cats then
      if Sortable(col) then None else Some(Unorderable(i))
    else
      if AllNumbers(col) then None else Some(NotNumeric(i))
  }

  /** Input columns `0 .. i-1` encode without an exception. */
  predicate Encodable(X: Grid<Cell>, cats: seq<int>, i: nat)
    requires Wf(X) && i <= X.width
  {
    forall j :: 0 <= j < i ==> ColumnFault(X, cats, j).None?
  }

  /** The exception of the leftmost faulty column among `0 .. i-1`. */
  function FirstFault(X: Grid<Cell>, cats: seq<int>, i: nat): (f: Option<Error>)
    requires Wf(X) && i <= X.width
    ensures f.None? <==> Encodable(X, cats, i)
    ensures f.Some? ==> exists j :: 0 <= j < i && Encodable(X, cats, j) && ColumnFault(X, cats, j) == f
  {
    if i == 0 then None
    else
      var f := FirstFault(X, cats, i - 1);
      if f.Some? then f else ColumnFault(X, cats, i - 1)
  }

  /** How many output columns input column `i` becomes. */
  function BlockWidth(X: Grid<Cell>, cats: seq<int>, dropFirst: bool, i: nat): nat
    requires Wf(X) && i < X.width
  {
    if i in cats then |Categories(Column(X, i), dropFirst)| else 1
  }

  /** Where the block of input column `i` starts: the widths of the blocks to its left. */
  function Offset(X: Grid<Cell>, cats: seq<int>, dropFirst: bool, i: nat): nat
    requires Wf(X) && i <= X.width
  {
    if i == 0 then 0 else Offset(X, cats, dropFirst, i - 1) + BlockWidth(X, cats, dropFirst, i - 1)
  }

  lemma {:induction false} OffsetMonotone(X: Grid<Cell>, cats: seq<int>, dropFirst: bool, i: nat, j: nat)
    requires Wf(X) && i <= j <= X.width
    ensures Offset(X, cats, dropFirst, i) <= Offset(X, cats, dropFirst, j)
    decreases j
  {
    if i < j {
      OffsetMonotone(X, cats, dropFirst, i, j - 1);
    }
  }

  /** `(col == category).astype(float)`: 1.0 in the rows holding `category`,
      0.0 in all others. */
  function Indicator(col: seq<Cell>, category: Cell): (v: seq<real>)
    ensures |v| == |col|
    ensures forall r :: 0 <= r < |col| ==> (v[r] == 1.0 <==> col[r] == category)
    ensures forall r :: 0 <= r < |col| ==> (v[r] == 0.0 <==> col[r] != category)
  {
    seq(|col|, r requires 0 <= r < |col| => if col[r] == category then 1.0 else 0.0)
  }

  /** `col.astype(float)` on a column of numbers: each row keeps its value. */
  function Numbers(col: seq<Cell>): (v: seq<real>)
    requires AllNumbers(col)
    ensures |v| == |col|
    ensures forall r :: 0 <= r < |col| ==> v[r] == col[r].value
  {
    seq(|col|, r requires 0 <= r < |col| => col[r].value)
  }

  /** The output columns that input column `i` becomes. */
  function Block(X: Grid<Cell>, cats: seq<int>, dropFirst: bool, i: nat): (b: seq<seq<real>>)
    requires Wf(X) && i < X.width && ColumnFault(X, cats, i).None?
    ensures |b| == BlockWidth(X, cats, dropFirst, i)
    ensures forall k :: 0 <= k < |b| ==> |b[k]| == |X.rows|
  {
    var col := Column(X, i);
    if i in cats then
      var ks := Categories(col, dropFirst);
      seq(|ks|, k requires 0 <= k < |ks| => Indicator(col, ks[k]))
    else
      [Numbers(col)]
  }

  /** The output columns produced by input columns `0 .. i-1`, left to right. */
  function Expand(X: Grid<Cell>, cats: seq<int>, dropFirst: bool, i: nat): (e: seq<seq<real>>)
    requires Wf(X) && i <= X.width && Encodable(X, cats, i)
    ensures |e| == Offset(X, cats, dropFirst, i)
    ensures forall k :: 0 <= k < |e| ==> |e[k]| == |X.rows|
  {
    if i == 0 then []
    else Expand(X, cats, dropFirst, i - 1) + Block(X, cats, dropFirst, i - 1)
  }

  /** Later columns never disturb an earlier block: output column
      `Offset(i) + k` is the `k`-th column of input column `i`'s block. */
  lemma {:induction false} ExpandHoldsBlock(X: Grid<Cell>, cats: seq<int>, dropFirst: bool, i: nat, j: nat, k: nat)
    requires Wf(X) && i < j <= X.width && Encodable(X, cats, j)
    requires k < BlockWidth(X, cats, dropFirst, i)
    ensures Offset(X, cats, dropFirst, i) + k < |Expand(X, cats, dropFirst, j)|
    ensures Expand(X, cats, dropFirst, j)[Offset(X, cats, dropFirst, i) + k] == Block(X, cats, dropFirst, i)[k]
    decreases j
  {
    if j > i + 1 {
      ExpandHoldsBlock(X, cats, dropFirst, i, j - 1, k);
    }
  }

  /** `np.column_stack(cols)`: column `k` of the result is `cols[k]`. */
  function Stack(cols: seq<seq<real>>, n: nat): (g: Grid<real>)
    requires forall k :: 0 <= k < |cols| ==> |cols[k]| == n
    ensures Wf(g) && |g.rows| == n && g.width == |cols|
    ensures forall r, k :: 0 <= r < n && 0 <= k < |cols| ==> g.rows[r][k] == cols[k][r]
  {
    Grid(seq(n, r requires 0 <= r < n => seq(|cols|, k requires 0 <= k < |cols| => cols[k][r])), |cols|)
  }

  /** `one_hot_encode(X, categorical_indices, drop_first)`. It fails with the
      exception of the leftmost column that cannot be encoded, or when no
      output column is produced at all; otherwise it has one row per input
      row and one column per block entry. */
  function OneHotEncode(X: Grid<Cell>, cats: seq<int>, dropFirst: bool): (r: Result<Grid<real>>)
    requires Wf(X)
    ensures r.Ok? <==> Encodable(X, cats, X.width) && Offset(X, cats, dropFirst, X.width) > 0
    ensures r.Err? && !Encodable(X, cats, X.width) ==>
      exists j :: 0 <= j < X.width && Encodable(X, cats, j) && ColumnFault(X, cats, j) == Some(r.error)
    ensures r.Err? && Encodable(X, cats, X.width) ==> r.error == NothingToStack
    ensures r.Ok? ==> Wf(r.value) && |r.value.rows| == |X.rows| && r.value.width == Offset(X, cats, dropFirst, X.width)
  {
    match FirstFault(X, cats, X.width)
    case Some(e) => Err(e)
    case None =>
      var cols := Expand(X, cats, dropFirst, X.width);
      if |cols| == 0 then Err(NothingToStack) else Ok(Stack(cols, |X.rows|))
  }

  // ---------------------------------------------------------------------------
  // What the encoded matrix contains
  // ---------------------------------------------------------------------------

  /** The block of input column `i` sits at `Offset(i)`. A plain column is
      copied as its numeric values; a categorical one holds, for its `k`-th
      label, 1.0 exactly in the rows carrying that label and 0.0 elsewhere. */
  lemma OneHotBlock(X: Grid<Cell>, cats: seq<int>, dropFirst: bool, i: nat, row: nat)
    requires Wf(X) && OneHotEncode(X, cats, dropFirst).Ok?
    requires i < X.width && row < |X.rows|
    ensures var M := OneHotEncode(X, cats, dropFirst).value;
            var ks := Categories(Column(X, i), dropFirst);
            var at := Offset(X, cats, dropFirst, i);
            if i in cats then
              at + |ks| <= M.width &&
              forall k :: 0 <= k < |ks| ==>
                M.rows[row][at + k] == (if X.rows[row][i] == ks[k] then 1.0 else 0.0)
            else
              at < M.width && X.rows[row][i].Num? && M.rows[row][at] == X.rows[row][i].value
  {
    OneHotIsStack(X, cats, dropFirst);
    if i in cats {
      IndicatorBlockEntries(X, cats, dropFirst, i, row);
    } else {
      PlainColumnEntry(X, cats, dropFirst, i, row);
    }
  }

  lemma IndicatorBlockEntries(X: Grid<Cell>, cats: seq<int>, dropFirst: bool, i: nat, row: nat)
    requires Wf(X) && i < X.width && row < |X.rows| && Encodable(X, cats, X.width) && i in cats
    ensures var M := Stack(Expand(X, cats, dropFirst, X.width), |X.rows|);
            var ks := Categories(Column(X, i), dropFirst);
            var at := Offset(X, cats, dropFirst, i);
            at + |ks| <= M.width &&
            forall k :: 0 <= k < |ks| ==> M.rows[row][at + k] == (if X.rows[row][i] == ks[k] then 1.0 else 0.0)
  {
    OffsetMonotone(X, cats, dropFirst, i + 1, X.width);
    forall k | 0 <= k < |Categories(Column(X, i), dropFirst)|
      ensures Stack(Expand(X, cats, dropFirst, X.width), |X.rows|).rows[row][Offset(X, cats, dropFirst, i) + k]
              == (if X.rows[row][i] == Categories(Column(X, i), dropFirst)[k] then 1.0 else 0.0)
    {
      IndicatorEntry(X, cats, dropFirst, i, row, k);
    }
  }

  /** One entry of a categorical block in the stacked matrix. */
  lemma IndicatorEntry(X: Grid<Cell>, cats: seq<int>, dropFirst: bool, i: nat, row: nat, k: nat)
    requires Wf(X) && i < X.width && row < |X.rows| && Encodable(X, cats, X.width) && i in cats
    requires k < |Categories(Column(X, i), dropFirst)|
    ensures var M := Stack(Expand(X, cats, dropFirst, X.width), |X.rows|);
            var at := Offset(X, cats, dropFirst, i);
            at + k < M.width &&
            M.rows[row][at + k] == (if X.rows[row][i] == Categories(Column(X, i), dropFirst)[k] then 1.0 else 0.0)
  {
    var col := Column(X, i);
    assert col[row] == X.rows[row][i];
    assert ColumnFault(X, cats, i).None?;
    StackHoldsBlock(X, cats, dropFirst, i, row, k);
    assert Block(X, cats, dropFirst, i)[k] == Indicator(col, Categories(col, dropFirst)[k]);
  }

  lemma PlainColumnEntry(X: Grid<Cell>, cats: seq<int>, dropFirst: bool, i: nat, row: nat)
    requires Wf(X) && i < X.width && row < |X.rows| && Encodable(X, cats, X.width) && i !in cats
    ensures var M := Stack(Expand(X, cats, dropFirst, X.width), |X.rows|);
            var at := Offset(X, cats, dropFirst, i);
            at < M.width && X.rows[row][i].Num? && M.rows[row][at] == X.rows[row][i].value
  {
    var col := Column(X, i);
    assert col[row] == X.rows[row][i];
    assert ColumnFault(X, cats, i).None?;
    StackHoldsBlock(X, cats, dropFirst, i, row, 0);
    assert Block(X, cats, dropFirst, i)[0] == Numbers(col);
  }

  /** On success the encoding is the column stack of the expanded blocks. */
  lemma OneHotIsStack(X: Grid<Cell>, cats: seq<int>, dropFirst: bool)
    requires Wf(X) && OneHotEncode(X, cats, dropFirst).Ok?
    ensures Encodable(X, cats, X.width)
    ensures OneHotEncode(X, cats, dropFirst) == Ok(Stack(Expand(X, cats, dropFirst, X.width), |X.rows|))
  {
  }

  /** Output column `Offset(i) + k` of the stacked matrix is the `k`-th
      column of input column `i`'s block. */
  lemma StackHoldsBlock(X: Grid<Cell>, cats: seq<int>, dropFirst: bool, i: nat, row: nat, k: nat)
    requires Wf(X) && i < X.width && row < |X.rows| && Encodable(X, cats, X.width)
    requires k < BlockWidth(X, cats, dropFirst, i)
    ensures var M := Stack(Expand(X, cats, dropFirst, X.width), |X.rows|);
            var at := Offset(X, cats, dropFirst, i);
            at + k < M.width && M.rows[row][at + k] == Block(X, cats, dropFirst, i)[k][row]
  {
    ExpandHoldsBlock(X, cats, dropFirst, i, X.width, k);
  }

  /** The labels of a block are the column's distinct values in strictly
      increasing order; dropping the first removes the smallest one. */
  lemma CategoriesSortedDistinct(col: seq<Cell>, dropFirst: bool)
    ensures Increasing(Categories(col, dropFirst))
    ensures !dropFirst ==> forall c :: c in Categories(col, dropFirst) <==> c in col
    ensures dropFirst && |col| > 0 ==>
      |Unique(col)| > 0 && Categories(col, dropFirst) == Unique(col)[1..] &&
      forall c :: c in col ==> c == Unique(col)[0] || Below(Unique(col)[0], c)
    ensures dropFirst ==> forall c :: c in Categories(col, dropFirst) <==> c in col && c != Unique(col)[0]
  {
    var u := Unique(col);
    if |u| > 0 {
      forall c | c in col
        ensures c == u[0] || Below(u[0], c)
      {
        var i :| 0 <= i < |u| && u[i] == c;
      }
      forall c
        ensures c in u[1..] <==> c in u && c != u[0]
      {
        TailMembership(u, c);
      }
    }
  }

  /** Distinct positions of a strictly increasing sequence hold distinct labels. */
  lemma IncreasingDistinct(ks: seq<Cell>, k1: nat, k2: nat)
    requires Increasing(ks) && k1 < |ks| && k2 < |ks| && ks[k1] == ks[k2]
    ensures k1 == k2
  {
    if k1 < k2 {
      BelowAsymmetric(ks[k1], ks[k2]);
    } else if k2 < k1 {
      BelowAsymmetric(ks[k2], ks[k1]);
    }
  }

  /** No entry of `blk` is set. */
  predicate AllZero(blk: seq<real>) {
    forall k :: 0 <= k < |blk| ==> blk[k] == 0.0
  }

  /** Some entry of `blk` is set. */
  predicate SomeHot(blk: seq<real>) {
    exists k :: 0 <= k < |blk| && blk[k] == 1.0
  }

  /** At most one entry of `blk` is set. */
  predicate AtMostOneHot(blk: seq<real>) {
    forall k1, k2 :: 0 <= k1 < |blk| && 0 <= k2 < |blk| && blk[k1] == 1.0 && blk[k2] == 1.0 ==> k1 == k2
  }

  /** One row of an indicator block over strictly increasing labels: at most
      one entry is set, and one is set exactly when the row's value is among
      the labels. */
  lemma IndicatorRow(blk: seq<real>, ks: seq<Cell>, v: Cell)
    requires |blk| == |ks| && Increasing(ks)
    requires forall k :: 0 <= k < |ks| ==> blk[k] == (if v == ks[k] then 1.0 else 0.0)
    ensures AtMostOneHot(blk)
    ensures SomeHot(blk) <==> v in ks
    ensures AllZero(blk) <==> v !in ks
  {
    forall k1, k2 | 0 <= k1 < |blk| && 0 <= k2 < |blk| && blk[k1] == 1.0 && blk[k2] == 1.0
      ensures k1 == k2
    {
      IncreasingDistinct(ks, k1, k2);
    }
    if v in ks {
      var k :| 0 <= k < |ks| && ks[k] == v;
      assert blk[k] == 1.0;
    }
  }

  /** The slice of an encoded row that holds a categorical block. */
  lemma {:induction false} IndicatorSlice(M: Grid<real>, row: nat, at: nat, ks: seq<Cell>, v: Cell)
    requires row < |M.rows| && at + |ks| <= |M.rows[row]| && Increasing(ks)
    requires forall k :: 0 <= k < |ks| ==> M.rows[row][at + k] == (if v == ks[k] then 1.0 else 0.0)
    ensures AtMostOneHot(M.rows[row][at .. at + |ks|])
    ensures SomeHot(M.rows[row][at .. at + |ks|]) <==> v in ks
    ensures AllZero(M.rows[row][at .. at + |ks|]) <==> v !in ks
  {
    var blk := M.rows[row][at .. at + |ks|];
    forall k | 0 <= k < |ks|
      ensures blk[k] == (if v == ks[k] then 1.0 else 0.0)
    {
      assert blk[k] == M.rows[row][at + k];
    }
    IndicatorRow(blk, ks, v);
  }

  /** A row of a categorical block of the encoding, summarised: at most one
      entry is set, and one is set exactly when the row's value is a label. */
  lemma CategoricalRow(X: Grid<Cell>, cats: seq<int>, dropFirst: bool, i: nat, row: nat)
    requires Wf(X) && OneHotEncode(X, cats, dropFirst).Ok?
    requires i < X.width && i in cats && row < |X.rows|
    ensures var M := OneHotEncode(X, cats, dropFirst).value;
            var ks := Categories(Column(X, i), dropFirst);
            var at := Offset(X, cats, dropFirst, i);
            var v := X.rows[row][i];
            at + |ks| <= |M.rows[row]| &&
            AtMostOneHot(M.rows[row][at .. at + |ks|]) &&
            (SomeHot(M.rows[row][at .. at + |ks|]) <==> v in ks) &&
            (AllZero(M.rows[row][at .. at + |ks|]) <==> v !in ks)
  {
    OneHotIsStack(X, cats, dropFirst);
    StackCategoricalRow(X, cats, dropFirst, i, row);
  }

  /** The same summary for the stacked blocks. */
  lemma StackCategoricalRow(X: Grid<Cell>, cats: seq<int>, dropFirst: bool, i: nat, row: nat)
    requires Wf(X) && i < X.width && row < |X.rows| && Encodable(X, cats, X.width) && i in cats
    ensures var M := Stack(Expand(X, cats, dropFirst, X.width), |X.rows|);
            var ks := Categories(Column(X, i), dropFirst);
            var at := Offset(X, cats, dropFirst, i);
            var v := X.rows[row][i];
            at + |ks| <= |M.rows[row]| &&
            AtMostOneHot(M.rows[row][at .. at + |ks|]) &&
            (SomeHot(M.rows[row][at .. at + |ks|]) <==> v in ks) &&
            (AllZero(M.rows[row][at .. at + |ks|]) <==> v !in ks)
  {
    var col := Column(X, i);
    IndicatorBlockEntries(X, cats, dropFirst, i, row);
    CategoriesSortedDistinct(col, dropFirst);
    IndicatorSlice(Stack(Expand(X, cats, dropFirst, X.width), |X.rows|), row,
      Offset(X, cats, dropFirst, i), Categories(col, dropFirst), X.rows[row][i]);
  }

  /** Without `dropFirst`, every row of a categorical block holds exactly one 1.0. */
  lemma OneHotExactlyOne(X: Grid<Cell>, cats: seq<int>, i: nat, row: nat)
    requires Wf(X) && OneHotEncode(X, cats, false).Ok?
    requires i < X.width && i in cats && row < |X.rows|
    ensures var M := OneHotEncode(X, cats, false).value;
            var ks := Categories(Column(X, i), false);
            var at := Offset(X, cats, false, i);
            at + |ks| <= |M.rows[row]| &&
            SomeHot(M.rows[row][at .. at + |ks|]) && AtMostOneHot(M.rows[row][at .. at + |ks|])
  {
    CategoricalRow(X, cats, false, i, row);
    ColumnHoldsEntry(X, i, row);
    KeptLabel(Column(X, i), X.rows[row][i]);
  }

  /** With `dropFirst`, a row holds at most one 1.0 in a categorical block, and
      holds none exactly when its value is the dropped (smallest) label. */
  lemma OneHotDropFirstAtMostOne(X: Grid<Cell>, cats: seq<int>, i: nat, row: nat)
    requires Wf(X) && OneHotEncode(X, cats, true).Ok?
    requires i < X.width && i in cats && row < |X.rows|
    ensures var M := OneHotEncode(X, cats, true).value;
            var ks := Categories(Column(X, i), true);
            var at := Offset(X, cats, true, i);
            at + |ks| <= |M.rows[row]| && |Unique(Column(X, i))| > 0 &&
            AtMostOneHot(M.rows[row][at .. at + |ks|]) &&
            (AllZero(M.rows[row][at .. at + |ks|]) <==> X.rows[row][i] == Unique(Column(X, i))[0])
  {
    CategoricalRow(X, cats, true, i, row);
    ColumnHoldsEntry(X, i, row);
    DroppedLabel(Column(X, i), X.rows[row][i]);
  }

  /** Every entry of a column is among the column's values. */
  lemma ColumnHoldsEntry(X: Grid<Cell>, i: nat, row: nat)
    requires Wf(X) && i < X.width && row < |X.rows|
    ensures X.rows[row][i] in Column(X, i)
  {
    assert Column(X, i)[row] == X.rows[row][i];
  }

  /** Without `dropFirst` every value of the column is a label. */
  lemma KeptLabel(col: seq<Cell>, v: Cell)
    requires v in col
    ensures v in Categories(col, false)
  {
    CategoriesSortedDistinct(col, false);
  }

  /** Under `dropFirst` a value of the column is missing from the labels
      exactly when it is the smallest one. */
  lemma DroppedLabel(col: seq<Cell>, v: Cell)
    requires v in col
    ensures |Unique(col)| > 0 && (v !in Categories(col, true) <==> v == Unique(col)[0])
  {
    CategoriesSortedDistinct(col, true);
  }

  /** The worked case: the column ["a", "b", "a"] becomes the indicator
      columns [1, 0, 1] for "a" and [0, 1, 0] for "b". */
  lemma OneHotLabelsExample()
    ensures var X := Grid([[Text("a")], [Text("b")], [Text("a")]], 1);
            OneHotEncode(X, [0], false) == Ok(Grid([[1.0, 0.0], [0.0, 1.0], [1.0, 0.0]], 2))
  {
    var a, b := Text("a"), Text("b");
    var X := Grid([[a], [b], [a]], 1);
    var col := LabelsColumn(X);
    assert Categories(col, false) == [a, b];
    assert Indicator(col, a) == [1.0, 0.0, 1.0];
    assert Indicator(col, b) == [0.0, 1.0, 0.0];
    assert Block(X, [0], false, 0) == [[1.0, 0.0, 1.0], [0.0, 1.0, 0.0]];
    assert Expand(X, [0], false, 1) == [[1.0, 0.0, 1.0], [0.0, 1.0, 0.0]];
    var S := Stack([[1.0, 0.0, 1.0], [0.0, 1.0, 0.0]], 3);
    assert S.rows[0] == [1.0, 0.0] && S.rows[1] == [0.0, 1.0] && S.rows[2] == [1.0, 0.0];
    assert S.rows == [[1.0, 0.0], [0.0, 1.0], [1.0, 0.0]];
  }

  /** The same column with `dropFirst`: only the "b" column remains. */
  lemma OneHotLabelsDropFirstExample()
    ensures var X := Grid([[Text("a")], [Text("b")], [Text("a")]], 1);
            OneHotEncode(X, [0], true) == Ok(Grid([[0.0], [1.0], [0.0]], 1))
  {
    var a, b := Text("a"), Text("b");
    var X := Grid([[a], [b], [a]], 1);
    var col := LabelsColumn(X);
    assert Categories(col, true) == [b];
    assert Indicator(col, b) == [0.0, 1.0, 0.0];
    assert Block(X, [0], true, 0) == [[0.0, 1.0, 0.0]];
    assert Expand(X, [0], true, 1) == [[0.0, 1.0, 0.0]];
    var T := Stack([[0.0, 1.0, 0.0]], 3);
    assert T.rows[0] == [0.0] && T.rows[1] == [1.0] && T.rows[2] == [0.0];
    assert T.rows == [[0.0], [1.0], [0.0]];
  }

  /** The column of the worked case, its sorted labels, and that it encodes. */
  lemma LabelsColumn(X: Grid<Cell>) returns (col: seq<Cell>)
    requires X == Grid([[Text("a")], [Text("b")], [Text("a")]], 1)
    ensures col == Column(X, 0) == [Text("a"), Text("b"), Text("a")]
    ensures Unique(col) == [Text("a"), Text("b")]
    ensures ColumnFault(X, [0], 0) == None && FirstFault(X, [0], 1) == None
  {
    var a, b := Text("a"), Text("b");
    col := Column(X, 0);
    assert col == [a, b, a];
    assert col[1..] == [b, a] && col[2..] == [a];
    assert TextBelow("a", "b") && !TextBelow("b", "a");
    assert Unique([a]) == [a];
    assert Unique([b, a]) == Insert([a], b) == [a, b];
  }
}
