/** The two-phase reduction of the mesh test over the tiles that the collective masks select, and
    the values its spins wait for, on a mesh of 2^w by 2^h tiles. */
module MeshTest {
  import Arith
  import CM = CollectiveMask
  import opened Digits
  import opened MeshReduce

  predicate Distinct(s: seq<nat>) {
    forall i, j :: 0 <= i < j < |s| ==> s[i] != s[j]
  }

  /** Of the tiles that send, the first `senders`, those that the mask reaches from tile `to`. */
  ghost predicate IsGroup(n: nat, geometry: CM.Geometry, to: nat, senders: nat, tiles: seq<nat>)
    requires n <= CM.MAX_LOG
  {
    && Distinct(tiles)
    && forall i: nat :: i in tiles <==> i < senders && CM.Gets(n, geometry, to, i)
  }

  predicate Below(tiles: seq<nat>, n: nat) {
    forall j :: 0 <= j < |tiles| ==> tiles[j] < n
  }

  function ValuesOf<T>(data: seq<T>, tiles: seq<nat>): (s: seq<T>)
    requires Below(tiles, |data|)
    ensures |s| == |tiles|
  {
    seq(|tiles|, j requires 0 <= j < |tiles| => data[tiles[j]])
  }

  /** The network merges one value from each tile of the group, in any order. */
  ghost predicate Merges<T>(n: nat, geometry: CM.Geometry, to: nat, data: seq<T>, m: Merge<T>)
    requires n <= CM.MAX_LOG
  {
    exists tiles: seq<nat> ::
      IsGroup(n, geometry, to, |data|, tiles) && Below(tiles, |data|) && Values(m) == ValuesOf(data, tiles)
  }

  // ---------------------------------------------------------------- one list of the tiles is as good as another

  lemma {:induction false} DistinctCount(s: seq<nat>, i: nat)
    requires Distinct(s)
    ensures multiset(s)[i] == if i in s then 1 else 0
  {
    if s != [] {
      var n := |s| - 1;
      assert s == s[..n] + [s[n]];
      DistinctCount(s[..n], i);
    }
  }

  lemma {:induction false} SameTiles(s: seq<nat>, t: seq<nat>)
    requires Distinct(s) && Distinct(t) && forall i: nat :: i in s <==> i in t
    ensures multiset(s) == multiset(t)
  {
    forall i: nat ensures multiset(s)[i] == multiset(t)[i] {
      DistinctCount(s, i);
      DistinctCount(t, i);
    }
  }

  lemma {:induction false} WithoutOne<T>(data: seq<T>, t: seq<nat>, i: nat, rest: seq<nat>)
    requires Below(t, |data|) && i < |t| && rest == t[..i] + t[i + 1..]
    ensures Below(rest, |data|)
    ensures multiset(ValuesOf(data, t)) == multiset(ValuesOf(data, rest)) + multiset{data[t[i]]}
  {
    var u := ValuesOf(data, t);
    assert ValuesOf(data, rest) == u[..i] + u[i + 1..];
    assert u == u[..i] + [u[i]] + u[i + 1..];
  }

  lemma {:induction false} SameValues<T>(data: seq<T>, s: seq<nat>, t: seq<nat>)
    requires Below(s, |data|) && multiset(s) == multiset(t)
    ensures Below(t, |data|)
    ensures multiset(ValuesOf(data, s)) == multiset(ValuesOf(data, t))
    decreases |s|
  {
    forall j | 0 <= j < |t| ensures t[j] < |data| {
      assert t[j] in multiset(s);
    }
    if s == [] {
      assert |multiset(t)| == 0;
    } else {
      var i := FindLast(s, t);
      var n := |s| - 1;
      var rest := t[..i] + t[i + 1..];
      SameValues(data, s[..n], rest);
      assert ValuesOf(data, s) == ValuesOf(data, s[..n]) + [data[s[n]]];
      WithoutOne(data, t, i, rest);
    }
  }

  // ---------------------------------------------------------------- columns and the top row

  function ColumnTiles(width: nat, height: nat, x: nat): (tiles: seq<nat>)
    ensures |tiles| == height
  {
    seq(height, y requires 0 <= y < height => y * width + x)
  }

  lemma {:induction false} InColumnTiles(width: nat, height: nat, x: nat, i: nat)
    requires x < width
    ensures i in ColumnTiles(width, height, x) <==> i < height * width && i % width == x
  {
    var tiles := ColumnTiles(width, height, x);
    if i in tiles {
      var y :| 0 <= y < height && tiles[y] == i;
      PlaceBelow(width, height, x, y);
    }
    if i < height * width && i % width == x {
      RowBelow(width, height, i);
      assert tiles[i / width] == i;
    }
  }

  lemma PlaceBelow(width: nat, height: nat, x: nat, y: nat)
    requires x < width && y < height
    ensures y * width + x < height * width && (y * width + x) % width == x
  {
    Arith.DivModUnique(y * width + x, width, y, x);
    Arith.MulMonotone(y + 1, height, width);
  }

  lemma RowBelow(width: nat, height: nat, i: nat)
    requires width > 0 && i < height * width
    ensures 0 <= i / width < height && i / width * width + i % width == i
  {
    Arith.DivBound(i, width, height);
  }

  lemma {:induction false} ColumnTilesDistinct(width: nat, height: nat, x: nat)
    requires x < width
    ensures Distinct(ColumnTiles(width, height, x))
  {
    var tiles := ColumnTiles(width, height, x);
    forall y, z | 0 <= y < z < |tiles| ensures tiles[y] != tiles[z] {
      RowsApart(width, x, y, z);
    }
  }

  lemma RowsApart(width: nat, x: nat, y: nat, z: nat)
    requires x < width && y < z
    ensures y * width + x < z * width + x
  {
    Arith.MulMonotone(y + 1, z, width);
  }

  /** If the column mask reaches whole columns, a column phase merges the values of a column. */
  lemma {:induction false} ColumnMerged<T>(w: nat, h: nat, x: nat, data: seq<T>, m: Merge<T>)
    requires w + h <= CM.MAX_LOG && CM.ColumnsRight(w, h)
    requires x < Pow(2, w) && |data| == Pow(2, w + h) && Merges(w + h, CM.Column, x, data, m)
    ensures |data| == Pow(2, h) * Pow(2, w)
    ensures multiset(Values(m)) == multiset(Column(data, Pow(2, w), Pow(2, h), x))
  {
    var n, width, height := w + h, Pow(2, w), Pow(2, h);
    PowAdd(2, h, w);
    var tiles :|
      IsGroup(n, CM.Column, x, |data|, tiles) && Below(tiles, |data|) && Values(m) == ValuesOf(data, tiles);
    var column := ColumnTiles(width, height, x);
    XBelow(x, w, h);
    forall i: nat ensures i in tiles <==> i in column {
      InColumnTiles(width, height, x, i);
      if i < |data| {
        assert CM.InColumn(w, n, x, i);
      }
    }
    ColumnTilesDistinct(width, height, x);
    SameTiles(tiles, column);
    SameValues(data, tiles, column);
    assert ValuesOf(data, column) == Column(data, width, height, x);
  }

  lemma {:induction false} XBelow(x: nat, w: nat, h: nat)
    requires x < Pow(2, w)
    ensures x < Pow(2, w + h) && x % Pow(2, w) == x && x / Pow(2, w) == 0
  {
    if h > 0 {
      CM.PowGrows(w, w + h);
    }
    Arith.DivModUnique(x, Pow(2, w), 0, x);
  }

  /** If the row mask reaches whole rows, the row phase merges the values of the top row. */
  lemma {:induction false} RowMerged<T>(w: nat, h: nat, tops: seq<T>, m: Merge<T>)
    requires w + h <= CM.MAX_LOG && CM.RowsRight(w, h)
    requires |tops| == Pow(2, w) && Merges(w + h, CM.Row, 0, tops, m)
    ensures multiset(Values(m)) == multiset(tops)
  {
    var n := w + h;
    var tiles :|
      IsGroup(n, CM.Row, 0, |tops|, tiles) && Below(tiles, |tops|) && Values(m) == ValuesOf(tops, tiles);
    var top := seq(|tops|, x requires 0 <= x < |tops| => x as nat);
    PowPositive(2, w);
    XBelow(0, w, h);
    forall i: nat ensures i in tiles <==> i in top {
      if i < |tops| {
        XBelow(i, w, h);
        assert CM.InRow(w, n, 0, i);
        assert top[i] == i;
      }
    }
    SameTiles(tiles, top);
    SameValues(tops, tiles, top);
    assert ValuesOf(tops, top) == tops;
  }

  function Results<T>(op: Op<T>, columns: seq<Merge<T>>): (s: seq<T>)
    ensures |s| == |columns|
  {
    seq(|columns|, x requires 0 <= x < |columns| => Result(op, columns[x]))
  }

  /** Every column is merged at its top tile, and the results of that along the top row. */
  ghost predicate TwoPhaseRun<T>(op: Op<T>, w: nat, h: nat, data: seq<T>, columns: seq<Merge<T>>, row: Merge<T>)
    requires w + h <= CM.MAX_LOG
  {
    && |data| == Pow(2, w + h)
    && |columns| == Pow(2, w)
    && (forall x :: 0 <= x < |columns| ==> Merges(w + h, CM.Column, x, data, columns[x]))
    && Merges(w + h, CM.Row, 0, Results(op, columns), row)
  }

  /** On every square mesh tile 0 receives the fold over all tiles, with the tiles of each phase
      being those that its mask selects. */
  lemma {:induction false} SquareMeshReduces<T(!new)>(op: Op<T>, w: nat, data: seq<T>, columns: seq<Merge<T>>,
                                                     row: Merge<T>)
    requires Associative(op) && Commutative(op)
    requires w + w <= CM.MAX_LOG && TwoPhaseRun(op, w, w, data, columns, row)
    ensures data != [] && Result(op, row) == Fold(op, data)
  {
    var side := Pow(2, w);
    CM.ColumnsRightIff(w, w);
    CM.RowsRightIff(w, w);
    PowAdd(2, w, w);
    PowPositive(2, w);
    forall x | 0 <= x < side ensures multiset(Values(columns[x])) == multiset(Column(data, side, side, x)) {
      ColumnMerged(w, w, x, data, columns[x]);
    }
    RowMerged(w, w, Results(op, columns), row);
    assert Results(op, columns) == seq(side, x requires 0 <= x < side => Result(op, columns[x]));
    TwoPhases(op, data, side, side, columns, row);
  }

  // ---------------------------------------------------------------- what the spins wait for

  lemma {:induction false} UniformColumn(u: Word, w: nat, h: nat, x: nat, data: seq<Word>, m: Merge<Word>)
    requires w + h <= CM.MAX_LOG && CM.ColumnsRight(w, h) && Uniform(data, u)
    requires x < Pow(2, w) && |data| == Pow(2, w + h) && Merges(w + h, CM.Column, x, data, m)
    ensures ColumnOf(u, Pow(2, h), m)
  {
    ColumnMerged(w, h, x, data, m);
    ColumnUniform(u, Pow(2, w), Pow(2, h), x, data);
    UniformMultiset(Column(data, Pow(2, w), Pow(2, h), x), Values(m), u);
  }

  lemma {:induction false} ColumnUniform(u: Word, width: nat, height: nat, x: nat, data: seq<Word>)
    requires |data| == height * width && x < width && Uniform(data, u)
    ensures Uniform(Column(data, width, height, x), u)
  {
    forall y | 0 <= y < height ensures At(data, width, height, x, y) == u {
      PlaceBelow(width, height, x, y);
    }
  }

  lemma {:induction false} UniformMultiset(s: seq<Word>, t: seq<Word>, u: Word)
    requires Uniform(s, u) && multiset(s) == multiset(t)
    ensures |s| == |t| && Uniform(t, u)
  {
    assert |s| == |multiset(s)| == |multiset(t)| == |t|;
    forall i | 0 <= i < |t| ensures t[i] == u {
      assert t[i] in multiset(s);
    }
  }

  lemma {:induction false} UniformRow(u: Word, w: nat, tops: seq<Word>, m: Merge<Word>)
    requires w + w <= CM.MAX_LOG && Uniform(tops, u)
    requires |tops| == Pow(2, w) && Merges(w + w, CM.Row, 0, tops, m)
    ensures ColumnOf(u, Pow(2, w), m)
  {
    CM.RowsRightIff(w, w);
    RowMerged(w, w, tops, m);
    UniformMultiset(tops, Values(m), u);
  }

  /** On a square mesh with equal values every spin of the sum test ends, with the value times
      the number of tiles at tile 0. */
  lemma {:induction false} SumTestEnds(u: Word, w: nat, data: seq<Word>, columns: seq<Merge<Word>>, row: Merge<Word>)
    requires w + w <= CM.MAX_LOG && Uniform(data, u) && TwoPhaseRun(INT_ADD, w, w, data, columns, row)
    ensures forall x :: 0 <= x < |columns| ==> Result(INT_ADD, columns[x]) == ExpectedSum(u, Pow(2, w))
    ensures Result(INT_ADD, row) == ExpectedSum(ExpectedSum(u, Pow(2, w)), Pow(2, w)) == ExpectedSum(u, |data|)
  {
    CM.ColumnsRightIff(w, w);
    var tops, s := Results(INT_ADD, columns), ExpectedSum(u, Pow(2, w));
    forall x | 0 <= x < |columns| ensures Result(INT_ADD, columns[x]) == tops[x] == s {
      UniformColumn(u, w, w, x, data, columns[x]);
      MergedSum(u, Pow(2, w), columns[x]);
    }
    UniformRow(s, w, tops, row);
    PowPositive(2, w);
    UniformColumn(u, w, w, 0, data, columns[0]);
    SumPhases(u, Pow(2, w), Pow(2, w), columns[0], row);
    PowAdd(2, w, w);
  }

  /** The same for the product test. */
  lemma {:induction false} ProductTestEnds(u: Word, w: nat, data: seq<Word>, columns: seq<Merge<Word>>, row: Merge<Word>)
    requires w + w <= CM.MAX_LOG && Uniform(data, u) && TwoPhaseRun(INT_MUL, w, w, data, columns, row)
    ensures forall x :: 0 <= x < |columns| ==> Result(INT_MUL, columns[x]) == ExpectedPower(u, Pow(2, w))
    ensures Result(INT_MUL, row) == ExpectedPower(ExpectedPower(u, Pow(2, w)), Pow(2, w)) == ExpectedPower(u, |data|)
  {
    CM.ColumnsRightIff(w, w);
    var tops, s := Results(INT_MUL, columns), ExpectedPower(u, Pow(2, w));
    forall x | 0 <= x < |columns| ensures Result(INT_MUL, columns[x]) == tops[x] == s {
      UniformColumn(u, w, w, x, data, columns[x]);
      MergedProduct(u, Pow(2, w), columns[x]);
    }
    UniformRow(s, w, tops, row);
    PowPositive(2, w);
    UniformColumn(u, w, w, 0, data, columns[0]);
    ProductPhases(u, Pow(2, w), Pow(2, w), columns[0], row);
    PowAdd(2, w, w);
  }

  lemma {:induction false} SidesMeetIff(w: nat, h: nat)
    ensures Pow(2, w) == Pow(2, h) <==> w == h
  {
    if w < h {
      CM.PowGrows(w, h);
    } else if h < w {
      CM.PowGrows(h, w);
    }
  }

  lemma {:induction false} SideInMesh(w: nat, n: nat)
    requires w <= n <= CM.MAX_LOG
    ensures Pow(2, w) <= MAX_TILES
  {
    CM.PowerTable(w);
  }

  /** With the value of the test, a column phase merges a whole column and leaves what its spin
      waits for exactly on square meshes. Where the mask reaches whole columns of a mesh that is
      not square, the spin never ends. */
  lemma {:induction false} SumSpinIffSquare(w: nat, h: nat, x: nat, data: seq<Word>, column: Merge<Word>)
    requires w + h <= CM.MAX_LOG && x < Pow(2, w)
    requires |data| == Pow(2, w + h) && Uniform(data, 100) && Merges(w + h, CM.Column, x, data, column)
    ensures CM.ColumnsRight(w, h) && Result(INT_ADD, column) == ExpectedSum(100, Pow(2, w)) <==> w == h
  {
    CM.ColumnsRightIff(w, h);
    SidesMeetIff(w, h);
    if CM.ColumnsRight(w, h) {
      UniformColumn(100, w, h, x, data, column);
      MergedSum(100, Pow(2, h), column);
      SideInMesh(w, w + h);
      SideInMesh(h, w + h);
      SumsMeetIff(Pow(2, h), Pow(2, w));
    }
  }

  /** The same for the product. */
  lemma {:induction false} ProductSpinIffSquare(w: nat, h: nat, x: nat, data: seq<Word>, column: Merge<Word>)
    requires w + h <= CM.MAX_LOG && x < Pow(2, w)
    requires |data| == Pow(2, w + h) && Uniform(data, 2) && Merges(w + h, CM.Column, x, data, column)
    ensures CM.ColumnsRight(w, h) && Result(INT_MUL, column) == ExpectedPower(2, Pow(2, w)) <==> w == h
  {
    CM.ColumnsRightIff(w, h);
    SidesMeetIff(w, h);
    if CM.ColumnsRight(w, h) {
      UniformColumn(2, w, h, x, data, column);
      MergedProduct(2, Pow(2, h), column);
      PowersMeetIff(Pow(2, h), Pow(2, w));
      CM.PowerTable(h);
    }
  }

  /** On a mesh 2 wide and 4 high the spin of tile 0 ends with the values of two of the four
      tiles of its column. */
  lemma {:induction false} NarrowMeshSum(data: seq<Word>, column: Merge<Word>)
    requires |data| == 8 && Merges(3, CM.Column, 0, data, column)
    ensures multiset(Values(column)) == multiset([data[0], data[2]])
    ensures Uniform(data, 100) ==> Result(INT_ADD, column) == ExpectedSum(100, 2)
  {
    var two := [data[0], data[2]];
    NarrowValues(data, column, [0, 2], two);
    TwoMerged(two, column);
  }

  lemma {:induction false} NarrowValues(data: seq<Word>, column: Merge<Word>, tiles: seq<nat>, two: seq<Word>)
    requires |data| == 8 && Merges(3, CM.Column, 0, data, column) && tiles == [0, 2] && two == [data[0], data[2]]
    ensures multiset(Values(column)) == multiset(two)
  {
    var group :|
      IsGroup(3, CM.Column, 0, |data|, group) && Below(group, |data|) && Values(column) == ValuesOf(data, group);
    NarrowTiles(group, tiles);
    SameValues(data, group, tiles);
    assert ValuesOf(data, tiles) == two;
  }

  lemma {:induction false} TwoMerged(two: seq<Word>, column: Merge<Word>)
    requires |two| == 2 && multiset(Values(column)) == multiset(two)
    ensures Uniform(two, 100) ==> Result(INT_ADD, column) == ExpectedSum(100, 2)
  {
    if Uniform(two, 100) {
      UniformMultiset(two, Values(column), 100);
      MergedSum(100, 2, column);
    }
  }

  lemma {:induction false} NarrowTiles(tiles: seq<nat>, two: seq<nat>)
    requires IsGroup(3, CM.Column, 0, 8, tiles) && two == [0, 2]
    ensures multiset(tiles) == multiset(two)
  {
    forall i: nat ensures i in tiles <==> i in two {
      if i < 8 {
        CM.NarrowMesh(i);
      }
    }
    SameTiles(tiles, two);
  }
}
