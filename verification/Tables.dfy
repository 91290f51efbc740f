/** Rows put one behind the other, and where their elements come to stand. */
module Tables {
  function Flat<T>(rows: seq<seq<T>>): seq<T> {
    if rows == [] then [] else Flat(rows[..|rows| - 1]) + rows[|rows| - 1]
  }

  lemma LastOf<T>(x: seq<T>, y: T)
    ensures (x + [y])[|x|] == y && (x + [y])[..|x|] == x
  {
  }

  lemma {:induction false} FlatSum<T>(rows: seq<seq<T>>, more: seq<seq<T>>)
    ensures Flat(rows + more) == Flat(rows) + Flat(more)
    decreases |more|
  {
    var all := rows + more;
    if more == [] {
      assert all == rows;
    } else {
      var k := |more| - 1;
      assert all[..|all| - 1] == rows + more[..k] && all[|all| - 1] == more[k];
      FlatSum(rows, more[..k]);
    }
  }

  /** Row `j` begins where the rows before it end. */
  lemma {:induction false} FlatAt<T>(rows: seq<seq<T>>, j: nat, l: nat)
    requires j < |rows| && l < |rows[j]|
    ensures |Flat(rows[..j])| + l < |Flat(rows)| && Flat(rows)[|Flat(rows[..j])| + l] == rows[j][l]
    decreases |rows|
  {
    var k := |rows| - 1;
    if j < k {
      assert rows[..k][..j] == rows[..j];
      FlatAt(rows[..k], j, l);
    }
  }

  /** All rows have the same length. */
  predicate Even<T>(rows: seq<seq<T>>, width: nat) {
    forall i {:trigger rows[i]} | 0 <= i < |rows| :: |rows[i]| == width
  }

  lemma {:induction false} FlatLength<T>(rows: seq<seq<T>>, width: nat)
    requires Even(rows, width)
    ensures |Flat(rows)| == |rows| * width
    decreases |rows|
  {
    if rows != [] {
      var k := |rows| - 1;
      FlatLength(rows[..k], width);
      assert (k + 1) * width == k * width + width;
    }
  }

  /** Column `l` of row `n` in a table of the width. */
  function Place(n: nat, width: nat, l: nat): nat {
    n * width + l
  }

  lemma PlaceAt<T>(rows: seq<seq<T>>, width: nat, n: nat, l: nat)
    requires Even(rows, width) && n < |rows| && l < width
    ensures Place(n, width, l) < |Flat(rows)| && Flat(rows)[Place(n, width, l)] == rows[n][l]
  {
    FlatAt(rows, n, l);
    FlatLength(rows[..n], width);
  }
}
