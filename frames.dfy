/**
 * A column-oriented table in the manner of a pandas DataFrame: a row count
 * and a map from column name to that column's cells. Boolean-mask indexing
 * (`df[mask]`) keeps, in their original order, the rows whose mask entry is
 * true, across every column.
 */
module Frames {

  /** The text of the KeyError raised for an absent column: its name in single quotes. */
  function KeyErrorText(name: string): (r: string)
    ensures |r| == |name| + 2 && r[0] == '\'' && r[|r| - 1] == '\''
    ensures r[1..|r| - 1] == name
  {
    "'" + name + "'"
  }

  /** One cell of a table: pandas' NaN, a string, or a number. */
  datatype Cell = Missing | Text(s: string) | Number(x: real)

  datatype Frame = Frame(height: nat, columns: map<string, seq<Cell>>) {
    /** Every column has exactly `height` cells. */
    predicate Valid() {
      forall name :: name in columns ==> |columns[name]| == height
    }
  }

  predicate StrictlyIncreasing(ks: seq<nat>) {
    forall j, j' :: 0 <= j < j' < |ks| ==> ks[j] < ks[j']
  }

  /**
   * The positions at which `mask` is true, in increasing order: exactly the
   * rows that `df[mask]` keeps.
   */
  function MaskIndices(mask: seq<bool>): (ks: seq<nat>)
    ensures |ks| <= |mask|
    ensures StrictlyIncreasing(ks)
    ensures forall j :: 0 <= j < |ks| ==> ks[j] < |mask| && mask[ks[j]]
    ensures forall i :: 0 <= i < |mask| && mask[i] ==> i in ks
  {
    if mask == [] then []
    else
      var rest := MaskIndices(mask[..|mask| - 1]);
      if mask[|mask| - 1] then rest + [|mask| - 1] else rest
  }

  /** An all-true mask keeps every row, each at its own position. */
  lemma {:induction false} MaskIndicesAllTrue(mask: seq<bool>)
    requires forall i :: 0 <= i < |mask| ==> mask[i]
    ensures |MaskIndices(mask)| == |mask|
    ensures forall j :: 0 <= j < |mask| ==> MaskIndices(mask)[j] == j
  {
    if mask != [] {
      MaskIndicesAllTrue(mask[..|mask| - 1]);
    }
  }

  /** The cells of `col` at positions `ks`, in that order. */
  function Pick(col: seq<Cell>, ks: seq<nat>): (r: seq<Cell>)
    requires forall j :: 0 <= j < |ks| ==> ks[j] < |col|
    ensures |r| == |ks|
  {
    seq(|ks|, j requires 0 <= j < |ks| => col[ks[j]])
  }

  /**
   * `sub` consists of the rows of `f` at positions `ks`, in increasing
   * order, with every column of `f` and no other.
   */
  predicate RowsAt(sub: Frame, f: Frame, ks: seq<nat>) {
    && sub.Valid() && f.Valid()
    && |ks| == sub.height
    && StrictlyIncreasing(ks)
    && (forall j :: 0 <= j < |ks| ==> ks[j] < f.height)
    && sub.columns.Keys == f.columns.Keys
    && (forall name, j :: name in sub.columns && 0 <= j < |ks| ==>
          sub.columns[name][j] == f.columns[name][ks[j]])
  }

  /** `sub` is an order-preserving selection of rows of `f`. */
  ghost predicate IsSubFrame(sub: Frame, f: Frame) {
    exists ks :: RowsAt(sub, f, ks)
  }

  /** Row `j` of `sub` and row `i` of `f` agree in every column. */
  predicate SameRow(sub: Frame, j: nat, f: Frame, i: nat)
    requires sub.Valid() && f.Valid() && j < sub.height && i < f.height
    requires sub.columns.Keys == f.columns.Keys
  {
    forall name :: name in sub.columns ==> sub.columns[name][j] == f.columns[name][i]
  }

  /** pandas `f[mask]`. */
  function Select(f: Frame, mask: seq<bool>): (r: Frame)
    requires f.Valid() && |mask| == f.height
    ensures r.height <= f.height
    ensures RowsAt(r, f, MaskIndices(mask))
  {
    var ks := MaskIndices(mask);
    Frame(|ks|, map name | name in f.columns :: Pick(f.columns[name], ks))
  }

  /** Every row the mask marks is present in `f[mask]`. */
  lemma SelectComplete(f: Frame, mask: seq<bool>, i: nat)
    requires f.Valid() && |mask| == f.height
    requires i < f.height && mask[i]
    ensures exists j :: 0 <= j < Select(f, mask).height && SameRow(Select(f, mask), j, f, i)
  {
    var ks := MaskIndices(mask);
    var j :| 0 <= j < |ks| && ks[j] == i;
    assert SameRow(Select(f, mask), j, f, i);
  }

  /** Every row of `f[mask]` is a row the mask marks. */
  lemma SelectSound(f: Frame, mask: seq<bool>, j: nat)
    requires f.Valid() && |mask| == f.height
    requires j < Select(f, mask).height
    ensures exists i :: 0 <= i < f.height && mask[i] && SameRow(Select(f, mask), j, f, i)
  {
    var i := MaskIndices(mask)[j];
    assert mask[i] && SameRow(Select(f, mask), j, f, i);
  }

  /** A mask that is true everywhere leaves the frame unchanged. */
  lemma SelectAllTrue(f: Frame, mask: seq<bool>)
    requires f.Valid() && |mask| == f.height
    requires forall i :: 0 <= i < |mask| ==> mask[i]
    ensures Select(f, mask) == f
  {
    MaskIndicesAllTrue(mask);
    var r := Select(f, mask);
    forall name | name in f.columns ensures r.columns[name] == f.columns[name] {
      assert |r.columns[name]| == |f.columns[name]|;
    }
    assert r.columns == f.columns;
  }

  /** Selecting from a selection is a selection from the original. */
  lemma {:induction false} RowsAtCompose(a: Frame, b: Frame, c: Frame, ks1: seq<nat>, ks2: seq<nat>)
    requires RowsAt(a, b, ks1) && RowsAt(b, c, ks2)
    ensures RowsAt(a, c, seq(|ks1|, j requires 0 <= j < |ks1| => ks2[ks1[j]]))
  {
  }
}
