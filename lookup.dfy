/**
 * The calibration-table lookup `get_fuel_qty` as far as its text goes: an
 * exact match on the three categorical columns, then a further narrowing on
 * the roll column by a closeness test the model takes as a parameter.
 */
module Lookup {
  import opened Wrappers
  import opened Frames

  /** The columns the categorical stage indexes, in the order it indexes them. */
  const KeyColumns: seq<string> := ["Stick", "Pitch", "Wing_Side"]

  /** All of KeyColumns are present (indexing an absent one raises KeyError). */
  predicate HasKeyColumns(f: Frame) {
    "Stick" in f.columns && "Pitch" in f.columns && "Wing_Side" in f.columns
  }

  /** Row `i`'s Stick, Pitch and Wing_Side cells are exactly these strings. */
  predicate RowMatches(f: Frame, i: nat, stick: string, pitch: string, wingSide: string)
    requires f.Valid() && HasKeyColumns(f) && i < f.height
  {
    && f.columns["Stick"][i] == Text(stick)
    && f.columns["Pitch"][i] == Text(pitch)
    && f.columns["Wing_Side"][i] == Text(wingSide)
  }

  /**
   * The element-wise conjunction of the three equality tests: row `i` is
   * marked exactly when its three categorical cells equal the query.
   */
  function CategoricalMask(f: Frame, stick: string, pitch: string, wingSide: string): (m: seq<bool>)
    requires f.Valid() && HasKeyColumns(f)
    ensures |m| == f.height
    ensures forall i :: 0 <= i < f.height ==> (m[i] <==> RowMatches(f, i, stick, pitch, wingSide))
  {
    seq(f.height, i requires 0 <= i < f.height => RowMatches(f, i, stick, pitch, wingSide))
  }

  /** The first `subset` of `get_fuel_qty`, once its three columns have been found. */
  function CategoricalSubset(f: Frame, stick: string, pitch: string, wingSide: string): (sub: Frame)
    requires f.Valid() && HasKeyColumns(f)
    ensures sub.Valid() && HasKeyColumns(sub)
    ensures sub.columns.Keys == f.columns.Keys && sub.height <= f.height
  {
    Select(f, CategoricalMask(f, stick, pitch, wingSide))
  }

  /**
   * The first `subset` of `get_fuel_qty` with its error path: when a key
   * column is absent, the KeyError of the first absent one.
   */
  function CategoricalLookup(f: Frame, stick: string, pitch: string, wingSide: string): (r: Result<Frame, string>)
    requires f.Valid()
    ensures r.Failure? <==> !HasKeyColumns(f)
    ensures r.Success? ==> HasKeyColumns(f) && r.value == CategoricalSubset(f, stick, pitch, wingSide)
  {
    if "Stick" !in f.columns then Failure(KeyErrorText("Stick"))
    else if "Pitch" !in f.columns then Failure(KeyErrorText("Pitch"))
    else if "Wing_Side" !in f.columns then Failure(KeyErrorText("Wing_Side"))
    else Success(CategoricalSubset(f, stick, pitch, wingSide))
  }

  /** The lookup fails naming the first absent key column, in the order Stick, Pitch, Wing_Side. */
  lemma CategoricalLookupNamesFirstAbsent(f: Frame, stick: string, pitch: string, wingSide: string)
    requires f.Valid() && !HasKeyColumns(f)
    ensures exists k :: 0 <= k < |KeyColumns| && KeyColumns[k] !in f.columns
                     && (forall k' :: 0 <= k' < k ==> KeyColumns[k'] in f.columns)
                     && CategoricalLookup(f, stick, pitch, wingSide) == Failure(KeyErrorText(KeyColumns[k]))
  {
    if "Stick" !in f.columns {
      assert KeyColumns[0] !in f.columns;
    } else if "Pitch" !in f.columns {
      assert KeyColumns[1] !in f.columns;
    } else {
      assert KeyColumns[2] !in f.columns;
    }
  }

  /** Every kept row carries exactly the queried Stick, Pitch and Wing_Side. */
  lemma CategoricalSound(f: Frame, stick: string, pitch: string, wingSide: string)
    requires f.Valid() && HasKeyColumns(f)
    ensures var sub := CategoricalSubset(f, stick, pitch, wingSide);
      forall j :: 0 <= j < sub.height ==> RowMatches(sub, j, stick, pitch, wingSide)
  {
    var mask := CategoricalMask(f, stick, pitch, wingSide);
    var sub := CategoricalSubset(f, stick, pitch, wingSide);
    var ks := MaskIndices(mask);
    forall j | 0 <= j < sub.height ensures RowMatches(sub, j, stick, pitch, wingSide) {
      assert mask[ks[j]];
    }
  }

  /** Every row of the table that matches the query is kept, whole. */
  lemma CategoricalComplete(f: Frame, stick: string, pitch: string, wingSide: string, i: nat)
    requires f.Valid() && HasKeyColumns(f) && i < f.height
    requires RowMatches(f, i, stick, pitch, wingSide)
    ensures var sub := CategoricalSubset(f, stick, pitch, wingSide);
      exists j :: 0 <= j < sub.height && SameRow(sub, j, f, i)
  {
    var mask := CategoricalMask(f, stick, pitch, wingSide);
    assert mask[i];
    var ks := MaskIndices(mask);
    var j :| 0 <= j < |ks| && ks[j] == i;
    assert SameRow(CategoricalSubset(f, stick, pitch, wingSide), j, f, i);
  }

  /**
   * The subset is the table's matching rows in table order, so never longer
   * than the table.
   */
  lemma CategoricalOrderPreserving(f: Frame, stick: string, pitch: string, wingSide: string)
    requires f.Valid() && HasKeyColumns(f)
    ensures var sub := CategoricalSubset(f, stick, pitch, wingSide);
      && RowsAt(sub, f, MaskIndices(CategoricalMask(f, stick, pitch, wingSide)))
      && sub.height <= f.height
  {
  }

  /** Filtering the subset again by the same query returns it unchanged. */
  lemma CategoricalIdempotent(f: Frame, stick: string, pitch: string, wingSide: string)
    requires f.Valid() && HasKeyColumns(f)
    ensures var sub := CategoricalSubset(f, stick, pitch, wingSide);
      CategoricalSubset(sub, stick, pitch, wingSide) == sub
  {
    var sub := CategoricalSubset(f, stick, pitch, wingSide);
    CategoricalSound(f, stick, pitch, wingSide);
    SelectAllTrue(sub, CategoricalMask(sub, stick, pitch, wingSide));
  }

  /** The roll-stage mask: row `i` is marked exactly when its Roll_Input cell passes `rollMatch`. */
  function RollMask(sub: Frame, roll: real, rollMatch: (Cell, real) -> bool): (m: seq<bool>)
    requires sub.Valid() && "Roll_Input" in sub.columns
    ensures |m| == sub.height
    ensures forall i :: 0 <= i < sub.height ==> (m[i] <==> rollMatch(sub.columns["Roll_Input"][i], roll))
  {
    seq(sub.height, i requires 0 <= i < sub.height => rollMatch(sub.columns["Roll_Input"][i], roll))
  }

  /** The second `subset` of `get_fuel_qty`: both stages, one after the other. */
  function MatchSubset(f: Frame, stick: string, pitch: string, roll: real, wingSide: string,
                       rollMatch: (Cell, real) -> bool): (sub: Frame)
    requires f.Valid() && HasKeyColumns(f) && "Roll_Input" in f.columns
    ensures sub.Valid() && sub.columns.Keys == f.columns.Keys
    ensures sub.height <= CategoricalSubset(f, stick, pitch, wingSide).height <= f.height
  {
    var cat := CategoricalSubset(f, stick, pitch, wingSide);
    Select(cat, RollMask(cat, roll, rollMatch))
  }

  /**
   * Both stages with the categorical stage's error path: the KeyError of an
   * absent key column, or the narrowed subset.
   */
  function GetFuelQtySubset(f: Frame, stick: string, pitch: string, roll: real, wingSide: string,
                            rollMatch: (Cell, real) -> bool): (r: Result<Frame, string>)
    requires f.Valid() && "Roll_Input" in f.columns
    ensures r.Failure? <==> !HasKeyColumns(f)
    ensures r.Failure? ==> r == CategoricalLookup(f, stick, pitch, wingSide)
    ensures r.Success? ==> HasKeyColumns(f) && r.value == MatchSubset(f, stick, pitch, roll, wingSide, rollMatch)
  {
    match CategoricalLookup(f, stick, pitch, wingSide)
    case Failure(e) => Failure(e)
    case Success(cat) => Success(Select(cat, RollMask(cat, roll, rollMatch)))
  }

  /**
   * The roll stage only narrows: its rows are an order-preserving selection
   * of the categorical subset and of the table, each still matching the
   * query's Stick, Pitch and Wing_Side and passing the roll test.
   */
  lemma RollStageNarrows(f: Frame, stick: string, pitch: string, roll: real, wingSide: string,
                         rollMatch: (Cell, real) -> bool)
    requires f.Valid() && HasKeyColumns(f) && "Roll_Input" in f.columns
    ensures var cat := CategoricalSubset(f, stick, pitch, wingSide);
      var sub := MatchSubset(f, stick, pitch, roll, wingSide, rollMatch);
      && IsSubFrame(sub, cat) && IsSubFrame(sub, f)
      && sub.height <= cat.height <= f.height
      && forall j :: 0 <= j < sub.height ==>
           RowMatches(sub, j, stick, pitch, wingSide) && rollMatch(sub.columns["Roll_Input"][j], roll)
  {
    var cat := CategoricalSubset(f, stick, pitch, wingSide);
    var catMask := CategoricalMask(f, stick, pitch, wingSide);
    var rollMask := RollMask(cat, roll, rollMatch);
    var sub := MatchSubset(f, stick, pitch, roll, wingSide, rollMatch);
    var ks1 := MaskIndices(rollMask);
    var ks2 := MaskIndices(catMask);
    assert RowsAt(sub, cat, ks1);
    assert RowsAt(cat, f, ks2);
    RowsAtCompose(sub, cat, f, ks1, ks2);
    CategoricalSound(f, stick, pitch, wingSide);
    forall j | 0 <= j < sub.height
      ensures RowMatches(sub, j, stick, pitch, wingSide) && rollMatch(sub.columns["Roll_Input"][j], roll)
    {
      assert RowMatches(cat, ks1[j], stick, pitch, wingSide);
      assert rollMask[ks1[j]];
    }
  }

  /**
   * A table row that matches the query and passes the roll test survives
   * both stages (the converse is part of RollStageNarrows).
   */
  lemma MatchSubsetComplete(f: Frame, stick: string, pitch: string, roll: real, wingSide: string,
                            rollMatch: (Cell, real) -> bool, i: nat)
    requires f.Valid() && HasKeyColumns(f) && "Roll_Input" in f.columns && i < f.height
    requires RowMatches(f, i, stick, pitch, wingSide) && rollMatch(f.columns["Roll_Input"][i], roll)
    ensures var sub := MatchSubset(f, stick, pitch, roll, wingSide, rollMatch);
      exists j :: 0 <= j < sub.height && SameRow(sub, j, f, i)
  {
    var cat := CategoricalSubset(f, stick, pitch, wingSide);
    var catMask := CategoricalMask(f, stick, pitch, wingSide);
    assert catMask[i];
    var ks2 := MaskIndices(catMask);
    var c :| 0 <= c < |ks2| && ks2[c] == i;
    var rollMask := RollMask(cat, roll, rollMatch);
    assert rollMask[c];
    var sub := MatchSubset(f, stick, pitch, roll, wingSide, rollMatch);
    var ks1 := MaskIndices(rollMask);
    var j :| 0 <= j < |ks1| && ks1[j] == c;
    assert SameRow(sub, j, f, i);
  }
}
