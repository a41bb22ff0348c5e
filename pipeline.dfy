/**
 * The lookup run over the table as `load_data` leaves it: since the
 * categorical columns are stripped on load and compared exactly, a query
 * value with outer whitespace can never match.
 */
module Pipeline {
  import opened Wrappers
  import opened PyText
  import opened Frames
  import opened Loading
  import opened Lookup

  /** A query that selects any row of the loaded table carries no outer whitespace. */
  lemma MatchedQueryIsStripped(db: Frame, parse: string -> Option<real>, render: real -> string,
                               stick: string, pitch: string, wingSide: string)
    requires db.Valid() && HasKeyColumns(db) && Loaded(db, parse, render).Success?
    requires var t := Loaded(db, parse, render).value;
      t.Valid() && HasKeyColumns(t) && CategoricalSubset(t, stick, pitch, wingSide).height > 0
    ensures NoOuterSpace(stick) && NoOuterSpace(pitch) && NoOuterSpace(wingSide)
  {
    var t := Loaded(db, parse, render).value;
    var mask := CategoricalMask(t, stick, pitch, wingSide);
    var i := MaskIndices(mask)[0];
    assert RowMatches(t, i, stick, pitch, wingSide);
    LoadStripsStringColumns(db, parse, render);
    assert CleanText(t.columns["Stick"][i]);
    assert CleanText(t.columns["Pitch"][i]);
    assert CleanText(t.columns["Wing_Side"][i]);
  }

  /** A query whose Stick, Pitch or Wing_Side is not stripped selects no rows. */
  lemma UnstrippedQueryFindsNothing(db: Frame, parse: string -> Option<real>, render: real -> string,
                                     stick: string, pitch: string, wingSide: string)
    requires db.Valid() && HasKeyColumns(db) && Loaded(db, parse, render).Success?
    requires !NoOuterSpace(stick) || !NoOuterSpace(pitch) || !NoOuterSpace(wingSide)
    ensures var t := Loaded(db, parse, render).value;
      t.Valid() && HasKeyColumns(t) && CategoricalSubset(t, stick, pitch, wingSide).height == 0
  {
    LoadKeepsShape(db, parse, render);
    var t := Loaded(db, parse, render).value;
    if CategoricalSubset(t, stick, pitch, wingSide).height > 0 {
      MatchedQueryIsStripped(db, parse, render, stick, pitch, wingSide);
      assert false;
    }
  }
}
