/**
 * The type clean-up `load_data` applies to the calibration table once it has
 * been read: numeric coercion of Roll_Input, Reading and Fuel_Qty, then
 * string conversion and whitespace stripping of Stick, Pitch and Wing_Side.
 *
 * `parse` stands for pandas' text-to-number conversion (`None` when a cell
 * does not parse) and `render` for pandas' number-to-text conversion; both
 * are library behaviour outside this model.
 */
module Loading {
  import opened Wrappers
  import opened PyText
  import opened Frames

  /** The columns coerced to numbers, in the order the loader coerces them. */
  const NumericColumns: seq<string> := ["Roll_Input", "Reading", "Fuel_Qty"]

  /** The columns converted to strings and stripped, when present. */
  const StringColumns: seq<string> := ["Stick", "Pitch", "Wing_Side"]

  /**
   * One cell through pandas' lenient numeric coercion: numbers stay,
   * parseable text becomes its number, anything else becomes missing.
   */
  function ToNumeric(c: Cell, parse: string -> Option<real>): (r: Cell)
    ensures r.Missing? || r.Number?
    ensures r.Missing? <==> (c.Missing? || (c.Text? && parse(c.s).None?))
    ensures c.Number? ==> r == c
    ensures c.Text? && parse(c.s).Some? ==> r == Number(parse(c.s).value)
  {
    match c
    case Missing => Missing
    case Number(x) => Number(x)
    case Text(s) =>
      match parse(s)
      case Some(x) => Number(x)
      case None => Missing
  }

  /** A whole column through the numeric coercion: every resulting cell is a number or missing. */
  function CoerceColumn(col: seq<Cell>, parse: string -> Option<real>): (r: seq<Cell>)
    ensures |r| == |col|
    ensures forall i :: 0 <= i < |r| ==> r[i].Number? || r[i].Missing?
  {
    seq(|col|, i requires 0 <= i < |col| => ToNumeric(col[i], parse))
  }

  /**
   * Conversion of one cell to a string: text stays as it is, NaN becomes
   * "nan" and a number is printed by `render`.
   */
  function AsStr(c: Cell, render: real -> string): (r: string)
    ensures c.Text? ==> r == c.s
    ensures c.Missing? ==> r == "nan"
  {
    match c
    case Missing => "nan"
    case Text(s) => s
    case Number(x) => render(x)
  }

  /**
   * A string column converted to strings and stripped: every resulting cell
   * is text without outer whitespace.
   */
  function StripColumn(col: seq<Cell>, render: real -> string): (r: seq<Cell>)
    ensures |r| == |col|
    ensures forall i :: 0 <= i < |r| ==> r[i].Text? && NoOuterSpace(r[i].s)
  {
    seq(|col|, i requires 0 <= i < |col| => Text(Strip(AsStr(col[i], render))))
  }

  /** What the clean-up does to the column called `name`. */
  function NormaliseColumn(name: string, col: seq<Cell>, parse: string -> Option<real>,
                           render: real -> string): (r: seq<Cell>)
  {
    if name in NumericColumns then CoerceColumn(col, parse)
    else if name in StringColumns then StripColumn(col, render)
    else col
  }

  /**
   * The clean-up as a whole: the KeyError of the first absent numeric
   * column, or the table with every column normalised.
   */
  function Loaded(db: Frame, parse: string -> Option<real>, render: real -> string): (r: Result<Frame, string>)
    requires db.Valid()
    ensures r.Success? ==> r.value.Valid() && r.value.height == db.height && r.value.columns.Keys == db.columns.Keys
  {
    if "Roll_Input" !in db.columns then Failure(KeyErrorText("Roll_Input"))
    else if "Reading" !in db.columns then Failure(KeyErrorText("Reading"))
    else if "Fuel_Qty" !in db.columns then Failure(KeyErrorText("Fuel_Qty"))
    else Success(Frame(db.height, map name | name in db.columns ::
                                    NormaliseColumn(name, db.columns[name], parse, render)))
  }

  /** The position of `name` in StringColumns, or |StringColumns| if it is not there. */
  function StringColumnPosition(name: string): (k: nat)
    ensures k <= |StringColumns|
    ensures k < |StringColumns| <==> name in StringColumns
    ensures k < |StringColumns| ==> StringColumns[k] == name
  {
    if name == "Stick" then 0
    else if name == "Pitch" then 1
    else if name == "Wing_Side" then 2
    else 3
  }

  /** A column after the numeric coercion and the first `done` string-column steps. */
  function PartlyNormalised(name: string, col: seq<Cell>, parse: string -> Option<real>,
                            render: real -> string, done: nat): (r: seq<Cell>)
  {
    if name in NumericColumns then CoerceColumn(col, parse)
    else if StringColumnPosition(name) < done then StripColumn(col, render)
    else col
  }

  /** Every column of `cols` after the numeric coercion and the first `done` string-column steps. */
  function Stage(cols: map<string, seq<Cell>>, parse: string -> Option<real>,
                 render: real -> string, done: nat): (r: map<string, seq<Cell>>)
    ensures r.Keys == cols.Keys
  {
    map name | name in cols :: PartlyNormalised(name, cols[name], parse, render, done)
  }

  /** Before the string loop, the three numeric columns have been coerced and nothing else. */
  lemma StageStart(cols: map<string, seq<Cell>>, parse: string -> Option<real>, render: real -> string)
    requires forall name :: name in NumericColumns ==> name in cols
    ensures Stage(cols, parse, render, 0)
         == cols["Roll_Input" := CoerceColumn(cols["Roll_Input"], parse)]
                ["Reading" := CoerceColumn(cols["Reading"], parse)]
                ["Fuel_Qty" := CoerceColumn(cols["Fuel_Qty"], parse)]
  {
    assert NumericColumns[0] in cols && NumericColumns[1] in cols && NumericColumns[2] in cols;
  }

  /** One turn of the string loop strips the next string column, when present. */
  lemma StageStep(cols: map<string, seq<Cell>>, parse: string -> Option<real>,
                  render: real -> string, i: nat)
    requires i < |StringColumns|
    ensures var before, name := Stage(cols, parse, render, i), StringColumns[i];
      Stage(cols, parse, render, i + 1)
        == if name in cols then before[name := StripColumn(before[name], render)] else before
  {
    var name := StringColumns[i];
    assert StringColumnPosition(name) == i;
    var before, after := Stage(cols, parse, render, i), Stage(cols, parse, render, i + 1);
    forall other | other in cols && other != name ensures after[other] == before[other] {
      assert StringColumnPosition(other) != i;
    }
  }

  /** After the whole string loop every column is normalised. */
  lemma StageDone(cols: map<string, seq<Cell>>, parse: string -> Option<real>, render: real -> string)
    ensures Stage(cols, parse, render, |StringColumns|)
         == map name | name in cols :: NormaliseColumn(name, cols[name], parse, render)
  {
  }

  /** The statements of `load_data` after the CSV read, one column at a time. */
  method LoadData(db: Frame, parse: string -> Option<real>, render: real -> string)
    returns (r: Result<Frame, string>)
    requires db.Valid()
    ensures r == Loaded(db, parse, render)
  {
    var cols := db.columns;
    if "Roll_Input" !in cols {
      return Failure(KeyErrorText("Roll_Input"));
    }
    cols := cols["Roll_Input" := CoerceColumn(cols["Roll_Input"], parse)];
    if "Reading" !in cols {
      return Failure(KeyErrorText("Reading"));
    }
    cols := cols["Reading" := CoerceColumn(cols["Reading"], parse)];
    if "Fuel_Qty" !in cols {
      return Failure(KeyErrorText("Fuel_Qty"));
    }
    cols := cols["Fuel_Qty" := CoerceColumn(cols["Fuel_Qty"], parse)];
    StageStart(db.columns, parse, render);

    for i := 0 to |StringColumns|
      invariant cols == Stage(db.columns, parse, render, i)
    {
      StageStep(db.columns, parse, render, i);
      var col := StringColumns[i];
      if col in cols {
        cols := cols[col := StripColumn(cols[col], render)];
      }
    }
    StageDone(db.columns, parse, render);
    r := Success(Frame(db.height, cols));
  }

  /** The clean-up fails exactly when a numeric column is absent, naming the first one. */
  lemma LoadFailsIffNumericColumnAbsent(db: Frame, parse: string -> Option<real>, render: real -> string)
    requires db.Valid()
    ensures Loaded(db, parse, render).Failure? <==> exists name :: name in NumericColumns && name !in db.columns
    ensures Loaded(db, parse, render).Failure? ==>
      exists k :: 0 <= k < |NumericColumns| && NumericColumns[k] !in db.columns
        && (forall k' :: 0 <= k' < k ==> NumericColumns[k'] in db.columns)
        && Loaded(db, parse, render).error == KeyErrorText(NumericColumns[k])
  {
    if "Roll_Input" !in db.columns {
      assert NumericColumns[0] !in db.columns;
    } else if "Reading" !in db.columns {
      assert NumericColumns[1] !in db.columns;
    } else if "Fuel_Qty" !in db.columns {
      assert NumericColumns[2] !in db.columns;
    }
  }

  /** A successful clean-up keeps the row count and the column names. */
  lemma LoadKeepsShape(db: Frame, parse: string -> Option<real>, render: real -> string)
    requires db.Valid() && Loaded(db, parse, render).Success?
    ensures var t := Loaded(db, parse, render).value;
      t.Valid() && t.height == db.height && t.columns.Keys == db.columns.Keys
      && forall name :: name in NumericColumns ==> name in t.columns
  {
  }

  /** A cell of a cleaned string column: text without outer whitespace. */
  predicate CleanText(c: Cell) {
    c.Text? && NoOuterSpace(c.s) && Strip(c.s) == c.s
  }

  /**
   * After the clean-up every present Stick, Pitch and Wing_Side cell is the
   * stripped text of the raw cell, has no outer whitespace, and stripping it
   * again changes nothing.
   */
  lemma LoadStripsStringColumns(db: Frame, parse: string -> Option<real>, render: real -> string)
    requires db.Valid() && Loaded(db, parse, render).Success?
    ensures var t := Loaded(db, parse, render).value;
      forall name, j :: name in StringColumns && name in db.columns && 0 <= j < db.height ==>
        && t.columns[name][j] == Text(Strip(AsStr(db.columns[name][j], render)))
        && CleanText(t.columns[name][j])
  {
    var t := Loaded(db, parse, render).value;
    forall name, j | name in StringColumns && name in db.columns && 0 <= j < db.height
      ensures t.columns[name][j] == Text(Strip(AsStr(db.columns[name][j], render)))
      ensures CleanText(t.columns[name][j])
    {
      var s := AsStr(db.columns[name][j], render);
      assert name !in NumericColumns;
      assert t.columns[name] == StripColumn(db.columns[name], render);
      StripIdempotent(s);
    }
  }

  /**
   * After the clean-up every Roll_Input, Reading and Fuel_Qty cell is a
   * number or missing; a text cell that does not parse became missing.
   */
  lemma LoadCoercesNumericColumns(db: Frame, parse: string -> Option<real>, render: real -> string)
    requires db.Valid() && Loaded(db, parse, render).Success?
    ensures var t := Loaded(db, parse, render).value;
      forall name, j :: name in NumericColumns && 0 <= j < db.height ==>
        && t.columns[name][j] == ToNumeric(db.columns[name][j], parse)
        && (t.columns[name][j].Number? || t.columns[name][j].Missing?)
        && (db.columns[name][j].Text? && parse(db.columns[name][j].s).None? ==> t.columns[name][j] == Missing)
  {
  }

  /** Columns other than the six named ones pass through untouched. */
  lemma LoadKeepsOtherColumns(db: Frame, parse: string -> Option<real>, render: real -> string)
    requires db.Valid() && Loaded(db, parse, render).Success?
    ensures var t := Loaded(db, parse, render).value;
      forall name :: name in db.columns && name !in NumericColumns && name !in StringColumns ==>
        t.columns[name] == db.columns[name]
  {
  }

  /** Cleaning an already cleaned table changes nothing. */
  lemma LoadIdempotent(db: Frame, parse: string -> Option<real>, render: real -> string)
    requires db.Valid() && Loaded(db, parse, render).Success?
    ensures Loaded(Loaded(db, parse, render).value, parse, render) == Loaded(db, parse, render)
  {
    var t := Loaded(db, parse, render).value;
    var t2 := Loaded(t, parse, render).value;
    forall name | name in t.columns ensures t2.columns[name] == t.columns[name] {
      var col := t.columns[name];
      if name in NumericColumns {
        assert CoerceColumn(col, parse) == col;
      } else if name in StringColumns {
        forall j | 0 <= j < |col| ensures StripColumn(col, render)[j] == col[j] {
          StripIdempotent(AsStr(db.columns[name][j], render));
        }
      }
    }
    assert t2.columns == t.columns;
  }
}
