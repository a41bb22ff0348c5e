# B737 fuel-dip calculator: table clean-up, lookup filter and session start-up

This project models the decision core of a Streamlit fuel-dip calculator
(`fuel_app.py`). Three pieces of it are modelled:

- **Loading the calibration table** (`load_data`). Once the CSV has been read,
  `Roll_Input`, `Reading` and `Fuel_Qty` are coerced to numbers, and a cell
  that does not parse becomes missing (NaN). Then `Stick`, `Pitch` and
  `Wing_Side` are each converted to strings and stripped of outer whitespace,
  but only when the column is present. If a numeric column is absent, the
  `KeyError` is caught and `load_data` returns `(None, str(e))`. Here that is
  `Failure("'Roll_Input'")`, and so on.
- **The lookup filter** (`get_fuel_qty`, up to where its text ends). It keeps
  the table rows whose Stick, Pitch and Wing_Side equal the query by exact,
  case-sensitive string comparison. It then narrows that subset again with a
  test on `Roll_Input`.
- **Session start-up**. It sets `left_qty`, `center_qty` and `right_qty` to 0
  in the session dictionary when they are absent.

The table is modelled like a pandas DataFrame (`Frames.Frame`). A frame is a
row count plus a map from column name to a column of cells. A cell is
`Missing` (NaN), `Text` or `Number`. Boolean-mask indexing `df[mask]` is
`Frames.Select`. It keeps the rows at `MaskIndices(mask)` (the positions where
the mask is true, in increasing order) across every column.

Some parts are library behaviour and are passed in as parameters:

- `parse: string -> Option<real>` stands for `pd.to_numeric`'s text-to-number
  conversion. It returns `None` when a cell does not parse.
- `render: real -> string` stands for `astype(str)` applied to a number.
- `rollMatch: (Cell, real) -> bool` stands for the roll-closeness test whose
  text is cut off at `np.`.

Python's `str.strip()` is modelled concretely, with the exact set of code
points that `str.isspace()` accepts.

The modules are:

- `PyText`: whitespace and stripping.
- `Frames`: frames, masks and selection.
- `Loading`: `load_data` after the CSV read, as the method `LoadData` with a
  loop over the string columns. It is proved equal to the declarative
  function `Loaded`.
- `Lookup`: the two filter stages of `get_fuel_qty`.
- `Pipeline`: lookup over a loaded table.
- `Session`: the class `SessionState`, whose `InitTankQuantities` loop is
  proved against the function `WithDefaults`.

`load_data` strips a string column only when that column is present
(`if col in db.columns`). It does not raise on a failure: it catches the
exception and returns `(None, str(e))`, which the model writes as `Failure`.

## Model

| member | source | states |
|---|---|---|
| `PyText.StripLeading` | fuel_app.py:128 | The left-stripped string is a suffix of the input. Every removed character is whitespace, and the result does not start with whitespace. |
| `PyText.StripTrailing` | fuel_app.py:128 | The right-stripped string is a prefix of the input. Every removed character is whitespace, and the result does not end with whitespace. |
| `PyText.IsSpace` | fuel_app.py:128 | The characters `strip()` removes: exactly the code points Python's `str.isspace()` accepts. No contract of its own; `Strip` and its lemmas state what it is used for. |
| `PyText.Strip` | fuel_app.py:128 | The stripped string is no longer than the input and neither starts nor ends with whitespace. |
| `PyText.StripSpec` | fuel_app.py:128 | `Strip(s)` is a slice `s[i..j]` of the input with only whitespace outside it. |
| `PyText.StripKeepsClean` | fuel_app.py:128 | A string with no outer whitespace is unchanged by stripping. |
| `PyText.StripIdempotent` | fuel_app.py:128 | Stripping twice equals stripping once. |
| `Frames.MaskIndices` | fuel_app.py:150-154 | The kept positions are strictly increasing and in range. Each one is marked by the mask, every marked position is kept, and there are no more of them than the mask is long. |
| `Frames.MaskIndicesAllTrue` | fuel_app.py:150-154 | An all-true mask keeps every position, each in place. |
| `Frames.Select` | fuel_app.py:150-154 | `df[mask]` is a valid frame with the same columns. It holds exactly the rows at the kept positions, in table order, and is no taller than the table. |
| `Frames.SelectComplete` | fuel_app.py:150-154 | Every row whose mask entry is true appears, whole, in `df[mask]`. |
| `Frames.SelectSound` | fuel_app.py:150-154 | Every row of `df[mask]` is a whole table row whose mask entry is true. |
| `Frames.SelectAllTrue` | fuel_app.py:150-154 | Selecting with an all-true mask returns the frame unchanged. |
| `Frames.RowsAtCompose` | fuel_app.py:150-156 | A selection of a selection is a selection of the original, through the composed row positions. |
| `Lookup.CategoricalMask` | fuel_app.py:151-153 | Row `i` is marked exactly when its Stick, Pitch and Wing_Side cells all equal the query's strings. |
| `Lookup.CategoricalSubset` | fuel_app.py:150-154 | The first subset is a valid frame with the table's columns and is no taller than the table. Its rows are stated by the four `Categorical…` lemmas below. |
| `Lookup.CategoricalLookup` | fuel_app.py:150-154 | The lookup fails exactly when Stick, Pitch or Wing_Side is absent. Otherwise it returns the categorical subset. |
| `Lookup.CategoricalLookupNamesFirstAbsent` | fuel_app.py:150-154 | On failure the error is the KeyError text of the first absent key column, in the order Stick, Pitch, Wing_Side. |
| `Lookup.CategoricalSound` | fuel_app.py:150-154 | Every kept row has Stick, Pitch and Wing_Side cells equal to the query's strings exactly. |
| `Lookup.CategoricalComplete` | fuel_app.py:150-154 | Every table row whose three categorical cells equal the query is kept, with all its columns. |
| `Lookup.CategoricalOrderPreserving` | fuel_app.py:150-154 | The subset is the matching rows in table order, so it is never longer than the table. |
| `Lookup.CategoricalIdempotent` | fuel_app.py:150-154 | Applying the same three-column filter to the subset returns the subset unchanged. |
| `Lookup.RollMask` | fuel_app.py:156 | Row `i` of the subset is marked exactly when its Roll_Input cell passes the roll test. |
| `Lookup.MatchSubset` | fuel_app.py:150-156 | The result of both stages has the table's columns and is no taller than the categorical subset, which is no taller than the table. |
| `Lookup.GetFuelQtySubset` | fuel_app.py:149-156 | Both stages with the error path: a KeyError for an absent key column, exactly when one is absent, and otherwise the two-stage subset. |
| `Lookup.RollStageNarrows` | fuel_app.py:155-156 | The roll stage keeps an order-preserving selection of the categorical subset, and so of the table. Every row it keeps still matches the query's Stick, Pitch and Wing_Side and passes the roll test. |
| `Lookup.MatchSubsetComplete` | fuel_app.py:150-156 | A table row that matches the query and passes the roll test survives both stages. |
| `Loading.ToNumeric` | fuel_app.py:121-123 | A coerced cell is missing exactly when the raw cell was missing or was text that does not parse. A number comes from the raw number or from the parse of the raw text. |
| `Loading.CoerceColumn` | fuel_app.py:121-123 | A coerced column has the same length, and every cell in it is a number or missing. |
| `Loading.AsStr` | fuel_app.py:128 | String conversion leaves a text cell as it is and turns NaN into "nan". |
| `Loading.StripColumn` | fuel_app.py:128 | A converted and stripped column has the same length, and every cell in it is text without outer whitespace. |
| `Loading.Loaded` | fuel_app.py:121-133 | Whenever loading succeeds, the table is valid, with the raw table's row count and column names. Its failures and cell contents are stated by the `Load…` lemmas. |
| `Frames.KeyErrorText` | fuel_app.py:132-133 | The message of a KeyError is the column name between single quotes. |
| `Loading.LoadData` | fuel_app.py:121-133 | Coercing the three numeric columns and then looping over the string columns gives exactly `Loaded`: the first absent numeric column's KeyError text, or the normalised table. |
| `Loading.LoadFailsIffNumericColumnAbsent` | fuel_app.py:121-133 | Loading fails exactly when some numeric column is absent. The message is the quoted name of the first absent one, in the order Roll_Input, Reading, Fuel_Qty. |
| `Loading.LoadKeepsShape` | fuel_app.py:121-128 | A successful load keeps the row count and the column names, and all three numeric columns are present. |
| `Loading.LoadStripsStringColumns` | fuel_app.py:126-128 | Each present Stick, Pitch and Wing_Side cell is the stripped string form of the raw cell (NaN becomes "nan"). It has no outer whitespace, and stripping it again changes nothing. |
| `Loading.LoadCoercesNumericColumns` | fuel_app.py:121-123 | Each Roll_Input, Reading and Fuel_Qty cell is the coercion of the raw cell and is a number or missing. Text that does not parse becomes missing. |
| `Loading.LoadKeepsOtherColumns` | fuel_app.py:121-128 | Columns other than the six named ones pass through unchanged. |
| `Loading.LoadIdempotent` | fuel_app.py:121-128 | Loading an already loaded table returns it unchanged. |
| `Pipeline.MatchedQueryIsStripped` | fuel_app.py:126-154 | If a query selects any row of a loaded table, its Stick, Pitch and Wing_Side carry no outer whitespace. |
| `Pipeline.UnstrippedQueryFindsNothing` | fuel_app.py:126-154 | A query with outer whitespace in Stick, Pitch or Wing_Side selects no row of a loaded table. |
| `Session.WithDefaults` | fuel_app.py:142-143 | The map start-up should leave. No contract of its own; its properties are stated by the three `WithDefaults…` lemmas. |
| `Session.WithDefaultsSpec` | fuel_app.py:142-143 | Existing keys keep their values. Each tank key that was absent is added at 0, and no other key appears. |
| `Session.WithDefaultsStep` | fuel_app.py:142-143 | Visiting one more key adds it at 0 when it is absent and otherwise leaves the map as it was: one turn of the start-up loop. |
| `Session.WithDefaultsIdempotent` | fuel_app.py:142-143 | Running start-up twice gives the same map as running it once. |
| `Session.WithDefaultsKeepsInitialised` | fuel_app.py:142-143 | A session that already holds every tank key is left unchanged. |
| `Session.SessionState.InitTankQuantities` | fuel_app.py:142-143 | The loop leaves the session dictionary equal to `WithDefaults` of the old one. Old entries are kept, the three tank keys are present, absent ones read 0, and the key set grows by the tank keys only. |

## Left out

- Reading the CSV files: the comma-then-semicolon retry, the recommendation table `Master_Stick_Recommendations.csv`, and exceptions from `read_csv`. These are file I/O. The model starts from the already read frame, and the only failure it models is the KeyError of an absent numeric column. Any other failure also ends in `(None, message)`.
- `st.cache_data`, `st.error` and `st.stop`: framework control flow.
- pandas' text-to-number and number-to-text conversions, and its type inference when reading the CSV. These are library behaviour, abstracted as `parse` and `render`.
- `Lookup.MatchSubset` and `Lookup.GetFuelQtySubset` require a Roll_Input column. The roll expression is cut off, so whether it indexes that column, and raises KeyError when it is absent, is not visible. After a successful load the column is always present (`Loading.LoadKeepsShape`).
- The roll test itself: its tolerance and float semantics. The text of `get_fuel_qty` ends in the middle of that expression.
- Everything that follows in `get_fuel_qty`: the reading match, stick recommendation, the variance and alert rule, and aggregating the three tanks into a total. None of it is in the available text of `fuel_app.py`.
- Page configuration, header, title and caption: presentation.
- `sw.js`, the service worker: cache and network I/O driven by event listeners.
- Session values are modelled as integers, because the only values start-up writes are 0. Streamlit's session state can hold any Python object.
