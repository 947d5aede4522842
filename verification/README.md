# Kaldi nnet3 component reader, in Dafny

This project models the text-parsing core of `converter/component.py` from
kaldi-onnx-tf and proves properties of that model. That file reads one
component declaration of a Kaldi nnet3 text model and builds the converter's
intermediate record for it:

- a whitespace tokenizer works over a line cursor, and pulls the next line
  from the line buffer when the current line is used up;
- a check that the declaration's type tag looks like `<...Component>`;
- readers for booleans, integers, floats, bracketed vectors that may span
  lines, and bracketed matrices whose rows end at a line break;
- the attribute loop of `Component.read_attributes`. It is driven by a per-class
  table from tag to reader and key, and it stops at a terminating token;
- the finishing steps. The batch-norm adjustment runs, `dim` is lifted out of
  the attributes, and the parameter arrays are promoted to named constants,
  which are appended to the inputs;
- the names of the components the graph builder synthesises, and the
  registry from type names to classes.

Modules, one file each:

| file | module | contents |
|---|---|---|
| `results.dfy` | `Results` | `Option`, `Result` and the reasons a parse aborts |
| `text.dfy` | `Text` | Python's `str.isspace`; the lexical grammars of `int()` and `float()`; `str()` of an integer; `str.join` |
| `tokenizer.dfy` | `Tokenizer` | `read_next_token`, `read_component_type`, `__check_for_newline`; the line cursor and the token stream it denotes |
| `readers.dfy` | `Readers` | `_read_bool`, `_read_int`, `_read_float`, `__read_vector` and its wrappers, `_read_matrix_trans`; what each reader consumes from the token stream |
| `components.dfy` | `Components` | the component record, the `_actions` tables, `TYPE_TO_COMPONENT`, the synthetic components |
| `matrix_text.dfy` | `MatrixText` | matrices laid out as Kaldi's text writer prints them, and what `_read_matrix_trans` makes of that text |
| `attributes.dfy` | `Attributes` | `read_attributes`: the tag loop, the adjustment, the `dim` lift and constant promotion |

The file object is modelled as a `Cursor(line, pos, rest)`, where `rest`
holds the lines the buffer has not handed out yet. `next(line_buffer)` is
`Pull`, which continues at position 0 of the next line. Running out of lines
is an `Err`, as is every exception the source raises. Each reader returns the
value together with the cursor after it. The token stream ahead of a cursor
(`Stream`) is what the consumption lemmas talk about. They say exactly which
tokens each reader takes from that stream.

The accessors `attrs`, `consts`, `items`, `__contains__`, `__getitem__` and
`__setitem__` (converter/component.py, lines 52-114) are plain access to the record's fields. In the
model they are the fields `attrs` and `consts` of `Component`.

Where the code and its documented intent differ, the model follows the code:

- The tables of `AffineComponent` and `TdnnComponent` replace the base
  table instead of extending it. So neither class reads `<Dim>`, and `dim`
  stays unset for them.
- A `[` inside a vector is not dropped. `__read_vector` stops only at `]`,
  so a nested `[` is collected as an element, and the int/float conversion
  then rejects it.
- A `[` is skipped anywhere inside a matrix row, not only at its start:
  the inner loop of `_read_matrix_trans` skips one after every element.

## Model

| member | source | states |
|---|---|---|
| Tokenizer.NextToken | converter/component.py:367-386 | `None` exactly when the rest of the line is whitespace, and the position is then the line's end. Otherwise the token is non-empty and whitespace-free, only whitespace lies between `pos` and it, and it ends at whitespace or at the end of the line. |
| Tokenizer.TokenAtUnique | converter/component.py:367-386 | Those conditions admit only one token and end position, so they describe `read_next_token`'s answer completely. |
| Tokenizer.NextTokenReadsBack | converter/component.py:367-386 | A word written after whitespace, and before whitespace or the line end, is read back whole, with the position just after it. |
| Tokenizer.LineTokensCover | converter/component.py:367-386 | Repeated calls consume the line left to right. The tokens, concatenated, are exactly the line's non-whitespace characters from `pos` on: nothing is skipped or duplicated. |
| Tokenizer.LineTokensAreWords | converter/component.py:367-386 | Every token of a line is non-empty and free of whitespace. |
| Tokenizer.ReadComponentType | converter/component.py:389-405 | Succeeds iff the next token exists, is at least 13 characters long, starts with `<` and ends with `Component>`. The token and position are then returned unchanged. Otherwise the error carries the position and the token (or `None`). |
| Tokenizer.ValidTypeTagShape | converter/component.py:399-401 | A tag passes iff it is `<`, then a name of two or more characters, then `Component>`. |
| Tokenizer.AcceptsComponentTag | converter/component.py:399-401 | A whitespace-free name `p` of two or more characters, written as `<pComponent>` and followed by whitespace or the end of the line, is accepted and returned whole. |
| Tokenizer.RejectsMalformedTag | converter/component.py:399-405 | Any other word, wherever it stands on the line, is rejected. The error names the word and the position after it. |
| Tokenizer.CheckForNewline | converter/component.py:541-556 | It skips exactly the run of whitespace at `pos`. The flag is true iff a `\n` is among the skipped characters. |
| Readers.ReadBool | converter/component.py:408-430 | Succeeds iff the token is one of `F False false T True true`. The value is true iff the token is one of the last three. The line is unchanged. Any other token, or none, is an error. |
| Readers.ReadBoolReadsBack | converter/component.py:424-430 | `str(b)` written on a line is read back as `b`. |
| Readers.ReadInt | converter/component.py:433-447 | Succeeds iff a token exists and `int()` accepts it. The value is `int(token)` and the position is after the token. |
| Text.ParseInt | converter/component.py:447 | `int()` on a token: an optional sign, then digits with single underscores between them. What it accepts is built only from digits, underscores and a leading sign. |
| Text.ParseShowInt | converter/component.py:216 | `int(str(i)) == i` for every integer: the id text in a synthetic name reads back as that id. |
| Readers.ReadIntWord | converter/component.py:433-447 | Any token that `int()` accepts, written on a line, is read back as its value, with the cursor just after it. |
| Readers.ReadFloat | converter/component.py:450-467 | Succeeds iff a token exists and matches the grammar of Python's `float()`. The element keeps the token's text. |
| Text.ParseFloat | converter/component.py:467 | Accepts the ASCII `float()` literal grammar: a sign; digits with underscores, a point and an exponent; or `inf`, `infinity` or `nan` in any case. The lexeme is kept. |
| Readers.VectorBody | converter/component.py:487-502 | The loop after `[`: it only reads forward, the collected tokens hold no `]`, and running out of lines is its only failure. |
| Readers.VectorBodyConsumes | converter/component.py:487-502 | It succeeds iff a `]` lies ahead in the stream. It then takes exactly the tokens before the first `]`, and that `]`, across any number of lines. |
| Readers.ReadVector | converter/component.py:470-502 | Fails with the position and token unless the first token is `[`. A result reads only forward and holds no `]`. |
| Readers.ReadVectorConsumes | converter/component.py:484-502 | After a leading `[`, the read succeeds iff a `]` follows in the stream. The stream is then `[`, then the elements in order, then `]`, then what the returned cursor still holds. |
| Readers.ReadVectorReadsBack | converter/component.py:470-502 | A stream that starts `[`, elements without `]`, `]` reads back as exactly those elements, and the cursor stands just after the `]`. |
| Readers.ParseInts | converter/component.py:519-520 | Succeeds iff `int()` accepts every element. The result has one value per element, in order. A failure names an element `int()` rejects. |
| Readers.ReadVectorInt | converter/component.py:505-520 | Succeeds iff the vector is read and every element is an integer. The result is the converted elements, and the cursor reads only forward. |
| Readers.ParseFloats | converter/component.py:537-538 | Succeeds iff `float()` accepts every element. The result keeps each element's text, in order. A failure names an element `float()` rejects. |
| Readers.ReadVectorFloat | converter/component.py:523-538 | Succeeds iff the vector is read and every element is a float. The result is the converted elements, and the cursor reads only forward. |
| Readers.MatrixRow | converter/component.py:579-591 | One row within a line. Every element passed `float()`. A row ended by a line break holds at least one element, and the position never moves back. The only failure is an element `float()` rejects. |
| Readers.MatrixRowEnds | converter/component.py:579-591 | How a row ended can be seen in the line: a row that ran off the line stands at its end; a closed row stands just after a `]` that is followed by whitespace or the line end; a row ended by a line break stands at a non-space character or the line end, after whitespace that holds a `\n`. |
| MatrixText.RowReadsBack | converter/component.py:579-591 | Float words, each followed by whitespace, where only the last run of whitespace holds a `\n` (or none does, and the row closes with `]` or runs off the line), read back as exactly those elements with that ending. So a row ends at the first element followed by a `\n`, and not earlier. |
| MatrixText.RowLineReadsBack | converter/component.py:579-591 | A row line as Kaldi prints it (two spaces, each element followed by a space, then the line break) reads back as its elements, ended by the line break at the line's end. |
| MatrixText.LastRowLineReadsBack | converter/component.py:579-591 | The last row line, which carries the closing `]` before its line break, reads back as its elements as a closed row, with the position just after the `]`. |
| Readers.MatrixRowConsumes | converter/component.py:579-591 | The row's elements, and its closing `]` if it has one, are exactly the line tokens it passes, apart from `[`. A row that ran off the line leaves no token on it. |
| Readers.MatrixRows | converter/component.py:576-600 | The rows up to `]` are read forward only, and no kept row is empty. Running out of lines, or a bad float, is the only failure. |
| MatrixText.LinesReadBack | converter/component.py:576-600 | Starting where only whitespace is left on the line, lines that each read as one row from their start (each ended by its line break, and the last one closed) read as exactly those rows, and reading stops just after the last `]`. |
| MatrixText.MatrixLinesRead | converter/component.py:576-600 | Kaldi's row lines for non-empty rows of float words are read, line by line, as those rows, the last one closed. |
| MatrixText.MatrixRowsReadsBack | converter/component.py:576-600 | After the `[`, a matrix printed one row per line reads back as exactly its rows, in order, with the cursor just after the final `]`. |
| Readers.MatrixRowsConsumes | converter/component.py:576-600 | Across any number of lines, the rows take their elements in order and then the closing `]`. Apart from those, only `[` tokens are passed over. |
| Readers.Transpose | converter/component.py:602 | For rectangular rows, `result[j][i] == rows[i][j]`, with the dimensions swapped. |
| Readers.TransposeTwice | converter/component.py:602 | Transposing rectangular, non-empty rows twice gives them back. |
| Readers.ReadMatrixTrans | converter/component.py:559-602 | Fails unless the first token is `[`. A result is rectangular with non-empty rows, reads only forward, and its transpose is exactly the row list read. Ragged rows are an error. |
| MatrixText.ReadMatrixReadsBack | converter/component.py:559-602 | A rectangular matrix of float words printed as Kaldi prints it (`[` ending a line, then one line per row, `]` closing the last) is read back as the transpose of its rows, with the cursor just after the `]`. |
| MatrixText.TwoByTwoExample | converter/component.py:559-602 | The text `[ 1 2 \n 3 4 ]` reads as `[[1, 3], [2, 4]]`, ending at position 13. |
| Readers.ReadMatrixConsumes | converter/component.py:573-602 | It consumes `[`, then the elements of the result's transpose row after row, then `]`; only `[` tokens are passed over besides. |
| Components.NewComponent | converter/component.py:29-49 | A new component has the given id, name, inputs and type, no dimension, no attributes and no constants. |
| Components.BaseActions | converter/component.py:118-128 | The table is well formed: its keys are `<...>` tags, `dim` is read as an int, the promoted keys as arrays and `bias` as a float vector. Its entries themselves are its definition. |
| Components.AffineActions | converter/component.py:322-329 | The table is well formed, as above. Its entries themselves are its definition. |
| Components.BatchNormActions | converter/component.py:335-343 | The table is well formed, as above. Its entries themselves are its definition. |
| Components.TdnnActions | converter/component.py:357-364 | The table is well formed, as above. Its entries themselves are its definition. |
| Components.Actions | converter/component.py:148 | Every class's table is well formed: keys are `<...>` tags, `dim` is read as an int, the promoted keys as arrays, and `bias` as a float vector. |
| Components.TableKeys | converter/component.py:162-165 | The keys a table can store are exactly the keys its entries name. |
| Components.RunReader | converter/component.py:162-165 | The value and the cursor are the chosen reader's own result, the value wrapped in that reader's case. It succeeds exactly when that reader does, and the cursor only moves forward. |
| Components.BatchNormTableCoversAdjustment | converter/component.py:346-351 | The batch-norm table can store every key its adjustment looks up. |
| Components.RegistryTagsAreValid | converter/component.py:605-616 | Every registered type, written as a tag, passes `read_component_type`, and maps to one of the four table classes. |
| Components.InputComponent | converter/component.py:190-199 | Keeps the id and name it is given, with no node type, no inputs and no attributes. The dimension is the one given. |
| Components.AppendComponent | converter/component.py:209-216 | The name is `append_` followed by text that reads back as the id, and the inputs are kept. |
| Components.OffsetComponent | converter/component.py:226-236 | The name is the input, `.offset.`, then text that reads back as the offset. The single input is the given one. |
| Components.ReplaceIndexComponent | converter/component.py:246-261 | The name is the input, `.ReplaceIndex.`, then the variable name and the time index. |
| Components.ScaleComponent | converter/component.py:271-280 | The name is the input, `.scale.`, then the scale's text. |
| Components.SpliceComponent | converter/component.py:290-303 | The name is `splice_` followed by text that reads back as the id. Inputs and context are kept. |
| Components.SumComponent | converter/component.py:309-316 | Node type `Sum` and inputs as given. The name is empty for no inputs and is the single input when there is one. Otherwise it starts with the first input and `.sum.`. |
| Components.AppendNamesDistinct | converter/component.py:216 | Two append components share a name iff they share an id. |
| Components.SpliceNamesDistinct | converter/component.py:302 | Two splice components share a name iff they share an id. |
| Components.AppendIsNotSplice | converter/component.py:216 | No append component is named like a splice component. |
| Components.OffsetNamesDistinct | converter/component.py:234 | Offsets of one input share a name iff the offsets are equal. |
| Components.ScaleNamesDistinct | converter/component.py:279 | Scales of one input share a name iff the scale texts are equal. |
| Components.SumNames | converter/component.py:316 | The sum of `[a, b]` is named `a.sum.b`. One more input appends `.sum.` and its name. |
| Attributes.AttrLoop | converter/component.py:150-165 | Keys the table cannot write keep their values, and nothing outside the old keys and the table's keys appears. |
| Attributes.AttrLoopStores | converter/component.py:150-165 | When the next token is a table tag that does not terminate, and its reader succeeds, the loop stores the value under the tag's key and continues from where the reader stopped. |
| Attributes.AttrLoopStoresVector | converter/component.py:150-165 | A stream of a float-vector tag, `[`, float words and `]`: the loop stores that vector under the tag's key and continues with the stream after the `]`. |
| Attributes.AttrLoopStoresMatrix | converter/component.py:150-165 | A matrix tag followed by a matrix as Kaldi prints it: the loop stores the transposed rows under the tag's key and continues just after the closing `]`. |
| Attributes.AttrLoopFits | converter/component.py:162-165 | Every value the loop leaves was there at the start or was produced, in its reader's shape, by a table entry for that key. |
| Attributes.AttrLoopEndsAtTerminator | converter/component.py:150-153 | A finished loop only moved forward, and the last token it consumed is a terminating token. |
| Attributes.AttrLoopSkipsUnknown | converter/component.py:150-165 | Tokens that neither terminate nor name a table entry are passed over, pulling lines as needed. The attributes come back unchanged, and the cursor stands right after the first terminating token. |
| Attributes.AttrLoopRunsOut | converter/component.py:155-160 | With no terminating token and no table tag ahead, the loop fails because the lines run out. |
| Attributes.ReaderConsumes | converter/component.py:164 | Every reader leaves a suffix of the token stream. |
| Attributes.AttrLoopIsWrites | converter/component.py:150-165 | The loop is its ordered list of stores applied to the starting attributes. Its successes and failures are those of the store list. |
| Attributes.ApplyLastWins | converter/component.py:165 | After a list of stores, a key holds its last store. A key that was never stored keeps its old value or stays absent. |
| Attributes.AttrLoopLastWriteWins | converter/component.py:150-165 | After the loop, each stored key holds the value of its last store. Keys never stored are present iff they were before. |
| Attributes.FirstMissing | converter/component.py:348-351 | `None` iff every key is present. Otherwise it names the first absent key, every earlier key being present. |
| Attributes.Broadcast | converter/component.py:348-350 | numpy broadcasting of two shapes succeeds iff every pair of dimensions aligned from the end is equal or has a 1; the result has as many dimensions as the longer shape. |
| Attributes.BroadcastSymmetric | converter/component.py:348-350 | Broadcasting does not depend on the order of the two operands. |
| Attributes.Adjust | converter/component.py:346-351 | Only batch norm changes anything. It succeeds exactly when all four keys are present and every `np.add`/`np.multiply` broadcasts. A reported missing key is always the first absent one in lookup order. With every key present, the only failure is the broadcast error. On success `stats_mean` becomes the scale and `stats_var` the shift, with the key set and all other values unchanged. |
| Attributes.AdjustFollowsSteps | converter/component.py:348-350 | The adjustment fails exactly when evaluating the lines in Python's order raises, and with the same error. That order is each lookup, then `np.add` of `stats_var` and `epsilon`, then `np.multiply` with `target_rms`, then `np.multiply` with `stats_mean`. |
| Attributes.EarlyBroadcastFailure | converter/component.py:348 | A 2-element `stats_var` with a 3-element `epsilon` raises the broadcast error at `np.add`, even though `target_rms` is missing. |
| Attributes.StatsBroadcastVectors | converter/component.py:348-350 | With a float epsilon and target RMS and float vectors of statistics, the adjustment broadcasts iff the two vectors have equal lengths or one of them has length 1. |
| Attributes.MismatchedStatistics | converter/component.py:350 | Statistics of lengths 2 and 3 make the adjustment fail with the broadcast error. |
| Attributes.LiftDim | converter/component.py:169-171 | A read `dim` becomes the dimension and leaves the attributes. All other attributes, the inputs and the constants are unchanged. |
| Attributes.ConstName | converter/component.py:181 | The constant is named `<name>_<key>`. |
| Attributes.ConstNameInjective | converter/component.py:181 | Different keys give different constant names. |
| Attributes.PromoteOne | converter/component.py:175-184 | The key leaves the attributes. If it is present and not an empty bias, its constant name is appended to the inputs and its value stored under that name. Otherwise the inputs and constants are unchanged. |
| Attributes.PromoteAll | converter/component.py:173-184 | Every listed key leaves the attributes. Unlisted attributes are untouched, and the identity and dimension are kept. |
| Attributes.PromotedSpec | converter/component.py:174-177 | The promoted keys are exactly the listed keys that are present and are not an empty bias. |
| Attributes.PromoteAllInputs | converter/component.py:173-184 | The inputs gain the constant names of the promoted keys, in key order, and nothing else. An empty bias adds none. |
| Attributes.PromoteAllConsts | converter/component.py:173-184 | Each promoted key's value is stored under its constant name. Earlier constants are kept, and no other constant appears. |
| Attributes.ReadAttributes | converter/component.py:134-184 | The loop's and the adjustment's errors are passed on. A result has no `dim` and no promoted key among its attributes, keeps its identity, extends the inputs, and returns the loop's cursor. |
| Attributes.ReadAttributesFinish | converter/component.py:167-184 | After the loop and the adjustment, the result is the adjusted, lifted component promoted over `params`, `bias`, `stats_mean` and `stats_var`. |
| Attributes.PromoteTwo | converter/component.py:173-184 | When exactly two keys are promoted, their constant names follow the inputs in key order and carry the keys' values. |
| Attributes.AffineFinish | converter/component.py:167-171 | An affine component's matrix and non-empty bias survive the adjustment and the `dim` lift, and are the keys promoted. |
| Attributes.AffinePromotion | converter/component.py:173-184 | A read affine component with a matrix and a non-empty bias gets the inputs `<name>_params` and `<name>_bias`, in that order, holding those arrays. |
| Attributes.BatchNormFinish | converter/component.py:346-351 | With all four statistics read, finishing succeeds iff the statistics broadcast, and fails with the broadcast error otherwise. On success `stats_mean` holds the scale and `stats_var` the shift, and both are promoted. |
| Attributes.BatchNormPromotion | converter/component.py:173-184 | A read batch-norm component succeeds iff its statistics broadcast, and fails with the broadcast error otherwise. On success it gets the inputs `<name>_stats_mean` and `<name>_stats_var`, in that order, holding the scale and the shift. |
| Attributes.BatchNormStatsAgree | converter/component.py:134-184 | A batch-norm component read from scratch, once all four statistics are read, holds float vectors for them, and reading succeeds iff their lengths are equal or one is 1; otherwise it fails with the broadcast error of line 350. |

## Left out

- File reading is not modelled. The line buffer is the sequence of lines not yet handed out. `next(line_buffer)` raising `StopIteration` at the end, and the `check` helper from `converter/utils`, both become `Err` results.
- Float values and float32 rounding are not modelled. A float element keeps the token text that `float()` accepted (`Text.Float`). numpy arrays become sequences, and the `dtype` conversions are left out.
- Attributes.Adjust: the batch-norm arithmetic (`np.add`, `np.power(-0.5)`, `np.multiply`, negation) is kept symbolic. The new `stats_mean` and `stats_var` are the `BatchNormScale` and `BatchNormShift` values over their operands, not computed numbers. Only the shapes are computed, and only the broadcast error is modelled. A negative variance plus epsilon gives `nan` under `np.power(-0.5)`. This is not modelled, because the arithmetic is symbolic.
- Text.ParseInt: Python's `int()` also accepts non-ASCII Unicode digits. Only ASCII digits are modelled.
- Text.ParseFloat: Python's `float()` first maps non-ASCII Unicode decimal digits and whitespace to ASCII, so `float("١.٥")` is 1.5. Only ASCII digits and ASCII whitespace are modelled, and such tokens are rejected.
- Readers.MatrixRow: its own contract does not say where a row ends. That is stated by Readers.MatrixRowEnds for every line, and as an exact read-back by MatrixText.RowReadsBack for rows of float words.
- Readers.MatrixRows: its own contract does not say where the rows split. The exact rows are stated by MatrixText.LinesReadBack and MatrixText.MatrixRowsReadsBack for text laid out one row per line, as Kaldi prints it. Other layouts, such as several rows on one line or `[` tokens inside rows, are covered only by the row-end facts of Readers.MatrixRowEnds.
- Readers.ReadMatrixTrans: its own contract ties the result to Readers.MatrixRows, not to the text. The text-level statement is MatrixText.ReadMatrixReadsBack, for matrices printed as Kaldi prints them.
- Components.OffsetComponent: the offset is modelled as an integer, printed as Python's `str(int)`. A float offset would be printed by Python's float repr, which is not modelled.
- Components.ScaleComponent: the scale is taken as the text Python renders for it, because Python's float repr is not modelled.
- Readers.ReadMatrixTrans: rows of unequal length are an error (`RaggedMatrix`), standing for the failure of `np.array` on a ragged list. An empty matrix gives the empty sequence; the numpy shapes `(0,)` and `(n, 0)` are not told apart.
- Attributes.EmptyArray: `shape[0] == 0` is modelled for vectors and matrices only. A scalar has no `shape`, but the tables never bind `bias` to a scalar reader (`Components.Actions`).
- Attributes.ReadAttributes: Python mutates the component in place and returns nothing, and the caller's `line` and `pos` are not updated. The model returns the finished component together with the cursor where the loop stopped.
- `OutputComponent` (converter/component.py, lines 202-203) only names a class. It is the `Output` kind, with the base table.
- The order of Python dict iteration is not modelled: the attributes and constants are maps.
- Aliasing of the caller's `inputs` list, which `read_attributes` appends to in place, is not modelled.
