# raygen, modelled in Dafny

raygen turns a list of items into Raycast script commands. Each item has a
title, a command and optional metadata. The input is a CSV or TSV file (with
or without a header row), an NDJSON file (one JSON object per line) or a
JSON document (`{"items": [...], "params": {...}, ...}`). Each item becomes
one shell script made of four parts:

- a shebang line;
- a block of `# @raycast.<key> <value>` directive lines;
- a blank line;
- the item's command.

Values given on the command line fill in and override the values read from
the input.

The project models the item pipeline of `raygen/io.py` with the helpers of
`raygen/utils.py` and the records of `raygen/models.py`:

- `results.dfy`, `errors.dfy`: `Option`/`Result`, and the error kinds the
  pipeline raises (the Python `ValueError`, `KeyError` and `TypeError`
  exits, and the unknown-format exit).
- `text.dfy`: ASCII `lower()`, `str.join` and splitting on a separator,
  and `str()` of an integer with its inverse.
- `values.dfy`: a decoded JSON or command-line value. It carries Python
  truthiness, `dict.get`, and the dict built from ordered key/value pairs,
  in which a later key wins.
- `utils.dfy`: `snake_case`, and `complete_dict`. The dict that
  `complete_dict` updates in place is a class `Dict`, and `CompleteDict` is
  its loop, proved against the specification function `Completed`.
- `models.dfy`: the four dataclasses, and `Cls(**fields)` as a function
  with the dataclass's required fields, its defaults and its
  unexpected-keyword error.
- `parsers.dfy`: `parse_csv_input` (both branches), `ndjson_loader` and
  `parse_json_input`. A reader's result is what `list(...)` forces out of
  the generator: every item, or the error of the first record that fails.
- `pipeline.dfy`: the format dispatch and the two `complete_dict` merges
  of `parse_items`. `complete_items` is a method over an array of items
  updated in place. `ParseItems` is proved equal to the specification
  function `Resolve`.
- `render.dfy`: the text half of `generate_scripts`. It covers the file
  name, the directive lines, `json.dumps` of an argument and `TEMPLATE`.
  `GenerateScripts` is the loop, with the shared `global_parameters` list
  carried across iterations. It is proved equal to the specification
  function `Scripts`, and the properties of the scripts are proved about
  `Scripts`.
- `jsonread.dfy`: a decoder for JSON strings (section 7 of RFC 8259) and a
  reader for the options object of an `argument<n>` line, laid out as the
  writer lays it out. It is the inverse that the round-trip lemmas for
  `json.dumps` are stated against; raygen itself never reads the lines
  back.

Details of the code that the model keeps:

- **Precedence.** A truthy command-line value beats the document's value,
  because `complete_dict` is called with the command-line dict first
  (raygen/io.py:89-110). A truthy command-line value also replaces the
  item's own value (raygen/io.py:128-138).
- **Booleans.** `needs_confirmation` from the command line can only turn
  an item's flag on. The result is the OR of the two values.
- **File names.** A file name is the title with each space replaced by
  `-`, lowercased, with `.sh` appended (raygen/io.py:174). No other
  character is changed.
- **Directive order.** The directives run: `schemaVersion`, `mode`,
  `packageName`, `author`, `authorURL`, then any `needsConfirmation` lines,
  `title`, the arguments, `description`, `currentDirectoryPath`, `icon`,
  `iconDark`. An item asking for confirmation appends
  `needsConfirmation true` to the shared list (raygen/io.py:193-194).
  The line therefore appears in every later script and never in the item's
  own, unless an earlier item added one already.
- **Header-less CSV/TSV.** A row needs at least two columns. A third
  column becomes the description and further columns are ignored
  (raygen/io.py:52-58).
- **Header row.** A header row must name `title` and `command`. A column
  that is not a field of `RaycastItem` is an unexpected-keyword error. A
  row longer than the header is an error. Blank rows are skipped. After
  the header rows, the code builds a new csv reader over the same file
  (raygen/io.py:52). The first reader has already consumed the file, so
  the second one yields no row and adds nothing (raygen/io.py:44-58).
- **When errors surface.** A missing title or command is an error while
  the input is parsed, not later when the script is rendered.

## Model

| member | source | states |
|---|---|---|
| Text.Lower | raygen/io.py:174 | `lower()` keeps the length and lowercases each ASCII capital, leaving every other character as it is |
| Text.IntToStringRoundTrip | raygen/io.py:161 | the decimal text written for the schema version reads back as the same integer |
| Values.ToMapKeys | raygen/io.py:38-39 | the dict built from key/value pairs has exactly the keys of the pairs |
| Values.ToMapLast | raygen/io.py:38-39 | a key keeps the value of its last pair: a later duplicate wins, as in a dict comprehension |
| Utils.SnakeCase | raygen/utils.py:4-5 | the result has no uppercase ASCII letter |
| Utils.InsertUnderscores | raygen/utils.py:5 | the first character stays first, and the result is one `_` longer per capital after position 0 |
| Utils.SnakeCaseLength | raygen/utils.py:5 | the result is as long as the input plus one `_` for each capital after position 0; the empty string stays empty |
| Utils.SnakeCaseFirst | raygen/utils.py:5 | no `_` goes in front: the first character is the lowercased first input character |
| Utils.SnakeCaseOfNoUpper | raygen/utils.py:5 | a string without capitals is returned unchanged |
| Utils.SnakeCaseIdempotent | raygen/utils.py:5 | snake-casing twice equals snake-casing once |
| Utils.SnakeCaseTwoWords | raygen/utils.py:5 | a lowercase word followed by a capitalised one becomes `word_other` (so `schemaVersion` becomes `schema_version`) |
| Utils.Completed | raygen/utils.py:8-13 | a key that is falsy in `a` and truthy in `b` takes `b`'s value; every other key keeps its presence and its value in `a` |
| Utils.CompletedKeepsTruthy | raygen/utils.py:11 | a key truthy in `a` is never changed |
| Utils.CompletedFills | raygen/utils.py:11-12 | a key falsy in `a` and truthy in `b` ends with `b`'s value |
| Utils.CompletedUntouched | raygen/utils.py:9-12 | a key absent from `b`, or falsy there, is neither added nor changed |
| Utils.CompletedIdempotent | raygen/utils.py:8-13 | completing twice with the same `b` equals completing once |
| Utils.CompletedEmpty | raygen/utils.py:8-13 | completing from an empty dict changes nothing |
| Utils.CompleteDict | raygen/utils.py:8-13 | the loop over `b`'s keys updates `a` in place to `Completed(old a, b)` and returns the same object |
| Models.ItemFromFields | raygen/models.py:22-31 | an unknown key is an unexpected-keyword error; a missing title or command is a missing-argument error; otherwise each field takes its value or its default (`None`, `False`, an empty argument list) |
| Models.ItemDefaults | raygen/models.py:22-31 | an item given only a title and a command has every other field at its default |
| Models.ParamsFromFields | raygen/models.py:13-19 | `mode` is required; `schema_version` defaults to 1 and the three optional strings default to `None`; unknown keys are rejected |
| Models.RaygenFromFields | raygen/models.py:34-39 | all four fields are required and unknown keys are rejected; the fields carry the given values |
| Parsers.Collect | raygen/io.py:98 | forcing a reader yields every record's item in order exactly when every record builds; otherwise it yields the first failing record's error |
| Parsers.PositionalItem | raygen/io.py:53-58 | a row of fewer than two columns fails; otherwise column 0 is the title, column 1 the command, column 2 (if any) the description, and every other field keeps its default |
| Parsers.PositionalItems | raygen/io.py:52-58 | a header-less file parses exactly when every row has at least two columns; the only error is the too-few-columns one; each row gives its item, in order |
| Parsers.ZipFields | raygen/io.py:45-51 | every key of a row's dict is a header name; the last column's name holds that column's cell, or `None` past the row's end |
| Parsers.ZipFieldsKeys | raygen/io.py:45-51 | a header row's record has exactly the header's names as keys |
| Parsers.ZipFieldsAt | raygen/io.py:45-51 | a column takes the row's cell (missing cells are `None`); a repeated name keeps its last column |
| Parsers.RowFields | raygen/io.py:45-51 | a row fails exactly when it is longer than the header; otherwise its dict has exactly the header's names as keys |
| Parsers.HeaderRowItem | raygen/io.py:50-51 | a row longer than the header fails; any other row gives exactly the item its zipped dict builds; a row that builds comes from a header whose names are all item fields, `title` and `command` among them |
| Parsers.HeaderUnknownColumn | raygen/io.py:50-51 | a header column that is not an item field makes every row fail with an unexpected-keyword error |
| Parsers.HeaderRowItemSpec | raygen/io.py:50-51 | a row that builds takes its title and command from the `title` and `command` columns |
| Parsers.NonEmptyRows | raygen/io.py:50 | the rows the header reader visits are exactly the non-blank rows, none added |
| Parsers.NonEmptyRowsAppend | raygen/io.py:50 | skipping blank rows keeps the order of the others |
| Parsers.HeaderItems | raygen/io.py:44-51 | a header without `title` or `command` is an error; otherwise the i-th item is the one built from the i-th non-blank data row, and an error is that of the first non-blank row that fails |
| Parsers.HeaderItemsOk | raygen/io.py:44-51 | under a header naming `title` and `command`, the file parses exactly when every non-blank data row builds |
| Parsers.MinimalHeaderRow | raygen/io.py:50-51 | the header `title,command` and a row `t,c` build the item with title `t`, command `c` and every other field at its default |
| Parsers.MinimalCsv | raygen/io.py:43-51 | the file `title,command` / `t,c` read with a header row is exactly that one item |
| Parsers.ParseCsv | raygen/io.py:43-58 | with a header row the result is the header branch's alone: the positional loop over the consumed file adds no item and no error, because no row is left for it; without one it is the positional loop's |
| Parsers.NdjsonItem | raygen/io.py:23-27 | an undecodable line or a non-object is an error; an object without `title` or `command` is the missing-field error; any other object gives exactly the item its keys build |
| Parsers.ParseNdjson | raygen/io.py:22-32 | NDJSON parses exactly when every line builds; items pair up with lines; the error is that of the first line that fails; no parameters come with it |
| Parsers.MinimalNdjson | raygen/io.py:22-32 | a file of the one line `{"title": t, "command": c}` is that one item with defaults, and no parameters |
| Parsers.SnakeKeys | raygen/io.py:38-39 | the dict's keys are the snake-cased input keys, none with a capital; each holds the value of the last pair that snake-cases to it |
| Parsers.Without | raygen/io.py:33-35 | popping `items` and `params` keeps exactly the other pairs |
| Parsers.WithoutAppend | raygen/io.py:33-35 | popping keys keeps the remaining pairs in their order |
| Parsers.ItemRecords | raygen/io.py:37 | `for item in items` visits a list's elements; a dict or a string can be iterated; anything else fails |
| Parsers.JsonItem | raygen/io.py:37 | only an object unpacks into an item; a built item takes its title and command from that object |
| Parsers.ParseJsonDocument | raygen/io.py:33-40 | an undecodable document, a non-object or a missing `items` is an error; no parameter key has a capital; a missing `params` gives no script parameters |
| Parsers.JsonDocumentOk | raygen/io.py:33-40 | a document with `items` parses exactly when `items` can be iterated, every record builds and `params` (if present) is an object; otherwise the error is the not-a-list one, else the first failing record's, else the not-an-object one |
| Parsers.MinimalRecord | raygen/io.py:23-37 | the record `{"title": t, "command": c}` builds the item with every other field at its default, as a document element and as an NDJSON line |
| Parsers.MinimalDocument | raygen/io.py:33-40 | `{"items": [{"title": t, "command": c}]}` reads as that one item with empty parameter dicts |
| Parsers.JsonDocumentRunKeys | raygen/io.py:33-39 | the run parameters are exactly the snake-cased top-level keys other than `items` and `params`; each holds the value of the last such key that snake-cases to it |
| Parsers.JsonDocumentParams | raygen/io.py:35-38 | a present `params` is an object; the script parameters are its snake-cased keys, each holding the value of the last key that snake-cases to it |
| Parsers.JsonDocumentItems | raygen/io.py:34-37 | a list `items` gives one item per element, each element an object whose keys build the item |
| Parsers.SnakeKeysWithoutAt | raygen/io.py:33-39 | after popping keys and snake-casing, a kept key holds the value of its last kept pair |
| Pipeline.FormatFromName | raygen/io.py:69-87 | a name selects a format exactly when it is `csv`, `tsv`, `json` or `ndjson`; any other name is the unknown-format error |
| Pipeline.FormatNameRoundTrip | raygen/io.py:69-84 | every format is selected by its own name |
| Pipeline.ChosenFormat | raygen/io.py:65 | a non-empty `--input-format` decides the format; otherwise the file's suffix does |
| Pipeline.ParseInput | raygen/io.py:66-84 | only a JSON document brings parameters; the other formats leave both parameter dicts empty |
| Pipeline.RaygenDefaults | raygen/io.py:89-96 | the command-line dict for the run parameters has exactly `RaygenParams`' fields |
| Pipeline.RaycastDefaults | raygen/io.py:101-109 | the command-line dict for the script parameters has exactly `RaycastParams`' fields |
| Pipeline.CliArgument | raygen/io.py:120-127 | a command-line argument exists exactly when `--argument` is truthy; it carries that placeholder and the encode, secure and optional flags |
| Pipeline.CompleteItem | raygen/io.py:128-138 | a present command-line argument replaces the argument list; the confirmation flag is the OR of both; a present directory or icon replaces the item's; title, command and description are kept |
| Pipeline.CompleteItemIdempotent | raygen/io.py:128-138 | completing an item twice equals completing it once |
| Pipeline.CompleteItems | raygen/io.py:119-138 | the loop updates every item of the array in place to its completed form |
| Pipeline.CompletedCopy | raygen/io.py:98-100 | forcing the items into a list and completing it in place gives every item completed, in order |
| Pipeline.CompleteAll | raygen/io.py:98-100 | completion keeps the number of items and each item's title, command and description, in order |
| Pipeline.Resolve | raygen/io.py:61-116 | an unknown format name is the unknown-format error; for a known one, the reader's error is the run's error, and a reader that succeeds gives exactly its output assembled; a success has one of the four names |
| Pipeline.Assemble | raygen/io.py:89-116 | the assembly succeeds exactly when both parameter records build; the `RaygenParams` error is the one reported when it fails; one item per parsed item |
| Pipeline.AssembleInPlace | raygen/io.py:89-116 | the merges into in-place dicts and the three constructors give the run parameters, the script parameters and the completed items, or the constructors' first error |
| Pipeline.ParseItems | raygen/io.py:61-116 | `parse_items` as a whole: format choice, reading, merging and completion, equal to `Resolve` |
| Pipeline.ResolveUnknownFormat | raygen/io.py:85-87 | an unknown format name gives the unknown-format error carrying that name |
| Pipeline.AssembleCliWinsParams | raygen/io.py:101-110 | a truthy command-line mode, schema version, package name, author or author URL is the one used |
| Pipeline.AssembleCliWinsRun | raygen/io.py:89-97 | a truthy command-line output directory, shebang, clean flag or embeds list is the one used |
| Pipeline.AssembleDocumentFillsParams | raygen/io.py:101-110 | where the command line leaves mode, schema version, package name, author or author URL falsy, a truthy `params` value is the one used |
| Pipeline.AssembleDocumentFillsRun | raygen/io.py:89-97 | where the command line leaves output directory, shebang, clean flag or embeds falsy, a truthy top-level document value is the one used |
| Pipeline.ResolveLineFormatsUseCli | raygen/io.py:66-110 | for CSV, TSV and NDJSON both parameter records come from the command line alone |
| Pipeline.AssembleUnknownDocumentKey | raygen/io.py:89-113 | a truthy document key that `RaygenParams` does not know ends the run with an unexpected-keyword error |
| Pipeline.AssembledItems | raygen/io.py:98-100 | the resolved items are the parsed items, each completed from the command line, in order |
| Render.ScriptFilename | raygen/io.py:174 | the name is the title with each space made `-`, capitals lowercased and nothing else changed, then `.sh`; it has no space and no capital |
| Render.FilenameCollision | raygen/io.py:174 | titles differing only in case or in space versus `-` get the same file name |
| Render.PathName | raygen/io.py:202-206 | the icon's name has no `/` and is never `.` |
| Render.PathNameOfPlainName | raygen/io.py:202-206 | a bare file name is its own name |
| Render.PathNameAfterDirectory | raygen/io.py:202-206 | a path `dir/name` is named `name` |
| Render.EscapeChar | raygen/io.py:187 | a printable character other than quote and backslash is written as itself; every other character is written as an escape starting with a backslash; quote and backslash get a backslash in front |
| Render.JsonString | raygen/io.py:187 | a JSON string is quoted and all printable ASCII, as with `ensure_ascii` |
| Render.JsonStringOfPlain | raygen/io.py:187 | text without quote, backslash, control or non-ASCII characters is written between quotes unchanged |
| Render.EscapeQuote | raygen/io.py:187 | a double quote or a backslash in a string is written with a backslash in front |
| Render.ArgumentJson | raygen/io.py:180-187 | an argument's options are written as one JSON object, from `{` to `}` |
| Render.ArgumentJsonPrintable | raygen/io.py:180-187 | an argument's JSON object is printable ASCII, so it stays on its directive line |
| JsonRead.ReadJsonString | raygen/io.py:187 | decoding a JSON string gives back the text `json.dumps` encoded and leaves what follows the closing quote |
| JsonRead.ArgumentJsonRoundTrip | raygen/io.py:180-187 | reading an argument's options object back gives the same placeholder and the same three flags, so the line loses nothing |
| JsonRead.Hex4RoundTrip | raygen/io.py:187 | four hexadecimal digits of a `\uXXXX` escape read back as the code unit written |
| JsonRead.CombineSplit | raygen/io.py:187 | a character beyond U+FFFF split into its surrogate pair combines back into itself |
| Render.LineRoundTrip | raygen/io.py:161-213 | a directive line reads back as its key's name and its value |
| Render.KeyOfName | raygen/io.py:160-213 | each key is read back from its name, so no two keys share a name |
| Render.DirectiveRoundTrip | raygen/io.py:175-213 | a directive line reads back as the directive it was written from |
| Render.GlobalDirectives | raygen/io.py:160-171 | the shared lines are `schemaVersion` and `mode`, then one line for each of package name, author and author URL that is truthy, `packageName` first, `author` next and `authorURL` last, each carrying its value |
| Render.ScriptDirectives | raygen/io.py:175-213 | a script's directives open with the shared list as it stands (the global lines and the confirmation lines so far), and hold one line per title, argument and truthy optional field after it |
| Render.Template | raygen/io.py:13-19 | a script starts with the shebang line and ends with an empty line, the command and a newline |
| Render.LinesRoundTrip | raygen/io.py:220 | every line of a directive block reads back as its directive |
| Render.ItemParameters | raygen/io.py:175-213 | an item's parameter lines are the shared lines, then `title`, the arguments, then the optional fields |
| Render.AppendArguments | raygen/io.py:179-187 | the argument loop appends `argument1`..`argumentN` with each argument's JSON |
| Render.GenerateScripts | raygen/io.py:160-223 | the loop writes one file per item, in order, named and filled as `Scripts` says, with the shared list carried across items |
| Render.Scripts | raygen/io.py:173-223 | a run writes one file per item |
| Render.ScriptsNamed | raygen/io.py:173-223 | the i-th write is named after the i-th item's title and ends with that item's command |
| Render.TemplateLines | raygen/io.py:13-19 | a script splits into the shebang line, the parameter lines, one blank line, the command's lines and the final newline |
| Render.ScriptText | raygen/io.py:215-223 | each script's lines are the shebang line, its directive lines (each reading back as its directive), a blank line and the command |
| Render.ScriptOpening | raygen/io.py:160-163 | every directive block opens with `schemaVersion` then `mode` |
| Render.ScriptTitle | raygen/io.py:175-178 | `title` comes right after the shared lines |
| Render.ScriptArguments | raygen/io.py:179-187 | after the title come `argument1`..`argumentN` in list order, each with its argument's JSON |
| Render.ItemTail | raygen/io.py:189-213 | the lines after the arguments are exactly: the description, the directory path, the icon's file name and the dark icon's file name, each present once exactly when its field is truthy |
| Render.ScriptTail | raygen/io.py:189-213 | a script's directives end, right after the arguments, with the item's own optional lines |
| Render.ScriptOrdered | raygen/io.py:160-213 | the directives follow the fixed key order throughout |
| Render.ScriptCounts | raygen/io.py:160-213 | `schemaVersion`, `mode` and `title` occur once; each optional key occurs once exactly when its field is truthy; the confirmation line occurs once per earlier flagged item |
| Render.ConfirmationCarriedForward | raygen/io.py:193-194 | a script carries one confirmation line per earlier flagged item, and carries none when no earlier item was flagged, whatever its own flag |
| Render.Written | raygen/io.py:215 | the directory holds one file per written name, with the content of the last write of that name |
| Render.WrittenNames | raygen/io.py:215 | the output directory holds exactly one file per distinct file name of the items |
| Render.WrittenScript | raygen/io.py:215-223 | an item's script is what its file holds, unless a later item has the same file name |

## Left out

- The filesystem is not modelled. This covers removing and creating the
  output directory, copying the embeds (with the missing-file check) and
  copying the icons (with the already-present check)
  (raygen/io.py:149-158, 202-205, 209-212). Opening and writing each file
  (raygen/io.py:215-223) is modelled as a sequence of (file name, content)
  writes. The directory that results is the map `Written`, in which a later
  write replaces an earlier one.
- The csv and json libraries are not modelled. Their output is the input
  of the model: the rows the csv reader yields for each delimiter, the
  decoded document, and each decoded line (`None` where decoding fails).
- Printing the unknown-format message and exiting the process become the
  error value `UnknownFormat(name)`.
- `raygen/cli.py` and `setup.py` are not part of this model. The parsed
  command line is the record `CliArgs`, and the input file's suffix is one
  of its fields.
- JSON numbers other than integers are not modelled.
- Only ASCII letters are handled by `lower()` and by the capitals that
  `snake_case` looks for.
- A lone surrogate in a string cannot occur, because Dafny characters are
  Unicode scalar values. `json.dumps` would escape one as `\udXXX`.
- Generators are modelled by the list they are forced into (raygen/io.py:98).
  The model captures which record's error surfaces first, not when.
- Models.ItemFromFields: rejects a field of the wrong type (a non-string
  title, say) with `FieldType`. A dataclass stores any value without
  checking it.
- Models.ItemFromFields: rejects a non-empty `arguments` list from the
  input. The source stores the plain dicts and fails only when the script
  is rendered. It does not fail at all when a command-line argument
  replaces the list.
- Models.ParamsFromFields: rejects a field of the wrong type with
  `FieldType`, where the dataclass would store it.
- Models.RaygenFromFields: rejects a field of the wrong type with
  `FieldType`, where the dataclass would store it.
- Parsers.NdjsonItem: a decoded line that is not an object is reported
  as `NotAnObject`. Python may fail earlier, in the `key not in item` test.
  It may also accept a string that contains both words and then fail in
  the constructor. Every such line is an error either way; only the error
  kind differs.
- The error kinds are coarse. They stand for the exceptions raised; the
  messages are not modelled.
