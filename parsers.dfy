/** The readers of raygen/io.py: `parse_csv_input` (CSV and TSV, with or
    without a header row), `ndjson_loader` and `parse_json_input`. A reader
    is a generator; what is modelled is the list that `list(...)` forces out
    of it: every record's item in order, or the first record's error. */
module Parsers {
  import opened Results
  import opened Text
  import opened Values
  import opened Errors
  import opened Models
  import opened Utils

  /** What a reader hands back: the items, the document's `params` (for
      `RaycastParams`) and its other top-level keys (for `RaygenParams`). */
  datatype Parsed = Parsed(
    items: seq<RaycastItem>,
    raycastExtra: map<string, Value>,
    raygenExtra: map<string, Value>)

  /** Builds one item per record, in order, stopping at the first record
      that fails. */
  function Collect<T>(records: seq<T>, build: T -> Result<RaycastItem, Error>): (r: Result<seq<RaycastItem>, Error>)
    ensures r.Ok? <==> forall i :: 0 <= i < |records| ==> build(records[i]).Ok?
    ensures r.Ok? ==> |r.value| == |records|
    ensures r.Ok? ==> forall i :: 0 <= i < |records| ==> r.value[i] == build(records[i]).value
    ensures r.Err? ==> exists i :: 0 <= i < |records| && build(records[i]) == Err(r.error)
                                   && forall j :: 0 <= j < i ==> build(records[j]).Ok?
  {
    if records == [] then Ok([])
    else match build(records[0])
      case Err(e) => Err(e)
      case Ok(item) =>
        match Collect(records[1..], build)
        case Err(e) =>
          assert forall i :: 0 < i < |records| ==> records[i] == records[1..][i - 1];
          Err(e)
        case Ok(rest) =>
          assert forall i :: 0 < i < |records| ==> records[i] == records[1..][i - 1];
          Ok([item] + rest)
  }

  // ---------------------------------------------------------------- CSV/TSV

  /** The keyword dict of a header-less row: column 0 is the title, column 1
      the command, column 2 (when there is one) the description. */
  function PositionalFields(row: seq<string>): map<string, Value>
    requires |row| >= 2
  {
    var res := map["title" := Str(row[0]), "command" := Str(row[1])];
    if |row| > 2 then res["description" := Str(row[2])] else res
  }

  /** One row of the header-less loop (io.py:53-58): a row of fewer than
      two columns fails; otherwise the item takes its title, command and
      optional description from the first three columns, ignores the rest,
      and keeps every other default. */
  function PositionalItem(row: seq<string>): (r: Result<RaycastItem, Error>)
    ensures |row| < 2 ==> r == Err(TooFewColumns)
    ensures |row| >= 2 ==>
      r == Ok(RaycastItem(row[0], row[1], if |row| > 2 then Some(row[2]) else None, false, None, [], None, None))
  {
    if |row| < 2 then Err(TooFewColumns)
    else
      var f := PositionalFields(row);
      assert f.Keys <= ItemFields;
      assert ItemFieldsTyped(f);
      ItemFromFields(f)
  }

  /** The header-less loop (io.py:52-58). The file parses exactly when every
      row, blank lines included, has at least two columns, and then gives one
      item per row, in order. */
  function PositionalItems(rows: seq<seq<string>>): (r: Result<seq<RaycastItem>, Error>)
    ensures r.Ok? <==> forall i :: 0 <= i < |rows| ==> |rows[i]| >= 2
    ensures r.Err? ==> r.error == TooFewColumns
    ensures r.Ok? ==> |r.value| == |rows|
    ensures r.Ok? ==> forall i :: 0 <= i < |rows| ==>
      r.value[i] == RaycastItem(rows[i][0], rows[i][1], if |rows[i]| > 2 then Some(rows[i][2]) else None,
                                false, None, [], None, None)
  {
    Collect(rows, PositionalItem)
  }

  /** The dict `csv.DictReader` makes of a row no longer than its header:
      each column name maps to the row's value in that column, or to `None`
      past the end of the row; a repeated name keeps its last column. */
  function ZipFields(header: seq<string>, row: seq<string>): (r: map<string, Value>)
    ensures forall k :: k in r ==> k in header
    ensures |header| > 0 ==>
      header[|header| - 1] in r
      && r[header[|header| - 1]] == if |header| - 1 < |row| then Str(row[|header| - 1]) else Null
  {
    if header == [] then map[]
    else
      var n := |header| - 1;
      ZipFields(header[..n], row)[header[n] := if n < |row| then Str(row[n]) else Null]
  }

  /** No column after `j` has the same name as column `j`. */
  predicate LastColumn(header: seq<string>, j: int)
    requires 0 <= j < |header|
  {
    forall m :: j < m < |header| ==> header[m] != header[j]
  }

  /** The column names of a header. */
  function Names(header: seq<string>): set<string> {
    set j | 0 <= j < |header| :: header[j]
  }

  lemma {:induction false} ZipFieldsKeys(header: seq<string>, row: seq<string>)
    ensures ZipFields(header, row).Keys == Names(header)
  {
    if header != [] {
      var n := |header| - 1;
      ZipFieldsKeys(header[..n], row);
      assert Names(header) == Names(header[..n]) + {header[n]} by {
        forall k | k in Names(header) ensures k in Names(header[..n]) + {header[n]} {
          var j :| 0 <= j < |header| && header[j] == k;
          if j < n {
            assert header[..n][j] == k;
          }
        }
      }
    }
  }

  lemma {:induction false} ZipFieldsAt(header: seq<string>, row: seq<string>, j: int)
    requires 0 <= j < |header| && LastColumn(header, j)
    ensures header[j] in ZipFields(header, row)
    ensures ZipFields(header, row)[header[j]] == if j < |row| then Str(row[j]) else Null
  {
    var n := |header| - 1;
    var last := if n < |row| then Str(row[n]) else Null;
    assert ZipFields(header, row) == ZipFields(header[..n], row)[header[n] := last];
    if j < n {
      assert header[..n][j] == header[j];
      assert header[n] != header[j];
      assert LastColumn(header[..n], j);
      ZipFieldsAt(header[..n], row, j);
    }
  }

  /** `csv.DictReader`'s dict for one row: a row longer than its header
      stores the surplus under the key `None`, which no keyword accepts;
      otherwise the dict has exactly the header's names as keys. */
  function RowFields(header: seq<string>, row: seq<string>): (r: Result<map<string, Value>, Error>)
    ensures r.Err? <==> |row| > |header|
    ensures r.Err? ==> r.error == ExtraValues
    ensures r.Ok? ==> r.value.Keys == Names(header)
  {
    ZipFieldsKeys(header, row);
    if |row| > |header| then Err(ExtraValues) else Ok(ZipFields(header, row))
  }

  /** One row of the header loop (io.py:50-51): a row longer than the
      header fails; any other row is `RaycastItem(**row)` of its zipped
      dict, so a row that builds an item came from a header whose every
      name is a field of `RaycastItem`, `title` and `command` included. */
  function HeaderRowItem(header: seq<string>, row: seq<string>): (r: Result<RaycastItem, Error>)
    ensures |row| > |header| ==> r == Err(ExtraValues)
    ensures |row| <= |header| ==> r == ItemFromFields(ZipFields(header, row))
    ensures r.Ok? ==> Names(header) <= ItemFields && "title" in Names(header) && "command" in Names(header)
  {
    var fields :- RowFields(header, row);
    ItemFromFields(fields)
  }

  /** A column whose name is not a field of `RaycastItem` is not ignored:
      every row that reaches it fails. */
  lemma HeaderUnknownColumn(header: seq<string>, row: seq<string>, j: int)
    requires 0 <= j < |header| && header[j] !in ItemFields
    requires |row| <= |header|
    ensures HeaderRowItem(header, row) == Err(UnexpectedKeyword)
  {
    ZipFieldsKeys(header, row);
  }

  /** Under a header, a row's title and command are the values in the
      (last) `title` and `command` columns. */
  lemma HeaderRowItemSpec(header: seq<string>, row: seq<string>, t: int, c: int)
    requires 0 <= t < |header| && header[t] == "title" && LastColumn(header, t)
    requires 0 <= c < |header| && header[c] == "command" && LastColumn(header, c)
    ensures HeaderRowItem(header, row).Ok? ==>
      t < |row| && c < |row|
      && HeaderRowItem(header, row).value.title == row[t]
      && HeaderRowItem(header, row).value.command == row[c]
  {
    if |row| <= |header| {
      ZipFieldsAt(header, row, t);
      ZipFieldsAt(header, row, c);
    }
  }

  /** `csv.DictReader` skips blank lines: the rows kept are the non-blank
      ones, in order. */
  function NonEmptyRows(rows: seq<seq<string>>): (r: seq<seq<string>>)
    ensures forall x :: x in r <==> x in rows && x != []
    ensures |r| <= |rows|
  {
    if rows == [] then []
    else (if rows[0] == [] then [] else [rows[0]]) + NonEmptyRows(rows[1..])
  }

  /** Skipping blank rows keeps the order of the others. */
  lemma {:induction false} NonEmptyRowsAppend(a: seq<seq<string>>, b: seq<seq<string>>)
    ensures NonEmptyRows(a + b) == NonEmptyRows(a) + NonEmptyRows(b)
  {
    if a == [] {
      assert a + b == b;
    } else {
      assert (a + b)[1..] == a[1..] + b;
      NonEmptyRowsAppend(a[1..], b);
    }
  }

  /** The header branch (io.py:44-51): the first row names the columns and
      must name both `title` and `command`; then each non-blank row after it
      gives one item, in order, and the first row that fails is the error. */
  function HeaderItems(rows: seq<seq<string>>): (r: Result<seq<RaycastItem>, Error>)
    ensures rows == [] || "title" !in rows[0] || "command" !in rows[0] ==> r == Err(MissingTitleOrCommand)
    ensures r.Ok? ==> |r.value| == |NonEmptyRows(rows[1..])|
    ensures r.Ok? ==> forall i :: 0 <= i < |r.value| ==> Ok(r.value[i]) == HeaderRowItem(rows[0], NonEmptyRows(rows[1..])[i])
    ensures r.Err? && rows != [] && "title" in rows[0] && "command" in rows[0] ==>
      exists i :: 0 <= i < |NonEmptyRows(rows[1..])| && HeaderRowItem(rows[0], NonEmptyRows(rows[1..])[i]) == Err(r.error)
        && forall j :: 0 <= j < i ==> HeaderRowItem(rows[0], NonEmptyRows(rows[1..])[j]).Ok?
  {
    if rows == [] || "title" !in rows[0] || "command" !in rows[0] then Err(MissingTitleOrCommand)
    else
      var header, kept := rows[0], NonEmptyRows(rows[1..]);
      var r := Collect(kept, row => HeaderRowItem(header, row));
      assert r.Ok? ==> forall i :: 0 <= i < |kept| ==> Ok(r.value[i]) == HeaderRowItem(header, kept[i]);
      assert r.Err? ==> exists i :: 0 <= i < |kept| && HeaderRowItem(header, kept[i]) == Err(r.error)
                                    && forall j :: 0 <= j < i ==> HeaderRowItem(header, kept[j]).Ok?;
      r
  }

  /** Every row builds an item under the header. */
  predicate AllRowsBuild(header: seq<string>, rows: seq<seq<string>>) {
    forall i :: 0 <= i < |rows| ==> HeaderRowItem(header, rows[i]).Ok?
  }

  /** Under a header naming `title` and `command`, the file parses exactly
      when every non-blank row after it builds an item. */
  lemma HeaderItemsOk(rows: seq<seq<string>>)
    requires rows != [] && "title" in rows[0] && "command" in rows[0]
    ensures HeaderItems(rows).Ok? <==> AllRowsBuild(rows[0], NonEmptyRows(rows[1..]))
  {
    var header, kept := rows[0], NonEmptyRows(rows[1..]);
    var r := HeaderItems(rows);
    if r.Ok? {
      assert |r.value| == |kept|;
      forall i | 0 <= i < |kept| ensures HeaderRowItem(header, kept[i]).Ok? {
        assert Ok(r.value[i]) == HeaderRowItem(header, kept[i]);
      }
      assert AllRowsBuild(header, kept);
    } else {
      var i :| 0 <= i < |kept| && HeaderRowItem(header, kept[i]) == Err(r.error)
               && forall j :: 0 <= j < i ==> HeaderRowItem(header, kept[j]).Ok?;
      assert !AllRowsBuild(header, kept);
    }
  }

  /** A header `title,command` and a row `t,c` build the item with every
      other field at its default. */
  lemma MinimalHeaderRow(t: string, c: string)
    ensures HeaderRowItem(["title", "command"], [t, c]) == Ok(RaycastItem(t, c, None, false, None, [], None, None))
  {
    var header := ["title", "command"];
    assert ZipFields(header, [t, c]) == map["title" := Str(t), "command" := Str(c)] by {
      assert header[..1] == ["title"] && header[..1][..0] == [];
    }
    ItemDefaults(t, c);
  }

  /** `parse_csv_input(file, header_row)` over the rows the csv reader
      yields. The header branch does not return: it falls through to the
      positional loop (io.py:52), which reads on from the same file with a
      new reader. The header reader has consumed every row, so that loop
      sees none: with a header the result is the header branch's alone. */
  function ParseCsv(rows: seq<seq<string>>, headerRow: bool): (r: Result<seq<RaycastItem>, Error>)
    ensures headerRow ==> r == HeaderItems(rows)
    ensures !headerRow ==> r == PositionalItems(rows)
  {
    if headerRow then
      var headed :- HeaderItems(rows);
      assert rows[|rows|..] == [] && headed + [] == headed;
      match PositionalItems(rows[|rows|..])
      case Err(e) => Err(e)
      case Ok(rest) => Ok(headed + rest)
    else
      PositionalItems(rows)
  }

  /** The file `title,command` / `t,c` read with a header row is that one
      item. */
  lemma MinimalCsv(t: string, c: string)
    ensures ParseCsv([["title", "command"], [t, c]], true) == Ok([RaycastItem(t, c, None, false, None, [], None, None)])
  {
    var rows := [["title", "command"], [t, c]];
    var item := RaycastItem(t, c, None, false, None, [], None, None);
    assert rows[1..] == [[t, c]];
    assert NonEmptyRows([[t, c]]) == [[t, c]] by {
      assert [[t, c]][1..] == [];
    }
    MinimalHeaderRow(t, c);
    HeaderItemsOk(rows);
    assert AllRowsBuild(rows[0], NonEmptyRows(rows[1..]));
    var r := HeaderItems(rows);
    assert r.Ok? && |r.value| == 1;
    assert Ok(r.value[0]) == HeaderRowItem(rows[0], [t, c]);
    assert r.value == [item];
  }

  // ----------------------------------------------------------------- NDJSON

  /** One line of `ndjson_loader` (io.py:23-27); `None` is a line the JSON
      decoder rejects. */
  function NdjsonItem(line: Option<Value>): (r: Result<RaycastItem, Error>)
    ensures line.None? ==> r == Err(InvalidJson)
    ensures line.Some? && !line.value.Obj? ==> r == Err(NotAnObject)
    ensures line.Some? && line.value.Obj? && ("title" !in ToMap(line.value.fields) || "command" !in ToMap(line.value.fields))
            ==> r == Err(MissingTitleOrCommand)
    ensures line.Some? && line.value.Obj? && "title" in ToMap(line.value.fields) && "command" in ToMap(line.value.fields)
            ==> r == ItemFromFields(ToMap(line.value.fields))
    ensures r.Ok? ==> line.Some? && line.value.Obj? && r == ItemFromFields(ToMap(line.value.fields))
  {
    match line
    case None => Err(InvalidJson)
    case Some(v) =>
      if !v.Obj? then Err(NotAnObject)
      else
        var fields := ToMap(v.fields);
        if "title" !in fields || "command" !in fields then Err(MissingTitleOrCommand)
        else ItemFromFields(fields)
  }

  /** `parse_json_input(file, line_delimited=True)`: one item per line and
      no document-level parameters. */
  function ParseNdjson(lines: seq<Option<Value>>): (r: Result<Parsed, Error>)
    ensures r.Ok? ==> |r.value.items| == |lines|
    ensures r.Ok? ==> r.value.raycastExtra == map[] && r.value.raygenExtra == map[]
    ensures r.Ok? <==> forall i :: 0 <= i < |lines| ==> NdjsonItem(lines[i]).Ok?
    ensures r.Ok? ==> forall i :: 0 <= i < |lines| ==> Ok(r.value.items[i]) == NdjsonItem(lines[i])
    ensures r.Err? ==> exists i :: 0 <= i < |lines| && NdjsonItem(lines[i]) == Err(r.error)
                                   && forall j :: 0 <= j < i ==> NdjsonItem(lines[j]).Ok?
  {
    var items :- Collect(lines, NdjsonItem);
    Ok(Parsed(items, map[], map[]))
  }

  /** A file of one line `{"title": t, "command": c}` is that one item. */
  lemma MinimalNdjson(t: string, c: string)
    ensures ParseNdjson([Some(Obj([("title", Str(t)), ("command", Str(c))]))])
         == Ok(Parsed([RaycastItem(t, c, None, false, None, [], None, None)], map[], map[]))
  {
    var line := Some(Obj([("title", Str(t)), ("command", Str(c))]));
    var item := RaycastItem(t, c, None, false, None, [], None, None);
    MinimalRecord(t, c);
    var r := ParseNdjson([line]);
    assert [line][0] == line;
    assert r.Ok? && |r.value.items| == 1 && r.value.items[0] == item;
    assert r.value.items == [item];
  }

  // ------------------------------------------------------------------- JSON

  /** `{snake_case(k): v for k, v in pairs}`: the snake-cased keys, each
      holding the value of the last pair that snake-cases to it. */
  function SnakeKeys(pairs: seq<(string, Value)>): (r: map<string, Value>)
    ensures forall k :: k in r ==> NoUpper(k)
    ensures r.Keys == set i | 0 <= i < |pairs| :: SnakeCase(pairs[i].0)
    ensures forall i :: 0 <= i < |pairs| && LastSnaked(pairs, i) ==>
              SnakeCase(pairs[i].0) in r && r[SnakeCase(pairs[i].0)] == pairs[i].1
  {
    var renamed := seq(|pairs|, i requires 0 <= i < |pairs| => (SnakeCase(pairs[i].0), pairs[i].1));
    ToMapKeys(renamed);
    assert KeysOf(renamed) == set i | 0 <= i < |pairs| :: SnakeCase(pairs[i].0) by {
      forall k | k in set i | 0 <= i < |pairs| :: SnakeCase(pairs[i].0) ensures k in KeysOf(renamed) {
        var i :| 0 <= i < |pairs| && SnakeCase(pairs[i].0) == k;
        assert renamed[i].0 == k;
      }
    }
    assert forall i :: 0 <= i < |pairs| && LastSnaked(pairs, i) ==>
             ToMap(renamed)[renamed[i].0] == renamed[i].1 by {
      forall i | 0 <= i < |pairs| && LastSnaked(pairs, i)
        ensures renamed[i].0 in ToMap(renamed) && ToMap(renamed)[renamed[i].0] == renamed[i].1
      {
        assert LastWithKey(renamed, i);
        ToMapLast(renamed, i);
      }
    }
    ToMap(renamed)
  }

  /** No pair after position `i` snake-cases to the same key as pair `i`. */
  predicate LastSnaked(pairs: seq<(string, Value)>, i: int)
    requires 0 <= i < |pairs|
  {
    forall j :: i < j < |pairs| ==> SnakeCase(pairs[j].0) != SnakeCase(pairs[i].0)
  }

  /** The pairs whose key is not in `drop`, in order (`dict.pop`). */
  function Without(pairs: seq<(string, Value)>, drop: set<string>): (r: seq<(string, Value)>)
    ensures forall x :: x in r <==> x in pairs && x.0 !in drop
  {
    if pairs == [] then []
    else (if pairs[0].0 in drop then [] else [pairs[0]]) + Without(pairs[1..], drop)
  }

  /** Dropping keys keeps the order of the remaining pairs. */
  lemma {:induction false} WithoutAppend(a: seq<(string, Value)>, b: seq<(string, Value)>, drop: set<string>)
    ensures Without(a + b, drop) == Without(a, drop) + Without(b, drop)
  {
    if a == [] {
      assert a + b == b;
    } else {
      assert (a + b)[1..] == a[1..] + b;
      WithoutAppend(a[1..], b, drop);
    }
  }

  /** What `for item in items` visits: a list's elements, a dict's keys, a
      string's characters; any other value cannot be iterated. */
  function ItemRecords(items: Value): (r: Result<seq<Value>, Error>)
    ensures r.Ok? <==> items.List? || items.Obj? || items.Str?
    ensures items.List? ==> r == Ok(items.elems)
  {
    match items
    case List(xs) => Ok(xs)
    case Obj(fs) => Ok(seq(|fs|, i requires 0 <= i < |fs| => Str(fs[i].0)))
    case Str(s) => Ok(seq(|s|, i requires 0 <= i < |s| => Str([s[i]])))
    case _ => Err(NotAList)
  }

  /** `RaycastItem(**item)` for one element of `items` (io.py:37): only an
      object unpacks into keywords, and an item built from it takes its
      title and command from that object. */
  function JsonItem(v: Value): (r: Result<RaycastItem, Error>)
    ensures !v.Obj? ==> r == Err(NotAnObject)
    ensures v.Obj? ==> r == ItemFromFields(ToMap(v.fields))
    ensures r.Ok? ==> var f := ToMap(v.fields);
      "title" in f && f["title"] == Str(r.value.title) && "command" in f && f["command"] == Str(r.value.command)
  {
    if v.Obj? then ItemFromFields(ToMap(v.fields)) else Err(NotAnObject)
  }

  /** `parse_json_input(file, line_delimited=False)` (io.py:33-40). */
  function ParseJsonDocument(doc: Option<Value>): (r: Result<Parsed, Error>)
    ensures doc.None? ==> r == Err(InvalidJson)
    ensures doc.Some? && !doc.value.Obj? ==> r == Err(NotAnObject)
    ensures doc.Some? && doc.value.Obj? && "items" !in KeysOf(doc.value.fields) ==> r == Err(MissingItems)
    ensures r.Ok? ==> forall k :: k in r.value.raycastExtra ==> NoUpper(k)
    ensures r.Ok? ==> forall k :: k in r.value.raygenExtra ==> NoUpper(k)
    ensures r.Ok? && "params" !in KeysOf(doc.value.fields) ==> r.value.raycastExtra == map[]
  {
    match doc
    case None => Err(InvalidJson)
    case Some(v) =>
      if !v.Obj? then Err(NotAnObject)
      else
        var top := ToMap(v.fields);
        ToMapKeys(v.fields);
        if "items" !in top then Err(MissingItems)
        else
          var params := if "params" in top then top["params"] else Obj([]);
          var rest := Without(v.fields, {"items", "params"});
          var records :- ItemRecords(top["items"]);
          var items :- Collect(records, JsonItem);
          if !params.Obj? then Err(NotAnObject)
          else Ok(Parsed(items, SnakeKeys(params.fields), SnakeKeys(rest)))
  }

  /** The fields of a document that reads, as `parse_json_input` splits
      them: the items, the `params` object and the rest. */
  lemma JsonDocumentParts(fields: seq<(string, Value)>)
    requires ParseJsonDocument(Some(Obj(fields))).Ok?
    ensures var top := ToMap(fields);
      && "items" in top
      && (var params := if "params" in top then top["params"] else Obj([]);
          params.Obj?
          && ParseJsonDocument(Some(Obj(fields))).value
             == Parsed(Collect(ItemRecords(top["items"]).value, JsonItem).value,
                       SnakeKeys(params.fields), SnakeKeys(Without(fields, {"items", "params"}))))
  {
    ToMapKeys(fields);
  }

  /** Every top-level key except `items` and `params` is snake-cased into
      the run parameters, holding the value of the last such key that
      snake-cases to it. */
  lemma JsonDocumentRunKeys(fields: seq<(string, Value)>)
    ensures ParseJsonDocument(Some(Obj(fields))).Ok? ==>
              ParseJsonDocument(Some(Obj(fields))).value.raygenExtra.Keys
              == SnakeNamesOutside(fields, {"items", "params"})
    ensures ParseJsonDocument(Some(Obj(fields))).Ok? ==>
              forall i :: 0 <= i < |fields| && LastSnakedOutside(fields, {"items", "params"}, i) ==>
                var run := ParseJsonDocument(Some(Obj(fields))).value.raygenExtra;
                SnakeCase(fields[i].0) in run && run[SnakeCase(fields[i].0)] == fields[i].1
  {
    if ParseJsonDocument(Some(Obj(fields))).Ok? {
      JsonDocumentParts(fields);
      RestKeys(fields, {"items", "params"});
      forall i | 0 <= i < |fields| && LastSnakedOutside(fields, {"items", "params"}, i)
        ensures var run := SnakeKeys(Without(fields, {"items", "params"}));
                SnakeCase(fields[i].0) in run && run[SnakeCase(fields[i].0)] == fields[i].1
      {
        SnakeKeysWithoutAt(fields, {"items", "params"}, i);
      }
    }
  }

  /** `params`, when present, is an object, and the script parameters are
      its keys snake-cased, each holding the value of the last key that
      snake-cases to it. */
  lemma JsonDocumentParams(fields: seq<(string, Value)>)
    ensures ParseJsonDocument(Some(Obj(fields))).Ok? && "params" in ToMap(fields) ==>
      var params := ToMap(fields)["params"];
      params.Obj?
      && ParseJsonDocument(Some(Obj(fields))).value.raycastExtra.Keys
         == (set i | 0 <= i < |params.fields| :: SnakeCase(params.fields[i].0))
      && forall i :: 0 <= i < |params.fields| && LastSnaked(params.fields, i) ==>
           var script := ParseJsonDocument(Some(Obj(fields))).value.raycastExtra;
           SnakeCase(params.fields[i].0) in script && script[SnakeCase(params.fields[i].0)] == params.fields[i].1
  {
    if ParseJsonDocument(Some(Obj(fields))).Ok? {
      JsonDocumentParts(fields);
    }
  }

  /** A list `items` gives one item per element, each element an object
      whose keys build the item. */
  lemma JsonDocumentItems(fields: seq<(string, Value)>)
    ensures ParseJsonDocument(Some(Obj(fields))).Ok? && "items" in ToMap(fields) && ToMap(fields)["items"].List? ==>
      var elems := ToMap(fields)["items"].elems;
      var items := ParseJsonDocument(Some(Obj(fields))).value.items;
      |items| == |elems|
      && forall i :: 0 <= i < |items| ==> elems[i].Obj? && Ok(items[i]) == ItemFromFields(ToMap(elems[i].fields))
  {
    if ParseJsonDocument(Some(Obj(fields))).Ok? {
      JsonDocumentParts(fields);
    }
  }

  /** Every record builds an item. */
  predicate AllRecordsBuild(records: seq<Value>) {
    forall i :: 0 <= i < |records| ==> JsonItem(records[i]).Ok?
  }

  /** A document object with `items` parses exactly when `items` can be
      iterated, every record builds an item and `params`, when present, is
      an object. Otherwise the error is, in this order: `items` cannot be
      iterated, the first record that does not build, `params` is not an
      object. */
  lemma JsonDocumentOk(fields: seq<(string, Value)>)
    ensures var top := ToMap(fields);
      var r := ParseJsonDocument(Some(Obj(fields)));
      "items" in top ==>
        && (r.Ok? <==> ItemRecords(top["items"]).Ok? && AllRecordsBuild(ItemRecords(top["items"]).value)
                       && ("params" in top ==> top["params"].Obj?))
        && (ItemRecords(top["items"]).Err? ==> r == Err(NotAList))
        && ((ItemRecords(top["items"]).Ok? && !AllRecordsBuild(ItemRecords(top["items"]).value)) ==>
              var records := ItemRecords(top["items"]).value;
              exists i :: 0 <= i < |records| && JsonItem(records[i]) == Err(r.error)
                          && forall j :: 0 <= j < i ==> JsonItem(records[j]).Ok?)
        && ((ItemRecords(top["items"]).Ok? && AllRecordsBuild(ItemRecords(top["items"]).value)
             && "params" in top && !top["params"].Obj?) ==> r == Err(NotAnObject))
  {
    var top := ToMap(fields);
    ToMapKeys(fields);
    if "items" in top && ItemRecords(top["items"]).Ok? {
      var records := ItemRecords(top["items"]).value;
      var c := Collect(records, JsonItem);
      assert c.Ok? <==> AllRecordsBuild(records);
    }
  }

  /** The smallest record, `{"title": t, "command": c}`, builds the item
      with every other field at its default, as a document element and as
      a line of NDJSON. */
  lemma MinimalRecord(t: string, c: string)
    ensures JsonItem(Obj([("title", Str(t)), ("command", Str(c))]))
         == Ok(RaycastItem(t, c, None, false, None, [], None, None))
    ensures NdjsonItem(Some(Obj([("title", Str(t)), ("command", Str(c))])))
         == Ok(RaycastItem(t, c, None, false, None, [], None, None))
  {
    var pairs := [("title", Str(t)), ("command", Str(c))];
    assert pairs[..1] == [("title", Str(t))] && pairs[..1][..0] == [];
    assert ToMap(pairs[..1]) == map["title" := Str(t)];
    assert ToMap(pairs) == map["title" := Str(t), "command" := Str(c)];
    ItemDefaults(t, c);
  }

  /** `{"items": [{"title": t, "command": c}]}` reads as that one item and
      no parameters. */
  lemma MinimalDocument(t: string, c: string)
    ensures ParseJsonDocument(Some(Obj([("items", List([Obj([("title", Str(t)), ("command", Str(c))])]))])))
         == Ok(Parsed([RaycastItem(t, c, None, false, None, [], None, None)], map[], map[]))
  {
    var record := Obj([("title", Str(t)), ("command", Str(c))]);
    var fields := [("items", List([record]))];
    assert ToMap(fields) == map["items" := List([record])] by {
      assert fields[..0] == [];
    }
    MinimalRecord(t, c);
    var item := RaycastItem(t, c, None, false, None, [], None, None);
    var collected := Collect([record], JsonItem);
    assert [record][0] == record;
    assert collected.Ok? && |collected.value| == 1 && collected.value[0] == item;
    assert collected.value == [item];
    assert Without(fields, {"items", "params"}) == [] by {
      assert fields[1..] == [];
    }
  }

  /** The keys of the pairs outside `drop`, snake-cased. */
  function SnakeNamesOutside(fields: seq<(string, Value)>, drop: set<string>): set<string> {
    set i | 0 <= i < |fields| && fields[i].0 !in drop :: SnakeCase(fields[i].0)
  }

  /** Dropping keys, then snake-casing the rest. */
  lemma RestKeys(fields: seq<(string, Value)>, drop: set<string>)
    ensures SnakeKeys(Without(fields, drop)).Keys
         == SnakeNamesOutside(fields, drop)
  {
    var rest := Without(fields, drop);
    var kept := SnakeNamesOutside(fields, drop);
    var renamed := set j | 0 <= j < |rest| :: SnakeCase(rest[j].0);
    forall k | k in kept ensures k in renamed {
      var i :| 0 <= i < |fields| && fields[i].0 !in drop && SnakeCase(fields[i].0) == k;
      WithoutKeeps(fields, drop, i);
      var j :| 0 <= j < |rest| && rest[j] == fields[i];
      assert SnakeCase(rest[j].0) == k;
    }
    forall k | k in renamed ensures k in kept {
      var j :| 0 <= j < |rest| && SnakeCase(rest[j].0) == k;
      assert rest[j] in fields && rest[j].0 !in drop;
      var i :| 0 <= i < |fields| && fields[i] == rest[j];
      assert SnakeCase(fields[i].0) == k;
    }
    assert renamed == kept;
    assert SnakeKeys(rest).Keys == renamed;
  }

  lemma WithoutKeeps(pairs: seq<(string, Value)>, drop: set<string>, i: int)
    requires 0 <= i < |pairs| && pairs[i].0 !in drop
    ensures exists j :: 0 <= j < |Without(pairs, drop)| && Without(pairs, drop)[j] == pairs[i]
  {
    assert pairs[i] in Without(pairs, drop);
  }

  /** Pair `i` is outside `drop` and no later pair outside `drop`
      snake-cases to the same key. */
  predicate LastSnakedOutside(pairs: seq<(string, Value)>, drop: set<string>, i: int)
    requires 0 <= i < |pairs|
  {
    pairs[i].0 !in drop
    && forall j :: i < j < |pairs| && pairs[j].0 !in drop ==> SnakeCase(pairs[j].0) != SnakeCase(pairs[i].0)
  }

  /** Dropping keys, then snake-casing the rest: a kept key holds the value
      of its last kept pair. */
  lemma SnakeKeysWithoutAt(pairs: seq<(string, Value)>, drop: set<string>, i: int)
    requires 0 <= i < |pairs| && LastSnakedOutside(pairs, drop, i)
    ensures var run := SnakeKeys(Without(pairs, drop));
      SnakeCase(pairs[i].0) in run && run[SnakeCase(pairs[i].0)] == pairs[i].1
  {
    var before, after := Without(pairs[..i], drop), Without(pairs[i + 1..], drop);
    var kept := Without(pairs, drop);
    WithoutSplit(pairs, drop, i);
    var j := |before|;
    assert kept[j] == pairs[i];
    forall k | j < k < |kept| ensures SnakeCase(kept[k].0) != SnakeCase(kept[j].0) {
      assert kept[k] == after[k - j - 1];
      LaterKept(pairs, drop, i, kept[k]);
    }
    assert LastSnaked(kept, j);
  }

  /** A kept pair splits the kept list into what came before and after it. */
  lemma WithoutSplit(pairs: seq<(string, Value)>, drop: set<string>, i: int)
    requires 0 <= i < |pairs| && pairs[i].0 !in drop
    ensures Without(pairs, drop) == Without(pairs[..i], drop) + [pairs[i]] + Without(pairs[i + 1..], drop)
  {
    assert pairs == pairs[..i] + ([pairs[i]] + pairs[i + 1..]);
    WithoutAppend(pairs[..i], [pairs[i]] + pairs[i + 1..], drop);
    WithoutAppend([pairs[i]], pairs[i + 1..], drop);
    assert Without([pairs[i]], drop) == [pairs[i]];
  }

  /** Every pair kept after pair `i` snake-cases to another key. */
  lemma LaterKept(pairs: seq<(string, Value)>, drop: set<string>, i: int, x: (string, Value))
    requires 0 <= i < |pairs| && LastSnakedOutside(pairs, drop, i)
    requires x in Without(pairs[i + 1..], drop)
    ensures SnakeCase(x.0) != SnakeCase(pairs[i].0)
  {
    var m :| 0 <= m < |pairs[i + 1..]| && pairs[i + 1..][m] == x;
    assert pairs[i + 1 + m] == x;
  }
}
