/** `parse_items` and `complete_items` of raygen/io.py: choose a reader by
    format name, fill the run's parameters from the command line and the
    document, and let the command line override item fields. */
module Pipeline {
  import opened Results
  import opened Values
  import opened Errors
  import opened Models
  import opened Utils
  import opened Parsers

  /** The command-line values `parse_items` and `complete_items` read. */
  datatype CliArgs = CliArgs(
    inputFormat: Option<string>,
    inputSuffix: string,
    headerRow: bool,
    clean: bool,
    outputDir: string,
    embed: seq<string>,
    shebang: string,
    schemaVersion: int,
    mode: string,
    packageName: Option<string>,
    author: Option<string>,
    authorUrl: Option<string>,
    argument: Option<string>,
    encodeArg: bool,
    secureArg: bool,
    optionalArg: bool,
    needsConfirmation: bool,
    currentDirectoryPath: Option<string>,
    icon: Option<string>,
    iconDark: Option<string>)

  /** The input file as each reader sees it: the rows the csv reader yields
      with a comma and with a tab delimiter, the decoded whole document, and
      each decoded line (`None` where the JSON decoder fails). */
  datatype InputFile = InputFile(
    commaRows: seq<seq<string>>,
    tabRows: seq<seq<string>>,
    document: Option<Value>,
    lines: seq<Option<Value>>)

  /** The four input formats. */
  datatype Format = Csv | Tsv | Json | Ndjson

  function FormatName(f: Format): string {
    match f
    case Csv => "csv"
    case Tsv => "tsv"
    case Json => "json"
    case Ndjson => "ndjson"
  }

  /** `args.input_format or input_suffix` (io.py:65): an explicit, non-empty
      format wins; otherwise the file's suffix decides. */
  function ChosenFormat(cli: CliArgs): (name: string)
    ensures Present(cli.inputFormat) ==> name == cli.inputFormat.value
    ensures !Present(cli.inputFormat) ==> name == cli.inputSuffix
  {
    if Present(cli.inputFormat) then cli.inputFormat.value else cli.inputSuffix
  }

  /** The dispatch of `parse_items` (io.py:69-87): the four names select a
      reader, any other name is an error. */
  function FormatFromName(name: string): (r: Result<Format, Error>)
    ensures r.Ok? <==> name in {"csv", "tsv", "json", "ndjson"}
    ensures r.Ok? ==> FormatName(r.value) == name
    ensures r.Err? ==> r.error == UnknownFormat(name)
  {
    if name == "csv" then Ok(Csv)
    else if name == "tsv" then Ok(Tsv)
    else if name == "json" then Ok(Json)
    else if name == "ndjson" then Ok(Ndjson)
    else Err(UnknownFormat(name))
  }

  lemma FormatNameRoundTrip(f: Format)
    ensures FormatFromName(FormatName(f)) == Ok(f)
  {
  }

  /** The reader each format selects; only a JSON document carries
      parameters of its own. */
  function ParseInput(format: Format, headerRow: bool, input: InputFile): (r: Result<Parsed, Error>)
    ensures format != Json && r.Ok? ==> r.value.raycastExtra == map[] && r.value.raygenExtra == map[]
  {
    match format
    case Csv =>
      var items :- ParseCsv(input.commaRows, headerRow);
      Ok(Parsed(items, map[], map[]))
    case Tsv =>
      var items :- ParseCsv(input.tabRows, headerRow);
      Ok(Parsed(items, map[], map[]))
    case Json => ParseJsonDocument(input.document)
    case Ndjson => ParseNdjson(input.lines)
  }

  /** The dict `parse_items` builds for `RaygenParams` (io.py:90-95). */
  function RaygenDefaults(cli: CliArgs): (d: map<string, Value>)
    ensures d.Keys == RaygenFields
  {
    map["clean" := Bool(cli.clean),
        "output_dir" := Str(cli.outputDir),
        "embeds" := StrList(cli.embed),
        "shebang" := Str(cli.shebang)]
  }

  /** The dict `parse_items` builds for `RaycastParams` (io.py:102-108). */
  function RaycastDefaults(cli: CliArgs): (d: map<string, Value>)
    ensures d.Keys == ParamsFields
  {
    map["schema_version" := Int(cli.schemaVersion),
        "mode" := Str(cli.mode),
        "package_name" := OptValue(cli.packageName),
        "author" := OptValue(cli.author),
        "author_url" := OptValue(cli.authorUrl)]
  }

  /** The argument `complete_items` gives every item, if the command line
      names one (io.py:120-127). */
  function CliArgument(cli: CliArgs): (r: Option<RaycastArgument>)
    ensures r.Some? <==> Present(cli.argument)
    ensures r.Some? ==> r.value.placeholder == cli.argument.value && r.value.percentEncoded == cli.encodeArg
                        && r.value.secure == cli.secureArg && r.value.optional == cli.optionalArg
  {
    if Present(cli.argument)
    then Some(RaycastArgument(cli.argument.value, cli.encodeArg, cli.secureArg, cli.optionalArg))
    else None
  }

  /** One item after `complete_items` (io.py:128-138): a truthy
      command-line value replaces the item's own (a command-line argument
      replaces the whole argument list); a falsy one leaves the item's value
      alone; title, command and description are never touched. */
  function CompleteItem(item: RaycastItem, cli: CliArgs): (r: RaycastItem)
    ensures r.title == item.title && r.command == item.command && r.description == item.description
    ensures Present(cli.argument) ==>
      r.arguments == [RaycastArgument(cli.argument.value, cli.encodeArg, cli.secureArg, cli.optionalArg)]
    ensures !Present(cli.argument) ==> r.arguments == item.arguments
    ensures r.needsConfirmation <==> cli.needsConfirmation || item.needsConfirmation
    ensures r.currentDirectoryPath == if Present(cli.currentDirectoryPath) then cli.currentDirectoryPath else item.currentDirectoryPath
    ensures r.icon == if Present(cli.icon) then cli.icon else item.icon
    ensures r.iconDark == if Present(cli.iconDark) then cli.iconDark else item.iconDark
  {
    var argument := CliArgument(cli);
    var item := if argument.Some? then item.(arguments := [argument.value]) else item;
    var item := if cli.needsConfirmation then item.(needsConfirmation := cli.needsConfirmation) else item;
    var item := if Present(cli.currentDirectoryPath) then item.(currentDirectoryPath := cli.currentDirectoryPath) else item;
    var item := if Present(cli.icon) then item.(icon := cli.icon) else item;
    if Present(cli.iconDark) then item.(iconDark := cli.iconDark) else item
  }

  /** Completing an already completed item changes nothing. */
  lemma CompleteItemIdempotent(item: RaycastItem, cli: CliArgs)
    ensures CompleteItem(CompleteItem(item, cli), cli) == CompleteItem(item, cli)
  {
  }

  /** `complete_items(items, args)`: every item's fields are updated in
      place, in list order. */
  method CompleteItems(items: array<RaycastItem>, cli: CliArgs)
    modifies items
    ensures forall i :: 0 <= i < items.Length ==> items[i] == CompleteItem(old(items[i]), cli)
  {
    var argument := CliArgument(cli);
    for i := 0 to items.Length
      invariant forall j :: 0 <= j < i ==> items[j] == CompleteItem(old(items[j]), cli)
      invariant forall j :: i <= j < items.Length ==> items[j] == old(items[j])
    {
      var item := items[i];
      if argument.Some? {
        item := item.(arguments := [argument.value]);
      }
      if cli.needsConfirmation {
        item := item.(needsConfirmation := cli.needsConfirmation);
      }
      if Present(cli.currentDirectoryPath) {
        item := item.(currentDirectoryPath := cli.currentDirectoryPath);
      }
      if Present(cli.icon) {
        item := item.(icon := cli.icon);
      }
      if Present(cli.iconDark) {
        item := item.(iconDark := cli.iconDark);
      }
      items[i] := item;
    }
  }

  /** What `parse_items` returns. */
  datatype Resolved = Resolved(raygen: RaygenParams, raycast: RaycastParams, items: seq<RaycastItem>)

  /** The items after `complete_items`: the same items, in the same order,
      each completed. */
  function CompleteAll(items: seq<RaycastItem>, cli: CliArgs): (r: seq<RaycastItem>)
    ensures |r| == |items|
    ensures forall i :: 0 <= i < |items| ==>
      r[i].title == items[i].title && r[i].command == items[i].command && r[i].description == items[i].description
  {
    seq(|items|, i requires 0 <= i < |items| => CompleteItem(items[i], cli))
  }

  /** The value of `parse_items(args)` (io.py:61-116), or its error: an
      unknown format name is the error; otherwise the reader's error is,
      and a reader that succeeds gives whatever its output assembles to. */
  function Resolve(cli: CliArgs, input: InputFile): (r: Result<Resolved, Error>)
    ensures r.Ok? ==> ChosenFormat(cli) in {"csv", "tsv", "json", "ndjson"}
    ensures FormatFromName(ChosenFormat(cli)).Err? ==> r == Err(UnknownFormat(ChosenFormat(cli)))
    ensures FormatFromName(ChosenFormat(cli)).Ok? ==>
      var parsed := ParseInput(FormatFromName(ChosenFormat(cli)).value, cli.headerRow, input);
      && (parsed.Err? ==> r == Err(parsed.error))
      && (parsed.Ok? ==> r == Assemble(cli, parsed.value))
  {
    var format :- FormatFromName(ChosenFormat(cli));
    var parsed :- ParseInput(format, cli.headerRow, input);
    Assemble(cli, parsed)
  }

  /** The second half of `parse_items`: the parsed document merged with the
      command line and turned into the parameter records and items. It
      succeeds exactly when both records build; `RaygenParams` is built first,
      so its error is the one reported when both fail (io.py:112-116). */
  function Assemble(cli: CliArgs, parsed: Parsed): (r: Result<Resolved, Error>)
    ensures var raygen := RaygenFromFields(Completed(RaygenDefaults(cli), parsed.raygenExtra));
      var raycast := ParamsFromFields(Completed(RaycastDefaults(cli), parsed.raycastExtra));
      && (r.Ok? <==> raygen.Ok? && raycast.Ok?)
      && (raygen.Err? ==> r == Err(raygen.error))
      && (raygen.Ok? && raycast.Err? ==> r == Err(raycast.error))
    ensures r.Ok? ==> |r.value.items| == |parsed.items|
  {
    var raygen :- RaygenFromFields(Completed(RaygenDefaults(cli), parsed.raygenExtra));
    var raycast :- ParamsFromFields(Completed(RaycastDefaults(cli), parsed.raycastExtra));
    Ok(Resolved(raygen, raycast, CompleteAll(parsed.items, cli)))
  }

  /** `parse_items(args)`: dispatch on the format, fill the two parameter
      dicts in place, materialise the items and complete them in place. */
  method ParseItems(cli: CliArgs, input: InputFile) returns (r: Result<Resolved, Error>)
    ensures r == Resolve(cli, input)
  {
    var format := FormatFromName(ChosenFormat(cli));
    if format.Err? {
      return Err(format.error);
    }
    var parsed := ParseInput(format.value, cli.headerRow, input);
    if parsed.Err? {
      return Err(parsed.error);
    }
    r := AssembleInPlace(cli, parsed.value);
  }

  /** Fills the two parameter dicts in place, materialises the items and
      completes them in place. */
  method AssembleInPlace(cli: CliArgs, read: Parsed) returns (r: Result<Resolved, Error>)
    ensures r == Assemble(cli, read)
  {
    var raygenArgs := new Dict(RaygenDefaults(cli));
    raygenArgs := CompleteDict(raygenArgs, read.raygenExtra);
    var items := CompletedCopy(read.items, cli);
    var raycastArgs := new Dict(RaycastDefaults(cli));
    raycastArgs := CompleteDict(raycastArgs, read.raycastExtra);
    var raygen := RaygenFromFields(raygenArgs.entries);
    if raygen.Err? {
      return Err(raygen.error);
    }
    var raycast := ParamsFromFields(raycastArgs.entries);
    if raycast.Err? {
      return Err(raycast.error);
    }
    r := Ok(Resolved(raygen.value, raycast.value, items));
  }

  /** The items materialised into a list and completed in place. */
  method CompletedCopy(read: seq<RaycastItem>, cli: CliArgs) returns (r: seq<RaycastItem>)
    ensures r == CompleteAll(read, cli)
  {
    var items := new RaycastItem[|read|](i requires 0 <= i < |read| => read[i]);
    assert items[..] == read;
    CompleteItems(items, cli);
    r := items[..];
  }

  /** An unknown format name ends the run with that name as the error. */
  lemma ResolveUnknownFormat(cli: CliArgs, input: InputFile)
    requires ChosenFormat(cli) !in {"csv", "tsv", "json", "ndjson"}
    ensures Resolve(cli, input) == Err(UnknownFormat(ChosenFormat(cli)))
  {
  }

  /** A truthy command-line value beats the document's `params`
      (io.py:101-110). */
  lemma AssembleCliWinsParams(cli: CliArgs, parsed: Parsed)
    requires Assemble(cli, parsed).Ok?
    ensures cli.mode != "" ==> Assemble(cli, parsed).value.raycast.mode == cli.mode
    ensures cli.schemaVersion != 0 ==> Assemble(cli, parsed).value.raycast.schemaVersion == cli.schemaVersion
    ensures Present(cli.packageName) ==> Assemble(cli, parsed).value.raycast.packageName == cli.packageName
    ensures Present(cli.author) ==> Assemble(cli, parsed).value.raycast.author == cli.author
    ensures Present(cli.authorUrl) ==> Assemble(cli, parsed).value.raycast.authorUrl == cli.authorUrl
  {
    var defaults := RaycastDefaults(cli);
    var args := Completed(defaults, parsed.raycastExtra);
    var raycast := Assemble(cli, parsed).value.raycast;
    assert ParamsFromFields(args) == Ok(raycast);
    RaycastDefaultsGet(cli);
    if cli.mode != "" {
      CompletedKeepsTruthy(defaults, parsed.raycastExtra, "mode");
    }
    if cli.schemaVersion != 0 {
      CompletedKeepsTruthy(defaults, parsed.raycastExtra, "schema_version");
    }
    if Present(cli.packageName) {
      CompletedKeepsTruthy(defaults, parsed.raycastExtra, "package_name");
    }
    if Present(cli.author) {
      CompletedKeepsTruthy(defaults, parsed.raycastExtra, "author");
    }
    if Present(cli.authorUrl) {
      CompletedKeepsTruthy(defaults, parsed.raycastExtra, "author_url");
    }
  }

  lemma RaycastDefaultsGet(cli: CliArgs)
    ensures var d := RaycastDefaults(cli);
      Get(d, "mode") == Str(cli.mode) && Get(d, "schema_version") == Int(cli.schemaVersion)
      && Get(d, "package_name") == OptValue(cli.packageName) && Get(d, "author") == OptValue(cli.author)
      && Get(d, "author_url") == OptValue(cli.authorUrl)
  {
  }

  /** A truthy command-line value beats the document's top-level keys
      (io.py:89-97). */
  lemma AssembleCliWinsRun(cli: CliArgs, parsed: Parsed)
    requires Assemble(cli, parsed).Ok?
    ensures cli.outputDir != "" ==> Assemble(cli, parsed).value.raygen.outputDir == cli.outputDir
    ensures cli.shebang != "" ==> Assemble(cli, parsed).value.raygen.shebang == cli.shebang
    ensures cli.clean ==> Assemble(cli, parsed).value.raygen.clean
    ensures |cli.embed| > 0 ==> Assemble(cli, parsed).value.raygen.embeds == cli.embed
  {
    var defaults := RaygenDefaults(cli);
    var args := Completed(defaults, parsed.raygenExtra);
    var raygen := Assemble(cli, parsed).value.raygen;
    assert RaygenFromFields(args) == Ok(raygen);
    RaygenDefaultsGet(cli);
    if cli.outputDir != "" {
      CompletedKeepsTruthy(defaults, parsed.raygenExtra, "output_dir");
    }
    if cli.shebang != "" {
      CompletedKeepsTruthy(defaults, parsed.raygenExtra, "shebang");
    }
    if cli.clean {
      CompletedKeepsTruthy(defaults, parsed.raygenExtra, "clean");
    }
    if |cli.embed| > 0 {
      CompletedKeepsTruthy(defaults, parsed.raygenExtra, "embeds");
      StrListInjective(raygen.embeds, cli.embed);
    }
  }

  lemma RaygenDefaultsGet(cli: CliArgs)
    ensures var d := RaygenDefaults(cli);
      Get(d, "output_dir") == Str(cli.outputDir) && Get(d, "shebang") == Str(cli.shebang)
      && Get(d, "clean") == Bool(cli.clean) && Get(d, "embeds") == StrList(cli.embed)
  {
  }

  /** Two lists of strings are the same value only when they are equal. */
  lemma StrListInjective(a: seq<string>, b: seq<string>)
    requires StrList(a) == StrList(b)
    ensures a == b
  {
    assert |a| == |b|;
    forall i | 0 <= i < |a| ensures a[i] == b[i] {
      assert StrList(a).elems[i] == Str(a[i]);
    }
  }

  /** A falsy command-line value is filled from the document's `params`:
      the value the document gives is the one used (io.py:101-110). */
  lemma AssembleDocumentFillsParams(cli: CliArgs, parsed: Parsed)
    requires Assemble(cli, parsed).Ok?
    ensures cli.mode == "" && Truthy(Get(parsed.raycastExtra, "mode")) ==>
      Str(Assemble(cli, parsed).value.raycast.mode) == parsed.raycastExtra["mode"]
    ensures cli.schemaVersion == 0 && Truthy(Get(parsed.raycastExtra, "schema_version")) ==>
      Int(Assemble(cli, parsed).value.raycast.schemaVersion) == parsed.raycastExtra["schema_version"]
    ensures !Present(cli.packageName) && Truthy(Get(parsed.raycastExtra, "package_name")) ==>
      OptValue(Assemble(cli, parsed).value.raycast.packageName) == parsed.raycastExtra["package_name"]
    ensures !Present(cli.author) && Truthy(Get(parsed.raycastExtra, "author")) ==>
      OptValue(Assemble(cli, parsed).value.raycast.author) == parsed.raycastExtra["author"]
    ensures !Present(cli.authorUrl) && Truthy(Get(parsed.raycastExtra, "author_url")) ==>
      OptValue(Assemble(cli, parsed).value.raycast.authorUrl) == parsed.raycastExtra["author_url"]
  {
    var defaults, extra := RaycastDefaults(cli), parsed.raycastExtra;
    var raycast := Assemble(cli, parsed).value.raycast;
    assert ParamsFromFields(Completed(defaults, extra)) == Ok(raycast);
    RaycastDefaultsGet(cli);
    if cli.mode == "" && Truthy(Get(extra, "mode")) {
      CompletedFills(defaults, extra, "mode");
    }
    if cli.schemaVersion == 0 && Truthy(Get(extra, "schema_version")) {
      CompletedFills(defaults, extra, "schema_version");
    }
    if !Present(cli.packageName) && Truthy(Get(extra, "package_name")) {
      CompletedFills(defaults, extra, "package_name");
    }
    if !Present(cli.author) && Truthy(Get(extra, "author")) {
      CompletedFills(defaults, extra, "author");
    }
    if !Present(cli.authorUrl) && Truthy(Get(extra, "author_url")) {
      CompletedFills(defaults, extra, "author_url");
    }
  }

  /** A falsy command-line value is filled from the document's top-level
      keys: the value the document gives is the one used (io.py:89-97). */
  lemma AssembleDocumentFillsRun(cli: CliArgs, parsed: Parsed)
    requires Assemble(cli, parsed).Ok?
    ensures cli.outputDir == "" && Truthy(Get(parsed.raygenExtra, "output_dir")) ==>
      Str(Assemble(cli, parsed).value.raygen.outputDir) == parsed.raygenExtra["output_dir"]
    ensures cli.shebang == "" && Truthy(Get(parsed.raygenExtra, "shebang")) ==>
      Str(Assemble(cli, parsed).value.raygen.shebang) == parsed.raygenExtra["shebang"]
    ensures !cli.clean && Truthy(Get(parsed.raygenExtra, "clean")) ==>
      Assemble(cli, parsed).value.raygen.clean
    ensures |cli.embed| == 0 && Truthy(Get(parsed.raygenExtra, "embeds")) ==>
      StrList(Assemble(cli, parsed).value.raygen.embeds) == parsed.raygenExtra["embeds"]
  {
    var defaults, extra := RaygenDefaults(cli), parsed.raygenExtra;
    var raygen := Assemble(cli, parsed).value.raygen;
    assert RaygenFromFields(Completed(defaults, extra)) == Ok(raygen);
    RaygenDefaultsGet(cli);
    if cli.outputDir == "" && Truthy(Get(extra, "output_dir")) {
      CompletedFills(defaults, extra, "output_dir");
    }
    if cli.shebang == "" && Truthy(Get(extra, "shebang")) {
      CompletedFills(defaults, extra, "shebang");
    }
    if !cli.clean && Truthy(Get(extra, "clean")) {
      CompletedFills(defaults, extra, "clean");
    }
    if |cli.embed| == 0 && Truthy(Get(extra, "embeds")) {
      CompletedFills(defaults, extra, "embeds");
    }
  }

  /** CSV, TSV and NDJSON input carries no parameters: the run's parameters
      are the command line's alone. */
  lemma ResolveLineFormatsUseCli(cli: CliArgs, input: InputFile)
    requires ChosenFormat(cli) in {"csv", "tsv", "ndjson"}
    ensures Resolve(cli, input).Ok? ==>
              Ok(Resolve(cli, input).value.raycast) == ParamsFromFields(RaycastDefaults(cli))
              && Ok(Resolve(cli, input).value.raygen) == RaygenFromFields(RaygenDefaults(cli))
  {
    if Resolve(cli, input).Err? { return; }
    var format := FormatFromName(ChosenFormat(cli)).value;
    assert format != Json;
    var parsed := ParseInput(format, cli.headerRow, input).value;
    assert Resolve(cli, input) == Assemble(cli, parsed);
    CompletedEmpty(RaycastDefaults(cli));
    CompletedEmpty(RaygenDefaults(cli));
  }

  /** A truthy top-level document key that is not a `RaygenParams` field is
      added by `complete_dict` and then refused by `RaygenParams(**...)`. */
  lemma AssembleUnknownDocumentKey(cli: CliArgs, parsed: Parsed, k: string)
    requires k in parsed.raygenExtra && Truthy(parsed.raygenExtra[k]) && k !in RaygenFields
    ensures Assemble(cli, parsed) == Err(UnexpectedKeyword)
  {
    assert Fills(RaygenDefaults(cli), parsed.raygenExtra, k);
  }

  /** Every item the reader produced comes out, in order, completed. */
  lemma AssembledItems(cli: CliArgs, parsed: Parsed)
    requires Assemble(cli, parsed).Ok?
    ensures |Assemble(cli, parsed).value.items| == |parsed.items|
    ensures forall i :: 0 <= i < |parsed.items| ==>
      Assemble(cli, parsed).value.items[i] == CompleteItem(parsed.items[i], cli)
  {
  }
}
