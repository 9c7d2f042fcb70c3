/** raygen/models.py: the four dataclasses, and how a dict of keyword
    arguments (`RaycastItem(**row)`) becomes one of them. */
module Models {
  import opened Results
  import opened Values
  import opened Errors

  /** One interactive argument of a script; all four fields are required. */
  datatype RaycastArgument = RaycastArgument(
    placeholder: string,
    percentEncoded: bool,
    secure: bool,
    optional: bool)

  /** The directives shared by every script of a run. */
  datatype RaycastParams = RaycastParams(
    mode: string,
    schemaVersion: int,
    packageName: Option<string>,
    author: Option<string>,
    authorUrl: Option<string>)

  /** One script to generate. A bool field keeps only the truthiness of the
      value it was given, which is all the renderer ever reads of it. */
  datatype RaycastItem = RaycastItem(
    title: string,
    command: string,
    description: Option<string>,
    needsConfirmation: bool,
    currentDirectoryPath: Option<string>,
    arguments: seq<RaycastArgument>,
    icon: Option<string>,
    iconDark: Option<string>)

  /** Where and how the scripts are written. */
  datatype RaygenParams = RaygenParams(
    outputDir: string,
    clean: bool,
    embeds: seq<string>,
    shebang: string)

  /** Truthiness of an `Optional[str]` field. */
  predicate Present(o: Option<string>) {
    o.Some? && o.value != ""
  }

  /** The value an `Optional[str]` field holds, as a dict would hold it. */
  function OptValue(o: Option<string>): Value {
    match o
    case None => Null
    case Some(s) => Str(s)
  }

  const ItemFields: set<string> :=
    {"title", "command", "description", "needs_confirmation",
     "current_directory_path", "arguments", "icon", "icon_dark"}
  const ParamsFields: set<string> :=
    {"mode", "schema_version", "package_name", "author", "author_url"}
  const RaygenFields: set<string> :=
    {"output_dir", "clean", "embeds", "shebang"}

  predicate IsStr(v: Value) {
    v.Str?
  }

  predicate IsOptStr(v: Value) {
    v.Null? || v.Str?
  }

  predicate IsStrList(v: Value) {
    v.List? && forall i :: 0 <= i < |v.elems| ==> v.elems[i].Str?
  }

  /** A list of strings as a value; distinct lists give distinct values. */
  function StrList(xs: seq<string>): (v: Value)
    ensures IsStrList(v) && |v.elems| == |xs|
    ensures forall i :: 0 <= i < |xs| ==> v.elems[i] == Str(xs[i])
  {
    List(seq(|xs|, i requires 0 <= i < |xs| => Str(xs[i])))
  }

  /** A required `str` field. */
  function StrField(f: map<string, Value>, k: string): (r: Result<string, Error>)
    requires k in f
    ensures r.Ok? <==> IsStr(f[k])
    ensures r.Ok? ==> f[k] == Str(r.value)
    ensures r.Err? ==> r.error == FieldType(k)
  {
    if f[k].Str? then Ok(f[k].s) else Err(FieldType(k))
  }

  /** An `Optional[str] = None` field. */
  function OptStrField(f: map<string, Value>, k: string): (r: Result<Option<string>, Error>)
    ensures r.Ok? <==> IsOptStr(Get(f, k))
    ensures r.Ok? ==> OptValue(r.value) == Get(f, k)
    ensures r.Err? ==> r.error == FieldType(k)
  {
    match Get(f, k)
    case Null => Ok(None)
    case Str(s) => Ok(Some(s))
    case _ => Err(FieldType(k))
  }

  /** An `int` field with a default. */
  function IntField(f: map<string, Value>, k: string, default: int): (r: Result<int, Error>)
    ensures r.Ok? <==> (k !in f || f[k].Int?)
    ensures r.Ok? ==> r.value == (if k in f then f[k].i else default)
    ensures r.Err? ==> r.error == FieldType(k)
  {
    if k !in f then Ok(default)
    else if f[k].Int? then Ok(f[k].i)
    else Err(FieldType(k))
  }

  /** A required `List[str]` field. */
  function StrListField(f: map<string, Value>, k: string): (r: Result<seq<string>, Error>)
    requires k in f
    ensures r.Ok? <==> IsStrList(f[k])
    ensures r.Ok? ==> |r.value| == |f[k].elems| && forall i :: 0 <= i < |r.value| ==> f[k].elems[i] == Str(r.value[i])
    ensures r.Err? ==> r.error == FieldType(k)
  {
    if IsStrList(f[k]) then Ok(seq(|f[k].elems|, i requires 0 <= i < |f[k].elems| => f[k].elems[i].s))
    else Err(FieldType(k))
  }

  /** The `arguments` field as a decoded record can give it: absent, or an
      empty list. A non-empty list would hold dicts, not `RaycastArgument`s. */
  function ArgumentsField(f: map<string, Value>): (r: Result<seq<RaycastArgument>, Error>)
    ensures r.Ok? <==> ("arguments" !in f || f["arguments"] == List([]))
    ensures r.Ok? ==> r.value == []
    ensures r.Err? ==> r.error == FieldType("arguments")
  {
    if "arguments" !in f || f["arguments"] == List([]) then Ok([]) else Err(FieldType("arguments"))
  }

  /** The values of `f` have the types `RaycastItem` declares. */
  predicate ItemFieldsTyped(f: map<string, Value>)
    requires "title" in f && "command" in f
  {
    && IsStr(f["title"]) && IsStr(f["command"])
    && IsOptStr(Get(f, "description")) && IsOptStr(Get(f, "current_directory_path"))
    && ("arguments" !in f || f["arguments"] == List([]))
    && IsOptStr(Get(f, "icon")) && IsOptStr(Get(f, "icon_dark"))
  }

  /** `RaycastItem(**f)`. An unknown keyword and a missing `title` or
      `command` are errors; on success each field holds the value `f` gives
      it and every field `f` leaves out takes its default: `None`, `False`,
      or a new empty argument list. */
  function ItemFromFields(f: map<string, Value>): (r: Result<RaycastItem, Error>)
    ensures !(f.Keys <= ItemFields) ==> r == Err(UnexpectedKeyword)
    ensures f.Keys <= ItemFields && !("title" in f && "command" in f) ==> r == Err(MissingArgument)
    ensures r.Ok? <==> f.Keys <= ItemFields && "title" in f && "command" in f && ItemFieldsTyped(f)
    ensures r.Ok? ==> f["title"] == Str(r.value.title) && f["command"] == Str(r.value.command)
    ensures r.Ok? ==> OptValue(r.value.description) == Get(f, "description")
    ensures r.Ok? ==> r.value.needsConfirmation == Truthy(Get(f, "needs_confirmation"))
    ensures r.Ok? ==> OptValue(r.value.currentDirectoryPath) == Get(f, "current_directory_path")
    ensures r.Ok? ==> r.value.arguments == []
    ensures r.Ok? ==> OptValue(r.value.icon) == Get(f, "icon") && OptValue(r.value.iconDark) == Get(f, "icon_dark")
  {
    if !(f.Keys <= ItemFields) then Err(UnexpectedKeyword)
    else if !("title" in f && "command" in f) then Err(MissingArgument)
    else
      var title :- StrField(f, "title");
      var command :- StrField(f, "command");
      var description :- OptStrField(f, "description");
      var currentDirectoryPath :- OptStrField(f, "current_directory_path");
      var arguments :- ArgumentsField(f);
      var icon :- OptStrField(f, "icon");
      var iconDark :- OptStrField(f, "icon_dark");
      Ok(RaycastItem(title, command, description, Truthy(Get(f, "needs_confirmation")),
                     currentDirectoryPath, arguments, icon, iconDark))
  }

  /** A record with only a title and a command gets every default. */
  lemma ItemDefaults(title: string, command: string)
    ensures ItemFromFields(map["title" := Str(title), "command" := Str(command)])
         == Ok(RaycastItem(title, command, None, false, None, [], None, None))
  {
    var f := map["title" := Str(title), "command" := Str(command)];
    assert f.Keys <= ItemFields;
    var r := ItemFromFields(f);
    assert r.Ok?;
  }

  /** `RaycastParams(**f)`: `mode` is required; `schema_version` defaults to
      1 and the three optional strings to `None`. */
  function ParamsFromFields(f: map<string, Value>): (r: Result<RaycastParams, Error>)
    ensures !(f.Keys <= ParamsFields) ==> r == Err(UnexpectedKeyword)
    ensures f.Keys <= ParamsFields && "mode" !in f ==> r == Err(MissingArgument)
    ensures r.Ok? <==> f.Keys <= ParamsFields && "mode" in f && IsStr(f["mode"])
                       && ("schema_version" !in f || f["schema_version"].Int?)
                       && IsOptStr(Get(f, "package_name")) && IsOptStr(Get(f, "author"))
                       && IsOptStr(Get(f, "author_url"))
    ensures r.Ok? ==> f["mode"] == Str(r.value.mode)
    ensures r.Ok? ==> r.value.schemaVersion == (if "schema_version" in f then f["schema_version"].i else 1)
    ensures r.Ok? ==> OptValue(r.value.packageName) == Get(f, "package_name")
    ensures r.Ok? ==> OptValue(r.value.author) == Get(f, "author")
    ensures r.Ok? ==> OptValue(r.value.authorUrl) == Get(f, "author_url")
  {
    if !(f.Keys <= ParamsFields) then Err(UnexpectedKeyword)
    else if "mode" !in f then Err(MissingArgument)
    else
      var mode :- StrField(f, "mode");
      var schemaVersion :- IntField(f, "schema_version", 1);
      var packageName :- OptStrField(f, "package_name");
      var author :- OptStrField(f, "author");
      var authorUrl :- OptStrField(f, "author_url");
      Ok(RaycastParams(mode, schemaVersion, packageName, author, authorUrl))
  }

  /** `RaygenParams(**f)`: all four fields are required. */
  function RaygenFromFields(f: map<string, Value>): (r: Result<RaygenParams, Error>)
    ensures !(f.Keys <= RaygenFields) ==> r == Err(UnexpectedKeyword)
    ensures f.Keys <= RaygenFields && f.Keys != RaygenFields ==> r == Err(MissingArgument)
    ensures r.Ok? <==> f.Keys == RaygenFields && IsStr(f["output_dir"]) && IsStrList(f["embeds"])
                       && IsStr(f["shebang"])
    ensures r.Ok? ==> f["output_dir"] == Str(r.value.outputDir) && f["shebang"] == Str(r.value.shebang)
    ensures r.Ok? ==> r.value.clean == Truthy(f["clean"])
    ensures r.Ok? ==> f["embeds"] == StrList(r.value.embeds)
  {
    if !(f.Keys <= RaygenFields) then Err(UnexpectedKeyword)
    else if f.Keys != RaygenFields then Err(MissingArgument)
    else
      var outputDir :- StrField(f, "output_dir");
      var embeds :- StrListField(f, "embeds");
      var shebang :- StrField(f, "shebang");
      Ok(RaygenParams(outputDir, Truthy(f["clean"]), embeds, shebang))
  }
}
