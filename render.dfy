/** The text half of raygen/io.py's `generate_scripts`: the file name of each
    script, the `# @raycast.*` directive lines, the JSON of each argument and
    the script text produced from TEMPLATE. The file system actions (removing
    and creating the output directory, copying embeds and icons) are not
    modelled; the writes are returned as (file name, content) pairs. */
module Render {
  import opened Results
  import opened Text
  import opened Values
  import opened Models

  // ---------------------------------------------------------------------
  // File names

  /** The character `title.replace(" ", "-").lower()` puts at a position. */
  function FilenameChar(c: char): char {
    if c == ' ' then '-' else LowerChar(c)
  }

  /** `title.replace(" ", "-").lower() + ".sh"`. */
  function ScriptFilename(title: string): (name: string)
    ensures |name| == |title| + 3
    ensures forall i :: 0 <= i < |title| ==> name[i] == FilenameChar(title[i])
    ensures name[|title|..] == ".sh"
    ensures NoUpper(name) && ' ' !in name
  {
    var dashed := seq(|title|, i requires 0 <= i < |title| => if title[i] == ' ' then '-' else title[i]);
    Lower(dashed) + ".sh"
  }

  /** Two titles that agree once spaces become dashes and ASCII letters are
      lowered are written to the same file, the later script replacing the
      earlier one. */
  lemma FilenameCollision(t1: string, t2: string)
    requires |t1| == |t2|
    requires forall i :: 0 <= i < |t1| ==> FilenameChar(t1[i]) == FilenameChar(t2[i])
    ensures ScriptFilename(t1) == ScriptFilename(t2)
  {
    var a, b := ScriptFilename(t1), ScriptFilename(t2);
    assert a == a[..|t1|] + ".sh" && b == b[..|t2|] + ".sh";
    assert a[..|t1|] == b[..|t2|];
  }

  // ---------------------------------------------------------------------
  // Icon file names

  /** The last piece of a POSIX path, ignoring empty and `.` pieces. */
  function LastPart(parts: seq<string>): (name: string)
    ensures name == "" || name in parts
    ensures name != "."
  {
    if parts == [] then ""
    else
      var last := parts[|parts| - 1];
      if last == "" || last == "." then LastPart(parts[..|parts| - 1]) else last
  }

  /** `pathlib.Path(p).name` on a POSIX system. */
  function PathName(p: string): (name: string)
    ensures '/' !in name && name != "."
  {
    LastPart(SplitOn(p, '/'))
  }

  /** A path without a directory part is its own name. */
  lemma PathNameOfPlainName(p: string)
    requires '/' !in p && p != "."
    ensures PathName(p) == p
  {
    SplitWord(p, '/');
  }

  /** The name is the last component: whatever directories precede it. */
  lemma {:induction false} PathNameAfterDirectory(dir: string, name: string)
    requires '/' !in name && name != "" && name != "."
    ensures PathName(dir + "/" + name) == name
  {
    var parts := SplitOn(dir, '/');
    SplitJoin(parts, '/', name);
    SplitWord(name, '/');
    assert dir + "/" + name == Join(parts, ['/']) + ['/'] + name;
  }

  // ---------------------------------------------------------------------
  // json.dumps of an argument

  /** Characters `json.dumps` writes as themselves (it escapes everything
      outside printable ASCII by default). */
  predicate Printable(c: char) {
    ' ' <= c <= '~'
  }

  predicate AllPrintable(s: string) {
    forall i :: 0 <= i < |s| ==> Printable(s[i])
  }

  function HexDigit(d: nat): (c: char)
    requires d < 16
    ensures Printable(c)
  {
    "0123456789abcdef"[d]
  }

  /** Four lower-case hexadecimal digits, as in `'\\u%04x'`. */
  function Hex4(n: nat): (r: string)
    requires n < 0x1_0000
    ensures |r| == 4 && AllPrintable(r)
  {
    [HexDigit(n / 0x1000), HexDigit(n / 0x100 % 16), HexDigit(n / 0x10 % 16), HexDigit(n % 16)]
  }

  /** How `json.dumps` writes one character of a string: the two-character
      escapes first, printable ASCII as itself, other characters of the
      Basic Multilingual Plane as `\uXXXX`, the rest as a surrogate pair. */
  function EscapeChar(c: char): (r: string)
    ensures |r| > 0 && AllPrintable(r)
    ensures Plain(c) ==> r == [c]
    ensures !Plain(c) ==> |r| >= 2 && r[0] == '\\'
    ensures c == '"' ==> r == ['\\', '"']
    ensures c == '\\' ==> r == ['\\', '\\']
  {
    if c == '"' then "\\\""
    else if c == '\\' then "\\\\"
    else if c == '\n' then "\\n"
    else if c == '\r' then "\\r"
    else if c == '\t' then "\\t"
    else if c == 8 as char then "\\b"
    else if c == 12 as char then "\\f"
    else if Printable(c) then [c]
    else if c as int < 0x1_0000 then "\\u" + Hex4(c as int)
    else
      var v := c as int - 0x1_0000;
      "\\u" + Hex4(0xd800 + v / 0x400) + "\\u" + Hex4(0xdc00 + v % 0x400)
  }

  function EscapeAll(s: string): (r: string)
    ensures AllPrintable(r)
  {
    if s == "" then "" else EscapeChar(s[0]) + EscapeAll(s[1..])
  }

  /** `json.dumps(s)` for a `str`. */
  function JsonString(s: string): (r: string)
    ensures |r| >= 2 && r[0] == '"' && r[|r| - 1] == '"'
    ensures AllPrintable(r)
  {
    "\"" + EscapeAll(s) + "\""
  }

  /** Characters that need no escape. */
  predicate Plain(c: char) {
    Printable(c) && c != '"' && c != '\\'
  }

  /** A string of plain characters is written between quotes unchanged. */
  lemma {:induction false} JsonStringOfPlain(s: string)
    requires forall i :: 0 <= i < |s| ==> Plain(s[i])
    ensures JsonString(s) == "\"" + s + "\""
  {
    EscapeAllOfPlain(s);
  }

  lemma {:induction false} EscapeAllOfPlain(s: string)
    requires forall i :: 0 <= i < |s| ==> Plain(s[i])
    ensures EscapeAll(s) == s
  {
    if s != "" {
      EscapeAllOfPlain(s[1..]);
      assert [s[0]] + s[1..] == s;
    }
  }

  /** A quote or backslash in the placeholder is preceded by a backslash. */
  lemma EscapeQuote(s: string)
    ensures EscapeAll("\"" + s) == "\\\"" + EscapeAll(s)
    ensures EscapeAll("\\" + s) == "\\\\" + EscapeAll(s)
  {
    assert ("\"" + s)[1..] == s;
    assert ("\\" + s)[1..] == s;
  }

  function JsonBool(b: bool): string {
    if b then "true" else "false"
  }

  /** The literal parts of an argument's JSON, in the order `json.dumps`
      writes the keys of the options dict. */
  const OptionsHead: string := "{\"type\": \"text\", \"placeholder\": "
  const EncodedKey: string := ", \"percentEncoded\": "
  const OptionalKey: string := ", \"optional\": "
  const SecureKey: string := ", \"secure\": "

  /** `json.dumps(options)` for the options dict of one argument; the keys
      keep the dict's insertion order. */
  function ArgumentJson(a: RaycastArgument): (r: string)
    ensures |r| > 0 && r[0] == '{' && r[|r| - 1] == '}'
  {
    OptionsHead + JsonString(a.placeholder)
    + EncodedKey + JsonBool(a.percentEncoded)
    + OptionalKey + JsonBool(a.optional)
    + SecureKey + JsonBool(a.secure) + "}"
  }

  lemma PrintableAppend(a: string, b: string)
    requires AllPrintable(a) && AllPrintable(b)
    ensures AllPrintable(a + b)
  {
  }

  /** The argument's JSON is a single line of printable ASCII. */
  lemma ArgumentJsonPrintable(a: RaycastArgument)
    ensures AllPrintable(ArgumentJson(a))
  {
    var s0, s1, s2, s3 := OptionsHead, EncodedKey, OptionalKey, SecureKey;
    KeysPrintable();
    LiteralPrintable(JsonBool(a.percentEncoded));
    LiteralPrintable(JsonBool(a.optional));
    LiteralPrintable(JsonBool(a.secure));
    PrintableChain(s0, JsonString(a.placeholder), s1, JsonBool(a.percentEncoded), s2, JsonBool(a.optional),
      s3, JsonBool(a.secure), "}");
  }

  lemma KeysPrintable()
    ensures AllPrintable(OptionsHead) && AllPrintable(EncodedKey) && AllPrintable(OptionalKey)
    ensures AllPrintable(SecureKey) && AllPrintable("}")
  {
    LiteralPrintable(OptionsHead);
    LiteralPrintable(EncodedKey);
    LiteralPrintable(OptionalKey);
    LiteralPrintable(SecureKey);
    LiteralPrintable("}");
  }

  lemma LiteralPrintable(s: string)
    requires forall i :: 0 <= i < |s| ==> ' ' <= s[i] <= '~'
    ensures AllPrintable(s)
  {
  }

  lemma PrintableChain(s0: string, x0: string, s1: string, x1: string, s2: string, x2: string,
                       s3: string, x3: string, s4: string)
    requires AllPrintable(s0) && AllPrintable(x0) && AllPrintable(s1) && AllPrintable(x1)
    requires AllPrintable(s2) && AllPrintable(x2) && AllPrintable(s3) && AllPrintable(x3) && AllPrintable(s4)
    ensures AllPrintable(s0 + x0 + s1 + x1 + s2 + x2 + s3 + x3 + s4)
  {
    PrintableAppend(s0, x0);
    PrintableAppend(s0 + x0, s1);
    PrintableAppend(s0 + x0 + s1, x1);
    PrintableAppend(s0 + x0 + s1 + x1, s2);
    PrintableAppend(s0 + x0 + s1 + x1 + s2, x2);
    PrintableAppend(s0 + x0 + s1 + x1 + s2 + x2, s3);
    PrintableAppend(s0 + x0 + s1 + x1 + s2 + x2 + s3, x3);
    PrintableAppend(s0 + x0 + s1 + x1 + s2 + x2 + s3 + x3, s4);
  }

  // ---------------------------------------------------------------------
  // Directives

  /** The keys of the directives raygen writes, in the order they appear. */
  datatype Key =
    | SchemaVersion | Mode | PackageName | Author | AuthorUrl
    | NeedsConfirmation | Title | Argument(n: nat)
    | Description | CurrentDirectoryPath | Icon | IconDark

  /** The name Raycast knows a key by. */
  function Name(k: Key): (name: string)
    ensures |name| > 0 && ' ' !in name && '\n' !in name
  {
    match k
    case SchemaVersion => "schemaVersion"
    case Mode => "mode"
    case PackageName => "packageName"
    case Author => "author"
    case AuthorUrl => "authorURL"
    case NeedsConfirmation => "needsConfirmation"
    case Title => "title"
    case Argument(n) => "argument" + IntToString(n)
    case Description => "description"
    case CurrentDirectoryPath => "currentDirectoryPath"
    case Icon => "icon"
    case IconDark => "iconDark"
  }

  /** One `# @raycast.<key> <value>` line. */
  datatype Directive = Directive(key: Key, value: string)

  const Prefix: string := "# @raycast."

  function Line(d: Directive): string {
    Prefix + Name(d.key) + " " + d.value
  }

  function Lines(ds: seq<Directive>): (ls: seq<string>)
    ensures |ls| == |ds|
    ensures forall i :: 0 <= i < |ds| ==> ls[i] == Line(ds[i])
  {
    seq(|ds|, i requires 0 <= i < |ds| => Line(ds[i]))
  }

  lemma LinesAppend(xs: seq<Directive>, ys: seq<Directive>)
    ensures Lines(xs + ys) == Lines(xs) + Lines(ys)
  {
  }

  function Keys(ds: seq<Directive>): (ks: seq<Key>)
    ensures |ks| == |ds|
    ensures forall i :: 0 <= i < |ds| ==> ks[i] == ds[i].key
  {
    seq(|ds|, i requires 0 <= i < |ds| => ds[i].key)
  }

  /** The first position of `c` in `s`, or `|s|` when there is none. */
  function IndexOf(s: string, c: char): (n: nat)
    ensures n <= |s|
    ensures c !in s[..n]
    ensures n < |s| ==> s[n] == c
  {
    if s == "" then 0
    else if s[0] == c then 0
    else
      var n := 1 + IndexOf(s[1..], c);
      assert s[..n] == [s[0]] + s[1..][..n - 1];
      n
  }

  /** How Raycast reads a directive line back: the key name runs up to the
      first space after the prefix, the value is everything after it. */
  function ParseLine(line: string): (r: Option<(string, string)>)
    ensures r.Some? ==> ' ' !in r.value.0
  {
    if |line| < |Prefix| || line[..|Prefix|] != Prefix then None
    else
      var rest := line[|Prefix|..];
      var n := IndexOf(rest, ' ');
      if n == |rest| then None
      else Some((rest[..n], rest[n + 1..]))
  }

  /** Every directive line reads back as its key's name and its value. */
  lemma LineRoundTrip(d: Directive)
    ensures ParseLine(Line(d)) == Some((Name(d.key), d.value))
  {
    var key := Name(d.key);
    var line := Line(d);
    var rest := line[|Prefix|..];
    assert rest == key + " " + d.value;
    assert rest[..|key|] == key;
    assert rest[|key|] == ' ';
    var n := IndexOf(rest, ' ');
    assert n == |key|;
    assert rest[n + 1..] == d.value;
  }

  /** The key a directive name stands for: one of the fixed names, or
      `argument` followed by a decimal number. */
  function KeyOf(name: string): Option<Key> {
    if |name| > 8 && name[..8] == "argument" then
      match ParseInt(name[8..])
      case Some(n) => if n >= 0 then Some(Argument(n)) else None
      case None => None
    else if name == "schemaVersion" then Some(SchemaVersion)
    else if name == "mode" then Some(Mode)
    else if name == "packageName" then Some(PackageName)
    else if name == "author" then Some(Author)
    else if name == "authorURL" then Some(AuthorUrl)
    else if name == "needsConfirmation" then Some(NeedsConfirmation)
    else if name == "title" then Some(Title)
    else if name == "description" then Some(Description)
    else if name == "currentDirectoryPath" then Some(CurrentDirectoryPath)
    else if name == "icon" then Some(Icon)
    else if name == "iconDark" then Some(IconDark)
    else None
  }

  /** Every key is read back from its name, so no two keys share one. */
  lemma KeyOfName(k: Key)
    ensures KeyOf(Name(k)) == Some(k)
  {
    if k.Argument? {
      ArgumentKeyOfName(k.n);
    } else {
      FixedKeyOfName(k);
    }
  }

  lemma ArgumentKeyOfName(n: nat)
    ensures KeyOf(Name(Argument(n))) == Some(Argument(n))
  {
    assert Name(Argument(n))[8..] == IntToString(n);
    IntToStringRoundTrip(n);
  }

  lemma FixedKeyOfName(k: Key)
    requires !k.Argument?
    ensures KeyOf(Name(k)) == Some(k)
  {
    var name := Name(k);
    assert |name| > 8 ==> name[..8][1] != "argument"[1];
  }

  /** A directive line as Raycast reads it. */
  function ParseDirective(line: string): Option<Directive> {
    match ParseLine(line)
    case None => None
    case Some((name, value)) =>
      match KeyOf(name)
      case None => None
      case Some(key) => Some(Directive(key, value))
  }

  /** Every directive line reads back as the directive it was written from. */
  lemma DirectiveRoundTrip(d: Directive)
    ensures ParseDirective(Line(d)) == Some(d)
  {
    LineRoundTrip(d);
    KeyOfName(d.key);
  }

  /** The lines that open every script: schema version and mode, then the
      package name, author and author URL when they are truthy. */
  function GlobalDirectives(p: RaycastParams): (ds: seq<Directive>)
    ensures |ds| == 2 + Flag(Present(p.packageName)) + Flag(Present(p.author)) + Flag(Present(p.authorUrl))
    ensures ds[0] == Directive(SchemaVersion, IntToString(p.schemaVersion)) && ds[1] == Directive(Mode, p.mode)
    ensures Present(p.packageName) ==> ds[2] == Directive(PackageName, p.packageName.value)
    ensures Present(p.author) ==> ds[2 + Flag(Present(p.packageName))] == Directive(Author, p.author.value)
    ensures Present(p.authorUrl) ==> ds[|ds| - 1] == Directive(AuthorUrl, p.authorUrl.value)
  {
    [Directive(SchemaVersion, IntToString(p.schemaVersion)), Directive(Mode, p.mode)]
    + When(Present(p.packageName), PackageName, OptText(p.packageName))
    + When(Present(p.author), Author, OptText(p.author))
    + When(Present(p.authorUrl), AuthorUrl, OptText(p.authorUrl))
  }

  const Confirmation: Directive := Directive(NeedsConfirmation, "true")

  /** The confirmation lines that earlier items have added to the shared
      list: one per earlier item that asked for confirmation. */
  function Confirmations(k: nat): (ds: seq<Directive>)
    ensures |ds| == k
    ensures forall i :: 0 <= i < k ==> ds[i] == Confirmation
  {
    seq(k, i => Confirmation)
  }

  /** `argument1`, `argument2`, ... in the order of the item's arguments. */
  function ArgumentDirectives(args: seq<RaycastArgument>): (ds: seq<Directive>)
    ensures |ds| == |args|
    ensures forall i :: 0 <= i < |args| ==> ds[i] == Directive(Argument(i + 1), ArgumentJson(args[i]))
  {
    Numbered(ArgumentJsons(args))
  }

  /** The JSON of each argument, in order. */
  function ArgumentJsons(args: seq<RaycastArgument>): (js: seq<string>)
    ensures |js| == |args|
    ensures forall i :: 0 <= i < |args| ==> js[i] == ArgumentJson(args[i])
  {
    seq(|args|, i requires 0 <= i < |args| => ArgumentJson(args[i]))
  }

  /** `argument<n> options` for the n-th options string, counting from 1. */
  function Numbered(js: seq<string>): (ds: seq<Directive>)
    ensures |ds| == |js|
    ensures forall i :: 0 <= i < |js| ==> ds[i] == Directive(Argument(i + 1), js[i])
  {
    seq(|js|, i requires 0 <= i < |js| => Directive(Argument(i + 1), js[i]))
  }

  /** The directives after the arguments, each only when its field is truthy;
      an icon is named by its file name alone. */
  function ItemTail(item: RaycastItem): (ds: seq<Directive>)
    ensures |ds| == Flag(Present(item.description)) + Flag(Present(item.currentDirectoryPath))
                    + Flag(Present(item.icon)) + Flag(Present(item.iconDark))
    ensures forall d :: d in ds <==>
      || (Present(item.description) && d == Directive(Description, item.description.value))
      || (Present(item.currentDirectoryPath) && d == Directive(CurrentDirectoryPath, item.currentDirectoryPath.value))
      || (Present(item.icon) && d == Directive(Icon, PathName(item.icon.value)))
      || (Present(item.iconDark) && d == Directive(IconDark, PathName(item.iconDark.value)))
  {
    When(Present(item.description), Description, OptText(item.description))
    + When(Present(item.currentDirectoryPath), CurrentDirectoryPath, OptText(item.currentDirectoryPath))
    + When(Present(item.icon), Icon, PathName(OptText(item.icon)))
    + When(Present(item.iconDark), IconDark, PathName(OptText(item.iconDark)))
  }

  /** The directive `key value` when `cond` holds, nothing otherwise. */
  function When(cond: bool, key: Key, value: string): (ds: seq<Directive>)
    ensures |ds| == Flag(cond)
    ensures forall d :: d in ds <==> cond && d == Directive(key, value)
  {
    if cond then [Directive(key, value)] else []
  }

  function OptText(o: Option<string>): string {
    if o.Some? then o.value else ""
  }

  /** The directives of one script, given how many confirmation lines the
      earlier items have left in the shared list. */
  function ScriptDirectives(p: RaycastParams, item: RaycastItem, k: nat): (ds: seq<Directive>)
    ensures |ds| == |GlobalDirectives(p)| + k + 1 + |item.arguments| + |ItemTail(item)|
    ensures ds[..|GlobalDirectives(p)| + k] == GlobalDirectives(p) + Confirmations(k)
  {
    GlobalDirectives(p) + Confirmations(k) + [Directive(Title, item.title)]
    + ArgumentDirectives(item.arguments) + ItemTail(item)
  }

  /** TEMPLATE with its three placeholders filled in: the shebang line
      first, the command last, after an empty line. */
  function Template(shebang: string, parameters: seq<string>, command: string): (r: string)
    ensures var head := "#!/usr/bin/env " + shebang + "\n";
      |r| > |head| && r[..|head|] == head
    ensures var tail := "\n\n" + command + "\n";
      |r| > |tail| && r[|r| - |tail|..] == tail
  {
    "#!/usr/bin/env " + shebang + "\n" + Join(parameters, "\n") + "\n\n" + command + "\n"
  }

  /** How many of the items ask for confirmation. */
  function CountFlagged(items: seq<RaycastItem>): nat {
    if items == [] then 0
    else CountFlagged(items[..|items| - 1]) + (if items[|items| - 1].needsConfirmation then 1 else 0)
  }

  /** The directives of the `i`-th script of a run. */
  function DirectivesAt(p: RaycastParams, items: seq<RaycastItem>, i: nat): seq<Directive>
    requires i < |items|
  {
    ScriptDirectives(p, items[i], CountFlagged(items[..i]))
  }

  /** The file name and content of the `i`-th script of a run. */
  function ScriptFile(p: RaycastParams, items: seq<RaycastItem>, i: nat, shebang: string): (string, string)
    requires i < |items|
  {
    (ScriptFilename(items[i].title), Template(shebang, Lines(DirectivesAt(p, items, i)), items[i].command))
  }

  /** The writes of a run, one per item in order. */
  function Scripts(p: RaycastParams, items: seq<RaycastItem>, shebang: string): (ws: seq<(string, string)>)
    ensures |ws| == |items|
  {
    seq(|items|, i requires 0 <= i < |items| => ScriptFile(p, items, i, shebang))
  }

  /** A write named after the item's title whose text ends with the item's
      command, after an empty line. */
  predicate NamedAfter(w: (string, string), item: RaycastItem) {
    w.0 == ScriptFilename(item.title)
    && |w.1| > |item.command| + 3
    && w.1[|w.1| - |item.command| - 3..] == "\n\n" + item.command + "\n"
  }

  /** Each write is named after its item's title and ends with the item's
      command. */
  lemma ScriptsNamed(p: RaycastParams, items: seq<RaycastItem>, shebang: string)
    ensures var ws := Scripts(p, items, shebang);
      forall i :: 0 <= i < |items| ==> NamedAfter(ws[i], items[i])
  {
    var ws := Scripts(p, items, shebang);
    forall i | 0 <= i < |items| ensures NamedAfter(ws[i], items[i]) {
      ScriptFileNamed(p, items, i, shebang);
    }
  }

  lemma ScriptFileNamed(p: RaycastParams, items: seq<RaycastItem>, i: nat, shebang: string)
    requires i < |items|
    ensures NamedAfter(ScriptFile(p, items, i, shebang), items[i])
  {
    TemplateEnds(shebang, Lines(DirectivesAt(p, items, i)), items[i]);
  }

  lemma TemplateEnds(shebang: string, parameters: seq<string>, item: RaycastItem)
    ensures NamedAfter((ScriptFilename(item.title), Template(shebang, parameters, item.command)), item)
  {
    assert |"\n\n" + item.command + "\n"| == |item.command| + 3;
  }

  /** The output directory after the writes: a later file of the same name
      replaces an earlier one. */
  function Written(writes: seq<(string, string)>): (out: map<string, string>)
    ensures out.Keys == KeysOf(writes)
    ensures forall i :: 0 <= i < |writes| && LastWithKey(writes, i) ==> writes[i].0 in out && out[writes[i].0] == writes[i].1
  {
    ToMapKeys(writes);
    assert forall i :: 0 <= i < |writes| && LastWithKey(writes, i) ==> ToMap(writes)[writes[i].0] == writes[i].1 by {
      forall i | 0 <= i < |writes| && LastWithKey(writes, i)
        ensures writes[i].0 in ToMap(writes) && ToMap(writes)[writes[i].0] == writes[i].1
      {
        ToMapLast(writes, i);
      }
    }
    ToMap(writes)
  }

  // ---------------------------------------------------------------------
  // The loop of generate_scripts

  /** The loop over the items: each item's file name and content, in order.
      The shared list `global` grows by a confirmation line after each item
      that asks for one, so that line reaches every later script. */
  method GenerateScripts(p: RaycastParams, items: seq<RaycastItem>, shebang: string)
    returns (writes: seq<(string, string)>)
    ensures writes == Scripts(p, items, shebang)
  {
    var global := Lines(GlobalDirectives(p));
    writes := [];
    var i := 0;
    while i < |items|
      invariant 0 <= i <= |items|
      invariant global == Lines(GlobalDirectives(p) + Confirmations(CountFlagged(items[..i])))
      invariant writes == Scripts(p, items, shebang)[..i]
    {
      var item := items[i];
      var filename := ScriptFilename(item.title);
      var parameters := ItemParameters(global, GlobalDirectives(p) + Confirmations(CountFlagged(items[..i])), item);
      ConfirmationsGrow(p, items, i);
      if item.needsConfirmation {
        global := global + [Line(Confirmation)];
      }
      assert global == Lines(GlobalDirectives(p) + Confirmations(CountFlagged(items[..i + 1])));
      assert (filename, Template(shebang, parameters, item.command)) == Scripts(p, items, shebang)[i];
      PrefixSnoc(Scripts(p, items, shebang), i);
      writes := writes + [(filename, Template(shebang, parameters, item.command))];
      i := i + 1;
    }
    assert Scripts(p, items, shebang)[..i] == Scripts(p, items, shebang);
  }

  lemma PrefixSnoc<T>(s: seq<T>, i: nat)
    requires i < |s|
    ensures s[..i] + [s[i]] == s[..i + 1]
  {
  }

  /** The directive lines of one script: the shared lines, the title, the
      arguments, then description, working directory and icons when set.
      (The source appends the confirmation line to the shared list between
      the description and the working directory; `parameters` is a copy by
      then, so the order of the two is immaterial.) */
  method ItemParameters(global: seq<string>, ghost shared: seq<Directive>, item: RaycastItem)
    returns (parameters: seq<string>)
    requires global == Lines(shared)
    ensures parameters == Lines(shared + [Directive(Title, item.title)] + ArgumentDirectives(item.arguments) + ItemTail(item))
  {
    parameters := global + [Line(Directive(Title, item.title))];
    ghost var built := shared + [Directive(Title, item.title)];
    LinesAppend(shared, [Directive(Title, item.title)]);
    parameters := AppendArguments(parameters, built, item.arguments);
    built := built + ArgumentDirectives(item.arguments);
    ghost var head := built;

    if Present(item.description) {
      parameters := parameters + [Line(Directive(Description, item.description.value))];
    }
    Extend(built, Present(item.description), Description, OptText(item.description));
    built := built + When(Present(item.description), Description, OptText(item.description));
    assert parameters == Lines(built);
    if Present(item.currentDirectoryPath) {
      parameters := parameters + [Line(Directive(CurrentDirectoryPath, item.currentDirectoryPath.value))];
    }
    Extend(built, Present(item.currentDirectoryPath), CurrentDirectoryPath, OptText(item.currentDirectoryPath));
    built := built + When(Present(item.currentDirectoryPath), CurrentDirectoryPath, OptText(item.currentDirectoryPath));
    assert parameters == Lines(built);
    if Present(item.icon) {
      parameters := parameters + [Line(Directive(Icon, PathName(item.icon.value)))];
    }
    Extend(built, Present(item.icon), Icon, PathName(OptText(item.icon)));
    built := built + When(Present(item.icon), Icon, PathName(OptText(item.icon)));
    assert parameters == Lines(built);
    if Present(item.iconDark) {
      parameters := parameters + [Line(Directive(IconDark, PathName(item.iconDark.value)))];
    }
    Extend(built, Present(item.iconDark), IconDark, PathName(OptText(item.iconDark)));
    built := built + When(Present(item.iconDark), IconDark, PathName(OptText(item.iconDark)));
    assert parameters == Lines(built);
    AppendFour(head, When(Present(item.description), Description, OptText(item.description)),
      When(Present(item.currentDirectoryPath), CurrentDirectoryPath, OptText(item.currentDirectoryPath)),
      When(Present(item.icon), Icon, PathName(OptText(item.icon))),
      When(Present(item.iconDark), IconDark, PathName(OptText(item.iconDark))));
  }

  lemma AppendFour<T>(h: seq<T>, a: seq<T>, b: seq<T>, c: seq<T>, d: seq<T>)
    ensures h + a + b + c + d == h + (a + b + c + d)
  {
  }

  /** The loop over `enumerate(arguments, 1)`: one `argument<n>` line per
      argument, numbered from 1. */
  method AppendArguments(parameters: seq<string>, ghost built: seq<Directive>, args: seq<RaycastArgument>)
    returns (r: seq<string>)
    requires parameters == Lines(built)
    ensures r == Lines(built + ArgumentDirectives(args))
  {
    ghost var js := ArgumentJsons(args);
    r := parameters;
    var j := 0;
    while j < |args|
      invariant 0 <= j <= |args|
      invariant r == Lines(built + Numbered(js[..j]))
    {
      r := r + [Line(Directive(Argument(j + 1), ArgumentJson(args[j])))];
      NumberedStep(built, js, j);
      j := j + 1;
    }
    assert js[..j] == js;
  }

  lemma NumberedStep(built: seq<Directive>, js: seq<string>, j: nat)
    requires j < |js|
    ensures Lines(built + Numbered(js[..j + 1]))
         == Lines(built + Numbered(js[..j])) + [Line(Directive(Argument(j + 1), js[j]))]
  {
    var d := Directive(Argument(j + 1), js[j]);
    var before := built + Numbered(js[..j]);
    NumberedSnoc(js, j);
    assert built + Numbered(js[..j + 1]) == before + [d];
    LinesAppend(before, [d]);
  }

  lemma NumberedSnoc(js: seq<string>, j: nat)
    requires j < |js|
    ensures Numbered(js[..j + 1]) == Numbered(js[..j]) + [Directive(Argument(j + 1), js[j])]
  {
    var longer := Numbered(js[..j + 1]);
    var shorter := Numbered(js[..j]) + [Directive(Argument(j + 1), js[j])];
    assert |longer| == |shorter|;
    forall i | 0 <= i < j ensures longer[i] == shorter[i] {
      assert js[..j + 1][i] == js[..j][i];
    }
  }

  /** One optional append of the loop body keeps `parameters` equal to the
      lines of the directives built so far. */
  lemma Extend(built: seq<Directive>, cond: bool, key: Key, value: string)
    ensures Lines(built + When(cond, key, value))
         == Lines(built) + (if cond then [Line(Directive(key, value))] else [])
  {
    LinesAppend(built, When(cond, key, value));
  }

  /** The shared list after item `i`: one more confirmation line when the
      item asks for confirmation. */
  lemma ConfirmationsGrow(p: RaycastParams, items: seq<RaycastItem>, i: nat)
    requires i < |items|
    ensures Lines(GlobalDirectives(p) + Confirmations(CountFlagged(items[..i + 1])))
         == Lines(GlobalDirectives(p) + Confirmations(CountFlagged(items[..i])))
            + (if items[i].needsConfirmation then [Line(Confirmation)] else [])
  {
    var k := CountFlagged(items[..i]);
    assert items[..i + 1][..i] == items[..i];
    var extra := if items[i].needsConfirmation then [Confirmation] else [];
    assert Confirmations(CountFlagged(items[..i + 1])) == Confirmations(k) + extra;
    LinesAppend(GlobalDirectives(p) + Confirmations(k), extra);
    assert GlobalDirectives(p) + Confirmations(k) + extra == GlobalDirectives(p) + (Confirmations(k) + extra);
  }

  // ---------------------------------------------------------------------
  // The text of a script

  /** The script splits into its shebang line, the directive lines, one
      blank line, the lines of the command and the empty piece after the
      final newline. */
  lemma {:induction false} TemplateLines(shebang: string, parameters: seq<string>, command: string)
    requires '\n' !in shebang
    requires |parameters| > 0 && forall j :: 0 <= j < |parameters| ==> '\n' !in parameters[j]
    ensures SplitOn(Template(shebang, parameters, command), '\n')
         == ["#!/usr/bin/env " + shebang] + parameters + [""] + SplitOn(command, '\n') + [""]
  {
    var first := "#!/usr/bin/env " + shebang;
    var parts := [first] + parameters;
    var tail := "\n" + command + "\n";
    assert parts[1..] == parameters;
    calc {
      SplitOn(Template(shebang, parameters, command), '\n');
      { assert Join(parts, "\n") == first + "\n" + Join(parameters, "\n");
        assert Template(shebang, parameters, command) == Join(parts, ['\n']) + ['\n'] + tail; }
      SplitOn(Join(parts, ['\n']) + ['\n'] + tail, '\n');
      { SplitJoin(parts, '\n', tail); }
      parts + SplitOn(tail, '\n');
      { assert tail[0] == '\n' && tail[1..] == command + ['\n']; }
      parts + ([""] + SplitOn(command + ['\n'], '\n'));
      { SplitTrailing(command, '\n'); }
      parts + ([""] + (SplitOn(command, '\n') + [""]));
    }
  }

  lemma LineSingle(d: Directive)
    requires '\n' !in d.value
    ensures '\n' !in Line(d)
  {
    var name := Name(d.key);
    assert Line(d) == Prefix + name + " " + d.value;
    assert forall i :: 0 <= i < |Prefix| ==> Prefix[i] != '\n';
  }

  /** Every line of the directive block reads back as its directive. */
  lemma LinesRoundTrip(ds: seq<Directive>)
    ensures forall j :: 0 <= j < |ds| ==> ParseLine(Lines(ds)[j]) == Some((Name(ds[j].key), ds[j].value))
  {
    forall j | 0 <= j < |ds| ensures ParseLine(Lines(ds)[j]) == Some((Name(ds[j].key), ds[j].value)) {
      LineRoundTrip(ds[j]);
    }
  }

  /** The `i`-th script of a run: when the shebang and the directive values
      are single lines, its lines are the shebang line, the directive lines
      (each reading back as its directive), a blank line and the command. */
  lemma ScriptText(p: RaycastParams, items: seq<RaycastItem>, i: nat, shebang: string)
    requires i < |items|
    requires '\n' !in shebang
    requires forall j :: 0 <= j < |DirectivesAt(p, items, i)| ==> '\n' !in DirectivesAt(p, items, i)[j].value
    ensures var ds := DirectivesAt(p, items, i);
      var lines := SplitOn(ScriptFile(p, items, i, shebang).1, '\n');
      lines == ["#!/usr/bin/env " + shebang] + Lines(ds) + [""] + SplitOn(items[i].command, '\n') + [""]
      && forall j :: 0 <= j < |ds| ==> ParseLine(lines[1 + j]) == Some((Name(ds[j].key), ds[j].value))
  {
    var ds := DirectivesAt(p, items, i);
    assert |ds| >= 2;
    assert ScriptFile(p, items, i, shebang).1 == Template(shebang, Lines(ds), items[i].command);
    DirectiveLines(shebang, ds, items[i].command);
  }

  /** A script filled in with single-line directives splits into the
      shebang line, one line per directive (each reading back as its
      directive), a blank line and the command. */
  lemma DirectiveLines(shebang: string, ds: seq<Directive>, command: string)
    requires '\n' !in shebang
    requires |ds| > 0 && forall j :: 0 <= j < |ds| ==> '\n' !in ds[j].value
    ensures var lines := SplitOn(Template(shebang, Lines(ds), command), '\n');
      lines == ["#!/usr/bin/env " + shebang] + Lines(ds) + [""] + SplitOn(command, '\n') + [""]
      && forall j :: 0 <= j < |ds| ==> ParseLine(lines[1 + j]) == Some((Name(ds[j].key), ds[j].value))
  {
    var body := Lines(ds);
    var lines := SplitOn(Template(shebang, body, command), '\n');
    LinesSingle(ds);
    TemplateLines(shebang, body, command);
    forall j | 0 <= j < |ds| ensures ParseLine(lines[1 + j]) == Some((Name(ds[j].key), ds[j].value)) {
      assert lines[1 + j] == body[j];
      LineRoundTrip(ds[j]);
    }
  }

  lemma LinesSingle(ds: seq<Directive>)
    requires forall j :: 0 <= j < |ds| ==> '\n' !in ds[j].value
    ensures forall j :: 0 <= j < |ds| ==> '\n' !in Lines(ds)[j]
  {
    forall j | 0 <= j < |ds| ensures '\n' !in Lines(ds)[j] {
      LineSingle(ds[j]);
    }
  }

  // ---------------------------------------------------------------------
  // Order and multiplicity of the directives

  /** Where a key stands in the directive block; the `argument<n>` keys, not
      among the named ones, all stand at 7. */
  function Rank(key: Key): nat {
    match key
    case SchemaVersion => 0
    case Mode => 1
    case PackageName => 2
    case Author => 3
    case AuthorUrl => 4
    case NeedsConfirmation => 5
    case Title => 6
    case Argument(_) => 7
    case Description => 8
    case CurrentDirectoryPath => 9
    case Icon => 10
    case IconDark => 11
  }

  /** Each directive ranks no lower than the one before it. */
  predicate Ordered(ds: seq<Directive>) {
    |ds| <= 1 || (Rank(ds[0].key) <= Rank(ds[1].key) && Ordered(ds[1..]))
  }

  /** Every directive's rank lies between `lo` and `hi`. */
  predicate RanksIn(ds: seq<Directive>, lo: nat, hi: nat) {
    ds == [] || (lo <= Rank(ds[0].key) <= hi && RanksIn(ds[1..], lo, hi))
  }

  lemma {:induction false} OrderedAppend(xs: seq<Directive>, ys: seq<Directive>, lo: nat, m1: nat, m2: nat, hi: nat)
    requires Ordered(xs) && RanksIn(xs, lo, m1)
    requires Ordered(ys) && RanksIn(ys, m2, hi)
    requires lo <= m1 <= m2 <= hi
    ensures Ordered(xs + ys) && RanksIn(xs + ys, lo, hi)
  {
    if xs == [] {
      assert xs + ys == ys;
      RanksInWiden(ys, m2, hi, lo, hi);
    } else {
      assert (xs + ys)[1..] == xs[1..] + ys;
      OrderedAppend(xs[1..], ys, lo, m1, m2, hi);
    }
  }

  lemma {:induction false} RanksInWiden(ds: seq<Directive>, lo: nat, hi: nat, lo': nat, hi': nat)
    requires RanksIn(ds, lo, hi) && lo' <= lo && hi <= hi'
    ensures RanksIn(ds, lo', hi')
  {
    if ds != [] {
      RanksInWiden(ds[1..], lo, hi, lo', hi');
    }
  }

  /** A block whose directives all share one rank is in order. */
  lemma {:induction false} SameRankOrdered(ds: seq<Directive>, r: nat)
    requires forall i :: 0 <= i < |ds| ==> Rank(ds[i].key) == r
    ensures Ordered(ds) && RanksIn(ds, r, r)
  {
    if ds != [] {
      SameRankOrdered(ds[1..], r);
    }
  }

  /** The order read pairwise: no directive ranks above a later one. */
  lemma {:induction false} OrderedPairwise(ds: seq<Directive>)
    requires Ordered(ds)
    ensures forall i, j :: 0 <= i < j < |ds| ==> Rank(ds[i].key) <= Rank(ds[j].key)
  {
    if |ds| > 1 {
      OrderedPairwise(ds[1..]);
      forall j | 0 < j < |ds| ensures Rank(ds[0].key) <= Rank(ds[j].key) {
        assert ds[1..][j - 1] == ds[j];
        if j > 1 {
          assert ds[1..][0] == ds[1];
        }
      }
      forall i, j | 0 <= i < j < |ds| ensures Rank(ds[i].key) <= Rank(ds[j].key) {
        if i > 0 {
          assert ds[1..][i - 1] == ds[i] && ds[1..][j - 1] == ds[j];
        }
      }
    }
  }

  lemma WhenOrdered(cond: bool, key: Key, value: string)
    ensures Ordered(When(cond, key, value)) && RanksIn(When(cond, key, value), Rank(key), Rank(key))
  {
  }

  function Flag(b: bool): nat {
    if b then 1 else 0
  }

  /** The shared lines, over any values: in order, and each optional key
      present once exactly when its condition holds. */
  lemma GlobalShape(x0: string, x1: string, a: bool, b: bool, c: bool, xa: string, xb: string, xc: string)
    ensures var ds := [Directive(SchemaVersion, x0), Directive(Mode, x1)]
                      + When(a, PackageName, xa) + When(b, Author, xb) + When(c, AuthorUrl, xc);
      var m := multiset(Keys(ds));
      Ordered(ds) && RanksIn(ds, 0, 4)
      && m[SchemaVersion] == 1 && m[Mode] == 1
      && m[PackageName] == Flag(a) && m[Author] == Flag(b) && m[AuthorUrl] == Flag(c)
  {
    var h := [Directive(SchemaVersion, x0), Directive(Mode, x1)];
    var ds := h + When(a, PackageName, xa) + When(b, Author, xb) + When(c, AuthorUrl, xc);
    assert Ordered(h) && RanksIn(h, 0, 1);
    WhenOrdered(a, PackageName, xa);
    WhenOrdered(b, Author, xb);
    WhenOrdered(c, AuthorUrl, xc);
    GlobalShapeOrdered(h, When(a, PackageName, xa), When(b, Author, xb), When(c, AuthorUrl, xc));
    GlobalShapeKeys(x0, x1, a, b, c, xa, xb, xc);
    GlobalKeyCounts(a, b, c);
  }

  lemma GlobalKeyCounts(a: bool, b: bool, c: bool)
    ensures var m := multiset([SchemaVersion, Mode] + (if a then [PackageName] else [])
                              + (if b then [Author] else []) + (if c then [AuthorUrl] else []));
      m[SchemaVersion] == 1 && m[Mode] == 1
      && m[PackageName] == Flag(a) && m[Author] == Flag(b) && m[AuthorUrl] == Flag(c)
  {
    var h: seq<Key> := [SchemaVersion, Mode];
    var wa, wb, wc := (if a then [PackageName] else []), (if b then [Author] else []), (if c then [AuthorUrl] else []);
    PieceCount(a, PackageName, wa);
    PieceCount(b, Author, wb);
    PieceCount(c, AuthorUrl, wc);
    assert multiset(h)[SchemaVersion] == 1 && multiset(h)[Mode] == 1;
    assert multiset(h)[PackageName] == 0 && multiset(h)[Author] == 0 && multiset(h)[AuthorUrl] == 0;
    FourCounts(h, wa, wb, wc, SchemaVersion, PackageName, Author, AuthorUrl, 1, Flag(a), Flag(b), Flag(c));
    FourCounts(h, wa, wb, wc, Mode, PackageName, Author, AuthorUrl, 1, Flag(a), Flag(b), Flag(c));
  }

  /** An optional key counts once when present and not at all otherwise. */
  lemma PieceCount(cond: bool, k: Key, w: seq<Key>)
    requires w == if cond then [k] else []
    ensures multiset(w)[k] == Flag(cond)
    ensures forall x: Key :: x != k ==> multiset(w)[x] == 0
  {
  }

  /** Four pieces, each holding its own key `f` times and no other of the
      four keys, hold each key as often as its own piece does. */
  lemma FourCounts(w0: seq<Key>, w1: seq<Key>, w2: seq<Key>, w3: seq<Key>,
                   k0: Key, k1: Key, k2: Key, k3: Key, f0: nat, f1: nat, f2: nat, f3: nat)
    requires multiset(w0)[k0] == f0 && multiset(w0)[k1] == 0 && multiset(w0)[k2] == 0 && multiset(w0)[k3] == 0
    requires multiset(w1)[k0] == 0 && multiset(w1)[k1] == f1 && multiset(w1)[k2] == 0 && multiset(w1)[k3] == 0
    requires multiset(w2)[k0] == 0 && multiset(w2)[k1] == 0 && multiset(w2)[k2] == f2 && multiset(w2)[k3] == 0
    requires multiset(w3)[k0] == 0 && multiset(w3)[k1] == 0 && multiset(w3)[k2] == 0 && multiset(w3)[k3] == f3
    ensures var m := multiset(w0 + w1 + w2 + w3);
      m[k0] == f0 && m[k1] == f1 && m[k2] == f2 && m[k3] == f3
  {
    assert multiset(w0 + w1 + w2 + w3) == multiset(w0) + multiset(w1) + multiset(w2) + multiset(w3);
  }

  lemma GlobalShapeOrdered(h: seq<Directive>, wa: seq<Directive>, wb: seq<Directive>, wc: seq<Directive>)
    requires Ordered(h) && RanksIn(h, 0, 1)
    requires Ordered(wa) && RanksIn(wa, 2, 2) && Ordered(wb) && RanksIn(wb, 3, 3)
    requires Ordered(wc) && RanksIn(wc, 4, 4)
    ensures Ordered(h + wa + wb + wc) && RanksIn(h + wa + wb + wc, 0, 4)
  {
    OrderedAppend(h, wa, 0, 1, 2, 2);
    OrderedAppend(h + wa, wb, 0, 2, 3, 3);
    OrderedAppend(h + wa + wb, wc, 0, 3, 4, 4);
  }

  lemma GlobalShapeKeys(x0: string, x1: string, a: bool, b: bool, c: bool, xa: string, xb: string, xc: string)
    ensures Keys([Directive(SchemaVersion, x0), Directive(Mode, x1)]
                 + When(a, PackageName, xa) + When(b, Author, xb) + When(c, AuthorUrl, xc))
         == [SchemaVersion, Mode] + (if a then [PackageName] else [])
            + (if b then [Author] else []) + (if c then [AuthorUrl] else [])
  {
  }

  /** The lines after the arguments, over any values. */
  lemma TailShape(a: bool, b: bool, c: bool, e: bool, xa: string, xb: string, xc: string, xe: string)
    ensures var ds := When(a, Description, xa) + When(b, CurrentDirectoryPath, xb)
                      + When(c, Icon, xc) + When(e, IconDark, xe);
      var m := multiset(Keys(ds));
      Ordered(ds) && RanksIn(ds, 8, 11)
      && m[Description] == Flag(a) && m[CurrentDirectoryPath] == Flag(b)
      && m[Icon] == Flag(c) && m[IconDark] == Flag(e)
  {
    var ds := When(a, Description, xa) + When(b, CurrentDirectoryPath, xb) + When(c, Icon, xc) + When(e, IconDark, xe);
    WhenOrdered(a, Description, xa);
    WhenOrdered(b, CurrentDirectoryPath, xb);
    WhenOrdered(c, Icon, xc);
    WhenOrdered(e, IconDark, xe);
    TailShapeOrdered(When(a, Description, xa), When(b, CurrentDirectoryPath, xb), When(c, Icon, xc), When(e, IconDark, xe));
    TailShapeKeys(a, b, c, e, xa, xb, xc, xe);
    TailKeyCounts(a, b, c, e);
  }

  lemma TailKeyCounts(a: bool, b: bool, c: bool, e: bool)
    ensures var m := multiset((if a then [Description] else []) + (if b then [CurrentDirectoryPath] else [])
                              + (if c then [Icon] else []) + (if e then [IconDark] else []));
      m[Description] == Flag(a) && m[CurrentDirectoryPath] == Flag(b)
      && m[Icon] == Flag(c) && m[IconDark] == Flag(e)
  {
    var wa, wb := (if a then [Description] else []), (if b then [CurrentDirectoryPath] else []);
    var wc, we := (if c then [Icon] else []), (if e then [IconDark] else []);
    PieceCount(a, Description, wa);
    PieceCount(b, CurrentDirectoryPath, wb);
    PieceCount(c, Icon, wc);
    PieceCount(e, IconDark, we);
    FourCounts(wa, wb, wc, we, Description, CurrentDirectoryPath, Icon, IconDark, Flag(a), Flag(b), Flag(c), Flag(e));
  }

  lemma TailShapeOrdered(wa: seq<Directive>, wb: seq<Directive>, wc: seq<Directive>, we: seq<Directive>)
    requires Ordered(wa) && RanksIn(wa, 8, 8) && Ordered(wb) && RanksIn(wb, 9, 9)
    requires Ordered(wc) && RanksIn(wc, 10, 10) && Ordered(we) && RanksIn(we, 11, 11)
    ensures Ordered(wa + wb + wc + we) && RanksIn(wa + wb + wc + we, 8, 11)
  {
    OrderedAppend(wa, wb, 8, 8, 9, 9);
    OrderedAppend(wa + wb, wc, 8, 9, 10, 10);
    OrderedAppend(wa + wb + wc, we, 8, 10, 11, 11);
  }

  lemma TailShapeKeys(a: bool, b: bool, c: bool, e: bool, xa: string, xb: string, xc: string, xe: string)
    ensures Keys(When(a, Description, xa) + When(b, CurrentDirectoryPath, xb) + When(c, Icon, xc) + When(e, IconDark, xe))
         == (if a then [Description] else []) + (if b then [CurrentDirectoryPath] else [])
            + (if c then [Icon] else []) + (if e then [IconDark] else [])
  {
  }

  lemma GlobalFacts(p: RaycastParams)
    ensures var m := multiset(Keys(GlobalDirectives(p)));
      Ordered(GlobalDirectives(p)) && RanksIn(GlobalDirectives(p), 0, 4)
      && m[SchemaVersion] == 1 && m[Mode] == 1
      && m[PackageName] == Flag(Present(p.packageName))
      && m[Author] == Flag(Present(p.author))
      && m[AuthorUrl] == Flag(Present(p.authorUrl))
  {
    GlobalShape(IntToString(p.schemaVersion), p.mode, Present(p.packageName), Present(p.author), Present(p.authorUrl),
      OptText(p.packageName), OptText(p.author), OptText(p.authorUrl));
  }

  lemma TailFacts(item: RaycastItem)
    ensures var m := multiset(Keys(ItemTail(item)));
      Ordered(ItemTail(item)) && RanksIn(ItemTail(item), 8, 11)
      && m[Description] == Flag(Present(item.description))
      && m[CurrentDirectoryPath] == Flag(Present(item.currentDirectoryPath))
      && m[Icon] == Flag(Present(item.icon))
      && m[IconDark] == Flag(Present(item.iconDark))
  {
    TailShape(Present(item.description), Present(item.currentDirectoryPath), Present(item.icon), Present(item.iconDark),
      OptText(item.description), OptText(item.currentDirectoryPath), PathName(OptText(item.icon)), PathName(OptText(item.iconDark)));
  }

  lemma SingleOrdered(d: Directive, r: nat)
    requires Rank(d.key) == r
    ensures Ordered([d]) && RanksIn([d], r, r)
  {
    assert [d][1..] == [];
  }

  lemma ArgumentsOrdered(args: seq<RaycastArgument>)
    ensures Ordered(ArgumentDirectives(args)) && RanksIn(ArgumentDirectives(args), 7, 7)
  {
    SameRankOrdered(ArgumentDirectives(args), 7);
  }

  lemma ConfirmationsOrdered(k: nat)
    ensures Ordered(Confirmations(k)) && RanksIn(Confirmations(k), 5, 5)
  {
    SameRankOrdered(Confirmations(k), 5);
  }

  /** Five segments with increasing rank ranges make an ordered block. */
  lemma SegmentsOrdered(g: seq<Directive>, c: seq<Directive>, t: seq<Directive>, a: seq<Directive>, e: seq<Directive>)
    requires Ordered(g) && RanksIn(g, 0, 4) && Ordered(c) && RanksIn(c, 5, 5)
    requires Ordered(t) && RanksIn(t, 6, 6) && Ordered(a) && RanksIn(a, 7, 7)
    requires Ordered(e) && RanksIn(e, 8, 11)
    ensures Ordered(g + c + t + a + e)
  {
    OrderedAppend(g, c, 0, 4, 5, 5);
    OrderedAppend(g + c, t, 0, 5, 6, 6);
    OrderedAppend(g + c + t, a, 0, 6, 7, 7);
    OrderedAppend(g + c + t + a, e, 0, 7, 8, 11);
  }

  /** The directive block is in the fixed order: schemaVersion, mode,
      packageName, author, authorURL, the confirmation lines, title, the
      arguments, description, currentDirectoryPath, icon, iconDark. */
  lemma ScriptOrdered(p: RaycastParams, item: RaycastItem, k: nat)
    ensures var ds := ScriptDirectives(p, item, k);
      forall i, j :: 0 <= i < j < |ds| ==> Rank(ds[i].key) <= Rank(ds[j].key)
  {
    GlobalFacts(p);
    ConfirmationsOrdered(k);
    SingleOrdered(Directive(Title, item.title), 6);
    ArgumentsOrdered(item.arguments);
    TailFacts(item);
    SegmentsOrdered(GlobalDirectives(p), Confirmations(k), [Directive(Title, item.title)],
      ArgumentDirectives(item.arguments), ItemTail(item));
    OrderedPairwise(ScriptDirectives(p, item, k));
  }

  /** Every script opens with schemaVersion then mode. */
  lemma ScriptOpening(p: RaycastParams, item: RaycastItem, k: nat)
    ensures var ds := ScriptDirectives(p, item, k);
      |ds| >= 3
      && ds[0] == Directive(SchemaVersion, IntToString(p.schemaVersion))
      && ds[1] == Directive(Mode, p.mode)
  {
    var g, c, t := GlobalDirectives(p), Confirmations(k), [Directive(Title, item.title)];
    var a, e := ArgumentDirectives(item.arguments), ItemTail(item);
    assert g[0] == Directive(SchemaVersion, IntToString(p.schemaVersion)) && g[1] == Directive(Mode, p.mode);
    SegmentAt(g, c, t, a, e, 0, 0);
    SegmentAt(g, c, t, a, e, 0, 1);
  }

  /** The title comes right after the shared lines: the global ones and
      the confirmation lines. */
  lemma ScriptTitle(p: RaycastParams, item: RaycastItem, k: nat)
    ensures var ds := ScriptDirectives(p, item, k);
      |GlobalDirectives(p)| + k < |ds|
      && ds[|GlobalDirectives(p)| + k] == Directive(Title, item.title)
  {
    var g, c, t := GlobalDirectives(p), Confirmations(k), [Directive(Title, item.title)];
    SegmentAt(g, c, t, ArgumentDirectives(item.arguments), ItemTail(item), 2, 0);
  }

  /** The arguments follow the title, as `argument1` to `argumentN` in list
      order, each carrying the argument's JSON. */
  lemma ScriptArguments(p: RaycastParams, item: RaycastItem, k: nat)
    ensures var ds := ScriptDirectives(p, item, k);
      var t := |GlobalDirectives(p)| + k;
      t + 1 + |item.arguments| <= |ds|
      && forall n :: 0 <= n < |item.arguments| ==>
           ds[t + 1 + n] == Directive(Argument(n + 1), ArgumentJson(item.arguments[n]))
  {
    ArgumentsAfter(GlobalDirectives(p), Confirmations(k), [Directive(Title, item.title)], item.arguments, ItemTail(item), k);
  }

  /** The item's own optional lines close the block, right after the
      arguments. */
  lemma ScriptTail(p: RaycastParams, item: RaycastItem, k: nat)
    ensures var ds := ScriptDirectives(p, item, k);
      var t := |GlobalDirectives(p)| + k + 1 + |item.arguments|;
      t <= |ds| && ds[t..] == ItemTail(item)
  {
    LastSegment(GlobalDirectives(p), Confirmations(k), [Directive(Title, item.title)],
      ArgumentDirectives(item.arguments), ItemTail(item));
  }

  lemma LastSegment<T>(g: seq<T>, c: seq<T>, t: seq<T>, a: seq<T>, e: seq<T>)
    ensures (g + c + t + a + e)[|g| + |c| + |t| + |a|..] == e
  {
    assert g + c + t + a + e == (g + c + t + a) + e;
  }

  lemma ArgumentsAfter(g: seq<Directive>, c: seq<Directive>, t: seq<Directive>, args: seq<RaycastArgument>,
                       e: seq<Directive>, k: nat)
    requires |c| == k && |t| == 1
    ensures var ds := g + c + t + ArgumentDirectives(args) + e;
      |g| + k + 1 + |args| <= |ds|
      && forall n :: 0 <= n < |args| ==> ds[|g| + k + 1 + n] == Directive(Argument(n + 1), ArgumentJson(args[n]))
  {
    var a := ArgumentDirectives(args);
    FourthSegment(g, c, t, a, e, k);
    forall n | 0 <= n < |args|
      ensures (g + c + t + a + e)[|g| + k + 1 + n] == Directive(Argument(n + 1), ArgumentJson(args[n]))
    {
      assert a[n] == Directive(Argument(n + 1), ArgumentJson(args[n]));
    }
  }

  lemma FourthSegment<T>(g: seq<T>, c: seq<T>, t: seq<T>, a: seq<T>, e: seq<T>, k: nat)
    requires |c| == k && |t| == 1
    ensures |g| + k + 1 + |a| <= |g + c + t + a + e|
    ensures forall n :: 0 <= n < |a| ==> (g + c + t + a + e)[|g| + k + 1 + n] == a[n]
  {
    forall n | 0 <= n < |a|
      ensures (g + c + t + a + e)[|g| + k + 1 + n] == a[n]
    {
      SegmentAt(g, c, t, a, e, 3, n);
    }
  }

  /** Position `n` of segment `which` (0 to 4) within a block of five. */
  lemma SegmentAt<T>(g: seq<T>, c: seq<T>, t: seq<T>, a: seq<T>, e: seq<T>, which: nat, n: nat)
    requires which <= 4
    requires n < |[g, c, t, a, e][which]|
    ensures |g + c + t + a + e| == |g| + |c| + |t| + |a| + |e|
    ensures which == 0 ==> (g + c + t + a + e)[n] == g[n]
    ensures which == 2 ==> (g + c + t + a + e)[|g| + |c| + n] == t[n]
    ensures which == 3 ==> (g + c + t + a + e)[|g| + |c| + |t| + n] == a[n]
  {
  }

  lemma KeysAppend(xs: seq<Directive>, ys: seq<Directive>)
    ensures Keys(xs + ys) == Keys(xs) + Keys(ys)
  {
  }

  /** Keys whose rank lies outside a segment's range do not occur in it. */
  lemma {:induction false} AbsentOutside(ds: seq<Directive>, lo: nat, hi: nat)
    requires RanksIn(ds, lo, hi)
    ensures forall key: Key :: !(lo <= Rank(key) <= hi) ==> multiset(Keys(ds))[key] == 0
  {
    if ds != [] {
      AbsentOutside(ds[1..], lo, hi);
      assert Keys(ds) == [ds[0].key] + Keys(ds[1..]);
    }
  }

  lemma {:induction false} ConfirmationCount(k: nat)
    ensures multiset(Keys(Confirmations(k)))[NeedsConfirmation] == k
  {
    if k > 0 {
      ConfirmationCount(k - 1);
      assert Confirmations(k) == Confirmations(k - 1) + [Confirmation];
      KeysAppend(Confirmations(k - 1), [Confirmation]);
    }
  }

  /** Each named directive occurs exactly once when its field is set and not
      at all otherwise; the confirmation line occurs once per earlier item
      that asked for confirmation. */
  lemma ScriptCounts(p: RaycastParams, item: RaycastItem, k: nat)
    ensures var m := multiset(Keys(ScriptDirectives(p, item, k)));
      m[SchemaVersion] == 1 && m[Mode] == 1 && m[Title] == 1
      && m[PackageName] == Flag(Present(p.packageName))
      && m[Author] == Flag(Present(p.author))
      && m[AuthorUrl] == Flag(Present(p.authorUrl))
      && m[NeedsConfirmation] == k
      && m[Description] == Flag(Present(item.description))
      && m[CurrentDirectoryPath] == Flag(Present(item.currentDirectoryPath))
      && m[Icon] == Flag(Present(item.icon))
      && m[IconDark] == Flag(Present(item.iconDark))
  {
    var t := [Directive(Title, item.title)];
    GlobalFacts(p);
    ConfirmationsOrdered(k);
    ConfirmationCount(k);
    assert Keys(t) == [Title];
    SingleOrdered(t[0], 6);
    ArgumentsOrdered(item.arguments);
    TailFacts(item);
    FiveCounts(GlobalDirectives(p), Confirmations(k), t, ArgumentDirectives(item.arguments), ItemTail(item));
  }

  /** The counts of ScriptCounts, over any five segments with the expected
      rank ranges and counts. */
  lemma FiveCounts(g: seq<Directive>, c: seq<Directive>, t: seq<Directive>, a: seq<Directive>, e: seq<Directive>)
    requires RanksIn(g, 0, 4) && RanksIn(c, 5, 5) && RanksIn(t, 6, 6) && RanksIn(a, 7, 7) && RanksIn(e, 8, 11)
    ensures var m := multiset(Keys(g + c + t + a + e));
      var mg, me := multiset(Keys(g)), multiset(Keys(e));
      m[SchemaVersion] == mg[SchemaVersion] && m[Mode] == mg[Mode] && m[PackageName] == mg[PackageName]
      && m[Author] == mg[Author] && m[AuthorUrl] == mg[AuthorUrl]
      && m[NeedsConfirmation] == multiset(Keys(c))[NeedsConfirmation]
      && m[Title] == multiset(Keys(t))[Title]
      && m[Description] == me[Description] && m[CurrentDirectoryPath] == me[CurrentDirectoryPath]
      && m[Icon] == me[Icon] && m[IconDark] == me[IconDark]
  {
    SegmentCounts(g, c, t, a, e);
    var m := multiset(Keys(g + c + t + a + e));
    assert m[SchemaVersion] == multiset(Keys(g))[SchemaVersion];
    assert m[Mode] == multiset(Keys(g))[Mode];
    assert m[PackageName] == multiset(Keys(g))[PackageName];
    assert m[Author] == multiset(Keys(g))[Author];
    assert m[AuthorUrl] == multiset(Keys(g))[AuthorUrl];
    assert m[NeedsConfirmation] == multiset(Keys(c))[NeedsConfirmation];
    assert m[Title] == multiset(Keys(t))[Title];
    assert m[Description] == multiset(Keys(e))[Description];
    assert m[CurrentDirectoryPath] == multiset(Keys(e))[CurrentDirectoryPath];
    assert m[Icon] == multiset(Keys(e))[Icon];
  }

  /** In a block of five segments with disjoint rank ranges, a key occurs as
      often as in the one segment whose range holds its rank. */
  lemma SegmentCounts(g: seq<Directive>, c: seq<Directive>, t: seq<Directive>, a: seq<Directive>, e: seq<Directive>)
    requires RanksIn(g, 0, 4) && RanksIn(c, 5, 5) && RanksIn(t, 6, 6) && RanksIn(a, 7, 7) && RanksIn(e, 8, 11)
    ensures var m := multiset(Keys(g + c + t + a + e));
      forall key: Key ::
        m[key] == (if Rank(key) <= 4 then multiset(Keys(g))[key]
                   else if Rank(key) == 5 then multiset(Keys(c))[key]
                   else if Rank(key) == 6 then multiset(Keys(t))[key]
                   else if Rank(key) == 7 then multiset(Keys(a))[key]
                   else multiset(Keys(e))[key])
  {
    KeysAppend(g, c);
    KeysAppend(g + c, t);
    KeysAppend(g + c + t, a);
    KeysAppend(g + c + t + a, e);
    AbsentOutside(g, 0, 4);
    AbsentOutside(c, 5, 5);
    AbsentOutside(t, 6, 6);
    AbsentOutside(a, 7, 7);
    AbsentOutside(e, 8, 11);
    RangeSum(multiset(Keys(g)), multiset(Keys(c)), multiset(Keys(t)), multiset(Keys(a)), multiset(Keys(e)));
  }

  lemma RangeSum(mg: multiset<Key>, mc: multiset<Key>, mt: multiset<Key>, ma: multiset<Key>, me: multiset<Key>)
    requires forall key: Key :: !(0 <= Rank(key) <= 4) ==> mg[key] == 0
    requires forall key: Key :: !(5 <= Rank(key) <= 5) ==> mc[key] == 0
    requires forall key: Key :: !(6 <= Rank(key) <= 6) ==> mt[key] == 0
    requires forall key: Key :: !(7 <= Rank(key) <= 7) ==> ma[key] == 0
    requires forall key: Key :: !(8 <= Rank(key) <= 11) ==> me[key] == 0
    ensures forall key: Key ::
      (mg + mc + mt + ma + me)[key] == (if Rank(key) <= 4 then mg[key]
                                         else if Rank(key) == 5 then mc[key]
                                         else if Rank(key) == 6 then mt[key]
                                         else if Rank(key) == 7 then ma[key]
                                         else me[key])
  {
  }

  // ---------------------------------------------------------------------
  // The confirmation line across a run

  lemma {:induction false} CountFlaggedAtLeastOne(items: seq<RaycastItem>, i: nat)
    requires i < |items| && items[i].needsConfirmation
    ensures CountFlagged(items) >= 1
  {
    var n := |items| - 1;
    if i < n {
      assert items[..n][i] == items[i];
      CountFlaggedAtLeastOne(items[..n], i);
    }
  }

  /** Script `i` carries one confirmation line per earlier flagged item: a
      flagged item adds none to its own script (unless an earlier item was
      flagged too) and one to every script after it. */
  lemma ConfirmationCarriedForward(p: RaycastParams, items: seq<RaycastItem>, i: nat)
    requires i < |items|
    ensures multiset(Keys(DirectivesAt(p, items, i)))[NeedsConfirmation] == CountFlagged(items[..i])
    ensures forall j :: 0 <= j < i && items[j].needsConfirmation ==>
              NeedsConfirmation in Keys(DirectivesAt(p, items, i))
    ensures CountFlagged(items[..i]) == 0 ==>
              NeedsConfirmation !in Keys(DirectivesAt(p, items, i))
  {
    ScriptCounts(p, items[i], CountFlagged(items[..i]));
    forall j | 0 <= j < i && items[j].needsConfirmation
      ensures NeedsConfirmation in Keys(DirectivesAt(p, items, i))
    {
      assert items[..i][j] == items[j];
      CountFlaggedAtLeastOne(items[..i], j);
    }
  }

  // ---------------------------------------------------------------------
  // The files written

  /** The output directory holds one file per distinct file name. */
  lemma WrittenNames(p: RaycastParams, items: seq<RaycastItem>, shebang: string)
    ensures Written(Scripts(p, items, shebang)).Keys
         == set i | 0 <= i < |items| :: ScriptFilename(items[i].title)
  {
    var ws := Scripts(p, items, shebang);
    ToMapKeys(ws);
    forall i | 0 <= i < |ws| ensures ws[i].0 == ScriptFilename(items[i].title) {
      assert ws[i] == ScriptFile(p, items, i, shebang);
    }
    NamedAfterTitles(ws, items);
  }

  /** Writes named after the items' titles, whatever their contents. */
  lemma NamedAfterTitles<V>(ws: seq<(string, V)>, items: seq<RaycastItem>)
    requires |ws| == |items| && forall i :: 0 <= i < |ws| ==> ws[i].0 == ScriptFilename(items[i].title)
    ensures KeysOf(ws) == set i | 0 <= i < |items| :: ScriptFilename(items[i].title)
  {
    forall name | name in KeysOf(ws) ensures exists i :: 0 <= i < |items| && ScriptFilename(items[i].title) == name {
      var i :| 0 <= i < |ws| && ws[i].0 == name;
    }
  }

  /** A script survives in the output directory unless a later item has the
      same file name. */
  lemma WrittenScript(p: RaycastParams, items: seq<RaycastItem>, shebang: string, i: nat)
    requires i < |items|
    requires forall j :: i < j < |items| ==> ScriptFilename(items[j].title) != ScriptFilename(items[i].title)
    ensures var out := Written(Scripts(p, items, shebang));
      ScriptFilename(items[i].title) in out
      && out[ScriptFilename(items[i].title)] == ScriptFile(p, items, i, shebang).1
  {
    var ws := Scripts(p, items, shebang);
    assert LastWithKey(ws, i) by {
      forall j | i < j < |ws| ensures ws[j].0 != ws[i].0 {
        assert ws[j].0 == ScriptFilename(items[j].title);
      }
    }
    ToMapLast(ws, i);
  }
}
