/**
 * The generator of `index.js`: command-line flags, the default and merged
 * configuration, the component's name and file names, the text of the
 * component file, and which files a run writes.
 *
 * The file system is a parameter: what the templates contain, whether the
 * config file and the component directory already exist. A run's effect is
 * the list of files it writes, in order.
 */
module Generator {
  import opened JsValue
  import opened Seqs
  import opened Strings
  import opened Converters
  import opened Helpers
  import opened Ascii
  import opened Checks
  import opened ComponentSettings
  import opened Wizard
  import opened SelectionCore
  import opened InputPrompt
  import opened Override

  // ---------------------------------------------------------------- command line and configuration

  /** What `parseCLI` returns: the name tokens and the two flags. */
  datatype Cli = Cli(nameTokens: seq<string>, createConfig: Value, silentMode: Value)

  /** `parseCLI`: a flag the command line leaves out is reported as `false`. */
  function ParseCli(args: seq<string>, addConfig: Value, shhh: Value): (r: Cli)
    ensures r.nameTokens == args
    ensures IsNullish(addConfig) ==> r.createConfig == Bool(false)
    ensures !IsNullish(addConfig) ==> r.createConfig == addConfig
    ensures IsNullish(shhh) ==> r.silentMode == Bool(false)
    ensures !IsNullish(shhh) ==> r.silentMode == shhh
    ensures !IsNullish(r.createConfig) && !IsNullish(r.silentMode)
  {
    Cli(args, Coalesce(addConfig, Bool(false)), Coalesce(shhh, Bool(false)))
  }

  const Placeholder: string := "COMPONENT_NAME"
  const ConfigFileName: string := "create.comp.config.js"
  const IndexFileName: string := "index.js"

  /** `COMPONENT_DEDFAULT_CONFIG`, entry by entry. */
  function DefaultValue(s: Setting): Value {
    match s
    case ComponentName => Str("Component Name ")
    case AddChildrenProps => Bool(false)
    case UseClientDirective => Bool(false)
    case UseInlineExport => Bool(false)
    case CreateCssFile => Bool(false)
    case CssFileAsModule => Str("")
    case CssFileName => Str(ToLowerCamelCase("Component Name"))
    case CreateComponentIndex => Bool(false)
    case ComponentFileExtension => Str("js")
    case AddXToExtension => Bool(false)
  }

  /** `COMPONENT_DEDFAULT_CONFIG` */
  function DefaultConfig(): (r: map<Setting, Value>)
    ensures Complete(r)
    ensures forall s :: r[s] == DefaultValue(s)
  {
    var m := map[
      ComponentName := DefaultValue(ComponentName),
      AddChildrenProps := DefaultValue(AddChildrenProps),
      UseClientDirective := DefaultValue(UseClientDirective),
      UseInlineExport := DefaultValue(UseInlineExport),
      CreateCssFile := DefaultValue(CreateCssFile),
      CssFileAsModule := DefaultValue(CssFileAsModule),
      CssFileName := DefaultValue(CssFileName),
      CreateComponentIndex := DefaultValue(CreateComponentIndex),
      ComponentFileExtension := DefaultValue(ComponentFileExtension),
      AddXToExtension := DefaultValue(AddXToExtension)
    ];
    DefaultsHaveEverySetting(m);
    m
  }

  lemma DefaultsHaveEverySetting(m: map<Setting, Value>)
    requires ComponentName in m && AddChildrenProps in m && UseClientDirective in m && UseInlineExport in m
    requires CreateCssFile in m && CssFileAsModule in m && CssFileName in m && CreateComponentIndex in m
    requires ComponentFileExtension in m && AddXToExtension in m
    ensures Complete(m)
  {
    forall s: Setting ensures s in m {
      match s
      case ComponentName =>
      case AddChildrenProps =>
      case UseClientDirective =>
      case UseInlineExport =>
      case CreateCssFile =>
      case CssFileAsModule =>
      case CssFileName =>
      case CreateComponentIndex =>
      case ComponentFileExtension =>
      case AddXToExtension =>
    }
  }

  /**
   * Two capitalised words separated by a space give their concatenation in upper
   * camel case; the default CSS file name is this with its first letter lowered.
   */
  lemma TwoWordCamelCase(first: string, second: string)
    requires first != "" && second != "" && ' ' !in first && ' ' !in second
    requires UpperCapFirst(first) == first && UpperCapFirst(second) == second
    ensures ToUpperCamelCase(first + " " + second) == first + second
  {
    var words: seq<string> := [first, second];
    SplitAtSpace(first, second);
    assert Tokenize(first + " " + second) == words by {
      var tail: seq<string> := [second];
      assert tail[1..] == [];
      assert NonEmpty(tail) == [second] + NonEmpty(tail[1..]);
      assert words[1..] == tail;
    }
    assert CapEach(words) == words;
    assert Join(words[1..], "") == second;
  }

  /** A space-free word, a space and a space-free word split into the two words. */
  lemma {:induction false} SplitAtSpace(first: string, second: string)
    requires ' ' !in first && ' ' !in second
    ensures Split(first + " " + second, " ") == [first, second]
    decreases |first|
  {
    var s := first + " " + second;
    if |first| == 0 {
      assert s == " " + second;
      assert StartsWith(s, " ");
      assert s[1..] == second;
      SplitWithoutSep(second, ' ');
    } else {
      assert s[0] == first[0] && first[0] in first;
      assert !StartsWith(s, " ");
      assert s[1..] == first[1..] + " " + second;
      assert ' ' !in first[1..];
      SplitAtSpace(first[1..], second);
      assert [s[0]] + first[1..] == first;
    }
  }

  /** `{ ...defaults, ...user }`: keys of the user config win, the others keep their default. */
  function MergeConfig(defaults: map<Setting, Value>, user: Option<map<Setting, Value>>): (r: map<Setting, Value>)
    requires Complete(defaults)
    ensures Complete(r)
    ensures forall s :: user.Some? && s in user.value ==> r[s] == user.value[s]
    ensures forall s :: (user.None? || s !in user.value) ==> r[s] == defaults[s]
  {
    match user
    case None => defaults
    case Some(m) => defaults + m
  }

  /** `returnIfValue(nameTokens.join(' '), COMPONENT_CONFIG.COMPONENT_NAME)` */
  function SelectComponentName(tokens: seq<string>, configured: Value): (r: Value)
    ensures Join(tokens, " ") != "" ==> r == Str(Join(tokens, " "))
    ensures Join(tokens, " ") == "" ==> r == configured
  {
    ReturnIfValue(Str(Join(tokens, " ")), configured)
  }

  /** The configuration the questions start from: defaults, then the config file, then the command-line name. */
  function ConfigBeforePrompting(tokens: seq<string>, configFile: Option<map<Setting, Value>>): (r: map<Setting, Value>)
    ensures Complete(r)
  {
    var merged := MergeConfig(DefaultConfig(), configFile);
    merged[ComponentName := SelectComponentName(tokens, merged[ComponentName])]
  }

  // ---------------------------------------------------------------- names

  /** What `main` rewrites after the questions: the name in upper camel case and the module flag as a suffix. */
  function Finalize(e: map<Setting, Value>): (r: map<Setting, Value>)
    requires Complete(e)
    ensures Complete(r)
    ensures r[ComponentName] == Str(ToUpperCamelCase(DefaultText(e[ComponentName])))
    ensures r[CssFileAsModule] == (if Truthy(e[CssFileAsModule]) then Str(".module") else Str(""))
    ensures forall s :: s != ComponentName && s != CssFileAsModule ==> r[s] == e[s]
  {
    e[ComponentName := Str(ToUpperCamelCase(DefaultText(e[ComponentName])))]
     [CssFileAsModule := if Truthy(e[CssFileAsModule]) then Str(".module") else Str("")]
  }

  /** `COMPONENT.file`: `Name.ext`, with an `x` appended when asked for. */
  function ComponentFileName(name: string, extension: Value, addX: Value): (r: string)
    ensures StartsWith(r, name + "." + ToStr(extension))
    ensures |r| == |name| + 1 + |ToStr(extension)| + (if Truthy(addX) then 1 else 0)
    ensures Truthy(addX) ==> r[|r| - 1] == 'x'
  {
    name + "." + ToStr(extension) + (if Truthy(addX) then "x" else "")
  }

  /** `COMPONENT.css`: the CSS name, the module suffix, then `.css`. */
  function CssFileNameOf(cssName: Value, moduleSuffix: Value): (r: string)
    ensures StartsWith(r, ToStr(cssName) + ToStr(moduleSuffix)) && EndsWith(r, Css)
    ensures |r| == |ToStr(cssName)| + |ToStr(moduleSuffix)| + |Css|
  {
    ToStr(cssName) + ToStr(moduleSuffix) + ".css"
  }

  /** The file extensions the extension question can lead to. */
  lemma ComponentFileEndings(name: string, accepted: bool, addX: bool)
    ensures var f := ComponentFileName(name, ConfirmValue(ComponentFileExtension, accepted), Bool(addX));
      (accepted && !addX ==> EndsWith(f, ".js")) && (accepted && addX ==> EndsWith(f, ".jsx")) &&
      (!accepted && !addX ==> EndsWith(f, ".ts")) && (!accepted && addX ==> EndsWith(f, ".tsx"))
  {
    var f := ComponentFileName(name, ConfirmValue(ComponentFileExtension, accepted), Bool(addX));
    var ending := if accepted && !addX then ".js" else if accepted then ".jsx" else if !addX then ".ts" else ".tsx";
    assert f == name + ending;
    EndsWithAppended(name, ending);
  }

  lemma EndsWithAppended(prefix: string, suffix: string)
    ensures EndsWith(prefix + suffix, suffix)
  {
    var s := prefix + suffix;
    assert s[|s| - |suffix|..] == suffix;
  }

  /**
   * A CSS name typed with its extension comes back as the same file name: the
   * question's filter strips `.css` or `.module.css`, and the generator adds the
   * module suffix and `.css` again.
   */
  lemma CssNameRoundTrip(base: string, asModule: bool)
    requires SingleLine(base) && !EndsWith(base, Css) && !EndsWith(base, ".module")
    ensures var typed := base + (if asModule then ModuleCss else Css);
      CssFileNameOf(Str(CssFileFilter(typed)), if asModule then Str(".module") else Str("")) == typed
  {
    CssFilterStripsExtension(base);
  }

  // ---------------------------------------------------------------- the component file

  /** The CSS import line as `index.js` writes it: the `;` lands inside the quotes. */
  function CssImportLineAsWritten(css: string): string {
    "import styles from './" + css + ";'"
  }

  /** The CSS import line as intended: the quoted path is the CSS file, then the `;`. */
  function CssImportLine(css: string): string {
    "import styles from './" + css + "';"
  }

  const ImportPrefix: string := "import styles from '"

  /** The module path of a `import styles from '...'` line: the text up to its last quote. */
  function ImportPath(line: string): (r: Option<string>)
    ensures r.Some? ==> StartsWith(line, ImportPrefix) && |ImportPrefix| + |r.value| < |line|
  {
    if !StartsWith(line, ImportPrefix) then None
    else
      var rest := line[|ImportPrefix|..];
      var k := FindLastIndex(rest, (c: char) => c == '\'');
      if k < 0 then None else Some(rest[..k])
  }

  /**
   * The written import refers to `./<css>;`, a file the generator never creates;
   * the intended line imports `./<css>`.
   */
  lemma CssImportPaths(css: string)
    ensures ImportPath(CssImportLineAsWritten(css)) == Some("./" + css + ";")
    ensures ImportPath(CssImportLine(css)) == Some("./" + css)
    ensures ImportPath(CssImportLineAsWritten(css)) != ImportPath(CssImportLine(css))
  {
    var quote := (c: char) => c == '\'';
    var written := CssImportLineAsWritten(css);
    assert written == ImportPrefix + ("./" + css + ";'");
    assert StartsWith(written, ImportPrefix);
    var rest := written[|ImportPrefix|..];
    assert rest == "./" + css + ";'";
    var k := FindLastIndex(rest, quote);
    assert quote(rest[|rest| - 1]);
    assert k == |rest| - 1;
    assert rest[..k] == "./" + css + ";";

    var intended := CssImportLine(css);
    assert intended == ImportPrefix + ("./" + css + "';");
    assert StartsWith(intended, ImportPrefix);
    var rest' := intended[|ImportPrefix|..];
    assert rest' == "./" + css + "';";
    var k' := FindLastIndex(rest', quote);
    assert quote(rest'[|rest'| - 2]) && !quote(rest'[|rest'| - 1]);
    assert k' == |rest'| - 2;
    assert rest'[..k'] == "./" + css;
    assert |"./" + css + ";"| != |"./" + css|;
  }

  /** The values of a line list that are not `undefined`: `.filter((q) => q !== undefined)`. */
  function Present(lines: seq<Option<string>>): (r: seq<string>)
    ensures |r| <= |lines|
    decreases |lines|
  {
    if |lines| == 0 then []
    else match lines[0]
      case None => Present(lines[1..])
      case Some(l) => [l] + Present(lines[1..])
  }

  lemma {:induction false} PresentAppend(a: seq<Option<string>>, b: seq<Option<string>>)
    ensures Present(a + b) == Present(a) + Present(b)
    decreases |a|
  {
    if |a| > 0 {
      PresentAppend(a[1..], b);
      assert (a + b)[1..] == a[1..] + b;
    } else {
      assert a + b == b;
    }
  }

  /** `[x]` when `x` is present, else nothing. */
  function Optional(x: Option<string>): seq<string> {
    match x
    case None => []
    case Some(l) => [l]
  }

  lemma PresentSingle(x: Option<string>)
    ensures Present([x]) == Optional(x)
  {
    var single: seq<Option<string>> := [x];
    assert single[1..] == [];
  }

  const UseClient: string := "'use client';"

  /** The template's second line with its `PROPS` filled in, prefixed for an inline export. */
  function Declaration(line: string, inline: bool, children: bool): (r: string)
    ensures inline ==> StartsWith(r, "export default ")
    ensures !Contains(line, "PROPS") ==> r == (if inline then "export default " else "") + line
  {
    ReplaceAbsent(line, "PROPS", if children then "{ children }" else "props");
    (if inline then "export default " else "") + ReplaceFirst(line, "PROPS", if children then "{ children }" else "props")
  }

  /** The trailing export line of a component that is not exported inline. */
  function TrailingExport(name: string): string {
    "export default " + name + ";"
  }

  /** The nine entries of the component, absent ones as `None`, in file order. */
  function Segments(lines: seq<string>, name: string, css: string, e: map<Setting, Value>): seq<Option<string>>
    requires |lines| >= 2 && Complete(e)
  {
    [ if Truthy(e[UseClientDirective]) then Some(UseClient) else None,
      Some(lines[0]),
      if Truthy(e[CreateCssFile]) then Some(CssImportLine(css)) else None,
      Some(""),
      Some(Declaration(lines[1], Truthy(e[UseInlineExport]), Truthy(e[AddChildrenProps]))),
      if |lines| > 2 then Some(lines[2]) else None,
      if |lines| > 3 then Some(lines[3]) else None,
      Some(""),
      if Truthy(e[UseInlineExport]) then None else Some(TrailingExport(name))
    ]
  }

  /** The template with every placeholder replaced by the name, cut into lines. */
  function TemplateLines(template: string, eol: string, name: string): (r: seq<string>)
    requires |eol| > 0
    ensures |r| >= 1
  {
    Split(ReplaceAll(template, Placeholder, name), eol)
  }

  /**
   * The lines of the component file. A template of fewer than two lines makes
   * `lines[1].replace` throw, which the caller catches.
   */
  function ComponentLines(template: string, eol: string, name: string, css: string, e: map<Setting, Value>): (r: Result<seq<string>>)
    requires |eol| > 0 && Complete(e)
    ensures r.Err? <==> |TemplateLines(template, eol, name)| < 2
  {
    var lines := TemplateLines(template, eol, name);
    if |lines| < 2 then Err("Cannot read properties of undefined (reading 'replace')")
    else Ok(Assemble(lines, name, css, e))
  }

  /** `[...].filter((q) => q !== undefined)` over the nine entries. */
  function Assemble(lines: seq<string>, name: string, css: string, e: map<Setting, Value>): seq<string>
    requires |lines| >= 2 && Complete(e)
  {
    Present(Segments(lines, name, css, e))
  }

  /** The component file: its lines joined with the platform's end-of-line. */
  function ComponentContent(template: string, eol: string, name: string, css: string, e: map<Setting, Value>): (r: Result<string>)
    requires |eol| > 0 && Complete(e)
    ensures r.Err? <==> ComponentLines(template, eol, name, css, e).Err?
    ensures r.Ok? ==> r.value == Join(ComponentLines(template, eol, name, css, e).value, eol)
  {
    match ComponentLines(template, eol, name, css, e)
    case Err(msg) => Err(msg)
    case Ok(lines) => Ok(Join(lines, eol))
  }

  /** Dropping the absent entries of a list, one entry at a time from the end. */
  lemma PresentSnoc(segs: seq<Option<string>>, k: nat)
    requires k < |segs|
    ensures Present(segs[..k + 1]) == Present(segs[..k]) + Optional(segs[k])
  {
    assert segs[..k + 1] == segs[..k] + [segs[k]];
    PresentAppend(segs[..k], [segs[k]]);
    PresentSingle(segs[k]);
  }

  lemma PresentNine(segs: seq<Option<string>>)
    requires |segs| == 9
    ensures Present(segs) == Optional(segs[0]) + Optional(segs[1]) + Optional(segs[2]) + Optional(segs[3])
      + Optional(segs[4]) + Optional(segs[5]) + Optional(segs[6]) + Optional(segs[7]) + Optional(segs[8])
  {
    assert segs[..0] == [];
    PresentSnoc(segs, 0);
    var acc := Optional(segs[0]);
    assert Present(segs[..1]) == acc;
    PresentSnoc(segs, 1);
    acc := acc + Optional(segs[1]);
    assert Present(segs[..2]) == acc;
    PresentSnoc(segs, 2);
    acc := acc + Optional(segs[2]);
    assert Present(segs[..3]) == acc;
    PresentSnoc(segs, 3);
    acc := acc + Optional(segs[3]);
    assert Present(segs[..4]) == acc;
    PresentSnoc(segs, 4);
    acc := acc + Optional(segs[4]);
    assert Present(segs[..5]) == acc;
    PresentSnoc(segs, 5);
    acc := acc + Optional(segs[5]);
    assert Present(segs[..6]) == acc;
    PresentSnoc(segs, 6);
    acc := acc + Optional(segs[6]);
    assert Present(segs[..7]) == acc;
    PresentSnoc(segs, 7);
    acc := acc + Optional(segs[7]);
    assert Present(segs[..8]) == acc;
    PresentSnoc(segs, 8);
    acc := acc + Optional(segs[8]);
    assert segs[..9] == segs;
  }

  /** The template's body and closing lines (its third and fourth), those it has. */
  function BodyLines(lines: seq<string>): (r: seq<string>)
    ensures |r| <= 2
  {
    (if |lines| > 2 then [lines[2]] else []) + (if |lines| > 3 then [lines[3]] else [])
  }

  /**
   * The shape of the component file: the `'use client';` line first iff asked
   * for, then the template's first line, the CSS import iff a CSS file is made,
   * a blank line, the declaration (prefixed `export default ` iff exported inline,
   * `PROPS` filled in), the template's body and closing lines when it has them,
   * a blank line, and the trailing export iff not exported inline.
   */
  lemma ComponentLinesShape(template: string, eol: string, name: string, css: string, e: map<Setting, Value>)
    requires |eol| > 0 && Complete(e)
    requires |TemplateLines(template, eol, name)| >= 2
    ensures var lines := TemplateLines(template, eol, name);
      ComponentLines(template, eol, name, css, e).value ==
        (if Truthy(e[UseClientDirective]) then [UseClient] else [])
        + [lines[0]]
        + (if Truthy(e[CreateCssFile]) then [CssImportLine(css)] else [])
        + ["", Declaration(lines[1], Truthy(e[UseInlineExport]), Truthy(e[AddChildrenProps]))]
        + BodyLines(lines)
        + [""]
        + (if Truthy(e[UseInlineExport]) then [] else [TrailingExport(name)])
  {
    AssembleShape(TemplateLines(template, eol, name), name, css, e);
  }

  lemma AssembleShape(lines: seq<string>, name: string, css: string, e: map<Setting, Value>)
    requires |lines| >= 2 && Complete(e)
    ensures Assemble(lines, name, css, e) ==
        (if Truthy(e[UseClientDirective]) then [UseClient] else [])
        + [lines[0]]
        + (if Truthy(e[CreateCssFile]) then [CssImportLine(css)] else [])
        + ["", Declaration(lines[1], Truthy(e[UseInlineExport]), Truthy(e[AddChildrenProps]))]
        + BodyLines(lines)
        + [""]
        + (if Truthy(e[UseInlineExport]) then [] else [TrailingExport(name)])
  {
    var uc := if Truthy(e[UseClientDirective]) then [UseClient] else [];
    var imp := if Truthy(e[CreateCssFile]) then [CssImportLine(css)] else [];
    var decl := Declaration(lines[1], Truthy(e[UseInlineExport]), Truthy(e[AddChildrenProps]));
    var tail := if Truthy(e[UseInlineExport]) then [] else [TrailingExport(name)];
    var segs := Segments(lines, name, css, e);
    assert |segs| == 9;
    PresentNine(segs);
    assert Optional(segs[0]) == uc;
    assert Optional(segs[1]) == [lines[0]];
    assert Optional(segs[2]) == imp;
    assert Optional(segs[3]) == [""];
    assert Optional(segs[4]) == [decl];
    assert Optional(segs[5]) + Optional(segs[6]) == BodyLines(lines);
    assert Optional(segs[7]) == [""];
    assert Optional(segs[8]) == tail;
    var head := uc + [lines[0]] + imp;
    assert head + [""] + [decl] == head + ["", decl];
    var front := head + ["", decl];
    assert front + Optional(segs[5]) + Optional(segs[6]) == front + BodyLines(lines);
  }

  /**
   * Exactly one export form: inline, the declaration carries `export default ` and
   * the file ends with the blank line; otherwise the file ends with
   * `export default Name;`. The first line is `'use client';` when asked for, and
   * the CSS import follows the template's first line when a CSS file is made.
   */
  lemma ComponentExports(template: string, eol: string, name: string, css: string, e: map<Setting, Value>)
    requires |eol| > 0 && Complete(e)
    requires |TemplateLines(template, eol, name)| >= 2
    ensures var r := ComponentLines(template, eol, name, css, e).value;
      var body := |BodyLines(TemplateLines(template, eol, name))|;
      |r| >= 4 + body &&
      (Truthy(e[UseInlineExport]) ==> r[|r| - 1] == "" && StartsWith(r[|r| - 2 - body], "export default ")) &&
      (!Truthy(e[UseInlineExport]) ==> r[|r| - 1] == TrailingExport(name)) &&
      (Truthy(e[UseClientDirective]) ==> r[0] == UseClient) &&
      (!Truthy(e[UseClientDirective]) ==> r[0] == TemplateLines(template, eol, name)[0]) &&
      (Truthy(e[CreateCssFile]) ==> r[if Truthy(e[UseClientDirective]) then 2 else 1] == CssImportLine(css))
  {
    ComponentLinesShape(template, eol, name, css, e);
    var lines := TemplateLines(template, eol, name);
    var decl := Declaration(lines[1], Truthy(e[UseInlineExport]), Truthy(e[AddChildrenProps]));
    if Truthy(e[UseInlineExport]) {
      assert decl[..|"export default "|] == "export default ";
    }
  }

  /** The index file: the index template with the placeholder replaced by the component's file name. */
  function IndexContent(template: string, fileName: string): (r: string)
    ensures LiteralReplacement(fileName) ==> r == IndexContentAsWritten(template, fileName)
    ensures !Contains(template, Placeholder) ==> r == template
  {
    ExpandingIsLiteral(template, Placeholder, fileName);
    ReplaceAbsent(template, Placeholder, fileName);
    ReplaceAll(template, Placeholder, fileName)
  }

  /**
   * The index file is the template cut at every placeholder and glued back with the
   * file name; a template without a placeholder is copied as it is.
   */
  lemma IndexContentReplaces(template: string, fileName: string)
    ensures IndexContent(template, fileName) == Join(Split(template, Placeholder), fileName)
  {
    ReplaceAllIsSplitJoin(template, Placeholder, fileName);
  }

  /** The component's lines as `index.js` builds them: `replaceAll` expands `$` patterns in the name. */
  function TemplateLinesAsWritten(template: string, eol: string, name: string): (r: seq<string>)
    requires |eol| > 0
    ensures |r| >= 1
    ensures LiteralReplacement(name) ==> r == TemplateLines(template, eol, name)
  {
    ExpandingIsLiteral(template, Placeholder, name);
    Split(ReplaceAllExpanding(template, Placeholder, name), eol)
  }

  /** The index file as `index.js` builds it: `replaceAll` expands `$` patterns in the file name. */
  function IndexContentAsWritten(template: string, fileName: string): string {
    ReplaceAllExpanding(template, Placeholder, fileName)
  }

  /**
   * A valid function name holds no `$&`, `` $` `` or `$'`, so the only pattern
   * `replaceAll` can find in it is `$$`.
   */
  lemma ValidNamePatterns(name: string)
    requires IsValidFunctionName(name)
    ensures LiteralReplacement(name) <==> forall i :: 0 <= i < |name| - 1 ==> !(name[i] == '$' && name[i + 1] == '$')
  {
    forall i | 0 <= i < |name| - 1 && name[i] == '$'
      ensures name[i + 1] !in "&`'"
    {
      assert IsIdentPart(name[i + 1]);
    }
  }

  /** `A$$` is a valid function name, stored as it is and kept by `main`'s upper-camel-casing. */
  lemma DollarNameIsValid()
    ensures IsValidFunctionName("A$$") && NameAccepted("A$$") && NameFilter("A$$") == "A$$"
    ensures ToUpperCamelCase("A$$") == "A$$"
  {
    assert IsIdentifier("A$$");
    SpacelessCamelFixpoint("A$$");
    FunctionNameAgreesWithUpperCamelCase("A$$");
  }

  /**
   * As written, `replaceAll` turns the name `A$$` into `A$` in the component
   * file, while the trailing export, built from a template literal, still says
   * `export default A$$;`.
   */
  lemma DollarNameInComponent()
    ensures TemplateLinesAsWritten(Placeholder, "\n", "A$$") == ["A$"]
    ensures TemplateLines(Placeholder, "\n", "A$$") == ["A$$"]
    ensures TrailingExport("A$$") == "export default A$$;"
  {
    ReplaceWholeMatch(Placeholder, "A$$");
    SubstituteDollarPair("A", "", Placeholder, "", "");
    assert "A" + "$$" + "" == "A$$";
    SplitWithoutSep("A$", '\n');
    SplitWithoutSep("A$$", '\n');
  }

  /** As written, the index file of the component file `A$$.js` refers to `A$.js`. */
  lemma DollarNameInIndex()
    ensures IndexContentAsWritten(Placeholder, "A$$.js") == "A$.js"
    ensures IndexContent(Placeholder, "A$$.js") == "A$$.js"
  {
    ReplaceWholeMatch(Placeholder, "A$$.js");
    SubstituteDollarPair("A", ".js", Placeholder, "", "");
    assert "A" + "$$" + ".js" == "A$$.js";
  }

  /**
   * The `PROPS` replacements are free of `$` patterns, so `replace` puts them in
   * literally: the declaration keeps the line around the first `PROPS` and puts
   * `{ children }` or `props` in its place.
   */
  lemma DeclarationFillsProps(line: string, inline: bool, children: bool, k: nat)
    requires FirstMatchAt(line, "PROPS", k)
    ensures var rep := if children then "{ children }" else "props";
      && ReplaceFirstExpanding(line, "PROPS", rep) == ReplaceFirst(line, "PROPS", rep)
      && Declaration(line, inline, children) == (if inline then "export default " else "") + line[..k] + rep + line[k + 5..]
  {
    var rep := if children then "{ children }" else "props";
    assert LiteralReplacement(rep);
    ExpandingIsLiteral(line, "PROPS", rep);
    ReplaceFirstAtMatch(line, "PROPS", rep, k);
  }

  // ---------------------------------------------------------------- a whole run

  /** The files a run can write. */
  datatype FileKind = ConfigFile | ComponentFile | IndexFile | CssFile

  datatype FileWrite = FileWrite(kind: FileKind, name: string, content: string)

  /** The environment of a run: command line, file system and the person answering. */
  datatype Environment = Environment(
    args: seq<string>, addConfig: Value, shhh: Value,
    /** The config file's default export, when the config file exists. */
    configFile: Option<map<Setting, Value>>,
    /** The templates as read from disk; `None` when reading fails. */
    configTemplate: Option<string>, componentTemplate: Option<string>, indexTemplate: Option<string>,
    eol: string,
    componentDirExists: bool,
    user: UserAnswers,
    gateEvents: seq<SelectionCore.Event>, nameEvents: seq<InputEvent>)

  /** What a run leaves behind: the final configuration and the files written, in order. */
  datatype RunResult = RunResult(config: map<Setting, Value>, writes: seq<FileWrite>)

  /**
   * `processConfigFileCreation`: `undefined` when not asked for or when the template
   * cannot be read, `false` when the config file already exists, `true` once written.
   */
  function ConfigFileCreation(requested: bool, alreadyThere: bool, template: Option<string>): (r: Value)
    ensures r == Bool(true) <==> requested && !alreadyThere && template.Some?
    ensures r == Bool(false) <==> requested && alreadyThere
  {
    if !requested then Undefined
    else if alreadyThere then Bool(false)
    else if template.None? then Undefined
    else Bool(true)
  }

  /**
   * `processComponentFileCreation`'s result: `undefined` when the content cannot be
   * built, `false` when the directory exists and the override is refused, `true`
   * once the file is written; `None` while the override prompt has not answered.
   */
  function CreationOutcome(content: Result<string>, dirExists: bool, overrideAnswer: Option<Value>): (r: Option<Value>)
    ensures r == Some(Bool(true)) <==> content.Ok? && (!dirExists || (overrideAnswer.Some? && Truthy(overrideAnswer.value)))
    ensures content.Ok? && dirExists && overrideAnswer.Some? && !Truthy(overrideAnswer.value) ==> r == Some(Bool(false))
  {
    if content.Err? then Some(Undefined)
    else if dirExists then
      match overrideAnswer
      case None => None
      case Some(confirm) => if !Truthy(confirm) then Some(Bool(false)) else Some(Bool(true))
    else Some(Bool(true))
  }

  /** The name answer the run's name question submits. */
  function RunNameAnswer(env: Environment): string {
    NameAnswer(ConfigBeforePrompting(env.args, env.configFile), env.configFile, env.user)
  }

  /** A run asked for the config file and wrote it, which ends the run. */
  predicate ConfigFileOnly(env: Environment) {
    var cli := ParseCli(env.args, env.addConfig, env.shhh);
    Truthy(cli.createConfig) && Truthy(ConfigFileCreation(true, env.configFile.Some?, env.configTemplate))
  }

  /** The configuration after the questions and `main`'s two rewrites. */
  function FinalConfig(env: Environment): (r: map<Setting, Value>)
    requires NameAccepted(RunNameAnswer(env))
    ensures Complete(r)
  {
    Finalize(Prompted(ConfigBeforePrompting(env.args, env.configFile), env.configFile, env.user).entries)
  }

  /** The component's content, or the error that stops its creation. */
  function RunContent(env: Environment, e: map<Setting, Value>): Result<string>
    requires |env.eol| > 0 && Complete(e)
  {
    if env.componentTemplate.None? then Err("template not read")
    else ComponentContent(env.componentTemplate.value, env.eol, ToStr(e[ComponentName]),
                          CssFileNameOf(e[CssFileName], e[CssFileAsModule]), e)
  }

  /** The files written once the configuration is final: the component file, then the index and CSS files. */
  function ComponentWrites(env: Environment, e: map<Setting, Value>): (r: seq<FileWrite>)
    requires |env.eol| > 0 && Complete(e)
    ensures |r| <= 3
    ensures |r| > 0 ==> (RunContent(env, e).Ok? &&
      r[0] == FileWrite(ComponentFile, ComponentFileName(ToStr(e[ComponentName]), e[ComponentFileExtension], e[AddXToExtension]),
                        RunContent(env, e).value))
    ensures !env.componentDirExists ==> (|r| > 0 <==> RunContent(env, e).Ok?)
  {
    var name := ToStr(e[ComponentName]);
    var file := ComponentFileName(name, e[ComponentFileExtension], e[AddXToExtension]);
    var css := CssFileNameOf(e[CssFileName], e[CssFileAsModule]);
    var content := RunContent(env, e);
    var overrideAnswer := if env.componentDirExists then OverrideOutcome(CommonJs, name, env.gateEvents, env.nameEvents) else None;
    if CreationOutcome(content, env.componentDirExists, overrideAnswer) == Some(Bool(true)) then
      [FileWrite(ComponentFile, file, content.value)]
      + (if Truthy(e[CreateComponentIndex]) && env.indexTemplate.Some?
         then [FileWrite(IndexFile, IndexFileName, IndexContent(env.indexTemplate.value, file))] else [])
      + (if Truthy(e[CreateCssFile]) then [FileWrite(CssFile, css, "")] else [])
    else []
  }

  /** A whole run of `main`, on values. */
  function Generated(env: Environment): (r: RunResult)
    requires |env.eol| > 0
    requires !ConfigFileOnly(env) ==> NameAccepted(RunNameAnswer(env))
    ensures Complete(r.config)
    ensures ConfigFileOnly(env) ==> r.writes == [FileWrite(ConfigFile, ConfigFileName, env.configTemplate.value)]
    ensures !ConfigFileOnly(env) ==> r.config == FinalConfig(env) && r.writes == ComponentWrites(env, r.config)
  {
    if ConfigFileOnly(env) then
      RunResult(DefaultConfig(), [FileWrite(ConfigFile, ConfigFileName, env.configTemplate.value)])
    else
      var e := FinalConfig(env);
      RunResult(e, ComponentWrites(env, e))
  }

  predicate Wrote(writes: seq<FileWrite>, kind: FileKind) {
    exists i :: 0 <= i < |writes| && writes[i].kind == kind
  }

  /**
   * The files written after the questions: the index and CSS files follow only a
   * written component file and their own setting; an existing component
   * directory is written into only after the override prompt says yes.
   */
  lemma ComponentWritesGating(env: Environment, e: map<Setting, Value>)
    requires |env.eol| > 0 && Complete(e)
    ensures var w := ComponentWrites(env, e);
      !Wrote(w, ConfigFile) &&
      (|w| > 0 ==> w[0].kind == ComponentFile && RunContent(env, e).Ok?) &&
      (Wrote(w, IndexFile) ==> Wrote(w, ComponentFile) && Truthy(e[CreateComponentIndex])) &&
      (Wrote(w, CssFile) ==> Wrote(w, ComponentFile) && Truthy(e[CreateCssFile])) &&
      (Wrote(w, ComponentFile) && env.componentDirExists ==>
         var o := OverrideOutcome(CommonJs, ToStr(e[ComponentName]), env.gateEvents, env.nameEvents);
         o.Some? && Truthy(o.value))
  {
    var w := ComponentWrites(env, e);
    var name := ToStr(e[ComponentName]);
    var content := RunContent(env, e);
    var overrideAnswer := if env.componentDirExists then OverrideOutcome(CommonJs, name, env.gateEvents, env.nameEvents) else None;
    if CreationOutcome(content, env.componentDirExists, overrideAnswer) == Some(Bool(true)) {
      var file := ComponentFileName(name, e[ComponentFileExtension], e[AddXToExtension]);
      var indexWrites := if Truthy(e[CreateComponentIndex]) && env.indexTemplate.Some?
        then [FileWrite(IndexFile, IndexFileName, IndexContent(env.indexTemplate.value, file))] else [];
      var cssWrites := if Truthy(e[CreateCssFile]) then [FileWrite(CssFile, CssFileNameOf(e[CssFileName], e[CssFileAsModule]), "")] else [];
      assert w == [FileWrite(ComponentFile, file, content.value)] + indexWrites + cssWrites;
      forall i | 0 <= i < |w|
        ensures w[i].kind != ConfigFile
        ensures w[i].kind == IndexFile ==> Truthy(e[CreateComponentIndex])
        ensures w[i].kind == CssFile ==> Truthy(e[CreateCssFile])
      {
        if 0 < i <= |indexWrites| {
          assert w[i] == indexWrites[i - 1];
        } else if i > |indexWrites| {
          assert w[i] == cssWrites[i - 1 - |indexWrites|];
        }
      }
      assert w[0].kind == ComponentFile;
    } else {
      assert w == [];
    }
  }

  /**
   * A run that writes the config file writes nothing else; otherwise the files
   * follow the gating of `ComponentWritesGating` on the final configuration.
   */
  lemma RunGating(env: Environment)
    requires |env.eol| > 0
    requires !ConfigFileOnly(env) ==> NameAccepted(RunNameAnswer(env))
    ensures var r := Generated(env);
      (Wrote(r.writes, ConfigFile) <==> ConfigFileOnly(env)) &&
      (ConfigFileOnly(env) ==> |r.writes| == 1) &&
      (Wrote(r.writes, IndexFile) ==> Wrote(r.writes, ComponentFile) && Truthy(r.config[CreateComponentIndex])) &&
      (Wrote(r.writes, CssFile) ==> Wrote(r.writes, ComponentFile) && Truthy(r.config[CreateCssFile]))
  {
    var r := Generated(env);
    if ConfigFileOnly(env) {
      assert r.writes[0].kind == ConfigFile;
    } else {
      ComponentWritesGating(env, FinalConfig(env));
    }
  }

  /** The name a run stores is the filtered answer, a valid function name that `main`'s upper-camel-casing keeps. */
  lemma RunStoresValidName(env: Environment)
    requires NameAccepted(RunNameAnswer(env))
    ensures FinalConfig(env)[ComponentName] == Str(NameFilter(RunNameAnswer(env)))
    ensures IsValidFunctionName(NameFilter(RunNameAnswer(env)))
  {
    var start := ConfigBeforePrompting(env.args, env.configFile);
    NameAskedFirst(start, env.configFile, env.user);
  }

  // ---------------------------------------------------------------- the run, on the shared config object

  /** The files written once the configuration is final, asking the override prompt when the directory exists. */
  method CreateFiles(env: Environment, config: ComponentConfig) returns (writes: seq<FileWrite>)
    requires |env.eol| > 0 && Complete(config.entries)
    ensures writes == ComponentWrites(env, config.entries)
  {
    var e := config.entries;
    var name := ToStr(e[ComponentName]);
    var file := ComponentFileName(name, e[ComponentFileExtension], e[AddXToExtension]);
    var css := CssFileNameOf(e[CssFileName], e[CssFileAsModule]);
    var content := RunContent(env, e);
    var overrideAnswer := None;
    if env.componentDirExists && content.Ok? {
      overrideAnswer := AysOverride(CommonJs, name, env.gateEvents, env.nameEvents);
    }
    var proceed := CreationOutcome(content, env.componentDirExists, overrideAnswer);
    // Content that cannot be built stops the run before the override prompt, whose answer then does not matter.
    ghost var asked := if env.componentDirExists then OverrideOutcome(CommonJs, name, env.gateEvents, env.nameEvents) else None;
    assert proceed == CreationOutcome(content, env.componentDirExists, asked);
    writes := [];
    if proceed == Some(Bool(true)) {
      writes := [FileWrite(ComponentFile, file, content.value)];
      var indexWrites: seq<FileWrite> := [];
      if Truthy(e[CreateComponentIndex]) && env.indexTemplate.Some? {
        indexWrites := [FileWrite(IndexFile, IndexFileName, IndexContent(env.indexTemplate.value, file))];
        writes := writes + indexWrites;
      }
      var cssWrites: seq<FileWrite> := [];
      if Truthy(e[CreateCssFile]) {
        cssWrites := [FileWrite(CssFile, css, "")];
        writes := writes + cssWrites;
      }
      assert writes == [FileWrite(ComponentFile, file, content.value)] + indexWrites + cssWrites;
    }
  }

  /**
   * The configuration part of `main`: defaults, the config file and the command-line
   * name go into one object, the questions update it, then the name and module
   * flag are rewritten.
   */
  method Configure(env: Environment) returns (config: ComponentConfig)
    requires NameAccepted(RunNameAnswer(env))
    ensures config.entries == FinalConfig(env)
  {
    var cli := ParseCli(env.args, env.addConfig, env.shhh);
    config := new ComponentConfig(DefaultConfig());
    config.entries := MergeConfig(config.entries, env.configFile);
    config.entries := config.entries[ComponentName := SelectComponentName(cli.nameTokens, config.entries[ComponentName])];
    ghost var start := config.entries;
    assert start == ConfigBeforePrompting(env.args, env.configFile);
    var _, asked := StartPrompting(config, env.configFile, env.user);
    assert config.entries == Prompted(start, env.configFile, env.user).entries by {
      assert Prompting(config.entries, asked) == Prompted(start, env.configFile, env.user);
    }
    FinalConfigFrom(env, start);
    config.entries := Finalize(config.entries);
  }

  /** The final configuration is the finalised answers to the questions asked from `start`. */
  lemma FinalConfigFrom(env: Environment, start: map<Setting, Value>)
    requires NameAccepted(RunNameAnswer(env))
    requires start == ConfigBeforePrompting(env.args, env.configFile)
    ensures FinalConfig(env) == Finalize(Prompted(start, env.configFile, env.user).entries)
  {
  }

  /**
   * `main`: writes the config file when asked to and ends there; otherwise builds
   * the configuration and writes the component's files. Returns the configuration
   * object and the files written.
   */
  method Generate(env: Environment) returns (config: ComponentConfig, writes: seq<FileWrite>)
    requires |env.eol| > 0
    requires !ConfigFileOnly(env) ==> NameAccepted(RunNameAnswer(env))
    ensures RunResult(config.entries, writes) == Generated(env)
  {
    var cli := ParseCli(env.args, env.addConfig, env.shhh);
    var created := ConfigFileCreation(Truthy(cli.createConfig), env.configFile.Some?, env.configTemplate);
    if Truthy(cli.createConfig) && Truthy(created) {
      config := new ComponentConfig(DefaultConfig());
      writes := [FileWrite(ConfigFile, ConfigFileName, env.configTemplate.value)];
      return;
    }
    config := Configure(env);
    writes := CreateFiles(env, config);
  }
}
