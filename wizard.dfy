/**
 * The question sequence of `src/prompt.js` (`startPrompting`): the component
 * name first, then one yes/no question per setting, the two CSS questions
 * only when a CSS file is wanted, each question skipped when the config file
 * already answers it.
 *
 * The person at the keyboard is a parameter: `UserAnswers` says what they type
 * at the two text questions and which yes/no questions they accept. The
 * prompts they answer are the ones of `InputPrompt` and `ConfirmPrompt`.
 */
module Wizard {
  import opened JsValue
  import opened Strings
  import opened Converters
  import opened Checks
  import opened Ascii
  import opened ComponentSettings

  /** What the user enters: the two typed texts (empty means "take the default") and their yes/no picks. */
  datatype UserAnswers = UserAnswers(nameTyped: string, cssTyped: string, accepts: Setting -> bool)

  /** The config object after the questions, and the settings that were actually asked, in order. */
  datatype Prompting = Prompting(entries: map<Setting, Value>, asked: seq<Setting>)

  /** The yes/no settings that are asked whatever the other answers are, in the order they are asked. */
  const AlwaysAsked: seq<Setting> :=
    [AddChildrenProps, UseClientDirective, UseInlineExport, CreateCssFile,
     CreateComponentIndex, ComponentFileExtension, AddXToExtension]

  /** The yes/no questions before the CSS questions, in order. */
  const FirstAsked: seq<Setting> := [AddChildrenProps, UseClientDirective, UseInlineExport, CreateCssFile]

  /** The yes/no questions after the CSS questions, in order. */
  const LastAsked: seq<Setting> := [CreateComponentIndex, ComponentFileExtension, AddXToExtension]

  // ---------------------------------------------------------------- the name question

  /** The name validator: the name is accepted iff the function name built from it is valid. */
  predicate NameAccepted(input: string) {
    IsValidFunctionName(ToFunctionName(input))
  }

  /** The name filter as the source writes it: `toUpperCamelCase`, which does not trim the words. */
  function NameFilterAsWritten(input: string): string {
    ToUpperCamelCase(input)
  }

  /**
   * The name filter the validator calls for: `toFunctionName`, the very conversion
   * the validator checks, so that every accepted name is stored as a valid one.
   */
  function NameFilter(input: string): (r: string)
    ensures NameAccepted(input) ==> IsValidFunctionName(r)
    ensures ' ' !in r
    ensures ToUpperCamelCase(r) == r
  {
    FunctionNameIsUpperCamelCase(input);
    ToFunctionName(input)
  }

  /** The text an input prompt shows as its default: only a string default is kept. */
  function DefaultText(v: Value): string {
    if v.Str? then v.s else ""
  }

  /** The default of the name question: the config-file name if truthy, else the current name. */
  function NameDefault(entries: map<Setting, Value>, answered: Option<map<Setting, Value>>): (r: string)
    requires Complete(entries)
    ensures Truthy(Lookup(answered, ComponentName)) ==> r == DefaultText(Lookup(answered, ComponentName))
    ensures !Truthy(Lookup(answered, ComponentName)) ==> r == DefaultText(entries[ComponentName])
  {
    DefaultText(Or(Lookup(answered, ComponentName), entries[ComponentName]))
  }

  /** The answer the name question submits: what was typed, or the default when nothing was. */
  function NameAnswer(entries: map<Setting, Value>, answered: Option<map<Setting, Value>>, user: UserAnswers): (r: string)
    requires Complete(entries)
    ensures user.nameTyped != "" ==> r == user.nameTyped
    ensures user.nameTyped == "" ==> r == NameDefault(entries, answered)
  {
    if user.nameTyped != "" then user.nameTyped else NameDefault(entries, answered)
  }

  /** The validator's verdict with the name filter as written shows the mismatch between the two. */
  lemma NameFilterAsWrittenStoresInvalidName()
    ensures NameAccepted("foo\t")
    ensures NameFilterAsWritten("foo\t") == "Foo\t"
    ensures !IsValidFunctionName(NameFilterAsWritten("foo\t"))
  {
    FunctionNameOfFooTab();
    UpperCamelCaseOfFooTab();
    assert !IsIdentPart("Foo\t"[3]);
  }

  /** The validator's conversion trims the Tab away. */
  lemma FunctionNameOfFooTab()
    ensures ToFunctionName("foo\t") == "Foo"
  {
    var input := "foo\t";
    SplitWithoutSpace(input);
    assert Split(input, " ") == [input];
    assert Trim(input) == "foo" by {
      assert TrimStart(input) == input;
      assert input[..|input| - 1] == "foo";
      assert TrimEnd("foo") == "foo";
    }
    var capped := TrimCapEach([input]);
    assert Upper('f') == 'F';
    assert UpperCapFirst("foo") == "Foo";
    assert capped == ["Foo"];
    var single: seq<string> := ["Foo"];
    assert single[1..] == [];
    assert NonEmpty(single) == ["Foo"] + NonEmpty(single[1..]);
  }

  /** The filter as written keeps the Tab. */
  lemma UpperCamelCaseOfFooTab()
    ensures ToUpperCamelCase("foo\t") == "Foo\t"
  {
    var input := "foo\t";
    SplitWithoutSpace(input);
    assert Split(input, " ") == [input];
    assert Upper('f') == 'F';
    var typed: seq<string> := [input];
    assert typed[1..] == [];
    assert NonEmpty(typed) == [input] + NonEmpty(typed[1..]);
    assert Tokenize(input) == [input];
  }

  lemma SplitWithoutSpace(s: string)
    requires ' ' !in s
    ensures Split(s, " ") == [s]
  {
    SplitWithoutSep(s, ' ');
  }

  // ---------------------------------------------------------------- the CSS file name question

  const ModuleCss: string := ".module.css"
  const Css: string := ".css"

  /** No character of `s` is one a regular-expression `.` refuses. */
  predicate SingleLine(s: string) {
    forall i :: 0 <= i < |s| ==> !IsLineTerminator(s[i])
  }

  /**
   * The CSS file name filter: `/^(.*?)(?:\.module|)\.css$/`. The lazy group makes
   * the `.module.css` reading win over the `.css` one; either reading needs the
   * rest of the name on one line.
   */
  function CssFileFilter(answer: string): (r: string)
    ensures r == answer || r + Css == answer || r + ModuleCss == answer
    ensures !EndsWith(answer, Css) ==> r == answer
    ensures EndsWith(answer, ModuleCss) && SingleLine(answer[..|answer| - |ModuleCss|]) ==>
              r + ModuleCss == answer
    ensures EndsWith(answer, Css) && SingleLine(answer[..|answer| - |Css|]) ==>
              r + Css == answer || r + ModuleCss == answer
  {
    if EndsWith(answer, ModuleCss) && SingleLine(answer[..|answer| - |ModuleCss|]) then
      assert answer[..|answer| - |ModuleCss|] + ModuleCss == answer;
      answer[..|answer| - |ModuleCss|]
    else if EndsWith(answer, Css) && SingleLine(answer[..|answer| - |Css|]) then
      assert answer[..|answer| - |Css|] + Css == answer;
      answer[..|answer| - |Css|]
    else answer
  }

  /** A single-line name without an extension comes back from the filter with either extension removed. */
  lemma CssFilterStripsExtension(base: string)
    requires SingleLine(base) && !EndsWith(base, Css) && !EndsWith(base, ".module")
    ensures CssFileFilter(base + Css) == base
    ensures CssFileFilter(base + ModuleCss) == base
    ensures CssFileFilter(base) == base
  {
    FilterStripsCss(base);
    FilterStripsModuleCss(base);
  }

  lemma FilterStripsCss(base: string)
    requires SingleLine(base) && !EndsWith(base, ".module")
    ensures CssFileFilter(base + Css) == base
  {
    var plain := base + Css;
    assert plain[..|plain| - |Css|] == base;
    assert plain[|plain| - |Css|..] == Css;
  }

  lemma FilterStripsModuleCss(base: string)
    requires SingleLine(base)
    ensures CssFileFilter(base + ModuleCss) == base
  {
    var asModule := base + ModuleCss;
    assert asModule[..|asModule| - |ModuleCss|] == base;
    assert asModule[|asModule| - |ModuleCss|..] == ModuleCss;
  }

  /** The default of the CSS question: the component name in lower camel case. */
  function CssDefault(name: string): string {
    ToLowerCamelCase(name)
  }

  /** The answer the CSS question submits: what was typed, or the default. */
  function CssAnswer(name: string, user: UserAnswers): string {
    if user.cssTyped != "" then user.cssTyped else CssDefault(name)
  }

  /**
   * The CSS question is `required`, but it never refuses an empty answer once the
   * name is valid: its default, the valid name in lower camel case, is not empty.
   */
  lemma CssAnswerNeverEmpty(name: string, user: UserAnswers)
    requires IsValidFunctionName(name) && ToUpperCamelCase(name) == name
    ensures CssAnswer(name, user) != ""
  {
    RejectedNames(name);
  }

  // ---------------------------------------------------------------- the yes/no questions

  /** What an accepted or declined yes/no question resolves with: `'js'`/`'ts'` for the extension, else a boolean. */
  function ConfirmValue(s: Setting, accepted: bool): (r: Value)
    ensures s == ComponentFileExtension ==> r == (if accepted then Str("js") else Str("ts"))
    ensures s != ComponentFileExtension ==> r == Bool(accepted)
  {
    if s == ComponentFileExtension then (if accepted then Str("js") else Str("ts")) else Bool(accepted)
  }

  /** `answerd?.KEY ?? (await confirm(...))`: the config-file answer unless it is `null`/`undefined`. */
  function YesNoAnswer(answered: Option<map<Setting, Value>>, user: UserAnswers, s: Setting): (r: Value)
    ensures !IsNullish(Lookup(answered, s)) ==> r == Lookup(answered, s)
    ensures IsNullish(Lookup(answered, s)) ==> r == ConfirmValue(s, user.accepts(s))
  {
    Coalesce(Lookup(answered, s), ConfirmValue(s, user.accepts(s)))
  }

  /** The question for `s` is shown iff the config file leaves it `null`/`undefined`. */
  function ShownIfUnanswered(answered: Option<map<Setting, Value>>, s: Setting): seq<Setting> {
    if IsNullish(Lookup(answered, s)) then [s] else []
  }

  /** `COMPONENT_CONFIG.KEY = answerd?.KEY ?? (await confirm(...))` */
  function AskYesNo(p: Prompting, answered: Option<map<Setting, Value>>, user: UserAnswers, s: Setting): (r: Prompting)
    ensures s in r.entries && r.entries[s] == YesNoAnswer(answered, user, s)
    ensures |r.asked| == |p.asked| + (if IsNullish(Lookup(answered, s)) then 1 else 0)
    ensures r.asked[..|p.asked|] == p.asked
    ensures IsNullish(Lookup(answered, s)) ==> r.asked[|p.asked|] == s
  {
    Prompting(p.entries[s := YesNoAnswer(answered, user, s)], p.asked + ShownIfUnanswered(answered, s))
  }

  /** `answerd?.CSS_FILE_NAME ?? (await input(...))`: a configured name is kept unfiltered. */
  function CssNameAnswer(answered: Option<map<Setting, Value>>, user: UserAnswers, name: string): (r: Value)
    ensures !IsNullish(Lookup(answered, CssFileName)) ==> r == Lookup(answered, CssFileName)
    ensures IsNullish(Lookup(answered, CssFileName)) ==> r == Str(CssFileFilter(CssAnswer(name, user)))
  {
    Coalesce(Lookup(answered, CssFileName), Str(CssFileFilter(CssAnswer(name, user))))
  }

  function AskCssName(p: Prompting, answered: Option<map<Setting, Value>>, user: UserAnswers, name: string): Prompting {
    Prompting(p.entries[CssFileName := CssNameAnswer(answered, user, name)],
              p.asked + ShownIfUnanswered(answered, CssFileName))
  }

  /** Both CSS questions, asked only when a CSS file is wanted. */
  function CssQuestions(p: Prompting, answered: Option<map<Setting, Value>>, user: UserAnswers, name: string): (r: Prompting)
    requires CreateCssFile in p.entries
    ensures forall t :: t in p.entries ==> t in r.entries
  {
    if Truthy(p.entries[CreateCssFile]) then
      AskCssName(AskYesNo(p, answered, user, CssFileAsModule), answered, user, name)
    else p
  }

  /** The yes/no questions for `settings`, asked one after the other in that order. */
  function AskAll(p: Prompting, answered: Option<map<Setting, Value>>, user: UserAnswers, settings: seq<Setting>): (r: Prompting)
    ensures forall t :: t in r.entries <==> t in p.entries || t in settings
    decreases |settings|
  {
    if |settings| == 0 then p
    else AskAll(AskYesNo(p, answered, user, settings[0]), answered, user, settings[1..])
  }

  /** The questions after the name, in the order `startPrompting` asks them. */
  function RemainingQuestions(p: Prompting, answered: Option<map<Setting, Value>>, user: UserAnswers, name: string): Prompting {
    var first := AskAll(p, answered, user, FirstAsked);
    assert CreateCssFile in FirstAsked;
    AskAll(CssQuestions(first, answered, user, name), answered, user, LastAsked)
  }

  /** The whole question sequence of `startPrompting`, on the config object as a value. */
  function Prompted(entries: map<Setting, Value>, answered: Option<map<Setting, Value>>, user: UserAnswers): (r: Prompting)
    requires Complete(entries)
    ensures Complete(r.entries)
  {
    var name := NameFilter(NameAnswer(entries, answered, user));
    var p := Prompting(entries[ComponentName := Str(name)], [ComponentName]);
    RemainingFrame(p, answered, user, name);
    RemainingQuestions(p, answered, user, name)
  }

  // ---------------------------------------------------------------- what the sequence promises

  /** After the name question, the remaining questions start from the filtered name, asked first. */
  lemma PromptedUnfold(entries: map<Setting, Value>, answered: Option<map<Setting, Value>>, user: UserAnswers)
    requires Complete(entries)
    ensures var name := NameFilter(NameAnswer(entries, answered, user));
      Prompted(entries, answered, user)
        == RemainingQuestions(Prompting(entries[ComponentName := Str(name)], [ComponentName]), answered, user, name)
  {
  }

  /**
   * The name is always asked, first, and what is stored is the filtered answer,
   * which is a valid function name left unchanged by `toUpperCamelCase`.
   */
  lemma NameAskedFirst(entries: map<Setting, Value>, answered: Option<map<Setting, Value>>, user: UserAnswers)
    requires Complete(entries)
    requires NameAccepted(NameAnswer(entries, answered, user))
    ensures |Prompted(entries, answered, user).asked| > 0 && Prompted(entries, answered, user).asked[0] == ComponentName
    ensures Prompted(entries, answered, user).entries[ComponentName] == Str(NameFilter(NameAnswer(entries, answered, user)))
    ensures IsValidFunctionName(NameFilter(NameAnswer(entries, answered, user)))
  {
    var name := NameFilter(NameAnswer(entries, answered, user));
    var p := Prompting(entries[ComponentName := Str(name)], [ComponentName]);
    assert Complete(p.entries);
    var r := RemainingQuestions(p, answered, user, name);
    RemainingFrame(p, answered, user, name);
    assert r.asked[0] == r.asked[..1][0] == ComponentName;
    assert r.entries[ComponentName] == Str(name);
    PromptedUnfold(entries, answered, user);
  }

  /** The questions after the name keep every setting present, the name entry, and the questions already asked. */
  lemma RemainingFrame(p: Prompting, answered: Option<map<Setting, Value>>, user: UserAnswers, name: string)
    requires Complete(p.entries)
    ensures var r := RemainingQuestions(p, answered, user, name);
      && Complete(r.entries)
      && r.entries[ComponentName] == p.entries[ComponentName]
      && |p.asked| <= |r.asked| && r.asked[..|p.asked|] == p.asked
  {
    assert CreateCssFile in FirstAsked && ComponentName !in FirstAsked && ComponentName !in LastAsked;
    StagedFrame(p, answered, user, name, FirstAsked, LastAsked);
    assert RemainingQuestions(p, answered, user, name)
        == AskAll(CssQuestions(AskAll(p, answered, user, FirstAsked), answered, user, name), answered, user, LastAsked);
  }

  /** A first and a last run of yes/no questions around the CSS questions keep every setting, the name and the questions asked. */
  lemma StagedFrame(p: Prompting, answered: Option<map<Setting, Value>>, user: UserAnswers, name: string,
                    early: seq<Setting>, late: seq<Setting>)
    requires Complete(p.entries)
    requires CreateCssFile in early && ComponentName !in early && ComponentName !in late
    ensures var r := AskAll(CssQuestions(AskAll(p, answered, user, early), answered, user, name), answered, user, late);
      && Complete(r.entries)
      && r.entries[ComponentName] == p.entries[ComponentName]
      && |p.asked| <= |r.asked| && r.asked[..|p.asked|] == p.asked
  {
    var first := AskAll(p, answered, user, early);
    var css := CssQuestions(first, answered, user, name);
    var r := AskAll(css, answered, user, late);
    AskAllEntry(p, answered, user, early, ComponentName);
    CssStep(first, answered, user, name, ComponentName);
    AskAllEntry(css, answered, user, late, ComponentName);
    PrefixTransitive(p.asked, first.asked, css.asked, r.asked);
  }

  /** Two prefix steps make one. */
  lemma PrefixTransitive<T>(a: seq<T>, b: seq<T>, c: seq<T>, d: seq<T>)
    requires |a| <= |b| <= |c| <= |d|
    requires b[..|a|] == a && c[..|b|] == b && d[..|c|] == c
    ensures d[..|a|] == a
  {
    assert d[..|a|] == d[..|c|][..|a|] == c[..|a|];
    assert c[..|a|] == c[..|b|][..|a|] == b[..|a|];
  }

  /**
   * A yes/no setting answered in the config file (anything but `null`/`undefined`,
   * `false` included) keeps that answer and is not asked; otherwise it is asked
   * and takes the user's pick.
   */
  lemma ConfiguredAnswerSkipsQuestion(entries: map<Setting, Value>, answered: Option<map<Setting, Value>>,
                                      user: UserAnswers, s: Setting)
    requires Complete(entries)
    requires s in AlwaysAsked
    ensures !IsNullish(Lookup(answered, s)) ==>
              s !in Prompted(entries, answered, user).asked &&
              Prompted(entries, answered, user).entries[s] == Lookup(answered, s)
    ensures IsNullish(Lookup(answered, s)) ==>
              s in Prompted(entries, answered, user).asked &&
              Prompted(entries, answered, user).entries[s] == ConfirmValue(s, user.accepts(s))
  {
    var name := NameFilter(NameAnswer(entries, answered, user));
    var p := Prompting(entries[ComponentName := Str(name)], [ComponentName]);
    assert Complete(p.entries) && s !in p.asked;
    var r := RemainingQuestions(p, answered, user, name);
    RemainingAnswers(p, answered, user, name, s);
    assert r.entries[s] == YesNoAnswer(answered, user, s);
    PromptedUnfold(entries, answered, user);
  }

  /** Each always-asked setting ends with its yes/no answer, and is asked iff the config file leaves it open. */
  lemma RemainingAnswers(p: Prompting, answered: Option<map<Setting, Value>>, user: UserAnswers, name: string, s: Setting)
    requires Complete(p.entries) && s in AlwaysAsked && s !in p.asked
    ensures var r := RemainingQuestions(p, answered, user, name);
      && r.entries[s] == YesNoAnswer(answered, user, s)
      && (s in r.asked <==> IsNullish(Lookup(answered, s)))
  {
    assert s != CssFileAsModule && s != CssFileName && (s in FirstAsked || s in LastAsked);
    assert CreateCssFile in FirstAsked;
    StagedAnswer(p, answered, user, name, FirstAsked, LastAsked, s);
    assert RemainingQuestions(p, answered, user, name)
        == AskAll(CssQuestions(AskAll(p, answered, user, FirstAsked), answered, user, name), answered, user, LastAsked);
  }

  /** A yes/no setting of the first or the last run ends with its yes/no answer, asked iff the config file leaves it open. */
  lemma StagedAnswer(p: Prompting, answered: Option<map<Setting, Value>>, user: UserAnswers, name: string,
                     early: seq<Setting>, late: seq<Setting>, s: Setting)
    requires Complete(p.entries) && s !in p.asked
    requires CreateCssFile in early && s != CssFileAsModule && s != CssFileName && (s in early || s in late)
    ensures var r := AskAll(CssQuestions(AskAll(p, answered, user, early), answered, user, name), answered, user, late);
      && r.entries[s] == YesNoAnswer(answered, user, s)
      && (s in r.asked <==> IsNullish(Lookup(answered, s)))
  {
    var first := AskAll(p, answered, user, early);
    var css := CssQuestions(first, answered, user, name);
    AskAllEntry(p, answered, user, early, s);
    CssStep(first, answered, user, name, s);
    AskAllEntry(css, answered, user, late, s);
  }

  /**
   * The two CSS questions are asked only when a CSS file is wanted; when it is not,
   * their settings keep the values they had before.
   */
  lemma CssQuestionsOnlyWhenWanted(entries: map<Setting, Value>, answered: Option<map<Setting, Value>>, user: UserAnswers)
    requires Complete(entries)
    ensures var r := Prompted(entries, answered, user);
      (CssFileAsModule in r.asked || CssFileName in r.asked) ==> Truthy(r.entries[CreateCssFile])
    ensures var r := Prompted(entries, answered, user);
      !Truthy(r.entries[CreateCssFile]) ==>
        r.entries[CssFileAsModule] == entries[CssFileAsModule] && r.entries[CssFileName] == entries[CssFileName]
    ensures var r := Prompted(entries, answered, user);
      Truthy(r.entries[CreateCssFile]) && IsNullish(Lookup(answered, CssFileName)) ==>
        CssFileName in r.asked &&
        r.entries[CssFileName] == Str(CssFileFilter(CssAnswer(NameFilter(NameAnswer(entries, answered, user)), user)))
  {
    var name := NameFilter(NameAnswer(entries, answered, user));
    var p := Prompting(entries[ComponentName := Str(name)], [ComponentName]);
    assert Complete(p.entries) && CssFileAsModule !in p.asked && CssFileName !in p.asked;
    RemainingCss(p, answered, user, name);
    PromptedUnfold(entries, answered, user);
  }

  /** The CSS settings after the remaining questions: asked only when a CSS file is wanted. */
  lemma RemainingCss(p: Prompting, answered: Option<map<Setting, Value>>, user: UserAnswers, name: string)
    requires Complete(p.entries) && CssFileAsModule !in p.asked && CssFileName !in p.asked
    ensures var r := RemainingQuestions(p, answered, user, name);
      && ((CssFileAsModule in r.asked || CssFileName in r.asked) ==> Truthy(r.entries[CreateCssFile]))
      && (!Truthy(r.entries[CreateCssFile]) ==>
            r.entries[CssFileAsModule] == p.entries[CssFileAsModule] && r.entries[CssFileName] == p.entries[CssFileName])
      && (Truthy(r.entries[CreateCssFile]) && IsNullish(Lookup(answered, CssFileName)) ==>
            CssFileName in r.asked && r.entries[CssFileName] == Str(CssFileFilter(CssAnswer(name, user))))
  {
    assert CreateCssFile in FirstAsked && CreateCssFile !in LastAsked;
    assert CssFileAsModule !in FirstAsked && CssFileAsModule !in LastAsked;
    assert CssFileName !in FirstAsked && CssFileName !in LastAsked;
    StagedCss(p, answered, user, name, FirstAsked, LastAsked);
    assert RemainingQuestions(p, answered, user, name)
        == AskAll(CssQuestions(AskAll(p, answered, user, FirstAsked), answered, user, name), answered, user, LastAsked);
  }

  /** The CSS settings after a first and a last run of yes/no questions around the CSS questions. */
  lemma StagedCss(p: Prompting, answered: Option<map<Setting, Value>>, user: UserAnswers, name: string,
                  early: seq<Setting>, late: seq<Setting>)
    requires Complete(p.entries) && CssFileAsModule !in p.asked && CssFileName !in p.asked
    requires CreateCssFile in early && CreateCssFile !in late
    requires CssFileAsModule !in early && CssFileAsModule !in late
    requires CssFileName !in early && CssFileName !in late
    ensures var r := AskAll(CssQuestions(AskAll(p, answered, user, early), answered, user, name), answered, user, late);
      && ((CssFileAsModule in r.asked || CssFileName in r.asked) ==> Truthy(r.entries[CreateCssFile]))
      && (!Truthy(r.entries[CreateCssFile]) ==>
            r.entries[CssFileAsModule] == p.entries[CssFileAsModule] && r.entries[CssFileName] == p.entries[CssFileName])
      && (Truthy(r.entries[CreateCssFile]) && IsNullish(Lookup(answered, CssFileName)) ==>
            CssFileName in r.asked && r.entries[CssFileName] == Str(CssFileFilter(CssAnswer(name, user))))
  {
    var first := AskAll(p, answered, user, early);
    var css := CssQuestions(first, answered, user, name);
    var r := AskAll(css, answered, user, late);
    CssStep(first, answered, user, name, CreateCssFile);
    AskAllEntry(css, answered, user, late, CreateCssFile);
    assert r.entries[CreateCssFile] == first.entries[CreateCssFile];
    forall t | t == CssFileAsModule || t == CssFileName
      ensures r.entries[t] == css.entries[t] && (t in r.asked <==> t in css.asked)
      ensures t !in first.asked && first.entries[t] == p.entries[t]
    {
      AskAllEntry(p, answered, user, early, t);
      AskAllEntry(css, answered, user, late, t);
    }
    if Truthy(first.entries[CreateCssFile]) {
      var q := AskYesNo(first, answered, user, CssFileAsModule);
      AskStep(first, answered, user, CssFileAsModule, CssFileName);
      assert css == AskCssName(q, answered, user, name);
      assert CssFileName in css.asked <==> IsNullish(Lookup(answered, CssFileName));
    } else {
      assert css == first;
    }
  }

  /** One yes/no question changes only its own setting and adds at most itself to the questions asked. */
  lemma AskStep(p: Prompting, answered: Option<map<Setting, Value>>, user: UserAnswers, s: Setting, t: Setting)
    ensures t in AskYesNo(p, answered, user, s).entries <==> t in p.entries || t == s
    ensures t != s && t in p.entries ==> AskYesNo(p, answered, user, s).entries[t] == p.entries[t]
    ensures t == s ==> AskYesNo(p, answered, user, s).entries[t] == YesNoAnswer(answered, user, s)
    ensures t in AskYesNo(p, answered, user, s).asked <==> t in p.asked || (t == s && IsNullish(Lookup(answered, s)))
    ensures |p.asked| <= |AskYesNo(p, answered, user, s).asked| && AskYesNo(p, answered, user, s).asked[..|p.asked|] == p.asked
  {
  }

  /**
   * The yes/no questions for `settings` give each of those settings its yes/no
   * answer, leave every other setting alone, ask exactly those the config file
   * leaves open, and only add to the questions already asked.
   */
  lemma {:induction false} AskAllEntry(p: Prompting, answered: Option<map<Setting, Value>>, user: UserAnswers,
                                       settings: seq<Setting>, t: Setting)
    requires t in p.entries || t in settings
    ensures t in settings ==> AskAll(p, answered, user, settings).entries[t] == YesNoAnswer(answered, user, t)
    ensures t !in settings ==> AskAll(p, answered, user, settings).entries[t] == p.entries[t]
    ensures t in AskAll(p, answered, user, settings).asked <==>
              t in p.asked || (t in settings && IsNullish(Lookup(answered, t)))
    ensures var r := AskAll(p, answered, user, settings);
      |p.asked| <= |r.asked| && r.asked[..|p.asked|] == p.asked
    decreases |settings|
  {
    if |settings| > 0 {
      var q := AskYesNo(p, answered, user, settings[0]);
      AskStep(p, answered, user, settings[0], t);
      assert t in settings <==> t == settings[0] || t in settings[1..];
      AskAllEntry(q, answered, user, settings[1..], t);
      var r := AskAll(q, answered, user, settings[1..]);
      assert r.asked[..|p.asked|] == r.asked[..|q.asked|][..|p.asked|];
    }
  }

  /** The first question of a list is asked first, then the rest. */
  lemma AskAllCons(p: Prompting, answered: Option<map<Setting, Value>>, user: UserAnswers, s: Setting, rest: seq<Setting>)
    ensures AskAll(p, answered, user, [s] + rest) == AskAll(AskYesNo(p, answered, user, s), answered, user, rest)
  {
    assert ([s] + rest)[1..] == rest;
  }

  /** The CSS questions leave every other setting alone, asked or not. */
  lemma CssStep(p: Prompting, answered: Option<map<Setting, Value>>, user: UserAnswers, name: string, t: Setting)
    requires CreateCssFile in p.entries && t in p.entries
    requires t != CssFileAsModule && t != CssFileName
    ensures t in CssQuestions(p, answered, user, name).entries
    ensures CssQuestions(p, answered, user, name).entries[t] == p.entries[t]
    ensures t in CssQuestions(p, answered, user, name).asked <==> t in p.asked
    ensures |p.asked| <= |CssQuestions(p, answered, user, name).asked|
    ensures CssQuestions(p, answered, user, name).asked[..|p.asked|] == p.asked
  {
    if Truthy(p.entries[CreateCssFile]) {
      AskStep(p, answered, user, CssFileAsModule, t);
    }
  }

  // ---------------------------------------------------------------- the config object, updated in place

  /** `COMPONENT_CONFIG`: one object whose entries the questions overwrite. */
  class ComponentConfig {
    var entries: map<Setting, Value>

    constructor(entries: map<Setting, Value>)
      ensures this.entries == entries
    {
      this.entries := entries;
    }
  }

  /** One yes/no question, writing its answer into the config object. */
  method AskYesNoInto(config: ComponentConfig, answered: Option<map<Setting, Value>>, user: UserAnswers,
                      s: Setting, asked: seq<Setting>)
    returns (asked': seq<Setting>)
    modifies config
    ensures Prompting(config.entries, asked') == AskYesNo(Prompting(old(config.entries), asked), answered, user, s)
  {
    var configured := Lookup(answered, s);
    asked' := asked;
    if IsNullish(configured) {
      config.entries := config.entries[s := ConfirmValue(s, user.accepts(s))];
      asked' := asked' + [s];
    } else {
      config.entries := config.entries[s := configured];
    }
  }

  /** The two CSS questions, writing their answers into the config object when a CSS file is wanted. */
  method CssQuestionsInto(config: ComponentConfig, answered: Option<map<Setting, Value>>, user: UserAnswers,
                          name: string, asked: seq<Setting>)
    returns (asked': seq<Setting>)
    requires CreateCssFile in config.entries
    modifies config
    ensures Prompting(config.entries, asked') == CssQuestions(Prompting(old(config.entries), asked), answered, user, name)
  {
    asked' := asked;
    if Truthy(config.entries[CreateCssFile]) {
      asked' := AskYesNoInto(config, answered, user, CssFileAsModule, asked');
    }
    if Truthy(config.entries[CreateCssFile]) {
      var configured := Lookup(answered, CssFileName);
      if IsNullish(configured) {
        config.entries := config.entries[CssFileName := Str(CssFileFilter(CssAnswer(name, user)))];
        asked' := asked' + [CssFileName];
      } else {
        config.entries := config.entries[CssFileName := configured];
      }
    }
  }

  /**
   * `startPrompting(COMPONENT_CONFIG, answerd)`: asks the questions in order, writes
   * every answer into the given object and returns that same object.
   * The name question loops until the validator accepts, so the submitted
   * answer is one the validator accepts.
   */
  method StartPrompting(config: ComponentConfig, answered: Option<map<Setting, Value>>, user: UserAnswers)
    returns (r: ComponentConfig, asked: seq<Setting>)
    requires Complete(config.entries)
    requires NameAccepted(NameAnswer(config.entries, answered, user))
    modifies config
    ensures r == config
    ensures Prompting(config.entries, asked) == Prompted(old(config.entries), answered, user)
  {
    ghost var entries := config.entries;
    var name := NameFilter(NameAnswer(config.entries, answered, user));
    config.entries := config.entries[ComponentName := Str(name)];
    asked := [ComponentName];
    ghost var p0 := Prompting(config.entries, asked);
    asked := AskYesNoInto(config, answered, user, AddChildrenProps, asked);
    ghost var p1 := Prompting(config.entries, asked);
    asked := AskYesNoInto(config, answered, user, UseClientDirective, asked);
    ghost var p2 := Prompting(config.entries, asked);
    asked := AskYesNoInto(config, answered, user, UseInlineExport, asked);
    ghost var p3 := Prompting(config.entries, asked);
    asked := AskYesNoInto(config, answered, user, CreateCssFile, asked);
    ghost var p4 := Prompting(config.entries, asked);
    asked := CssQuestionsInto(config, answered, user, name, asked);
    ghost var p5 := Prompting(config.entries, asked);
    asked := AskYesNoInto(config, answered, user, CreateComponentIndex, asked);
    ghost var p6 := Prompting(config.entries, asked);
    asked := AskYesNoInto(config, answered, user, ComponentFileExtension, asked);
    ghost var p7 := Prompting(config.entries, asked);
    asked := AskYesNoInto(config, answered, user, AddXToExtension, asked);
    AskAllCons(p0, answered, user, AddChildrenProps, [UseClientDirective, UseInlineExport, CreateCssFile]);
    AskAllCons(p1, answered, user, UseClientDirective, [UseInlineExport, CreateCssFile]);
    AskAllCons(p2, answered, user, UseInlineExport, [CreateCssFile]);
    AskAllCons(p3, answered, user, CreateCssFile, []);
    assert AskAll(p0, answered, user, FirstAsked) == p4;
    AskAllCons(p5, answered, user, CreateComponentIndex, [ComponentFileExtension, AddXToExtension]);
    AskAllCons(p6, answered, user, ComponentFileExtension, [AddXToExtension]);
    AskAllCons(p7, answered, user, AddXToExtension, []);
    assert AskAll(p5, answered, user, LastAsked) == Prompting(config.entries, asked);
    r := config;
  }
}
