# create-comp: a Dafny model of the prompt state machines and the component generator

`create-comp` is a command-line tool that scaffolds a React component. It asks
a short series of questions in the terminal and then writes the component file,
optionally an `index.js` and a CSS file. Its questions run on three custom
prompts built on `@inquirer/core`:

- a **select prompt** over a list of choices;
- a **confirm prompt** with exactly an accept and a decline choice;
- an **are-you-sure prompt**: a confirm prompt that is loading and ignores every
  key until its delay timer fires;
- a **free-text input prompt** with a default, `required`, `validate` and `filter`.

This project models, in Dafny:

- The three selection prompts (`Choices`, `Navigation`, `SelectionCore`,
  `SelectPrompt`, `ConfirmPrompt`, `AreYouSurePrompt`):
  - choice normalisation, the selectable test, `bounds` and the default index;
  - the keypress handler as a specification function (`Transition`, `Run`);
  - the prompt object (`SelectionPrompt`), whose methods update its fields and
    are proved equal to that specification;
  - the arrow keys' `do … while` skip loop, as a method with its loop invariant.
- The input prompt (`InputPrompt`): the same two layers over `status`, `value`,
  `defaultValue` and `errorMsg`. The awaited `validate` settles as a separate event.
- The override gate of `AYSOverride.js` and `AYSOverride.mjs` (`Override`): the
  are-you-sure prompt, then a prompt that accepts only the exact component name.
- The string utilities (`Converters`, `Checks`, `Helpers`, with `Strings`,
  `Seqs` and `Ascii` for the JavaScript built-ins they use).
- The question sequence of `src/prompt.js` (`Wizard`): a function on values, and
  a method that writes the answers into the shared config object.
- The generator of `index.js` (`Generator`):
  - the command line, the default and merged configuration, and the file names;
  - the text of the component and index files;
  - which files a run writes, as a function of its environment, and the method
    `Generate` proved equal to it.

The terminal is a stream of events. A key carries the readline line it leaves
behind, and timers firing are events of their own. The person at the keyboard is
a parameter too: `UserAnswers` holds what they type and what they pick. The file
system is a parameter: the template texts, whether the config file and the
component directory exist, and the platform's end-of-line. A run's effect is
the list of files it writes.

JavaScript values are the primitives `undefined`, `null`, booleans, integers and
strings (`JsValue.Value`). Truthiness, `??`, `||` and `String(v)` are written
out for them. A choice given as an object is a map from the properties the
prompts read (`value`, `name`, `short`, `description`, `disabled`; `Choices.Field`)
to such values.

## Model

| member | source | states |
|---|---|---|
| `Seqs.FindIndex` | src/custom.prompts/customSelectPrompt.mjs:89 | `findIndex` returns -1 exactly when no element satisfies the predicate; otherwise it returns the smallest index that does |
| `Seqs.FindLastIndex` | src/custom.prompts/customSelectPrompt.mjs:90 | `findLastIndex` returns -1 exactly when no element satisfies the predicate; otherwise it returns the largest index that does |
| `Strings.Split` | src/utilities/converters.js:4 | `split` with a non-empty separator always yields at least one piece |
| `Strings.JoinSplit` | src/utilities/converters.js:4-7 | joining the pieces of a split with the same separator gives back the original string |
| `Strings.SplitPiecesAvoidSep` | src/utilities/converters.js:18 | no piece of a split contains the separator |
| `Strings.ReplaceAllIsSplitJoin` | index.js:165 | `replaceAll` with the replacement inserted literally equals splitting at the pattern and joining with the replacement |
| `Strings.ReplaceAbsent` | index.js:165 | a string without the pattern is left unchanged by `replace` and by `replaceAll` |
| `Strings.SubstituteLiteral` | index.js:165 | a replacement string in which no `$` starts `$$`, `$&`, `` $` `` or `$'` stands for itself at every match |
| `Strings.ExpandingIsLiteral` | index.js:165-176 | with such a replacement, `replaceAll` and `replace` with a string replacement give exactly the literal replacement |
| `Strings.ReplaceWholeMatch` | index.js:165 | a string that is exactly the pattern becomes the substitution of the replacement, or the replacement itself when inserted literally |
| `Strings.SubstituteDollarPair` | index.js:165 | in a replacement string, `$$` stands for a single `$` |
| `Strings.ReplaceFirstAtMatch` | index.js:176 | `replace` keeps the text before and after the first match and puts the replacement in its place |
| `Strings.SplitOnCharPieces` | src/utilities/converters.js:18 | after a split on `' '`, no token contains a space |
| `Strings.SplitWithoutSep` | src/utilities/converters.js:18 | a string without a space tokenizes into itself alone |
| `Strings.JoinAvoids` | src/utilities/converters.js:7 | a character absent from the separator and from every piece is absent from the join |
| `Strings.JoinCountsSeparators` | src/utilities/converters.js:43-45 | joining k pieces that are free of a character, with that character as separator, puts exactly k-1 of it in the result |
| `Ascii.LowerStr` | src/custom.prompts/customSelectPrompt.mjs:139 | `toLowerCase` keeps the length and lowers each character; it is restricted to ASCII |
| `Checks.IsValidFunctionName` | src/utilities/checks.js:1-3 | `isValidFunctionName` is true iff the name is non-empty, its first character is an ASCII letter, `_` or `$`, and every later character is one of those or a digit |
| `Checks.RunAcceptsIdentifiers` | src/utilities/checks.js:2 | the character-by-character run of the anchored pattern ends accepting iff the name has that form |
| `Checks.RejectedNames` | src/utilities/checks.js:2 | the empty string, a leading digit and any space are rejected |
| `Checks.IsValue` | src/utilities/checks.js:5-7 | `isValue` is false exactly for `''`, `undefined`, `null` and `0`; it is true for every truthy value and for `false` |
| `Helpers.ReturnIfValue` | src/utilities/helpers.js:5-7 | `returnIfValue` returns the query or the default; it is `query \|\| def`, except that `false` is kept |
| `Helpers.ReturnIfValueFallsBack` | src/utilities/helpers.js:6 | `''` and `0` fall back to the default, while `false` is returned as it is |
| `Helpers.I` | src/utilities/helpers.js:9-11 | `I` is the identity |
| `Helpers.Toggle` | src/utilities/helpers.js:13-15 | `toggle` is the negation of truthiness |
| `Helpers.ToggleTwice` | src/utilities/helpers.js:13-15 | toggling twice gives back the truthiness of the value, and gives back every boolean |
| `Converters.NonEmpty` | src/utilities/converters.js:18 | `filter(Boolean)` keeps only non-empty tokens, and only tokens of its input |
| `Converters.ToLowerCamelCase` | src/utilities/converters.js:25-28 | the lower camel case has the length of the upper camel case and differs from it only in the first character, which is lowered |
| `Converters.ParamRun` | src/utilities/converters.js:49 | the `[0-9;]*` run of a colour sequence never extends past the string |
| `Converters.SgrLength` | src/utilities/converters.js:49 | a colour sequence at the front is either absent or at least `ESC [ m` long and within the string |
| `Converters.StripSgr` | src/utilities/converters.js:50 | removing the colour sequences never lengthens a string |
| `Converters.GetLengthWithChalk` | src/utilities/converters.js:47-51 | the visible length is at most the string's length |
| `Converters.LengthWithoutEsc` | src/utilities/converters.js:47-51 | a string without ESC has a visible length equal to its length |
| `Converters.SgrSequenceIsInvisible` | src/utilities/converters.js:49-50 | an `ESC [ params m` sequence at the front adds nothing to the visible length |
| `Converters.StripWithoutEsc` | src/utilities/converters.js:50 | a string without ESC is left unchanged by the stripping |
| `Converters.ToFunctionName` | src/utilities/converters.js:3-8 | `toFunctionName` never leaves a space in its result |
| `Converters.ToUpperCamelCase` | src/utilities/converters.js:21-24 | `toUpperCamelCase` never leaves a space in its result |
| `Converters.UpperCamelCaseOfSpaces` | src/utilities/converters.js:17-24 | an empty or all-space input gives `''` |
| `Converters.UpperCapFirstTwice` | src/utilities/converters.js:10-12 | `upperCapFirst` is idempotent |
| `Converters.SpacelessCamelFixpoint` | src/utilities/converters.js:21-24 | a space-free string whose first character is already upper case is its own upper camel case |
| `Converters.CapitalisedJoin` | src/utilities/converters.js:23 | joining capitalised tokens gives a capitalised string |
| `Converters.UpperCamelCaseIdempotent` | src/utilities/converters.js:21-24 | `toUpperCamelCase(toUpperCamelCase(x)) == toUpperCamelCase(x)` |
| `Converters.FilterCapped` | src/utilities/converters.js:18 | `filter(Boolean)` keeps a list of non-empty tokens as it is |
| `Converters.FunctionNameIsUpperCamelCase` | src/utilities/converters.js:3-8 | `toUpperCamelCase` leaves every output of `toFunctionName` unchanged |
| `Converters.FunctionNameAgreesWithUpperCamelCase` | src/utilities/converters.js:3-24 | when the only whitespace in the input is `' '`, `toFunctionName` and `toUpperCamelCase` agree |
| `Converters.FilterCommutes` | src/utilities/converters.js:5-6 | for tokens that trimming leaves alone, dropping empty tokens commutes with trimming and capitalising |
| `Converters.MultiLineNewlines` | src/utilities/converters.js:43-45 | `toMultiLine` of k newline-free lines has exactly k-1 newlines |
| `Converters.SplitPiecesFromSource` | src/utilities/converters.js:4 | every character of a token comes from the input |
| `Converters.TrimStartKeepsAbsence` | src/utilities/converters.js:5 | trimming the start never introduces a character |
| `Converters.TrimEndKeepsAbsence` | src/utilities/converters.js:5 | trimming the end never introduces a character |
| `Converters.TrimStartWithoutSpace` | src/utilities/converters.js:5 | a string without whitespace is left unchanged by trimming its start |
| `Converters.TrimEndWithoutSpace` | src/utilities/converters.js:5 | a string without whitespace is left unchanged by trimming its end |
| `Choices.NormalizeChoice` | src/custom.prompts/customSelectPrompt.mjs:53-73 | normalising one entry: a separator passes through unchanged; a string s becomes value = name = short = s, not disabled; for an object, name defaults to `String(value)`, short to name and disabled to `false`, and the description is copied |
| `Choices.NormalizeChoices` | src/custom.prompts/customSelectPrompt.mjs:53-75 | normalisation keeps the length and the order and normalises each entry |
| `Choices.ComputeBounds` | src/custom.prompts/customSelectPrompt.mjs:88-97 | `bounds` throws with the "No selectable choices" message iff nothing is selectable; otherwise `first` is the smallest and `last` the largest selectable index, and `first <= last` |
| `Choices.BoundsAreComputed` | src/custom.prompts/customSelectPrompt.mjs:88-97 | every pair that satisfies the bounds property is the pair `bounds` computes |
| `Choices.SelectDefaultIndex` | src/custom.prompts/customSelectPrompt.mjs:99-102 | the default index is -1 without a `default` key; otherwise it is the first selectable entry whose value is `===` to the default, or -1 when there is none |
| `Choices.ConfirmDefaultIndex` | src/custom.prompts/customConfirmPrompt.mjs:115-126 | the confirm default index: a value match wins; with a `default` key and something selectable there is always a selectable index |
| `Choices.ConfirmDefaultFallback` | src/custom.prompts/customConfirmPrompt.mjs:121-123 | without a value match, a truthy default picks `bounds.first` and a falsy one picks `bounds.last` |
| `Choices.InitialActive` | src/custom.prompts/customSelectPrompt.mjs:104 | the cursor starts on the default index, or on `bounds.first` when that index is -1; either way it is on a selectable entry |
| `Navigation.Step` | src/custom.prompts/customSelectPrompt.mjs:124 | one step goes modulo the list length: Down from the last index goes to 0, Up from 0 goes to the last index |
| `Navigation.MeasureDecreases` | src/custom.prompts/customSelectPrompt.mjs:123-125 | each step of the skip loop over a non-selectable entry brings it closer to a selectable one, so the loop terminates |
| `Navigation.Seek` | src/custom.prompts/customSelectPrompt.mjs:125 | the search for a selectable entry always ends on one |
| `Navigation.NextSelectable` | src/custom.prompts/customSelectPrompt.mjs:122-125 | the `do … while` loop ends on a selectable entry |
| `Navigation.ArrowTarget` | src/custom.prompts/customSelectPrompt.mjs:118-127 | an arrow key keeps the cursor on a selectable entry; when the `loop` guard fails, the cursor stays |
| `Navigation.NextIndex` | src/custom.prompts/customSelectPrompt.mjs:121-126 | the imperative skip loop computes exactly `NextSelectable` |
| `Navigation.SeekDownNoWrap` | src/custom.prompts/customSelectPrompt.mjs:123-125 | going down from at most `last`, the loop stops at the nearest selectable entry without wrapping |
| `Navigation.SeekUpNoWrap` | src/custom.prompts/customSelectPrompt.mjs:123-125 | going up from at least `first`, the loop stops at the nearest selectable entry without wrapping |
| `Navigation.NoWrapWithoutLoop` | src/custom.prompts/customSelectPrompt.mjs:120-127 | with `loop` off the cursor never wraps: Down never moves up and passes over only entries that are not selectable, and Up likewise. Below `last`, Down lands on a selectable entry no further than `last`; above `first`, Up lands on one no earlier than `first`. At `last` (for Down) and `first` (for Up) the cursor stays |
| `Navigation.DownPastLast` | src/custom.prompts/customSelectPrompt.mjs:123-125 | searching down from below `last` wraps around to `first` |
| `Navigation.UpBeforeFirst` | src/custom.prompts/customSelectPrompt.mjs:123-125 | searching up from above `first` wraps around to `last` |
| `Navigation.DownFromLastWraps` | src/custom.prompts/customSelectPrompt.mjs:120-126 | with `loop` on, Down from `bounds.last` goes to `bounds.first` |
| `Navigation.UpFromFirstWraps` | src/custom.prompts/customSelectPrompt.mjs:120-126 | with `loop` on, Up from `bounds.first` goes to `bounds.last` |
| `SelectionCore.LoopSetting` | src/custom.prompts/customSelectPrompt.mjs:78 | `loop` defaults to `true` only when it is `undefined`; any other value counts by its truthiness |
| `SelectionCore.SearchMatch` | src/custom.prompts/customSelectPrompt.mjs:139-144 | type-ahead finds the first selectable entry whose lowercased name starts with the lowercased line, or -1 when there is none |
| `SelectionCore.NumberTarget` | src/custom.prompts/customSelectPrompt.mjs:128-134 | number key N moves the cursor to N-1 iff that index exists and is selectable; otherwise the cursor stays |
| `SelectionCore.ActiveAfter` | src/custom.prompts/customSelectPrompt.mjs:115-153 | every key keeps the cursor in the list and on a selectable entry. Enter and Backspace never move it. An arrow moves it to `ArrowTarget` and a number key to `NumberTarget`. Typed text moves it to the type-ahead match, and leaves it where it is when nothing matches |
| `SelectionCore.Transition` | src/custom.prompts/areYouSurePrompt.mjs:149-205 | one event keeps the prompt invariant. A done prompt ignores everything. A locked prompt ignores keys and only clears the search timer. Enter resolves with the value under the cursor. The delay timer unlocks input and makes the prompt idle. The search timer only clears its own flag, and a delay timer that is no longer pending changes nothing. Any other key on an unlocked prompt moves the cursor as `ActiveAfter` says, keeps status, answer and the lock, and arms the search timer only for typed text. An answer appears only on Enter, with the value under the cursor |
| `SelectionCore.Run` | src/custom.prompts/customSelectPrompt.mjs:109-110 | after any sequence of events the cursor is still on a selectable entry, and the other parts of the invariant hold too |
| `SelectionCore.LockedUntilDelay` | src/custom.prompts/areYouSurePrompt.mjs:159-164 | until the delay timer fires, no key moves the cursor or resolves the prompt, which stays loading |
| `SelectionCore.DoneIsFinal` | src/custom.prompts/customSelectPrompt.mjs:115-117 | once done, the prompt keeps its state and its answer whatever events follow |
| `SelectionCore.SelectionPrompt.constructor` | src/custom.prompts/areYouSurePrompt.mjs:95-145 | a new prompt is idle, or it is loading with input ignored and the delay timer pending; it has no answer and the cursor on a selectable entry |
| `SelectionCore.SelectionPrompt.HandleKey` | src/custom.prompts/customSelectPrompt.mjs:112-154 | the keypress handler updates the fields exactly as `Transition` prescribes and keeps the invariant |
| `SelectionCore.SelectionPrompt.DelayElapsed` | src/custom.prompts/areYouSurePrompt.mjs:149-157 | the delay timer turns `ignoreInput` off and sets the status to idle, as `Transition` prescribes |
| `SelectionCore.SelectionPrompt.SearchCleared` | src/custom.prompts/customSelectPrompt.mjs:150-152 | the search timer firing only marks the timer as spent |
| `SelectionCore.SelectionPrompt.Dispatch` | src/custom.prompts/areYouSurePrompt.mjs:149-205 | every event updates the fields as `Transition` prescribes |
| `SelectionCore.Feed` | src/custom.prompts/customSelectPrompt.mjs:112-154 | feeding events one by one leaves the prompt in the state `Run` computes |
| `SelectionCore.ShowsArrowHint` | src/custom.prompts/customSelectPrompt.mjs:178-183 | the "(Use arrow keys)" hint goes on row 0 only, always in `always` mode and on the first render in `auto` mode |
| `SelectionCore.DisabledLabel` | src/custom.prompts/customSelectPrompt.mjs:185-187 | a disabled entry shows its `disabled` text when that is a string, else "(disabled)" |
| `SelectPrompt.SelectStart` | src/custom.prompts/customSelectPrompt.mjs:99-104 | the cursor starts on the first selectable entry whose value is the default, or on `bounds.first` when there is no `default` key or no such entry |
| `SelectPrompt.CreateSelectPrompt` | src/custom.prompts/customSelectPrompt.mjs:77-104 | building the prompt fails with the "No selectable choices" message iff nothing is selectable; otherwise the prompt is idle on the normalised choices, at `SelectStart` |
| `SelectPrompt.SelectGlyph` | src/custom.prompts/customSelectPrompt.mjs:200-206 | row 0 opens the list and the row at `choices.length - 1` closes it; every other row gets the middle glyph |
| `SelectPrompt.TypeAheadFindsBanana` | src/custom.prompts/customSelectPrompt.mjs:139-148 | typing "b" among Apple, Banana and Cherry moves the cursor to Banana |
| `ConfirmPrompt.ConfirmItems` | src/custom.prompts/customConfirmPrompt.mjs:88-102 | the choices are exactly accept then decline. Accept defaults to name 'accept', short 'yes' and value `true`; decline to 'decline', 'no' and `false`. Caller fields override these defaults |
| `ConfirmPrompt.ConfirmStart` | src/custom.prompts/customConfirmPrompt.mjs:115-128 | the cursor starts at `bounds.first` without a `default` key, on the matching value when there is one, and always on a selectable choice |
| `ConfirmPrompt.ConfirmStartFallback` | src/custom.prompts/customConfirmPrompt.mjs:121-128 | without a matching value, a truthy default starts on the first selectable choice and a falsy one on the last |
| `ConfirmPrompt.FalseDefaultStartsOnDecline` | src/custom.prompts/areYouSurePrompt.mjs:127-140 | with the standard values and `default: false`, the cursor starts on decline (index 1) |
| `ConfirmPrompt.StandardItems` | src/custom.prompts/customConfirmPrompt.mjs:104-113 | with the standard values both choices are selectable and `bounds` is `{ first: 0, last: 1 }` |
| `ConfirmPrompt.ArrowToggles` | src/custom.prompts/customConfirmPrompt.mjs:139-148 | with two selectable choices and `loop` on, every arrow key moves the cursor to the other choice |
| `ConfirmPrompt.NumberKeysOnTwoChoices` | src/custom.prompts/customConfirmPrompt.mjs:149-155 | key 1 selects accept and key 2 selects decline when they are selectable; any other number changes nothing |
| `ConfirmPrompt.CreateConfirmPrompt` | src/custom.prompts/customConfirmPrompt.mjs:79-128 | building fails iff both choices are disabled; otherwise the prompt is idle on `[accept, decline]`, at `ConfirmStart` |
| `ConfirmPrompt.ConfirmGlyph` | src/custom.prompts/customConfirmPrompt.mjs:213 | row 1 (decline) gets the closing glyph, every other row the middle one |
| `AreYouSurePrompt.CreateAreYouSurePrompt` | src/custom.prompts/areYouSurePrompt.mjs:89-145 | the prompt starts loading, with input ignored and the delay timer pending, on the confirm choices at `ConfirmStart` |
| `AreYouSurePrompt.CountdownArray` | src/custom.prompts/areYouSurePrompt.mjs:79-87 | `countdownArray(ms)` starts at `ms`, steps down by exactly 10 and holds only positive values; its length is ceil(ms/10), or 0 when `ms <= 0` |
| `AreYouSurePrompt.RowColour` | src/custom.prompts/areYouSurePrompt.mjs:241 | row 0 (accept, the dangerous choice) is red and every other row is green |
| `AreYouSurePrompt.DescriptionColour` | src/custom.prompts/areYouSurePrompt.mjs:256 | the description takes the colour of the row under the cursor |
| `InputPrompt.Initial` | src/custom.prompts/customInputPrompt.js:12-15 | the prompt starts idle, with an empty value, no error, and the default set to `config.default` |
| `InputPrompt.InputTransition` | src/custom.prompts/customInputPrompt.js:19-60 | keys are ignored unless the prompt is idle. With `required`, Enter on an empty answer sets the error 'You must provide a value'; otherwise Enter submits `value \|\| defaultValue`. When `validate` returns exactly `true`, the prompt is done with the filter applied once. Any other result puts that result, or 'You must provide a valid value', in the error, returns to idle and keeps the value. A settled validation while not loading changes nothing. Typing stores the readline line and clears the error; Backspace on an empty value clears the default unless `required`; Tab on an empty value restores or copies the default. A result appears only when validation settles |
| `InputPrompt.InputRun` | src/custom.prompts/customInputPrompt.js:19-60 | after any sequence of events, a result exists only when the prompt is done, for a value `validate` accepted exactly, passed through the filter once |
| `InputPrompt.BackspaceClearsDefault` | src/custom.prompts/customInputPrompt.js:46-47 | Backspace on an empty value clears the default unless the prompt is `required` |
| `InputPrompt.TabOnEmptyValue` | src/custom.prompts/customInputPrompt.js:48-55 | Tab on an empty value restores `config.default` when no default is left, and otherwise copies the default into the value; neither submits |
| `InputPrompt.AcceptingPromptResolves` | src/custom.prompts/customInputPrompt.js:10-38 | with a validator that accepts everything and no `required`, Enter always resolves, with the filtered answer |
| `InputPrompt.InputDoneIsFinal` | src/custom.prompts/customInputPrompt.js:19-23 | once done, the prompt keeps its state whatever follows |
| `InputPrompt.CustomInputPrompt.constructor` | src/custom.prompts/customInputPrompt.js:10-15 | a new prompt is in the initial state |
| `InputPrompt.CustomInputPrompt.HandleKey` | src/custom.prompts/customInputPrompt.js:19-28 | the handler, up to the `await`, updates the fields exactly as `InputTransition` prescribes |
| `InputPrompt.CustomInputPrompt.Settle` | src/custom.prompts/customInputPrompt.js:29-45 | `validate`'s verdict updates the fields exactly as `InputTransition` prescribes |
| `InputPrompt.CustomInputPrompt.Dispatch` | src/custom.prompts/customInputPrompt.js:19-60 | every event updates the fields as `InputTransition` prescribes |
| `InputPrompt.FeedInput` | src/custom.prompts/customInputPrompt.js:19-60 | feeding events one by one leaves the prompt in the state `InputRun` computes |
| `Override.GateItemsFacts` | src/AYSOverride.js:19-30 | the gate's choices are accept (`true`) and decline (`false`), both selectable, with `bounds` `{ first: 0, last: 1 }` |
| `Override.GateStandard` | src/AYSOverride.mjs:13-22 | in both variants the gate's accept carries `true` and decline `false`, and neither is disabled |
| `Override.GateSettings` | src/AYSOverride.js:18 | the gate runs with `loop: false` on the gate choices |
| `Override.GateStart` | src/AYSOverride.js:12-32 | the gate as built satisfies the prompt invariant |
| `Override.GateStartsOnDecline` | src/AYSOverride.mjs:6-24 | the gate starts on decline, loading, with input locked |
| `Override.NameCheck` | src/AYSOverride.js:38-42 | the name step's validator returns `true` iff the input `===` the component name; otherwise it returns the truthy message 'Component name is …', with ', you entered …' only when something was typed |
| `Override.NothingBeforeDelay` | src/AYSOverride.js:12-17 | before the delay fires, no key can decide the override |
| `Override.DeclineSkipsNameStep` | src/AYSOverride.js:33-47 | declining returns `false` and never shows the name step |
| `Override.OverrideOutcome` | src/AYSOverride.js:12-47 | the outcome is pending iff the gate has not answered, or it was accepted and the name step is not done; a declined gate's `false` is returned at once |
| `Override.TrueOnlyAfterExactName` | src/AYSOverride.mjs:26-39 | the outcome is `true`, `false` or pending; it is `true` only when the gate was accepted and the name step finished on exactly the component name |
| `Override.AcceptedAndNamedIsTrue` | src/AYSOverride.js:33-46 | conversely, an accepted gate followed by a completed name step gives `true` |
| `Override.ExactNameCompletes` | src/AYSOverride.js:34-44 | typing exactly the component name, Enter and the validator settling complete the name step with `true` |
| `Override.AcceptPathOnTwo` | src/custom.prompts/areYouSurePrompt.mjs:149-205 | on a loading prompt over two choices that starts on the second and whose first carries `true`, the delay, Up and Enter answer `true` |
| `Override.AcceptPathAnswersTrue` | src/AYSOverride.js:12-32 | the gate can be accepted: after the delay, Up from "Cancel Operation!" and Enter answer `true` |
| `Override.AcceptAndTypeNameOverrides` | src/AYSOverride.js:5-48 | the override can be granted: accepting the gate that way and typing the exact name make `AYSOverride` resolve with `true` |
| `Override.GateAnswersBool` | src/AYSOverride.js:12-32 | the gate resolves, if at all, with `true` or `false`, the values of its two choices |
| `Override.NameStepResolvesTrueOnMatch` | src/AYSOverride.js:34-44 | the name step resolves, if at all, with `true` (what its filter returns), and only once the input is exactly the component name |
| `Override.AysOverride` | src/AYSOverride.js:5-48 | the two prompts run in sequence, each on its own events, and give exactly `OverrideOutcome` |
| `Wizard.NameFilter` | src/prompt.js:58-63 | the stored name has no space and is left unchanged by `toUpperCamelCase`; when the validator accepted the input, it is a valid function name |
| `Wizard.NameDefault` | src/prompt.js:56 | the name's default is the config-file name when truthy, else the current name |
| `Wizard.NameAnswer` | src/prompt.js:51-63 | the name question submits what was typed, or its default when nothing was typed |
| `Wizard.NameFilterAsWrittenStoresInvalidName` | src/prompt.js:58-62 | "foo\t" passes the validator, but the filter as written stores "Foo\t", which is not a valid function name |
| `Wizard.SplitWithoutSpace` | src/utilities/converters.js:18 | a name typed without a space is a single token |
| `Wizard.CssFileFilter` | src/prompt.js:164-169 | the filter returns the answer unchanged, or with one `.css` or `.module.css` stripped. The answer comes back as it is when it does not end in `.css`. The `.module.css` reading wins when the rest is on one line |
| `Wizard.CssFilterStripsExtension` | src/prompt.js:164-169 | for a one-line base name, the filter gives the base back from `base.css`, from `base.module.css` and from `base` itself |
| `Wizard.CssAnswerNeverEmpty` | src/prompt.js:156-171 | once the name is valid, the required CSS question never submits an empty answer, because its default is not empty |
| `Wizard.ConfirmValue` | src/prompt.js:193-208 | the extension question resolves with 'js' or 'ts'; every other yes/no question resolves with a boolean |
| `Wizard.YesNoAnswer` | src/prompt.js:69-72 | `answerd?.X ?? await prompt`: a config-file answer that is not `null`/`undefined` wins, `false` included; otherwise the user's pick is stored |
| `Wizard.AskYesNo` | src/prompt.js:69-85 | one yes/no question stores `YesNoAnswer` under its setting and appends itself to the questions shown iff the config file leaves it open |
| `Wizard.CssNameAnswer` | src/prompt.js:156-171 | the CSS name is the config-file answer when that is not `null`/`undefined`, else the filtered answer to the question |
| `Wizard.Prompted` | src/prompt.js:50-223 | after the questions every setting has a value |
| `Wizard.NameAskedFirst` | src/prompt.js:50-64 | the name is always asked, first, and the stored name is the filtered answer, which is a valid function name |
| `Wizard.ConfiguredAnswerSkipsQuestion` | src/prompt.js:69-89 | a yes/no setting answered in the config file (anything but `null`/`undefined`, `false` included) keeps that answer and its question is skipped; otherwise the question is asked and stores the user's pick |
| `Wizard.CssQuestionsOnlyWhenWanted` | src/prompt.js:137-172 | the two CSS questions are asked only when `CREATE_CSS_FILE` is truthy, and keep their previous values otherwise; when they are asked and not configured, the CSS name is the filtered answer |
| `Wizard.AskStep` | src/prompt.js:69-85 | one yes/no question changes only its own setting and adds at most itself to the questions asked |
| `Wizard.CssStep` | src/prompt.js:137-172 | the CSS questions change no other setting |
| `Wizard.CssQuestions` | src/prompt.js:137-172 | the CSS questions remove no setting from the config object |
| `Wizard.AskAll` | src/prompt.js:69-135 | after a run of yes/no questions the config object holds the settings it held before plus exactly the ones asked about |
| `Wizard.AskAllEntry` | src/prompt.js:69-135 | a run of yes/no questions gives each of its settings the config-file answer, or the user's pick when that answer is `null`/`undefined`; it leaves every other setting alone, shows exactly the questions the config file leaves open, and only appends to the questions already shown |
| `Wizard.RemainingFrame` | src/prompt.js:69-223 | the questions after the name keep every setting, leave the stored name alone and only append to the questions shown |
| `Wizard.RemainingAnswers` | src/prompt.js:69-223 | after the questions that follow the name, each always-asked yes/no setting holds the config-file answer or the user's pick, and its question was shown iff the config file left it open |
| `Wizard.RemainingCss` | src/prompt.js:122-172 | the two CSS questions are shown only when `CREATE_CSS_FILE` is truthy, their settings keep their earlier values when it is not, and when it is and the config file leaves the CSS name open the name question is shown and stores the filtered answer |
| `Wizard.ComponentConfig.constructor` | index.js:45-48 | the config object starts with the given entries |
| `Wizard.AskYesNoInto` | src/prompt.js:69-85 | writing one answer into the config object does what `AskYesNo` prescribes |
| `Wizard.CssQuestionsInto` | src/prompt.js:137-172 | writing the CSS answers into the config object does what `CssQuestions` prescribes |
| `Wizard.StartPrompting` | src/prompt.js:26-228 | `startPrompting` updates the given object in place and returns that same object; its entries and the questions asked are those of `Prompted` |
| `Generator.ParseCli` | index.js:142-156 | a missing `--addConfig` or `--shhh` flag is reported as `false`; the name tokens are passed through |
| `Generator.DefaultConfig` | index.js:31-42 | the defaults give every setting a value: the default of its entry |
| `Generator.DefaultsHaveEverySetting` | index.js:31-42 | the defaults object lists all ten settings |
| `Generator.TwoWordCamelCase` | index.js:38 | two capitalised words joined by a space turn into their concatenation in upper camel case |
| `Generator.SplitAtSpace` | src/utilities/converters.js:18 | two space-free words separated by one space tokenize into the two words |
| `Generator.MergeConfig` | index.js:94-97 | keys of the user config override the defaults; keys the user config lacks keep their default |
| `Generator.SelectComponentName` | index.js:99 | the name is the `' '`-joined command-line tokens when they are not empty, else the configured name |
| `Generator.ConfigBeforePrompting` | index.js:91-99 | the configuration the questions start from has every setting |
| `Generator.Finalize` | index.js:112-113 | after the questions the name is replaced by its upper camel case and the module flag becomes '.module' when truthy and '' otherwise; no other setting changes |
| `Generator.ComponentFileName` | index.js:116-118 | the component file name is `Name.ext`, followed by an `x` exactly when `ADD_X_TO_EXTENSION` is truthy |
| `Generator.CssFileNameOf` | index.js:120 | the CSS file name is the CSS name and the module suffix, ending in `.css` |
| `Generator.ComponentFileEndings` | index.js:116-118 | the component file ends in .js, .jsx, .ts or .tsx, following the extension answer and `ADD_X_TO_EXTENSION` |
| `Generator.CssNameRoundTrip` | index.js:120 | a CSS name typed with its extension ends up as the same file name: the filter strips the extension and the generator adds the module suffix and `.css` again |
| `Generator.ImportPath` | index.js:173 | the path read out of an import line lies after `import styles from '` and before a final quote |
| `Generator.CssImportPaths` | index.js:173 | the import line as written refers to `./<css>;`, while the intended line refers to `./<css>` |
| `Generator.Present` | index.js:193 | dropping the `undefined` entries never lengthens the list |
| `Generator.PresentAppend` | index.js:193 | dropping `undefined` entries distributes over concatenation |
| `Generator.PresentSingle` | index.js:193 | dropping `undefined` from one entry keeps it exactly when it is present |
| `Generator.PresentSnoc` | index.js:193 | dropping `undefined` entries works one entry at a time from the end |
| `Generator.PresentNine` | index.js:182-193 | dropping `undefined` from the nine entries keeps each present one, in order |
| `Generator.Declaration` | index.js:174-176 | the declaration starts with `export default ` when inline, and is the template line unchanged, after that prefix, when it has no `PROPS` |
| `Generator.BodyLines` | index.js:177-178 | the body and closing lines are the template's third and fourth lines when it has them |
| `Generator.TemplateLines` | index.js:164-168 | replacing the placeholder and cutting the template at end-of-lines yields at least one line |
| `Generator.ComponentLines` | index.js:170-194 | building the component fails exactly when the template has fewer than two lines |
| `Generator.ComponentContent` | index.js:182-194 | the file content is the component's lines joined with the end-of-line |
| `Generator.AssembleShape` | index.js:182-193 | the nine entries without the `undefined` ones give the layout below |
| `Generator.ComponentLinesShape` | index.js:170-194 | the component file, in order: `'use client';` iff asked for; the template's first line; the CSS import iff a CSS file is made; a blank line; the declaration, prefixed `export default ` iff inline, with `PROPS` filled in; the body and closing lines; a blank line; and `export default Name;` iff not inline |
| `Generator.ComponentExports` | index.js:174-191 | exactly one export form appears: the declaration is prefixed when inline; otherwise the file ends with `export default Name;`. `'use client';` comes first when asked for, and the CSS import follows the template's first line |
| `Generator.IndexContent` | index.js:219-220 | the index file equals what `replaceAll` writes whenever the file name holds no `$` pattern, and is the template itself when it has no placeholder |
| `Generator.IndexContentReplaces` | index.js:219-220 | the index file is the template cut at every placeholder and glued back with the component's file name |
| `Generator.TemplateLinesAsWritten` | index.js:164-168 | the template as `replaceAll` rewrites it, cut into lines, has at least one line, and equals the corrected lines when the name holds no `$` pattern |
| `Generator.ValidNamePatterns` | src/utilities/checks.js:2 | the only `$` pattern a valid function name can hold is `$$` |
| `Generator.DollarNameIsValid` | src/prompt.js:58-63 | `A$$` passes the validator, is stored as it is and is kept by `main`'s upper-camel-casing |
| `Generator.DollarNameInComponent` | index.js:165-191 | with the name `A$$`, `replaceAll` as written puts `A$` in the component file while the trailing export says `A$$`; the corrected lines keep `A$$` |
| `Generator.DollarNameInIndex` | index.js:220 | with the component file `A$$.js`, the index file as written refers to `A$.js`; the corrected index refers to `A$$.js` |
| `Generator.DeclarationFillsProps` | index.js:174-176 | `replace` puts `{ children }` or `props` in literally: the declaration keeps the line around the first `PROPS` and fills that one in |
| `Generator.ConfigFileCreation` | index.js:240-254 | config-file creation returns `true` iff it was asked for, the file is absent and the template was read; it returns `false` iff it was asked for and the file already exists |
| `Generator.CreationOutcome` | index.js:196-211 | component creation returns `true` iff the content was built and either the directory is new or the override answered yes; a refused override returns `false` |
| `Generator.FinalConfig` | index.js:109-113 | the final configuration has every setting |
| `Generator.ComponentWrites` | index.js:127-131 | at most three files are written, the component file first, named `ComponentFileName` and holding the built content; with a new directory it is written iff the content could be built |
| `Generator.Generated` | index.js:70-131 | a run that writes the config file writes just that file; any other run ends with `FinalConfig` and writes `ComponentWrites` of it; either way every setting has a value |
| `Generator.ComponentWritesGating` | index.js:127-131 | the component file is written first. The index and CSS files follow only a written component file and their own setting. An existing directory is written into only after the override said yes |
| `Generator.RunGating` | index.js:76-131 | a run that writes the config file writes nothing else; otherwise the index and CSS files follow the component file and their settings |
| `Generator.RunStoresValidName` | index.js:109-112 | the name a run stores is the filtered answer, a valid function name |
| `Generator.CreateFiles` | index.js:127-131 | the writes after the questions, with the override asked when the directory exists, are exactly `ComponentWrites` |
| `Generator.Configure` | index.js:91-113 | the configuration is built from the defaults, the config file, the command-line name, the questions and the two rewrites; it is exactly `FinalConfig` |
| `Generator.Generate` | index.js:70-134 | `main` gives exactly the configuration and the writes of `Generated` |

## Left out

- Terminal rendering:
  - chalk colours, `figures` glyphs, padding, indentation and `ansiEscapes`;
  - the done view and the description block.
  Only the choice of glyph and colour is modelled: `SelectGlyph`, `ConfirmGlyph`, `RowColour`, `DescriptionColour`, `ShowsArrowHint`, `DisabledLabel`.
- The `@inquirer/core` runtime: `createPrompt`, the hooks, `usePrefix`, `makeTheme` and `usePagination`. Pagination lives in that library, whose source is not part of this model.
- Wall-clock time. The 700 ms search timer, the are-you-sure `delay` and `validate`'s `await` are events (`SearchCleared`, `DelayElapsed`, `ValidationSettled`). `GateDelay` records the two delays, and nothing depends on their values.
- `rl.clearLine`, `rl.write` and the readline line. A key event carries the line it leaves, and clearing it is not modelled.
- The Escape listener that exits the process, raw-mode `stdin`, and the logging (`src/utilities/logging.js`).
- `sleep`, `appendHelpToMessage` and `src/utilities/file.system.js`.
- File-system work:
  - A write is a `FileWrite` record. Writing never fails in the model, except that a template that cannot be read is modelled.
  - `mkdirSync` of the components directory is not modelled.
  - The dynamic `import` of the config file is not modelled; its default export is an optional map over the ten settings, and any other key is dropped.
- Values that are not primitives (objects, functions, symbols) as choice values, defaults or config answers. `String(v)` is defined for primitives only.
- `toUpperCase`/`toLowerCase` are restricted to ASCII. Full Unicode case mapping is not modelled.
- `index.mjs` and `src/prompt.mjs` (older variants), `tests.mjs`, the test driver of the input prompt, `promptMultiple` and the commented-out duplicate prompt.
- The descriptions, messages and help texts of every prompt are display text. They are not modelled.
- The user's pick at each yes/no question is `UserAnswers.accepts`. The cursor's starting position for those questions (`default: COMPONENT_CONFIG.X`) is therefore not connected to the confirm prompt model. The confirm prompt itself is modelled separately.
- StartPrompting (`Wizard`): requires the submitted name to pass the validator. The input prompt's own loop, which keeps asking after a refused name, is modelled in `InputPrompt` but is not composed with the question sequence.
- Generated (`Generator`): a run whose override prompt never answers writes nothing. The model states this; a real run would keep waiting.
- DefaultConfig (`Generator`): the default `CSS_FILE_NAME` is stated as `toLowerCamelCase("Component Name")`. Its literal value "componentName" is not derived. `TwoWordCamelCase` gives the general fact it rests on.
- InputTransition (`InputPrompt`): with `required` and an empty answer, the source passes through `loading` on its way back to `idle`. The model goes straight to the error; no other event can come in between.
- A second Tab on an empty value: the model follows the code. The code copies the default into the value and does not toggle the default off.
- ReplaceAllIsSplitJoin (`Strings`): is about `ReplaceAll`, which inserts the replacement literally. The `replaceAll` of index.js:165 expands `$` patterns; that is `Strings.ReplaceAllExpanding`, equal to `ReplaceAll` for a replacement without `$` patterns (`Strings.ExpandingIsLiteral`). See the first finding.
- IndexContentReplaces (`Generator`): is about the corrected `IndexContent`. For a file name holding `$$` the index file as written differs; see the first finding.
- The three findings below are modelled twice: as written, and corrected. The rest of the model uses the corrected definitions, so these members describe the corrected program rather than the code as written:
  - Wizard.NameFilter is used by `Wizard.Prompted`, `Wizard.StartPrompting`, `Wizard.NameAskedFirst` and `Generator.RunStoresValidName`.
  - Generator.CssImportLine is used by `Generator.ComponentLines`, `Generator.AssembleShape`, `Generator.ComponentLinesShape` and `Generator.ComponentExports`.
  - Generator.TemplateLines and Generator.IndexContent insert the name and the file name literally. They are used by `Generator.ComponentLines`, `Generator.ComponentContent` and `Generator.ComponentWrites`.
  - Through those, `Generator.FinalConfig`, `Generator.Configure`, `Generator.CreateFiles`, `Generator.Generate` and `Generator.Generated` describe the corrected run.
- NormalizeChoice (`Choices`): a `name` or `short` that is not a string is turned into a string by the model. In the source it is kept as it is, and the type-ahead's `toLowerCase` (src/custom.prompts/customSelectPrompt.mjs:142) would throw on it. Every caller passes strings.
- GetLengthWithChalk (`Converters`): counts characters, where the source's `length` counts UTF-16 code units. The two differ for characters outside the Basic Multilingual Plane.

## Findings

| source | as written | input that shows it | evidently intended | confidence | as-written member | corrected member |
|---|---|---|---|---|---|---|
| index.js:173 | the CSS import is `import styles from './<css>;'`, with the `;` inside the quoted path | any run with `CREATE_CSS_FILE`, e.g. CSS file `button.css`: the line imports `./button.css;`, a file that is never created | `import styles from './<css>';`, the form `index.mjs` writes | high; not executed | `Generator.CssImportLineAsWritten`, shown by `Generator.CssImportPaths` | `Generator.CssImportLine`, whose path `Generator.CssImportPaths` proves is `./<css>` |
| index.js:165 | the component name (here) and the component file name (index.js:220) are passed to `replaceAll` as replacement strings, so `$$` in them becomes `$` | the valid function name `A$$`: the component file says `A$` where the placeholder stood, while its trailing export says `export default A$$;`; the index file refers to `A$.js`, but the file is `A$$.js` | insert the names literally, as `replaceAll(placeholder, () => name)` does | high; not executed | `Generator.TemplateLinesAsWritten` and `Generator.IndexContentAsWritten`, shown by `Generator.DollarNameInComponent` and `Generator.DollarNameInIndex` | `Generator.TemplateLines` and `Generator.IndexContent`, proved by `Generator.IndexContentReplaces` and `Generator.DollarNameInComponent` to insert the name as it is |
| src/prompt.js:58-63 | the validator checks `toFunctionName(input)`, which trims each token; the filter stores `toUpperCamelCase(input)`, which does not trim | `foo` followed by a Tab character: the validator sees `Foo` and accepts; the stored name is `Foo\t`, which `isValidFunctionName` rejects and which becomes the component's directory and file name | store the name the validator approved, `toFunctionName(input)` | medium; not executed | `Wizard.NameFilterAsWritten`, shown by `Wizard.NameFilterAsWrittenStoresInvalidName` | `Wizard.NameFilter`, proved to give a valid function name for every accepted input |
