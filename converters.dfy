/**
 * The string converters of `src/utilities/converters.js`: identifier and
 * camel-case conversion, multi-line joining and the visible length of a
 * string carrying SGR ("Select Graphic Rendition", section 8.3.117 of
 * ECMA-48) colour sequences.
 */
module Converters {
  import opened Strings
  import opened Ascii

  const ESC: char := '\U{1B}'

  /** The characters a regular-expression `.` does not match. */
  predicate IsLineTerminator(c: char) {
    c == '\n' || c == '\r' || c == '\U{2028}' || c == '\U{2029}'
  }

  /** The characters `String.prototype.trim` removes. */
  predicate IsJsWhitespace(c: char) {
    || c == '\t' || c == '\U{B}' || c == '\U{C}' || c == ' ' || c == '\U{A0}' || c == '\U{FEFF}'
    || c == '\U{1680}' || ('\U{2000}' <= c <= '\U{200A}') || c == '\U{202F}' || c == '\U{205F}'
    || c == '\U{3000}' || IsLineTerminator(c)
  }

  function TrimStart(s: string): string
    decreases |s|
  {
    if |s| > 0 && IsJsWhitespace(s[0]) then TrimStart(s[1..]) else s
  }

  function TrimEnd(s: string): string
    decreases |s|
  {
    if |s| > 0 && IsJsWhitespace(s[|s| - 1]) then TrimEnd(s[..|s| - 1]) else s
  }

  /** `s.trim()` */
  function Trim(s: string): string {
    TrimEnd(TrimStart(s))
  }

  /** `word.replace(/^./, (first) => first.toUpperCase())` */
  function UpperCapFirst(word: string): string {
    if |word| > 0 && !IsLineTerminator(word[0]) then [Upper(word[0])] + word[1..] else word
  }

  /** `word.replace(/^./, (first) => first.toLowerCase())` */
  function LowerCapFirst(word: string): string {
    if |word| > 0 && !IsLineTerminator(word[0]) then [Lower(word[0])] + word[1..] else word
  }

  /** `tokens.filter(Boolean)`: drops the empty strings, keeping order. */
  function NonEmpty(tokens: seq<string>): (r: seq<string>)
    ensures forall i :: 0 <= i < |r| ==> r[i] != ""
    ensures forall x :: x in r ==> x in tokens
    decreases |tokens|
  {
    if |tokens| == 0 then []
    else if tokens[0] == "" then NonEmpty(tokens[1..])
    else [tokens[0]] + NonEmpty(tokens[1..])
  }

  /** `tokens.map(upperCapFirst)` */
  function CapEach(tokens: seq<string>): seq<string> {
    seq(|tokens|, i requires 0 <= i < |tokens| => UpperCapFirst(tokens[i]))
  }

  /** `tokens.map((token) => token.trim().replace(/^./, ...toUpperCase()))` */
  function TrimCapEach(tokens: seq<string>): seq<string> {
    seq(|tokens|, i requires 0 <= i < |tokens| => UpperCapFirst(Trim(tokens[i])))
  }

  /** `toFunctionName(tokens)`: the words trimmed and capitalised, then glued together without a space. */
  function ToFunctionName(tokens: string): (r: string)
    ensures ' ' !in r
  {
    TrimmedWordsAvoidSpace(tokens);
    Join(NonEmpty(TrimCapEach(Split(tokens, " "))), "")
  }

  /** `tokenize(input)` */
  function Tokenize(input: string): seq<string> {
    NonEmpty(Split(input, " "))
  }

  /** `toUpperCamelCase(input)`: the space-separated words capitalised, then glued together without a space. */
  function ToUpperCamelCase(input: string): (r: string)
    ensures ' ' !in r
  {
    WordsAvoidSpace(input);
    Join(CapEach(Tokenize(input)), "")
  }

  lemma TrimmedWordsAvoidSpace(tokens: string)
    ensures ' ' !in Join(NonEmpty(TrimCapEach(Split(tokens, " "))), "")
  {
    var pieces := Split(tokens, " ");
    SplitOnCharPieces(tokens, ' ');
    var capped := TrimCapEach(pieces);
    forall i | 0 <= i < |capped| ensures ' ' !in capped[i] {
      TrimStartKeepsAbsence(pieces[i], ' ');
      TrimEndKeepsAbsence(TrimStart(pieces[i]), ' ');
      UpperCapFirstKeepsSpaceOut(Trim(pieces[i]));
    }
    var kept := NonEmpty(capped);
    forall i | 0 <= i < |kept| ensures ' ' !in kept[i] {
      assert kept[i] in capped;
    }
    JoinAvoids(kept, "", ' ');
  }

  lemma WordsAvoidSpace(input: string)
    ensures ' ' !in Join(CapEach(Tokenize(input)), "")
  {
    var pieces := Split(input, " ");
    SplitOnCharPieces(input, ' ');
    var tokens := Tokenize(input);
    forall i | 0 <= i < |tokens| ensures ' ' !in tokens[i] {
      assert tokens[i] in pieces;
    }
    var capped := CapEach(tokens);
    forall i | 0 <= i < |capped| ensures ' ' !in capped[i] {
      UpperCapFirstKeepsSpaceOut(tokens[i]);
    }
    JoinAvoids(capped, "", ' ');
  }

  /** `toLowerCamelCase(input)`: the upper camel case with its first character lowered. */
  function ToLowerCamelCase(input: string): (r: string)
    ensures |r| == |ToUpperCamelCase(input)|
    ensures |r| > 0 ==> r == [Lower(ToUpperCamelCase(input)[0])] + ToUpperCamelCase(input)[1..]
  {
    LowerCapFirst(ToUpperCamelCase(input))
  }

  /** `toMultiLine(...lines)` */
  function ToMultiLine(lines: seq<string>): string {
    Join(lines, "\n")
  }

  predicate IsSgrParam(c: char) { IsDigit(c) || c == ';' }

  /** Length of the longest prefix made of `[0-9;]`. */
  function ParamRun(s: string): (k: nat)
    ensures k <= |s|
    decreases |s|
  {
    if |s| > 0 && IsSgrParam(s[0]) then 1 + ParamRun(s[1..]) else 0
  }

  /** Length of the `ESC [ [0-9;]* m` sequence at the front of `s`; 0 when there is none. */
  function SgrLength(s: string): (k: nat)
    ensures k == 0 || 3 <= k <= |s|
  {
    if |s| >= 2 && s[0] == ESC && s[1] == '[' then
      var k := ParamRun(s[2..]);
      if 2 + k < |s| && s[2 + k] == 'm' then 3 + k else 0
    else 0
  }

  /** `str.replace(/\u001B\[[0-9;]*m/g, '')` */
  function StripSgr(s: string): (r: string)
    ensures |r| <= |s|
    decreases |s|
  {
    if |s| == 0 then ""
    else if SgrLength(s) > 0 then StripSgr(s[SgrLength(s)..])
    else [s[0]] + StripSgr(s[1..])
  }

  /** `getLengthWithChalk(str)`: the length of what the terminal shows. */
  function GetLengthWithChalk(str: string): (n: nat)
    ensures n <= |str|
  {
    |StripSgr(str)|
  }

  // ---------------------------------------------------------------- lemmas

  /** Every character of a piece of a split comes from the split string. */
  lemma {:induction false} SplitPiecesFromSource(s: string, sep: string)
    requires |sep| > 0
    ensures forall p, c :: p in Split(s, sep) && c in p ==> c in s
    decreases |s|
  {
    if StartsWith(s, sep) {
      SplitPiecesFromSource(s[|sep|..], sep);
    } else if |s| > 0 {
      SplitPiecesFromSource(s[1..], sep);
    }
  }

  lemma {:induction false} TrimStartKeepsAbsence(s: string, c: char)
    requires c !in s
    ensures c !in TrimStart(s)
    decreases |s|
  {
    if |s| > 0 && IsJsWhitespace(s[0]) {
      TrimStartKeepsAbsence(s[1..], c);
    }
  }

  lemma {:induction false} TrimEndKeepsAbsence(s: string, c: char)
    requires c !in s
    ensures c !in TrimEnd(s)
    decreases |s|
  {
    if |s| > 0 && IsJsWhitespace(s[|s| - 1]) {
      TrimEndKeepsAbsence(s[..|s| - 1], c);
    }
  }

  lemma UpperCapFirstKeepsSpaceOut(w: string)
    requires ' ' !in w
    ensures ' ' !in UpperCapFirst(w)
  {
  }

  lemma {:induction false} SplitOfSpaces(s: string)
    requires forall i :: 0 <= i < |s| ==> s[i] == ' '
    ensures forall p :: p in Split(s, " ") ==> p == ""
    decreases |s|
  {
    if |s| > 0 {
      assert StartsWith(s, " ");
      SplitOfSpaces(s[1..]);
    }
  }

  lemma {:induction false} NonEmptyOfEmpties(ts: seq<string>)
    requires forall p :: p in ts ==> p == ""
    ensures NonEmpty(ts) == []
    decreases |ts|
  {
    if |ts| > 0 {
      assert ts[0] in ts;
      assert forall p :: p in ts[1..] ==> p in ts;
      NonEmptyOfEmpties(ts[1..]);
    }
  }

  /** An empty or all-space input gives the empty name. */
  lemma UpperCamelCaseOfSpaces(input: string)
    requires forall i :: 0 <= i < |input| ==> input[i] == ' '
    ensures ToUpperCamelCase(input) == ""
  {
    SplitOfSpaces(input);
    NonEmptyOfEmpties(Split(input, " "));
  }

  lemma {:induction false} JoinFirstChar(parts: seq<string>, sep: string)
    requires |parts| > 0 && parts[0] != ""
    ensures |Join(parts, sep)| > 0 && Join(parts, sep)[0] == parts[0][0]
    decreases |parts|
  {
  }

  /** A space-free string whose first character is already capitalised is its own upper camel case. */
  lemma SpacelessCamelFixpoint(r: string)
    requires ' ' !in r && UpperCapFirst(r) == r
    ensures ToUpperCamelCase(r) == r
  {
    SplitWithoutSep(r, ' ');
    assert Split(r, " ") == [r];
    if r == "" {
      assert Tokenize(r) == [];
    } else {
      var single: seq<string> := [r];
      assert single[1..] == [];
      assert NonEmpty(single[1..]) == [];
      assert NonEmpty(single) == [r] + NonEmpty(single[1..]);
      assert Tokenize(r) == [r];
      assert CapEach([r]) == [UpperCapFirst(r)];
    }
  }

  /** Concatenating capitalised words gives a capitalised string. */
  lemma CapitalisedJoin(words: seq<string>)
    requires forall w :: w in words ==> UpperCapFirst(w) == w
    ensures UpperCapFirst(Join(NonEmpty(words), "")) == Join(NonEmpty(words), "")
  {
    var kept := NonEmpty(words);
    if |kept| > 0 {
      assert kept[0] in words;
      JoinFirstChar(kept, "");
      var r := Join(kept, "");
      assert r[0] == kept[0][0];
      assert r == [r[0]] + r[1..];
    }
  }

  /** `upperCapFirst` is idempotent. */
  lemma UpperCapFirstTwice(w: string)
    ensures UpperCapFirst(UpperCapFirst(w)) == UpperCapFirst(w)
  {
  }

  /** `toUpperCamelCase` is idempotent. */
  lemma UpperCamelCaseIdempotent(input: string)
    ensures ToUpperCamelCase(ToUpperCamelCase(input)) == ToUpperCamelCase(input)
  {
    var capped := CapEach(Tokenize(input));
    forall w | w in capped ensures UpperCapFirst(w) == w {
      var i :| 0 <= i < |capped| && capped[i] == w;
      UpperCapFirstTwice(Tokenize(input)[i]);
    }
    CapitalisedJoin(capped);
    FilterCapped(capped);
    SpacelessCamelFixpoint(ToUpperCamelCase(input));
  }

  /** Words that are all non-empty are kept as they are by `filter(Boolean)`. */
  lemma {:induction false} FilterCapped(words: seq<string>)
    requires forall i :: 0 <= i < |words| ==> words[i] != ""
    ensures NonEmpty(words) == words
    decreases |words|
  {
    if |words| > 0 {
      FilterCapped(words[1..]);
      assert words == [words[0]] + words[1..];
    }
  }

  /**
   * A name produced by `toFunctionName` is left unchanged by `toUpperCamelCase`,
   * so re-applying the latter to a stored name changes nothing.
   */
  lemma FunctionNameIsUpperCamelCase(input: string)
    ensures ToUpperCamelCase(ToFunctionName(input)) == ToFunctionName(input)
  {
    var capped := TrimCapEach(Split(input, " "));
    forall w | w in capped ensures UpperCapFirst(w) == w {
      var i :| 0 <= i < |capped| && capped[i] == w;
      UpperCapFirstTwice(Trim(Split(input, " ")[i]));
    }
    CapitalisedJoin(capped);
    SpacelessCamelFixpoint(ToFunctionName(input));
  }

  /** With `k >= 1` newline-free lines, `toMultiLine` has exactly `k - 1` newlines. */
  lemma MultiLineNewlines(lines: seq<string>)
    requires |lines| >= 1
    requires forall i :: 0 <= i < |lines| ==> '\n' !in lines[i]
    ensures multiset(ToMultiLine(lines))['\n'] == |lines| - 1
  {
    JoinCountsSeparators(lines, '\n');
  }

  lemma {:induction false} StripWithoutEsc(s: string)
    requires ESC !in s
    ensures StripSgr(s) == s
    decreases |s|
  {
    if |s| > 0 {
      assert SgrLength(s) == 0;
      StripWithoutEsc(s[1..]);
      assert s == [s[0]] + s[1..];
    }
  }

  /** A string without ESC shows all of its characters. */
  lemma LengthWithoutEsc(s: string)
    requires ESC !in s
    ensures GetLengthWithChalk(s) == |s|
  {
    StripWithoutEsc(s);
  }

  lemma {:induction false} ParamRunStopsAtM(params: string, rest: string)
    requires forall i :: 0 <= i < |params| ==> IsSgrParam(params[i])
    ensures ParamRun(params + "m" + rest) == |params|
    decreases |params|
  {
    if |params| > 0 {
      assert (params + "m" + rest)[1..] == params[1..] + "m" + rest;
      ParamRunStopsAtM(params[1..], rest);
    } else {
      assert (params + "m" + rest)[0] == 'm';
    }
  }

  /** An `ESC [ params m` sequence at the front contributes nothing to the shown length. */
  lemma SgrSequenceIsInvisible(params: string, rest: string)
    requires forall i :: 0 <= i < |params| ==> IsSgrParam(params[i])
    ensures GetLengthWithChalk([ESC, '['] + params + "m" + rest) == GetLengthWithChalk(rest)
  {
    var s := [ESC, '['] + params + "m" + rest;
    assert s[2..] == params + "m" + rest;
    ParamRunStopsAtM(params, rest);
    assert s[2 + |params|] == 'm';
    assert SgrLength(s) == 3 + |params|;
    assert s[3 + |params|..] == rest;
  }

  lemma {:induction false} TrimStartWithoutSpace(s: string)
    requires forall c :: c in s ==> !IsJsWhitespace(c)
    ensures TrimStart(s) == s
  {
    if |s| > 0 {
      assert s[0] in s;
    }
  }

  lemma {:induction false} TrimEndWithoutSpace(s: string)
    requires forall c :: c in s ==> !IsJsWhitespace(c)
    ensures TrimEnd(s) == s
  {
    if |s| > 0 {
      assert s[|s| - 1] in s;
    }
  }

  lemma CapEachCons(head: string, tail: seq<string>)
    ensures CapEach([head] + tail) == [UpperCapFirst(head)] + CapEach(tail)
  {
    var l := CapEach([head] + tail);
    var r := [UpperCapFirst(head)] + CapEach(tail);
    assert |l| == |r|;
    forall i | 0 <= i < |l| ensures l[i] == r[i] {
      if i > 0 {
        assert ([head] + tail)[i] == tail[i - 1];
      }
    }
  }

  lemma {:induction false} FilterCommutes(pieces: seq<string>)
    requires forall p :: p in pieces ==> Trim(p) == p
    ensures NonEmpty(TrimCapEach(pieces)) == CapEach(NonEmpty(pieces))
    decreases |pieces|
  {
    if |pieces| > 0 {
      var head, tail := pieces[0], pieces[1..];
      assert head in pieces;
      assert forall p :: p in tail ==> p in pieces;
      FilterCommutes(tail);
      var capped := TrimCapEach(pieces);
      assert capped[0] == UpperCapFirst(head);
      assert capped[1..] == TrimCapEach(tail);
      if head == "" {
        assert capped[0] == "";
        assert NonEmpty(capped) == NonEmpty(TrimCapEach(tail));
        assert NonEmpty(pieces) == NonEmpty(tail);
      } else {
        assert capped[0] != "";
        assert NonEmpty(capped) == [capped[0]] + NonEmpty(TrimCapEach(tail));
        assert NonEmpty(pieces) == [head] + NonEmpty(tail);
        CapEachCons(head, NonEmpty(tail));
      }
    }
  }

  /**
   * When the only whitespace in the input is the space character, `toFunctionName`
   * and `toUpperCamelCase` agree: trimming the space-free tokens changes nothing.
   */
  lemma FunctionNameAgreesWithUpperCamelCase(input: string)
    requires forall i :: 0 <= i < |input| && IsJsWhitespace(input[i]) ==> input[i] == ' '
    ensures ToFunctionName(input) == ToUpperCamelCase(input)
  {
    var pieces := Split(input, " ");
    SplitOnCharPieces(input, ' ');
    SplitPiecesFromSource(input, " ");
    forall p | p in pieces ensures Trim(p) == p {
      forall c | c in p ensures !IsJsWhitespace(c) {
        assert c in input;
      }
      TrimStartWithoutSpace(p);
      TrimEndWithoutSpace(p);
    }
    FilterCommutes(pieces);
  }
}
