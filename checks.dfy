/** The two predicates of `src/utilities/checks.js`. */
module Checks {
  import opened JsValue
  import opened Ascii

  predicate IsIdentStart(c: char) { IsLetter(c) || c == '_' || c == '$' }

  predicate IsIdentPart(c: char) { IsIdentStart(c) || IsDigit(c) }

  /** What a JavaScript function name needs, stated position by position. */
  predicate IsIdentifier(name: string) {
    |name| > 0 && IsIdentStart(name[0]) && forall i :: 1 <= i < |name| ==> IsIdentPart(name[i])
  }

  /** States of the anchored pattern `^[a-zA-Z_$][a-zA-Z0-9_$]*$` read left to right. */
  datatype MatchState = AtStart | InName | Rejected

  function Advance(st: MatchState, c: char): MatchState {
    match st
    case AtStart => if IsIdentStart(c) then InName else Rejected
    case InName => if IsIdentPart(c) then InName else Rejected
    case Rejected => Rejected
  }

  function Run(st: MatchState, s: string): MatchState
    decreases |s|
  {
    if |s| == 0 then st else Run(Advance(st, s[0]), s[1..])
  }

  /** `isValidFunctionName(name)`: the pattern matches the whole string, which happens exactly for identifiers. */
  function IsValidFunctionName(name: string): (r: bool)
    ensures r <==> IsIdentifier(name)
  {
    RunAcceptsIdentifiers(name);
    Run(AtStart, name) == InName
  }

  /** The matcher accepts exactly the identifiers. */
  lemma RunAcceptsIdentifiers(name: string)
    ensures Run(AtStart, name) == InName <==> IsIdentifier(name)
  {
    if |name| > 0 {
      RunInName(name[1..]);
      RunRejected(name[1..]);
      if IsIdentStart(name[0]) {
        assert forall i :: 1 <= i < |name| ==> name[i] == name[1..][i - 1];
      }
    }
  }

  lemma {:induction false} RunInName(s: string)
    ensures Run(InName, s) == InName <==> forall i :: 0 <= i < |s| ==> IsIdentPart(s[i])
    decreases |s|
  {
    if |s| > 0 {
      RunInName(s[1..]);
      RunRejected(s[1..]);
      assert forall i :: 1 <= i < |s| ==> s[i] == s[1..][i - 1];
    }
  }

  lemma {:induction false} RunRejected(s: string)
    ensures Run(Rejected, s) == Rejected
    decreases |s|
  {
    if |s| > 0 {
      RunRejected(s[1..]);
    }
  }

  /** The empty string, a leading digit and any space are rejected. */
  lemma RejectedNames(name: string)
    ensures name == "" ==> !IsValidFunctionName(name)
    ensures |name| > 0 && IsDigit(name[0]) ==> !IsValidFunctionName(name)
    ensures ' ' in name ==> !IsValidFunctionName(name)
  {
  }

  /** `isValue(query)`: false exactly for `''`, `undefined`, `null` and `0`. */
  function IsValue(query: Value): (r: bool)
    ensures !r <==> query in {Str(""), Undefined, Null, Num(0)}
    ensures r <==> Truthy(query) || query == Bool(false)
  {
    query != Str("") && query != Undefined && !IsNullish(query) && query != Num(0)
  }
}
