/**
 * The `String.prototype` operations the core uses with a string pattern:
 * `split`, `Array.prototype.join`, `replaceAll`, `replace` and `startsWith`.
 */
module Strings {

  predicate StartsWith(s: string, prefix: string) {
    |prefix| <= |s| && s[..|prefix|] == prefix
  }

  predicate EndsWith(s: string, suffix: string) {
    |suffix| <= |s| && s[|s| - |suffix|..] == suffix
  }

  /** Some position of `s` starts an occurrence of `pat`. */
  predicate Contains(s: string, pat: string)
    decreases |s|
  {
    StartsWith(s, pat) || (|s| > 0 && Contains(s[1..], pat))
  }

  /** `s.split(sep)` for a non-empty separator: occurrences are found left to right and do not overlap. */
  function Split(s: string, sep: string): (parts: seq<string>)
    requires |sep| > 0
    ensures |parts| >= 1
    decreases |s|
  {
    if StartsWith(s, sep) then [""] + Split(s[|sep|..], sep)
    else if |s| == 0 then [""]
    else
      var rest := Split(s[1..], sep);
      [[s[0]] + rest[0]] + rest[1..]
  }

  /** `parts.join(sep)` */
  function Join(parts: seq<string>, sep: string): string
    decreases |parts|
  {
    if |parts| == 0 then ""
    else if |parts| == 1 then parts[0]
    else parts[0] + sep + Join(parts[1..], sep)
  }

  /**
   * Every occurrence of a non-empty pattern replaced by `rep` taken literally,
   * as `s.replaceAll(pat, () => rep)` does.
   */
  function ReplaceAll(s: string, pat: string, rep: string): string
    requires |pat| > 0
    decreases |s|
  {
    if StartsWith(s, pat) then rep + ReplaceAll(s[|pat|..], pat, rep)
    else if |s| == 0 then ""
    else [s[0]] + ReplaceAll(s[1..], pat, rep)
  }

  /** The first occurrence of a non-empty pattern replaced by `rep` taken literally, as `s.replace(pat, () => rep)` does. */
  function ReplaceFirst(s: string, pat: string, rep: string): string
    requires |pat| > 0
    decreases |s|
  {
    if StartsWith(s, pat) then rep + s[|pat|..]
    else if |s| == 0 then ""
    else [s[0]] + ReplaceFirst(s[1..], pat, rep)
  }

  /**
   * The text that stands for one match when the replacement is a string
   * (GetSubstitution of ECMA-262, for a string pattern, which has no capture
   * groups): `$$` is `$`, `$&` the match, `` $` `` the text before the match and
   * `$'` the text after it. Any other `$` stays as it is.
   */
  function Substitute(rep: string, matched: string, before: string, after: string): string
    decreases |rep|
  {
    if |rep| == 0 then ""
    else if rep[0] == '$' && |rep| >= 2 && rep[1] == '$' then "$" + Substitute(rep[2..], matched, before, after)
    else if rep[0] == '$' && |rep| >= 2 && rep[1] == '&' then matched + Substitute(rep[2..], matched, before, after)
    else if rep[0] == '$' && |rep| >= 2 && rep[1] == '`' then before + Substitute(rep[2..], matched, before, after)
    else if rep[0] == '$' && |rep| >= 2 && rep[1] == '\'' then after + Substitute(rep[2..], matched, before, after)
    else [rep[0]] + Substitute(rep[1..], matched, before, after)
  }

  /** No `$` of `rep` starts one of the four substitution patterns. */
  predicate LiteralReplacement(rep: string) {
    forall i :: 0 <= i < |rep| - 1 && rep[i] == '$' ==> rep[i + 1] !in "$&`'"
  }

  /** `s.replaceAll(pat, rep)` with a string `rep`: each match replaced by `Substitute`, from position `i` on. */
  function ReplaceAllFrom(s: string, pat: string, rep: string, i: nat): string
    requires |pat| > 0 && i <= |s|
    decreases |s| - i
  {
    if StartsWith(s[i..], pat) then
      Substitute(rep, pat, s[..i], s[i + |pat|..]) + ReplaceAllFrom(s, pat, rep, i + |pat|)
    else if i == |s| then ""
    else [s[i]] + ReplaceAllFrom(s, pat, rep, i + 1)
  }

  /** `s.replaceAll(pat, rep)` for a non-empty string pattern and a string replacement. */
  function ReplaceAllExpanding(s: string, pat: string, rep: string): string
    requires |pat| > 0
  {
    ReplaceAllFrom(s, pat, rep, 0)
  }

  /** `s.replace(pat, rep)` from position `i` on: the first match only, replaced by `Substitute`. */
  function ReplaceFirstFrom(s: string, pat: string, rep: string, i: nat): string
    requires |pat| > 0 && i <= |s|
    decreases |s| - i
  {
    if StartsWith(s[i..], pat) then Substitute(rep, pat, s[..i], s[i + |pat|..]) + s[i + |pat|..]
    else if i == |s| then ""
    else [s[i]] + ReplaceFirstFrom(s, pat, rep, i + 1)
  }

  /** `s.replace(pat, rep)` for a non-empty string pattern and a string replacement. */
  function ReplaceFirstExpanding(s: string, pat: string, rep: string): string
    requires |pat| > 0
  {
    ReplaceFirstFrom(s, pat, rep, 0)
  }

  /** A replacement without substitution patterns stands for itself. */
  lemma {:induction false} SubstituteLiteral(rep: string, matched: string, before: string, after: string)
    requires LiteralReplacement(rep)
    ensures Substitute(rep, matched, before, after) == rep
    decreases |rep|
  {
    if |rep| > 0 {
      assert LiteralReplacement(rep[1..]) by {
        forall i | 0 <= i < |rep[1..]| - 1 && rep[1..][i] == '$'
          ensures rep[1..][i + 1] !in "$&`'"
        {
          assert rep[i + 1] == '$';
        }
      }
      if rep[0] == '$' && |rep| >= 2 {
        assert rep[1] !in "$&`'";
      }
      SubstituteLiteral(rep[1..], matched, before, after);
      assert rep == [rep[0]] + rep[1..];
    }
  }

  /**
   * With a replacement free of substitution patterns, `replaceAll` and `replace`
   * insert it literally.
   */
  lemma ExpandingIsLiteral(s: string, pat: string, rep: string)
    requires |pat| > 0
    ensures LiteralReplacement(rep) ==> ReplaceAllExpanding(s, pat, rep) == ReplaceAll(s, pat, rep)
    ensures LiteralReplacement(rep) ==> ReplaceFirstExpanding(s, pat, rep) == ReplaceFirst(s, pat, rep)
  {
    if LiteralReplacement(rep) {
      ExpandingIsLiteralFrom(s, pat, rep, 0);
    }
  }

  lemma {:induction false} ExpandingIsLiteralFrom(s: string, pat: string, rep: string, i: nat)
    requires |pat| > 0 && i <= |s| && LiteralReplacement(rep)
    ensures ReplaceAllFrom(s, pat, rep, i) == ReplaceAll(s[i..], pat, rep)
    ensures ReplaceFirstFrom(s, pat, rep, i) == ReplaceFirst(s[i..], pat, rep)
    decreases |s| - i
  {
    if StartsWith(s[i..], pat) {
      SubstituteLiteral(rep, pat, s[..i], s[i + |pat|..]);
      ExpandingIsLiteralFrom(s, pat, rep, i + |pat|);
      assert s[i..][|pat|..] == s[i + |pat|..];
    } else if i < |s| {
      ExpandingIsLiteralFrom(s, pat, rep, i + 1);
      assert s[i..][1..] == s[i + 1..];
    }
  }

  /** A string that is exactly the pattern becomes the substitution, or the replacement itself when taken literally. */
  lemma ReplaceWholeMatch(pat: string, rep: string)
    requires |pat| > 0
    ensures ReplaceAllExpanding(pat, pat, rep) == Substitute(rep, pat, "", "")
    ensures ReplaceAll(pat, pat, rep) == rep
  {
    assert StartsWith(pat[0..], pat) && pat[..0] == "" && pat[|pat|..] == "";
    assert ReplaceAllFrom(pat, pat, rep, |pat|) == "";
    assert ReplaceAll(pat[|pat|..], pat, rep) == "";
  }

  /** `$$` collapses to a single `$`. */
  lemma {:induction false} SubstituteDollarPair(a: string, b: string, matched: string, before: string, after: string)
    requires '$' !in a && LiteralReplacement(b)
    ensures Substitute(a + "$$" + b, matched, before, after) == a + "$" + b
    decreases |a|
  {
    var rep := a + "$$" + b;
    if |a| == 0 {
      assert rep == "$$" + b && rep[2..] == b;
      SubstituteLiteral(b, matched, before, after);
    } else {
      assert rep[0] == a[0] && rep[1..] == a[1..] + "$$" + b;
      assert a[0] in a;
      SubstituteDollarPair(a[1..], b, matched, before, after);
      assert a == [a[0]] + a[1..];
    }
  }

  /** The first match of `pat` in `s` starts at `k`. */
  predicate FirstMatchAt(s: string, pat: string, k: nat) {
    k <= |s| && StartsWith(s[k..], pat) && forall j :: 0 <= j < k ==> !StartsWith(s[j..], pat)
  }

  /** `replace` keeps the text around the first match and puts the replacement in its place. */
  lemma ReplaceFirstAtMatch(s: string, pat: string, rep: string, k: nat)
    requires |pat| > 0 && FirstMatchAt(s, pat, k)
    ensures ReplaceFirst(s, pat, rep) == s[..k] + rep + s[k + |pat|..]
  {
    LiteralFirstAt(s, pat, rep, k, 0);
    assert s[0..] == s;
  }

  lemma {:induction false} LiteralFirstAt(s: string, pat: string, rep: string, k: nat, i: nat)
    requires |pat| > 0 && FirstMatchAt(s, pat, k) && i <= k
    ensures ReplaceFirst(s[i..], pat, rep) == s[i..k] + rep + s[k + |pat|..]
    decreases k - i
  {
    var t := s[i..];
    if i < k {
      assert !StartsWith(t, pat) && |t| > 0;
      LiteralFirstAt(s, pat, rep, k, i + 1);
      assert t[1..] == s[i + 1..];
      assert ReplaceFirst(t, pat, rep) == [s[i]] + ReplaceFirst(s[i + 1..], pat, rep);
      assert s[i..k] == [s[i]] + s[i + 1..k];
    } else {
      assert t[|pat|..] == s[k + |pat|..];
      assert s[i..k] == "";
    }
  }

  /** Joining the pieces of a split with the same separator gives back the string. */
  lemma {:induction false} JoinSplit(s: string, sep: string)
    requires |sep| > 0
    ensures Join(Split(s, sep), sep) == s
    decreases |s|
  {
    if StartsWith(s, sep) {
      var tail := Split(s[|sep|..], sep);
      JoinSplit(s[|sep|..], sep);
      JoinCons("", tail, sep);
      assert s == sep + s[|sep|..];
    } else if |s| > 0 {
      var rest := Split(s[1..], sep);
      JoinSplit(s[1..], sep);
      JoinExtendHead(s[0], rest, sep);
      assert s == [s[0]] + s[1..];
    }
  }

  lemma JoinCons(head: string, tail: seq<string>, sep: string)
    requires |tail| >= 1
    ensures Join([head] + tail, sep) == head + sep + Join(tail, sep)
  {
    assert ([head] + tail)[1..] == tail;
  }

  /** Putting a character in front of the first piece puts it in front of the join. */
  lemma JoinExtendHead(c: char, parts: seq<string>, sep: string)
    requires |parts| >= 1
    ensures Join([[c] + parts[0]] + parts[1..], sep) == [c] + Join(parts, sep)
  {
    var ext := [[c] + parts[0]] + parts[1..];
    if |parts| == 1 {
      assert ext == [[c] + parts[0]];
    } else {
      assert ext[1..] == parts[1..];
      assert Join(ext, sep) == ([c] + parts[0]) + sep + Join(parts[1..], sep);
    }
  }

  /** No piece of a split contains the separator. */
  lemma {:induction false} SplitPiecesAvoidSep(s: string, sep: string)
    requires |sep| > 0
    ensures forall i :: 0 <= i < |Split(s, sep)| ==> !Contains(Split(s, sep)[i], sep)
    decreases |s|
  {
    if StartsWith(s, sep) {
      SplitPiecesAvoidSep(s[|sep|..], sep);
      assert !Contains("", sep);
    } else if |s| == 0 {
      assert !Contains("", sep);
    } else {
      SplitPiecesAvoidSep(s[1..], sep);
      var rest := Split(s[1..], sep);
      var head := [s[0]] + rest[0];
      JoinSplit(s[1..], sep);
      // `head` followed by the rest of `s` is `s`; an occurrence at the front of `head` would be one of `s`.
      HeadNotStartingWithSep(s, sep, rest);
      assert head[1..] == rest[0];
    }
  }

  lemma HeadNotStartingWithSep(s: string, sep: string, rest: seq<string>)
    requires |sep| > 0 && |s| > 0 && !StartsWith(s, sep)
    requires |rest| >= 1 && Join(rest, sep) == s[1..]
    ensures !StartsWith([s[0]] + rest[0], sep)
  {
    var head := [s[0]] + rest[0];
    if |rest| == 1 {
      assert head == [s[0]] + s[1..] == s;
    } else {
      var more := Join(rest[1..], sep);
      assert s[1..] == rest[0] + sep + more;
      assert s == head + (sep + more);
    }
  }

  /**
   * `replaceAll` is `split` then `join`: the string is cut into pieces free of the
   * pattern, separated by the pattern, and every separating occurrence is replaced.
   */
  lemma {:induction false} ReplaceAllIsSplitJoin(s: string, pat: string, rep: string)
    requires |pat| > 0
    ensures ReplaceAll(s, pat, rep) == Join(Split(s, pat), rep)
    decreases |s|
  {
    if StartsWith(s, pat) {
      ReplaceAllIsSplitJoin(s[|pat|..], pat, rep);
      JoinCons("", Split(s[|pat|..], pat), rep);
    } else if |s| > 0 {
      ReplaceAllIsSplitJoin(s[1..], pat, rep);
      JoinExtendHead(s[0], Split(s[1..], pat), rep);
    }
  }

  /** A string without any occurrence of the pattern is left as it is by `replace` and `replaceAll`. */
  lemma {:induction false} ReplaceAbsent(s: string, pat: string, rep: string)
    requires |pat| > 0
    ensures !Contains(s, pat) ==> ReplaceAll(s, pat, rep) == s && ReplaceFirst(s, pat, rep) == s
    decreases |s|
  {
    if |s| > 0 && !Contains(s, pat) {
      ReplaceAbsent(s[1..], pat, rep);
      assert s == [s[0]] + s[1..];
    }
  }

  /** A separator char never occurs in a piece of a split on that char. */
  lemma {:induction false} SplitOnCharPieces(s: string, c: char)
    ensures forall i :: 0 <= i < |Split(s, [c])| ==> c !in Split(s, [c])[i]
    decreases |s|
  {
    if StartsWith(s, [c]) {
      SplitOnCharPieces(s[1..], c);
    } else if |s| > 0 {
      SplitOnCharPieces(s[1..], c);
      assert s[0] != c;
    }
  }

  /** A string free of the separator char splits into itself alone. */
  lemma {:induction false} SplitWithoutSep(s: string, c: char)
    requires c !in s
    ensures Split(s, [c]) == [s]
    decreases |s|
  {
    if |s| > 0 {
      assert s[0] != c;
      assert c !in s[1..];
      SplitWithoutSep(s[1..], c);
      assert s == [s[0]] + s[1..];
    }
  }

  /** A char absent from the separator and from every piece is absent from the join. */
  lemma {:induction false} JoinAvoids(parts: seq<string>, sep: string, c: char)
    requires c !in sep && forall i :: 0 <= i < |parts| ==> c !in parts[i]
    ensures c !in Join(parts, sep)
    decreases |parts|
  {
    if |parts| > 1 {
      JoinAvoids(parts[1..], sep, c);
    }
  }

  /** Joining pieces free of a char with that char as separator puts exactly one between each pair. */
  lemma {:induction false} JoinCountsSeparators(parts: seq<string>, c: char)
    requires |parts| >= 1
    requires forall i :: 0 <= i < |parts| ==> c !in parts[i]
    ensures multiset(Join(parts, [c]))[c] == |parts| - 1
    decreases |parts|
  {
    if |parts| > 1 {
      var tail := Join(parts[1..], [c]);
      JoinCountsSeparators(parts[1..], c);
      assert Join(parts, [c]) == parts[0] + [c] + tail;
      assert multiset(Join(parts, [c])) == multiset(parts[0]) + multiset([c]) + multiset(tail);
      assert multiset(parts[0])[c] == 0;
    } else {
      assert Join(parts, [c]) == parts[0];
      assert multiset(parts[0])[c] == 0;
    }
  }
}
