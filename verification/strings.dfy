/** The string operations the screens and the registry rely on (`trim`,
    `toLowerCase`, `toUpperCase`, `charAt(0)`, `split(' ')`), over ASCII:
    whitespace is the six ASCII characters JavaScript's `trim` and the regular
    expression class `\s` treat as blanks, and case mapping touches only A-Z and a-z. */
module Strings {

  predicate IsSpace(c: char)
  {
    c == ' ' || c == '\t' || c == '\n' || c == '\U{000B}' || c == '\U{000C}' || c == '\r'
  }

  /** Every character is whitespace (the empty string included). */
  predicate IsBlank(s: string)
  {
    forall i :: 0 <= i < |s| ==> IsSpace(s[i])
  }

  /** How many blanks `s` starts with. */
  function LeadingBlanks(s: string): (k: nat)
    ensures k <= |s|
    ensures forall i :: 0 <= i < k ==> IsSpace(s[i])
    ensures k < |s| ==> !IsSpace(s[k])
  {
    if |s| > 0 && IsSpace(s[0]) then 1 + LeadingBlanks(s[1..]) else 0
  }

  /** How many blanks `s` ends with. */
  function TrailingBlanks(s: string): (k: nat)
    ensures k <= |s|
    ensures forall i :: |s| - k <= i < |s| ==> IsSpace(s[i])
    ensures k < |s| ==> !IsSpace(s[|s| - k - 1])
  {
    if |s| > 0 && IsSpace(s[|s| - 1]) then 1 + TrailingBlanks(s[..|s| - 1]) else 0
  }

  /** `s.trim()`: leading and trailing whitespace removed. The result is a
      slice of `s` with only blanks before and after it. */
  function Trim(s: string): (r: string)
    ensures |r| <= |s|
    ensures exists a ::
      && 0 <= a <= |s| - |r| && r == s[a..a + |r|]
      && IsBlank(s[..a]) && IsBlank(s[a + |r|..])
    ensures r == "" <==> IsBlank(s)
    ensures r != "" ==> !IsSpace(r[0]) && !IsSpace(r[|r| - 1])
  {
    var a := LeadingBlanks(s);
    var b := if a == |s| then a else |s| - TrailingBlanks(s);
    BlankEndsSlice(s, a, b);
    s[a..b]
  }

  /** A slice whose ends are not blank, with only blanks around it, meets
      `Trim`'s contract. */
  lemma BlankEndsSlice(s: string, a: nat, b: nat)
    requires a <= b <= |s|
    requires forall i :: 0 <= i < a ==> IsSpace(s[i])
    requires forall i :: b <= i < |s| ==> IsSpace(s[i])
    requires a < b ==> !IsSpace(s[a]) && !IsSpace(s[b - 1])
    requires a == b ==> a == |s|
    ensures exists a' ::
      && 0 <= a' <= |s| - |s[a..b]| && s[a..b] == s[a'..a' + |s[a..b]|]
      && IsBlank(s[..a']) && IsBlank(s[a' + |s[a..b]|..])
    ensures s[a..b] == "" <==> IsBlank(s)
    ensures s[a..b] != "" ==> !IsSpace(s[a..b][0]) && !IsSpace(s[a..b][|s[a..b]| - 1])
  {
    var before, after := s[..a], s[b..];
    forall i | 0 <= i < |before| ensures IsSpace(before[i]) {
      assert before[i] == s[i];
    }
    forall i | 0 <= i < |after| ensures IsSpace(after[i]) {
      assert after[i] == s[b + i];
    }
    assert a + |s[a..b]| == b;
  }

  /** The converse of `Trim`'s contract: text with no blank at either end,
      padded with blanks, trims back to itself. */
  lemma TrimPadded(pre: string, w: string, post: string)
    requires IsBlank(pre) && IsBlank(post)
    requires w == [] || (!IsSpace(w[0]) && !IsSpace(w[|w| - 1]))
    ensures Trim(pre + w + post) == w
  {
    var s := pre + w + post;
    if w == [] {
      assert s == pre + post;
      BlankConcat(pre, post);
    } else {
      assert s == pre + (w + post);
      LeadingBlanksPadded(pre, w + post);
      assert s == (pre + w) + post;
      TrailingBlanksPadded(pre + w, post);
      assert s[|pre|..|pre| + |w|] == w;
    }
  }

  lemma BlankConcat(a: string, b: string)
    requires IsBlank(a) && IsBlank(b)
    ensures IsBlank(a + b)
  {
    var s := a + b;
    forall i | 0 <= i < |s| ensures IsSpace(s[i]) {
      if i < |a| {
        assert s[i] == a[i];
      } else {
        assert s[i] == b[i - |a|];
      }
    }
  }

  lemma LeadingBlanksPadded(pre: string, rest: string)
    requires IsBlank(pre) && rest != [] && !IsSpace(rest[0])
    ensures LeadingBlanks(pre + rest) == |pre|
  {
    var s := pre + rest;
    forall i | 0 <= i < |pre| ensures IsSpace(s[i]) {
      assert s[i] == pre[i];
    }
    assert s[|pre|] == rest[0];
  }

  lemma TrailingBlanksPadded(rest: string, post: string)
    requires IsBlank(post) && rest != [] && !IsSpace(rest[|rest| - 1])
    ensures TrailingBlanks(rest + post) == |post|
  {
    var s := rest + post;
    forall i | |rest| <= i < |s| ensures IsSpace(s[i]) {
      assert s[i] == post[i - |rest|];
    }
    assert s[|rest| - 1] == rest[|rest| - 1];
  }

  /** Text with no blank at either end is its own trim. */
  lemma TrimOfTrimmed(s: string)
    requires s == "" || (!IsSpace(s[0]) && !IsSpace(s[|s| - 1]))
    ensures Trim(s) == s
  {
    assert "" + s + "" == s;
    TrimPadded("", s, "");
  }

  predicate IsUpper(c: char) { 'A' <= c <= 'Z' }

  predicate IsLower(c: char) { 'a' <= c <= 'z' }

  function LowerChar(c: char): (d: char)
    ensures !IsUpper(d)
    ensures !IsUpper(c) ==> d == c
    ensures IsUpper(c) ==> IsLower(d) && d as int == c as int + 32
  {
    if IsUpper(c) then (c as int + 32) as char else c
  }

  function UpperChar(c: char): (d: char)
    ensures !IsLower(d)
    ensures !IsLower(c) ==> d == c
    ensures IsLower(c) ==> IsUpper(d) && d as int == c as int - 32
  {
    if IsLower(c) then (c as int - 32) as char else c
  }

  /** `s.toLowerCase()`: every upper-case letter becomes its own lower-case
      letter, and every other character is kept where it was. */
  function ToLower(s: string): (r: string)
    ensures |r| == |s|
    ensures forall i :: 0 <= i < |r| ==> !IsUpper(r[i])
    ensures forall i :: 0 <= i < |s| && !IsUpper(s[i]) ==> r[i] == s[i]
    ensures forall i :: 0 <= i < |s| && IsUpper(s[i]) ==>
      IsLower(r[i]) && r[i] as int == s[i] as int + 32
  {
    seq(|s|, i requires 0 <= i < |s| => LowerChar(s[i]))
  }

  /** Text without upper-case letters is its own lower-case form. */
  lemma ToLowerOfLower(s: string)
    requires forall i :: 0 <= i < |s| ==> !IsUpper(s[i])
    ensures ToLower(s) == s
  {
    var r := ToLower(s);
    assert forall i :: 0 <= i < |s| ==> r[i] == s[i];
  }

  /** Lowering a text whose characters each lower to those of `e` gives `e`. */
  lemma ToLowerCharwise(w: string, e: string)
    requires |w| == |e| && forall i :: 0 <= i < |w| ==> LowerChar(w[i]) == e[i]
    ensures ToLower(w) == e
  {
    var r := ToLower(w);
    assert forall i :: 0 <= i < |w| ==> r[i] == e[i];
  }

  /** `s.toUpperCase()`: every lower-case letter becomes its own upper-case
      letter, and every other character is kept where it was. */
  function ToUpper(s: string): (r: string)
    ensures |r| == |s|
    ensures forall i :: 0 <= i < |r| ==> !IsLower(r[i])
    ensures forall i :: 0 <= i < |s| && !IsLower(s[i]) ==> r[i] == s[i]
    ensures forall i :: 0 <= i < |s| && IsLower(s[i]) ==>
      IsUpper(r[i]) && r[i] as int == s[i] as int - 32
  {
    seq(|s|, i requires 0 <= i < |s| => UpperChar(s[i]))
  }

  /** `s.charAt(0)`: the first character, or "" for the empty string. */
  function FirstChar(s: string): (r: string)
    ensures |r| <= 1 && |r| <= |s| && r == s[..|r|]
    ensures r == "" <==> s == ""
  {
    if s == "" then "" else [s[0]]
  }

  /** `w` is the text of `s` before the first `sep` (all of `s` when there is none). */
  ghost predicate IsFirstField(s: string, sep: char, w: string)
  {
    |w| <= |s| && w == s[..|w|] && sep !in w && (|w| < |s| ==> s[|w|] == sep)
  }

  /** `w` is the text of `s` after the last `sep` (all of `s` when there is none). */
  ghost predicate IsLastField(s: string, sep: char, w: string)
  {
    |w| <= |s| && w == s[|s| - |w|..] && sep !in w && (|w| < |s| ==> s[|s| - |w| - 1] == sep)
  }

  /** `s.split(sep)` for a one-character separator: the fields between
      separators, empty fields included. */
  function Split(s: string, sep: char): (parts: seq<string>)
    ensures |parts| >= 1
    ensures |parts| == 1 <==> sep !in s
    ensures forall k :: 0 <= k < |parts| ==> sep !in parts[k]
  {
    if |s| == 0 then [""]
    else
      var rest := Split(s[1..], sep);
      if s[0] == sep then [""] + rest
      else [[s[0]] + rest[0]] + rest[1..]
  }

  lemma {:induction false} SplitFirst(s: string, sep: char)
    ensures IsFirstField(s, sep, Split(s, sep)[0])
  {
    if |s| > 0 && s[0] != sep {
      SplitFirst(s[1..], sep);
      var w := Split(s[1..], sep)[0];
      assert Split(s, sep)[0] == [s[0]] + w;
      assert [s[0]] + s[1..][..|w|] == s[..|w| + 1];
    }
  }

  lemma {:induction false} SplitLast(s: string, sep: char)
    ensures IsLastField(s, sep, Split(s, sep)[|Split(s, sep)| - 1])
  {
    if |s| > 0 {
      var tail := s[1..];
      var rest := Split(tail, sep);
      SplitLast(tail, sep);
      var w := rest[|rest| - 1];
      var parts := Split(s, sep);
      if s[0] != sep && |rest| == 1 {
        LastFieldWithoutSep(tail, sep, w);
        assert parts == [[s[0]] + w];
        assert [s[0]] + tail == s;
      } else {
        assert parts[|parts| - 1] == w;
        assert s[0] == sep || sep in tail;
        LastFieldOfTail(s, sep, w);
      }
    }
  }

  /** With no separator in `s`, its last field is all of it. */
  lemma LastFieldWithoutSep(s: string, sep: char, w: string)
    requires IsLastField(s, sep, w) && sep !in s
    ensures w == s
  {
    assert forall i :: 0 <= i < |s| ==> s[i] != sep;
  }

  /** The last field of `s[1..]` is that of `s` when a separator follows or
      starts `s`. */
  lemma LastFieldOfTail(s: string, sep: char, w: string)
    requires |s| > 0 && IsLastField(s[1..], sep, w)
    requires s[0] == sep || sep in s[1..]
    ensures IsLastField(s, sep, w)
  {
    var tail := s[1..];
    assert tail[|tail| - |w|..] == s[|s| - |w|..];
    if |w| < |tail| {
      assert tail[|tail| - |w| - 1] == s[|s| - |w| - 1];
    }
  }

  /** Inverse of `Split`: the fields glued back with the separator. */
  function Join(parts: seq<string>, sep: char): string
    requires |parts| >= 1
  {
    if |parts| == 1 then parts[0] else parts[0] + [sep] + Join(parts[1..], sep)
  }

  /** Splitting loses nothing: joining the fields restores the string. */
  lemma {:induction false} JoinSplit(s: string, sep: char)
    ensures Join(Split(s, sep), sep) == s
  {
    if |s| > 0 {
      JoinSplit(s[1..], sep);
      var rest := Split(s[1..], sep);
      if s[0] != sep && |rest| > 1 {
        assert Split(s, sep)[1..] == rest[1..];
      }
      if s[0] == sep {
        assert Split(s, sep)[1..] == rest;
      }
    }
  }

  /** Position of the first `c` in `s`, or `|s|` when there is none. */
  function IndexOf(s: string, c: char): (i: nat)
    ensures i <= |s| && c !in s[..i]
    ensures i < |s| ==> s[i] == c
  {
    if |s| == 0 then 0
    else if s[0] == c then 0
    else
      var k := IndexOf(s[1..], c);
      assert s[..k + 1] == [s[0]] + s[1..][..k];
      k + 1
  }

  /** Start of the text after the last `c` in `s` (0 when there is none). */
  function LastFieldStart(s: string, c: char): (k: nat)
    ensures k <= |s| && c !in s[k..]
    ensures k > 0 ==> s[k - 1] == c
  {
    if |s| == 0 then 0
    else if s[|s| - 1] == c then |s|
    else
      var k := LastFieldStart(s[..|s| - 1], c);
      assert s[k..] == s[..|s| - 1][k..] + [s[|s| - 1]];
      k
  }

  function FirstField(s: string, sep: char): (w: string)
    ensures IsFirstField(s, sep, w)
  {
    s[..IndexOf(s, sep)]
  }

  function LastField(s: string, sep: char): (w: string)
    ensures IsLastField(s, sep, w)
  {
    s[LastFieldStart(s, sep)..]
  }

  lemma FirstFieldUnique(s: string, sep: char, w1: string, w2: string)
    requires IsFirstField(s, sep, w1) && IsFirstField(s, sep, w2)
    ensures w1 == w2
  {
    assert forall i :: 0 <= i < |w1| ==> w1[i] == s[i];
    assert forall i :: 0 <= i < |w2| ==> w2[i] == s[i];
  }

  lemma LastFieldUnique(s: string, sep: char, w1: string, w2: string)
    requires IsLastField(s, sep, w1) && IsLastField(s, sep, w2)
    ensures w1 == w2
  {
    assert forall i :: 0 <= i < |w1| ==> w1[i] == s[|s| - |w1| + i];
    assert forall i :: 0 <= i < |w2| ==> w2[i] == s[|s| - |w2| + i];
  }

  lemma SplitHead(s: string, sep: char)
    ensures Split(s, sep)[0] == FirstField(s, sep)
  {
    SplitFirst(s, sep);
    FirstFieldUnique(s, sep, Split(s, sep)[0], FirstField(s, sep));
  }

  lemma SplitTail(s: string, sep: char)
    ensures Split(s, sep)[|Split(s, sep)| - 1] == LastField(s, sep)
  {
    SplitLast(s, sep);
    LastFieldUnique(s, sep, Split(s, sep)[|Split(s, sep)| - 1], LastField(s, sep));
  }

  /** The first and last fields of `split` are the text before the first and
      after the last separator. */
  lemma SplitEnds(s: string, sep: char)
    ensures Split(s, sep)[0] == FirstField(s, sep)
    ensures Split(s, sep)[|Split(s, sep)| - 1] == LastField(s, sep)
  {
    SplitHead(s, sep);
    SplitTail(s, sep);
  }
}
