/** The JavaScript string built-ins the dashboard relies on, over `seq<char>`:
    the `\s` white-space class, ASCII lower-casing, `trim`, `split`, `includes`,
    and the test `!isNaN(Number(s))`. */
module Text {

  /** The characters matched by JavaScript's `\s` and removed by `String.prototype.trim`. */
  predicate IsWhitespace(c: char)
  {
    c == ' ' || c == '\t' || c == '\n' || c == '\r' || c == '\U{000B}' || c == '\U{000C}' ||
    c == '\U{00A0}' || c == '\U{1680}' || ('\U{2000}' <= c <= '\U{200A}') ||
    c == '\U{2028}' || c == '\U{2029}' || c == '\U{202F}' || c == '\U{205F}' ||
    c == '\U{3000}' || c == '\U{FEFF}'
  }

  predicate IsUpper(c: char) { 'A' <= c <= 'Z' }

  predicate IsDigit(c: char) { '0' <= c <= '9' }

  /** A character that may occur in decimal number text: a digit, the point or a sign. */
  predicate IsNumberChar(c: char) { IsDigit(c) || c == '.' || c == '+' || c == '-' }

  predicate NoWhitespace(s: string) { forall i | 0 <= i < |s| :: !IsWhitespace(s[i]) }

  predicate AllWhitespace(s: string) { forall i | 0 <= i < |s| :: IsWhitespace(s[i]) }

  predicate IsLower(c: char) { 'a' <= c <= 'z' }

  /** `toLowerCase` on one character, restricted to the ASCII letters: an upper-case
      letter becomes the lower-case letter at the same place in the alphabet. */
  function LowerChar(c: char): (r: char)
    ensures IsUpper(c) ==> IsLower(r) && r as int - 'a' as int == c as int - 'A' as int
    ensures !IsUpper(c) ==> r == c
    ensures !IsUpper(r)
    ensures IsWhitespace(r) == IsWhitespace(c) && IsDigit(r) == IsDigit(c)
  {
    if IsUpper(c) then (c as int + 32) as char else c
  }

  /** `s.toLowerCase()` (ASCII letters only): every upper-case letter is lowered, every
      other character is kept. */
  function ToLower(s: string): (r: string)
    ensures |r| == |s|
    ensures forall i | 0 <= i < |s| :: IsUpper(s[i]) ==> IsLower(r[i]) && r[i] as int - 'a' as int == s[i] as int - 'A' as int
    ensures forall i | 0 <= i < |s| :: !IsUpper(s[i]) ==> r[i] == s[i]
    ensures forall i | 0 <= i < |r| :: !IsUpper(r[i])
    ensures forall i | 0 <= i < |r| :: IsWhitespace(r[i]) == IsWhitespace(s[i])
  {
    seq(|s|, i requires 0 <= i < |s| => LowerChar(s[i]))
  }

  /** Lower-casing changes nothing in a string that has no upper-case letter. */
  lemma ToLowerIdentity(s: string)
    requires forall i | 0 <= i < |s| :: !IsUpper(s[i])
    ensures ToLower(s) == s
  {
  }

  /** `s.replace(/\s+/g, "")`: every white-space character is dropped. */
  function RemoveWhitespace(s: string): (r: string)
    ensures |r| <= |s|
    ensures NoWhitespace(r)
    ensures NoWhitespace(s) ==> r == s
  {
    if s == [] then []
    else (if IsWhitespace(s[0]) then [] else [s[0]]) + RemoveWhitespace(s[1..])
  }

  /** White space is removed piece by piece. */
  lemma {:induction false} RemoveWhitespaceAppend(a: string, b: string)
    ensures RemoveWhitespace(a + b) == RemoveWhitespace(a) + RemoveWhitespace(b)
    decreases |a|
  {
    if a == [] {
      assert a + b == b;
    } else {
      var tail := a[1..];
      HeadOfAppend(a, b);
      RemoveWhitespaceAppend(tail, b);
      RemoveWhitespaceFirst(a);
      RemoveWhitespaceFirst(a + b);
      AppendAssociates(Kept(a[0]), RemoveWhitespace(tail), RemoveWhitespace(b));
    }
  }

  /** A character as `RemoveWhitespace` keeps it: dropped when it is white space. */
  function Kept(c: char): (r: string)
    ensures r == [] <==> IsWhitespace(c)
  {
    if IsWhitespace(c) then [] else [c]
  }

  /** `RemoveWhitespace` treats the first character and then the rest. */
  lemma RemoveWhitespaceFirst(s: string)
    requires s != []
    ensures RemoveWhitespace(s) == Kept(s[0]) + RemoveWhitespace(s[1..])
  {
  }

  lemma AppendAssociates(x: string, y: string, z: string)
    ensures x + (y + z) == (x + y) + z
  {
  }

  /** Appending to a non-empty string keeps its first character and appends to its tail. */
  lemma HeadOfAppend(a: string, b: string)
    requires a != []
    ensures a + b != [] && (a + b)[0] == a[0] && (a + b)[1..] == a[1..] + b
  {
  }

  /** Removing white space keeps only characters of the original string. */
  lemma {:induction false} RemoveWhitespaceKeeps(s: string)
    ensures forall i | 0 <= i < |RemoveWhitespace(s)| :: RemoveWhitespace(s)[i] in s
    decreases |s|
  {
    if s != [] {
      RemoveWhitespaceKeeps(s[1..]);
    }
  }

  /** A single space between two space-free words disappears. */
  lemma RemoveInnerSpace(a: string, b: string)
    requires NoWhitespace(a) && NoWhitespace(b)
    ensures RemoveWhitespace(a + " " + b) == a + b
  {
    RemoveWhitespaceAppend(a + " ", b);
    RemoveTrailingSpace(a);
  }

  lemma RemoveTrailingSpace(a: string)
    requires NoWhitespace(a)
    ensures RemoveWhitespace(a + " ") == a
  {
    RemoveWhitespaceAppend(a, " ");
    RemoveWhitespaceOfBlank(" ");
  }

  /** Removing white space from a blank string leaves nothing. */
  lemma {:induction false} RemoveWhitespaceOfBlank(s: string)
    requires AllWhitespace(s)
    ensures RemoveWhitespace(s) == []
    decreases |s|
  {
    if s != [] {
      RemoveWhitespaceOfBlank(s[1..]);
    }
  }

  /** `s.trimStart()`. */
  function TrimStart(s: string): (r: string)
    ensures |r| <= |s| && r == s[|s| - |r|..]
    ensures AllWhitespace(s[..|s| - |r|])
    ensures r == [] || !IsWhitespace(r[0])
  {
    if s != [] && IsWhitespace(s[0]) then
      var r := TrimStart(s[1..]);
      TrimStartStep(s, r);
      r
    else s
  }

  /** What `trimStart` leaves of the tail is a suffix of the whole string too, and all it drops is white space. */
  lemma TrimStartStep(s: string, r: string)
    requires s != [] && IsWhitespace(s[0])
    requires |r| <= |s| - 1 && r == s[1..][|s| - 1 - |r|..]
    requires AllWhitespace(s[1..][..|s| - 1 - |r|])
    ensures r == s[|s| - |r|..] && AllWhitespace(s[..|s| - |r|])
  {
    var n := |s| - |r|;
    forall i | 0 < i < n ensures IsWhitespace(s[i]) {
      assert s[i] == s[1..][..n - 1][i - 1];
    }
  }

  /** `s.trimEnd()`. */
  function TrimEnd(s: string): (r: string)
    ensures |r| <= |s| && r == s[..|r|]
    ensures AllWhitespace(s[|r|..])
    ensures r == [] || !IsWhitespace(r[|r| - 1])
  {
    if s != [] && IsWhitespace(s[|s| - 1]) then
      var r := TrimEnd(s[..|s| - 1]);
      TrimEndStep(s, r);
      r
    else s
  }

  /** What `trimEnd` leaves of all but the last character is a prefix of the whole string
      too, and all it drops is white space. */
  lemma TrimEndStep(s: string, r: string)
    requires s != [] && IsWhitespace(s[|s| - 1])
    requires |r| <= |s| - 1 && r == s[..|s| - 1][..|r|]
    requires AllWhitespace(s[..|s| - 1][|r|..])
    ensures r == s[..|r|] && AllWhitespace(s[|r|..])
  {
    var n := |s| - 1;
    forall j | 0 <= j < |s| - |r| ensures IsWhitespace(s[|r|..][j]) {
      if |r| + j < n {
        assert s[|r|..][j] == s[..n][|r|..][j];
      }
    }
  }

  /** `s.trim()`. */
  function Trim(s: string): string
  {
    TrimEnd(TrimStart(s))
  }

  /** `trim` keeps the slice of `s` left once the white space at both ends is dropped, and
      that slice neither starts nor ends with white space. */
  lemma TrimKeepsSlice(s: string)
    ensures |Trim(s)| <= |TrimStart(s)| && TrimmedAt(s, Trim(s), |s| - |TrimStart(s)|)
    ensures Trim(s) == [] || (!IsWhitespace(Trim(s)[0]) && !IsWhitespace(Trim(s)[|Trim(s)| - 1]))
  {
    var u := TrimStart(s);
    var r, lo := TrimEnd(u), |s| - |u|;
    assert r == Trim(s);
    TrimSlice(s, u, r, lo);
  }

  /** `r` is the slice of `s` at `lo`, and only white space lies before and after it. */
  predicate TrimmedAt(s: string, r: string, lo: nat)
    requires lo + |r| <= |s|
  {
    r == s[lo..lo + |r|] && AllWhitespace(s[..lo]) && AllWhitespace(s[lo + |r|..])
  }

  /** A suffix that drops leading white space, then a prefix of it that drops trailing white
      space: a slice of the original with only white space around it, starting and ending
      with other characters. */
  lemma TrimSlice(s: string, u: string, r: string, lo: nat)
    requires lo + |u| == |s| && u == s[lo..] && AllWhitespace(s[..lo]) && (u == [] || !IsWhitespace(u[0]))
    requires |r| <= |u| && r == u[..|r|] && AllWhitespace(u[|r|..]) && (r == [] || !IsWhitespace(r[|r| - 1]))
    ensures TrimmedAt(s, r, lo)
    ensures r == [] || (!IsWhitespace(r[0]) && !IsWhitespace(r[|r| - 1]))
  {
    assert s[lo + |r|..] == u[|r|..];
    if r != [] {
      assert r[0] == u[0];
    }
  }

  /** `trimStart` removes a string made only of white space entirely. */
  lemma {:induction false} TrimStartAllWhitespace(s: string)
    requires AllWhitespace(s)
    ensures TrimStart(s) == []
    decreases |s|
  {
    if s != [] {
      TrimStartAllWhitespace(s[1..]);
    }
  }

  /** `s.trim()` is empty exactly when every character of `s` is white space. */
  lemma TrimEmptyIff(s: string)
    ensures Trim(s) == [] <==> AllWhitespace(s)
  {
    if AllWhitespace(s) {
      TrimStartAllWhitespace(s);
    } else {
      var t := TrimStart(s);
      var k :| 0 <= k < |s| && !IsWhitespace(s[k]);
      assert s == s[..|s| - |t|] + t;
      assert k >= |s| - |t|;
      assert t[0] == s[|s| - |t|];
    }
  }

  /** `trim` leaves a string without white space as it is. */
  lemma TrimIdentity(s: string)
    requires NoWhitespace(s)
    ensures Trim(s) == s
  {
  }

  /** `s.includes(t)`: the empty string is in every string, and a longer one in none. */
  function Contains(s: string, t: string): (b: bool)
    ensures t == [] ==> b
    ensures b ==> |t| <= |s|
  {
    assert t == [] ==> OccursAt(s, t, 0);
    exists i: nat | i <= |s| - |t| :: OccursAt(s, t, i)
  }

  /** `t` occurs in `s` starting at index `i`. */
  predicate OccursAt(s: string, t: string, i: nat)
  {
    i + |t| <= |s| && s[i..i + |t|] == t
  }

  /** `parts.join(sep)`, the inverse of `Split`. */
  function Join(parts: seq<string>, sep: char): string
    requires |parts| >= 1
  {
    if |parts| == 1 then parts[0] else parts[0] + [sep] + Join(parts[1..], sep)
  }

  /** `s.split(sep)` for a one-character separator: the maximal separator-free pieces, at least one. */
  function Split(s: string, sep: char): (parts: seq<string>)
    ensures |parts| >= 1
    ensures forall i | 0 <= i < |parts| :: sep !in parts[i]
    ensures Join(parts, sep) == s
  {
    if s == [] then [""]
    else if s[0] == sep then
      var rest := Split(s[1..], sep);
      assert ([""] + rest)[1..] == rest;
      [""] + rest
    else
      var rest := Split(s[1..], sep);
      var parts := [[s[0]] + rest[0]] + rest[1..];
      assert |parts| > 1 ==> parts[1..] == rest[1..];
      assert s == [s[0]] + s[1..];
      parts
  }

  /** A character absent from the string is absent from every piece of its split. */
  lemma {:induction false} SplitKeepsAbsent(s: string, sep: char, c: char)
    requires c !in s
    ensures forall j | 0 <= j < |Split(s, sep)| :: c !in Split(s, sep)[j]
    decreases |s|
  {
    if s != [] {
      SplitKeepsAbsent(s[1..], sep, c);
    }
  }

  /** Splitting a string that has no separator gives the string itself. */
  lemma {:induction false} SplitNoSeparator(s: string, sep: char)
    requires sep !in s
    ensures Split(s, sep) == [s]
    decreases |s|
  {
    if s != [] {
      SplitNoSeparator(s[1..], sep);
    }
  }

  /** Splitting at the first separator peels off the piece before it. */
  lemma {:induction false} SplitAtFirst(a: string, sep: char, b: string)
    requires sep !in a
    ensures Split(a + [sep] + b, sep) == [a] + Split(b, sep)
    decreases |a|
  {
    var s := a + [sep] + b;
    if a == [] {
      assert s[1..] == b;
    } else {
      assert s[1..] == a[1..] + [sep] + b;
      SplitAtFirst(a[1..], sep, b);
      assert [a[0]] + a[1..] == a;
    }
  }

  /** `Split` undoes `Join` on separator-free pieces. */
  lemma {:induction false} SplitJoin(parts: seq<string>, sep: char)
    requires |parts| >= 1
    requires forall i | 0 <= i < |parts| :: sep !in parts[i]
    ensures Split(Join(parts, sep), sep) == parts
    decreases |parts|
  {
    if |parts| == 1 {
      SplitNoSeparator(parts[0], sep);
    } else {
      SplitJoin(parts[1..], sep);
      SplitAtFirst(parts[0], sep, Join(parts[1..], sep));
    }
  }

  /** `s.replaceAll(from, to)` for single characters. */
  function ReplaceAll(s: string, from: char, to: char): (r: string)
    ensures |r| == |s|
    ensures forall i | 0 <= i < |s| && s[i] == from :: r[i] == to
    ensures forall i | 0 <= i < |s| && s[i] != from :: r[i] == s[i]
    ensures from != to ==> from !in r
  {
    seq(|s|, i requires 0 <= i < |s| => if s[i] == from then to else s[i])
  }

  /** The unsigned body of a decimal literal: digits with at most one `.` and at least one digit. */
  predicate IsDecimalBody(s: string)
  {
    && (exists i | 0 <= i < |s| :: IsDigit(s[i]))
    && (forall i | 0 <= i < |s| :: IsDigit(s[i]) || s[i] == '.')
    && (forall i, j | 0 <= i < j < |s| :: !(s[i] == '.' && s[j] == '.'))
  }

  /** `!isNaN(Number(s))` for plain decimal text: after `trim`, either nothing
      (`Number("")` is 0) or an optional sign followed by a decimal body. */
  function IsNumeric(s: string): (b: bool)
    ensures AllWhitespace(s) ==> b
  {
    TrimEmptyIff(s);
    IsNumericText(Trim(s))
  }

  /** Trimmed text `Number` reads as a number: empty, or a decimal body with an optional sign. */
  predicate IsNumericText(t: string)
  {
    t == [] || IsDecimalBody(t) || (t[0] in "+-" && IsDecimalBody(t[1..]))
  }

  /** `Number("")` is 0, so the empty string is numeric. */
  lemma EmptyIsNumeric()
    ensures IsNumeric("")
  {
  }

  /** A string made of digits only is numeric. */
  lemma DigitsAreNumeric(s: string)
    requires forall i | 0 <= i < |s| :: IsDigit(s[i])
    ensures IsNumeric(s)
  {
    DigitsHaveNoWhitespace(s);
    TrimIdentity(s);
    if s != [] {
      DigitsAreDecimalBody(s);
    }
  }

  lemma DigitsHaveNoWhitespace(s: string)
    requires forall i | 0 <= i < |s| :: IsDigit(s[i])
    ensures NoWhitespace(s)
  {
    forall i | 0 <= i < |s| ensures !IsWhitespace(s[i]) {
      assert IsDigit(s[i]);
    }
  }

  lemma DigitsAreDecimalBody(s: string)
    requires forall i | 0 <= i < |s| :: IsDigit(s[i])
    requires s != []
    ensures IsDecimalBody(s)
  {
    forall i | 0 <= i < |s| ensures s[i] != '.' {
      assert IsDigit(s[i]);
    }
    assert IsDigit(s[0]);
  }

  /** Every character of a numeric string is a digit, a point, a sign or white space:
      a numeric string never contains a letter, and so never a keyword such as "daily". */
  lemma NumericCharacters(s: string, k: nat)
    requires IsNumeric(s) && k < |s|
    ensures IsNumberChar(s[k]) || IsWhitespace(s[k])
  {
    var t, lo := Trim(s), |s| - |TrimStart(s)|;
    TrimPosition(s, k, t, lo);
    NumericAt(s, k, t, lo);
  }

  /** A character that is white space or sits in numeric trimmed text. */
  lemma NumericAt(s: string, k: nat, t: string, lo: nat)
    requires k < |s| && IsNumericText(t)
    requires IsWhitespace(s[k]) || (lo <= k < lo + |t| && t[k - lo] == s[k])
    ensures IsNumberChar(s[k]) || IsWhitespace(s[k])
  {
    if !IsWhitespace(s[k]) {
      NumericTextCharacters(t, k - lo);
    }
  }

  /** A character of `s` is white space, or it survives `trim` at its offset past the leading white space. */
  lemma TrimPosition(s: string, k: nat, t: string, lo: nat)
    requires k < |s| && t == Trim(s) && lo == |s| - |TrimStart(s)|
    ensures IsWhitespace(s[k]) || (lo <= k < lo + |t| && t[k - lo] == s[k])
  {
    var u := TrimStart(s);
    if k < lo {
      TrimStartDrops(s, k);
    } else {
      TrimEndKeeps(u, k - lo);
      assert u[k - lo] == s[k];
    }
  }

  /** The characters `trimStart` drops are white space. */
  lemma TrimStartDrops(s: string, k: nat)
    requires k < |s| - |TrimStart(s)|
    ensures IsWhitespace(s[k])
  {
    var lo := |s| - |TrimStart(s)|;
    assert s[..lo][k] == s[k];
  }

  /** A character `trimEnd` keeps sits at the same index, and one it drops is white space. */
  lemma TrimEndKeeps(t: string, j: nat)
    requires j < |t|
    ensures IsWhitespace(t[j]) || (j < |TrimEnd(t)| && TrimEnd(t)[j] == t[j])
  {
    var u := TrimEnd(t);
    if j >= |u| {
      assert t[|u|..][j - |u|] == t[j];
    }
  }

  /** A lower-case letter is neither part of decimal number text nor white space. */
  lemma LowerIsNotNumberChar(c: char)
    requires IsLower(c)
    ensures !IsNumberChar(c) && !IsWhitespace(c)
  {
  }

  /** Lower-casing does not change whether text is numeric: numeric text has no letters. */
  lemma NumericIgnoresCase(s: string)
    ensures IsNumeric(ToLower(s)) <==> IsNumeric(s)
  {
    if IsNumeric(s) {
      NumericHasNoUpper(s);
      ToLowerIdentity(s);
    } else if IsNumeric(ToLower(s)) {
      LoweredNumericHasNoUpper(s);
      ToLowerIdentity(s);
    }
  }

  /** Numeric text has no upper-case letter. */
  lemma NumericHasNoUpper(s: string)
    requires IsNumeric(s)
    ensures forall i | 0 <= i < |s| :: !IsUpper(s[i])
  {
    forall i | 0 <= i < |s| ensures !IsUpper(s[i]) {
      NumericCharacters(s, i);
    }
  }

  /** Text whose lower-cased form is numeric has no upper-case letter. */
  lemma LoweredNumericHasNoUpper(s: string)
    requires IsNumeric(ToLower(s))
    ensures forall i | 0 <= i < |s| :: !IsUpper(s[i])
  {
    var t := ToLower(s);
    forall i | 0 <= i < |s| ensures !IsUpper(s[i]) {
      NumericCharacters(t, i);
      if IsUpper(s[i]) {
        LowerIsNotNumberChar(t[i]);
      }
    }
  }


  /** Every character of trimmed numeric text is a digit, a point or a sign. */
  lemma NumericTextCharacters(t: string, j: nat)
    requires IsNumericText(t) && j < |t|
    ensures IsNumberChar(t[j])
  {
    if !IsDecimalBody(t) && j > 0 {
      assert t[1..][j - 1] == t[j];
    }
  }

}
