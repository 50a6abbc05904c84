/** ASCII string operations that the crawler's Python code takes from `str`:
    `isspace`, `isdigit`, `isalnum`, `strip`, `lower`, `upper`, `in`
    (substring), `startswith`, `replace` and `' '.join`. */
module Strings {

  /** Python's `str.isspace` on one ASCII character: space, \t \n \v \f \r
      and the four separators U+001C..U+001F. */
  predicate IsSpace(c: char) {
    c == ' ' || (9 <= c as int <= 13) || (28 <= c as int <= 31)
  }

  predicate IsDigit(c: char) {
    '0' <= c <= '9'
  }

  predicate IsUpperLetter(c: char) {
    'A' <= c <= 'Z'
  }

  predicate IsLowerLetter(c: char) {
    'a' <= c <= 'z'
  }

  predicate IsAlnum(c: char) {
    IsDigit(c) || IsUpperLetter(c) || IsLowerLetter(c)
  }

  function ToLower(c: char): char {
    if IsUpperLetter(c) then (c as int + 32) as char else c
  }

  function ToUpper(c: char): char {
    if IsLowerLetter(c) then (c as int - 32) as char else c
  }

  /** `s.lower()` */
  function Lower(s: string): (r: string)
    ensures |r| == |s|
    ensures forall i :: 0 <= i < |s| ==> r[i] == ToLower(s[i])
  {
    seq(|s|, i requires 0 <= i < |s| => ToLower(s[i]))
  }

  /** `s.upper()` */
  function Upper(s: string): (r: string)
    ensures |r| == |s|
    ensures forall i :: 0 <= i < |s| ==> r[i] == ToUpper(s[i])
  {
    seq(|s|, i requires 0 <= i < |s| => ToUpper(s[i]))
  }

  predicate NoSpace(s: string) {
    forall i :: 0 <= i < |s| ==> !IsSpace(s[i])
  }

  /** Non-empty and not all white space: some character is not white space. */
  predicate NotBlank(s: string) {
    exists i :: 0 <= i < |s| && !IsSpace(s[i])
  }

  /** `s.isdigit()` */
  predicate IsDigits(s: string) {
    |s| > 0 && forall i :: 0 <= i < |s| ==> IsDigit(s[i])
  }

  /** `s.isalnum()` character by character, as `_url_to_filename` applies it. */
  predicate AllAlnumOrUnderscore(s: string) {
    forall i :: 0 <= i < |s| ==> IsAlnum(s[i]) || s[i] == '_'
  }

  function TrimStart(s: string): (r: string)
    ensures |r| <= |s|
    ensures r == s[|s| - |r|..]
    ensures r != [] ==> !IsSpace(r[0])
    ensures forall i :: 0 <= i < |s| - |r| ==> IsSpace(s[i])
  {
    if s != [] && IsSpace(s[0]) then TrimStart(s[1..]) else s
  }

  function TrimEnd(s: string): (r: string)
    ensures |r| <= |s|
    ensures r == s[..|r|]
    ensures r != [] ==> !IsSpace(r[|r| - 1])
    ensures forall i :: |r| <= i < |s| ==> IsSpace(s[i])
  {
    if s != [] && IsSpace(s[|s| - 1]) then TrimEnd(s[..|s| - 1]) else s
  }

  /** `s.strip()`: no white space at either end; the characters removed were
      all white space. */
  function Strip(s: string): (r: string) {
    TrimEnd(TrimStart(s))
  }

  /** Upper-casing turns no character into a space or out of one. */
  lemma UpperNoSpace(s: string)
    requires NoSpace(Upper(s))
    ensures NoSpace(s)
  {
    forall i | 0 <= i < |s| ensures !IsSpace(s[i]) {
      assert !IsSpace(Upper(s)[i]);
    }
  }

  lemma StripNoSpace(s: string)
    requires NoSpace(s)
    ensures Strip(s) == s
  {
    if s != [] {
      assert !IsSpace(s[0]) && !IsSpace(s[|s| - 1]);
    }
  }

  /** `strip` removes white space only: every other character survives. */
  lemma StripKeeps(s: string, i: int)
    requires 0 <= i < |s| && !IsSpace(s[i])
    ensures s[i] in Strip(s)
  {
    var t := TrimStart(s);
    var k := |s| - |t|;
    assert k <= i;
    assert t[i - k] == s[i];
    var r := TrimEnd(t);
    assert |r| > i - k;
    assert r[i - k] == s[i];
  }

  /** A string with a non-blank character does not strip to "". */
  lemma StripNotBlank(s: string)
    requires NotBlank(s)
    ensures Strip(s) != ""
  {
    var i :| 0 <= i < |s| && !IsSpace(s[i]);
    StripKeeps(s, i);
  }

  /** A non-empty, space-free word found in `s.lower()` makes `s` non-blank. */
  lemma ContainsWordNotBlank(s: string, w: string)
    requires w != "" && NoSpace(w)
    requires Contains(Lower(s), w)
    ensures NotBlank(s)
  {
    var i :| 0 <= i <= |Lower(s)| && OccursAt(Lower(s), w, i);
    assert Lower(s)[i] == w[0];
    assert !IsSpace(s[i]);
  }

  predicate OccursAt(s: string, sub: string, i: int) {
    0 <= i && i + |sub| <= |s| && s[i..i + |sub|] == sub
  }

  /** Python's `sub in s`. */
  predicate Contains(s: string, sub: string) {
    exists i :: 0 <= i <= |s| && OccursAt(s, sub, i)
  }

  /** Python's `s.startswith(prefix)`. */
  predicate StartsWith(s: string, prefix: string) {
    |prefix| <= |s| && s[..|prefix|] == prefix
  }

  /** Python's `s.endswith(suffix)`. */
  predicate EndsWith(s: string, suffix: string) {
    |suffix| <= |s| && s[|s| - |suffix|..] == suffix
  }

  lemma ContainsEmpty(s: string)
    ensures Contains(s, "")
  {
    assert OccursAt(s, "", 0);
  }

  /** An occurrence of `sub` in `a + [c] + b` lies wholly in `a`, wholly in
      `b`, or covers `c`. */
  lemma ContainsAcross(a: string, c: char, b: string, sub: string)
    requires Contains(a + [c] + b, sub)
    ensures Contains(a, sub) || Contains(b, sub) || c in sub
  {
    var s := a + [c] + b;
    var i :| 0 <= i <= |s| && OccursAt(s, sub, i);
    if i + |sub| <= |a| {
      assert a[i..i + |sub|] == s[i..i + |sub|];
      assert OccursAt(a, sub, i);
    } else if i > |a| {
      var j := i - |a| - 1;
      assert b[j..j + |sub|] == s[i..i + |sub|];
      assert OccursAt(b, sub, j);
    } else {
      assert sub[|a| - i] == s[i..i + |sub|][|a| - i] == c;
    }
  }

  /** `' '.join(tokens)` */
  function Join(tokens: seq<string>): string {
    if |tokens| == 0 then ""
    else if |tokens| == 1 then tokens[0]
    else tokens[0] + " " + Join(tokens[1..])
  }

  lemma LowerConcat(a: string, b: string)
    ensures Lower(a + b) == Lower(a) + Lower(b)
  {
  }

  /** A space-free keyword found in the lower-cased joined tokens is found in
      one lower-cased token: joining adds only spaces. */
  lemma {:induction false} JoinedContains(tokens: seq<string>, kw: string)
    requires kw != "" && ' ' !in kw
    requires Contains(Lower(Join(tokens)), kw)
    ensures exists i :: 0 <= i < |tokens| && Contains(Lower(tokens[i]), kw)
  {
    if |tokens| == 0 {
      // a non-empty keyword does not occur in ""
      assert false;
    } else if |tokens| == 1 {
      assert Contains(Lower(tokens[0]), kw);
    } else {
      var rest := Join(tokens[1..]);
      LowerConcat(tokens[0] + " ", rest);
      LowerConcat(tokens[0], " ");
      assert Lower(" ") == [' '];
      assert Lower(Join(tokens)) == Lower(tokens[0]) + [' '] + Lower(rest);
      ContainsAcross(Lower(tokens[0]), ' ', Lower(rest), kw);
      if Contains(Lower(tokens[0]), kw) {
      } else {
        JoinedContains(tokens[1..], kw);
        var i :| 0 <= i < |tokens[1..]| && Contains(Lower(tokens[1..][i]), kw);
        assert tokens[1..][i] == tokens[i + 1];
      }
    }
  }

  /** `s.replace(pat, '')`: removes every occurrence of `pat`, scanning left to
      right without overlap. */
  function RemoveAll(s: string, pat: string): (r: string)
    requires pat != ""
    ensures |r| <= |s|
    decreases |s|
  {
    if |s| < |pat| then s
    else if s[..|pat|] == pat then RemoveAll(s[|pat|..], pat)
    else [s[0]] + RemoveAll(s[1..], pat)
  }

  /** A pattern holding a character that `s` lacks is never found in `s`. */
  lemma {:induction false} RemoveAllAbsent(s: string, pat: string, c: char)
    requires pat != "" && c in pat && c !in s
    ensures RemoveAll(s, pat) == s
  {
    if |s| >= |pat| {
      var i :| 0 <= i < |pat| && pat[i] == c;
      assert s[..|pat|][i] == s[i] != c;
      RemoveAllAbsent(s[1..], pat, c);
      assert [s[0]] + s[1..] == s;
    }
  }

  /** `s.replace(a, b)` for single characters. */
  function ReplaceChar(s: string, a: char, b: char): (r: string)
    ensures |r| == |s|
    ensures forall i :: 0 <= i < |s| ==> r[i] == (if s[i] == a then b else s[i])
  {
    seq(|s|, i requires 0 <= i < |s| => if s[i] == a then b else s[i])
  }

  /** `s.split(c)[0]`: everything before the first `c`. */
  function BeforeFirst(s: string, c: char): (r: string)
    ensures c !in r
    ensures StartsWith(s, r)
    ensures |r| < |s| ==> s[|r|] == c
  {
    if s == [] then []
    else if s[0] == c then []
    else [s[0]] + BeforeFirst(s[1..], c)
  }
}
