/**
 * The string helpers of `@vue/shared` the core calls: `camelize`,
 * `hyphenate`, `capitalize`, `toHandlerKey`, `isOn`, together with the
 * JavaScript built-ins `String.prototype.trim` and `Array.prototype.join`.
 *
 * The shared helpers are not part of this model's source files; they follow
 * the upstream definitions (`camelize` replaces `/-(\w)/g` by the upper-cased
 * letter, `hyphenate` replaces `/\B([A-Z])/g` by `-$1` and lower-cases,
 * `isOn` tests `/^on[^a-z]/`). Case mapping covers ASCII letters only.
 */
module JsStrings {

  predicate IsUpper(c: char) { 'A' <= c <= 'Z' }

  predicate IsLower(c: char) { 'a' <= c <= 'z' }

  function ToUpper(c: char): (r: char)
    ensures !IsLower(r) && (IsLower(c) <==> IsUpper(r) && r != c)
  {
    if IsLower(c) then (c as int - 32) as char else c
  }

  function ToLower(c: char): (r: char)
    ensures !IsUpper(r) && (IsUpper(c) <==> IsLower(r) && r != c)
  {
    if IsUpper(c) then (c as int + 32) as char else c
  }

  /** `\w` of a regular expression without the `u` flag. */
  predicate IsWordChar(c: char) {
    IsUpper(c) || IsLower(c) || '0' <= c <= '9' || c == '_'
  }

  /** What `.` in a regular expression does not match. */
  predicate IsLineTerminator(c: char) {
    c == '\n' || c == '\r' || c == '\U{2028}' || c == '\U{2029}'
  }

  /** The characters `trim` removes: white space and line terminators. */
  predicate IsSpace(c: char) {
    || c == '\t' || c == '\U{000B}' || c == '\U{000C}' || c == ' ' || c == '\U{00A0}' || c == '\U{FEFF}'
    || c == '\U{1680}' || ('\U{2000}' <= c <= '\U{200A}') || c == '\U{202F}' || c == '\U{205F}' || c == '\U{3000}'
    || IsLineTerminator(c)
  }

  function TrimStart(s: string): (r: string)
    ensures |r| <= |s| && r == s[|s| - |r|..]
    ensures forall i | 0 <= i < |s| - |r| :: IsSpace(s[i])
    ensures r == [] || !IsSpace(r[0])
  {
    if |s| > 0 && IsSpace(s[0]) then TrimStart(s[1..]) else s
  }

  function TrimEnd(s: string): (r: string)
    ensures |r| <= |s| && r == s[..|r|]
    ensures forall i | |r| <= i < |s| :: IsSpace(s[i])
    ensures r == [] || !IsSpace(r[|r| - 1])
  {
    if |s| > 0 && IsSpace(s[|s| - 1]) then TrimEnd(s[..|s| - 1]) else s
  }

  /** The length of the leading run of white space. */
  function LeadingSpace(s: string): (n: nat)
    ensures n <= |s| && (forall i | 0 <= i < n :: IsSpace(s[i])) && (n == |s| || !IsSpace(s[n]))
  {
    if |s| > 0 && IsSpace(s[0]) then 1 + LeadingSpace(s[1..]) else 0
  }

  /** `String.prototype.trim`: the text between the leading and the trailing
      run of white space. */
  function Trim(s: string): (r: string)
    ensures var a := LeadingSpace(s);
      && a + |r| <= |s| && r == s[a..a + |r|]
      && forall i | a + |r| <= i < |s| :: IsSpace(s[i])
    ensures r == [] || (!IsSpace(r[0]) && !IsSpace(r[|r| - 1]))
  {
    var t := TrimStart(s);
    var r := TrimEnd(t);
    assert r == s[|s| - |t|..][..|r|];
    r
  }

  /** A string with no white space at either end. */
  predicate Trimmed(s: string) {
    s == [] || (!IsSpace(s[0]) && !IsSpace(s[|s| - 1]))
  }

  lemma TrimTrimmed(s: string)
    requires Trimmed(s)
    ensures Trim(s) == s
  {
  }

  /** `trim` is idempotent. */
  lemma TrimIdempotent(s: string)
    ensures Trim(Trim(s)) == Trim(s)
  {
    TrimTrimmed(Trim(s));
  }

  /** `Array.prototype.join(sep)` on strings. */
  function Join(xs: seq<string>, sep: string): string {
    if |xs| == 0 then []
    else if |xs| == 1 then xs[0]
    else Join(xs[..|xs| - 1], sep) + sep + xs[|xs| - 1]
  }

  /** `camelize`: every `-` followed by a word character is dropped and the
      character upper-cased; the scan resumes after it. */
  function Camelize(s: string): (r: string)
    ensures |r| <= |s|
    ensures (forall i | 0 <= i < |s| :: s[i] != '-') ==> r == s
  {
    if |s| == 0 then []
    else if s[0] == '-' && |s| > 1 && IsWordChar(s[1]) then [ToUpper(s[1])] + Camelize(s[2..])
    else [s[0]] + Camelize(s[1..])
  }

  /** The scan of `hyphenate`: an upper-case letter right after a word
      character (`\B` before it) gets a `-` in front; every letter is then
      lower-cased. `prevWord` says whether the character before `s` is a word
      character. */
  function HyphenateFrom(s: string, prevWord: bool): (r: string)
    ensures |s| <= |r| && forall i | 0 <= i < |r| :: !IsUpper(r[i])
  {
    if |s| == 0 then []
    else
      (if IsUpper(s[0]) && prevWord then ['-', ToLower(s[0])] else [ToLower(s[0])])
      + HyphenateFrom(s[1..], IsWordChar(s[0]))
  }

  /** `hyphenate`: the start of the string is not a word character. */
  function Hyphenate(s: string): (r: string)
    ensures |s| <= |r| && forall i | 0 <= i < |r| :: !IsUpper(r[i])
  {
    HyphenateFrom(s, false)
  }

  /** Names made of word characters that do not start upper-case. */
  predicate PlainName(s: string) {
    (forall i | 0 <= i < |s| :: IsWordChar(s[i])) && (|s| == 0 || !IsUpper(s[0]))
  }

  lemma {:induction false} CamelizeHyphenateFrom(s: string)
    requires forall i | 0 <= i < |s| :: IsWordChar(s[i])
    ensures Camelize(HyphenateFrom(s, true)) == s
  {
    if |s| > 0 {
      var rest := HyphenateFrom(s[1..], true);
      CamelizeHyphenateFrom(s[1..]);
      if IsUpper(s[0]) {
        assert HyphenateFrom(s, true) == ['-', ToLower(s[0])] + rest;
        assert (['-', ToLower(s[0])] + rest)[2..] == rest;
      } else {
        assert HyphenateFrom(s, true) == [ToLower(s[0])] + rest;
        assert ([ToLower(s[0])] + rest)[1..] == rest;
      }
    }
  }

  /** `camelize` undoes `hyphenate` on plain names, so `fooBar` and
      `foo-bar` name the same prop. */
  lemma CamelizeHyphenate(s: string)
    requires PlainName(s)
    ensures Camelize(Hyphenate(s)) == s
  {
    if |s| > 0 {
      CamelizeHyphenateFrom(s[1..]);
      var rest := HyphenateFrom(s[1..], true);
      assert Hyphenate(s) == [s[0]] + rest;
      assert ([s[0]] + rest)[1..] == rest;
    }
  }

  /** `capitalize`: the first character upper-cased. */
  function Capitalize(s: string): (r: string)
    ensures |r| == |s| && (|s| > 0 ==> r[0] == ToUpper(s[0]) && r[1..] == s[1..])
  {
    if |s| == 0 then [] else [ToUpper(s[0])] + s[1..]
  }

  /** `isOn`: `on` followed by a character that is not a lower-case letter. */
  predicate IsOn(key: string) {
    |key| >= 3 && key[0] == 'o' && key[1] == 'n' && !IsLower(key[2])
  }

  /** `toHandlerKey`: `on` + the capitalised name, `""` for `""`. */
  function ToHandlerKey(s: string): (r: string)
    ensures s == [] <==> r == []
    // every handler key is a listener key
    ensures s != [] ==> IsOn(r) && r[..2] == "on" && r[3..] == s[1..]
  {
    if |s| == 0 then [] else "on" + Capitalize(s)
  }

  /** `String.prototype.toLowerCase` (ASCII letters). */
  function LowerCase(s: string): (r: string)
    ensures |r| == |s| && forall i | 0 <= i < |s| :: r[i] == ToLower(s[i])
  {
    if s == [] then [] else [ToLower(s[0])] + LowerCase(s[1..])
  }

  /** Where a `slice` bound lands: a negative one counts from the end, and
      both are clamped to the string. */
  function SliceBound(len: nat, x: int): (b: nat)
    ensures b <= len
    ensures 0 <= x <= len ==> b == x
  {
    if x < 0 then (if len + x < 0 then 0 else len + x)
    else if x > len then len
    else x
  }

  /** `String.prototype.slice(start, end)`. */
  function Slice(s: string, start: int, end: int): (r: string)
    ensures 0 <= start <= end <= |s| ==> r == s[start..end]
    ensures |r| <= |s|
  {
    var from := SliceBound(|s|, start);
    var to := SliceBound(|s|, end);
    if from < to then s[from..to] else []
  }

  /** `String.prototype.startsWith`. */
  predicate StartsWith(s: string, prefix: string) {
    |prefix| <= |s| && s[..|prefix|] == prefix
  }

  /** `String(n)` for an integer. */
  function IntToString(n: int): (r: string)
    ensures |r| > 0
    decreases if n < 0 then 1 - n else n
  {
    if n < 0 then "-" + IntToString(-n)
    else if n < 10 then [('0' as int + n) as char]
    else IntToString(n / 10) + [('0' as int + n % 10) as char]
  }
}
