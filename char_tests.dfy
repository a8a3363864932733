/**
 * The inline helpers of SimFireStringTools.h: character classes over
 * character codes, and the two null-tolerant C-string helpers.
 *
 * A C string is modelled by the characters before its terminator, so it
 * never contains '\0'; a `const char *` that may be null is an
 * `Option<CString>`.
 */
module CharTests {
  import opened Wrappers

  /** The characters of a C string, without the terminating NUL. */
  type CString = s: string | '\0' !in s

  /** What `*(str + i)` reads: a character of the string, or the terminator just past its end. */
  function At(s: CString, i: nat): (c: char)
    requires i <= |s|
    ensures c == '\0' <==> i == |s|
    ensures i < |s| ==> c == s[i]
  {
    if i < |s| then s[i] else '\0'
  }

  /** What `s.c_str()` shows of a `std::string`: everything before its first NUL. */
  function CView(s: string): (c: CString)
    ensures c <= s
    ensures |c| < |s| ==> s[|c|] == '\0'
    ensures '\0' !in s ==> c == s
    decreases |s|
  {
    if s == [] || s[0] == '\0' then [] else [s[0]] + CView(s[1..])
  }

  /** IsNumberChar: the codes 48..57. */
  predicate IsNumberChar(ch: char)
    ensures IsNumberChar(ch) <==> '0' <= ch <= '9'
  {
    48 <= ch as int <= 57
  }

  /**
   * IsStandardChar: the codes 64..90, 97..122 and '_'. The first range
   * starts at 64, so '@' counts as a standard character as well as A-Z.
   */
  predicate IsStandardChar(ch: char)
    ensures IsStandardChar(ch) <==> ('A' <= ch <= 'Z') || ('a' <= ch <= 'z') || ch == '_' || ch == '@'
  {
    (64 <= ch as int <= 90) || (97 <= ch as int <= 122) || ch == '_'
  }

  /** IsNormalChar: a digit or a standard character. */
  predicate IsNormalChar(ch: char)
    ensures IsNormalChar(ch) <==>
      ('0' <= ch <= '9') || ('A' <= ch <= 'Z') || ('a' <= ch <= 'z') || ch == '_' || ch == '@'
  {
    IsNumberChar(ch) || IsStandardChar(ch)
  }

  /** IsEmpty: the pointer is null or its first character is the terminator. */
  predicate IsEmpty(str: Option<CString>)
    ensures IsEmpty(str) <==> str == None || str == Some([])
  {
    str.None? || At(str.value, 0) == '\0'
  }

  /** NullEmptyStr: the string itself, or "" in place of a null pointer; never null. */
  function NullEmptyStr(val: Option<CString>): (r: CString)
    ensures val.Some? ==> r == val.value
    ensures r == [] <==> IsEmpty(val)
  {
    match val
    case None => []
    case Some(s) => s
  }

  /**
   * `std::tolower` in the "C" locale: the result is never an upper-case
   * letter, letters stay letters, and only upper-case letters change.
   */
  function ToLower(c: char): (r: char)
    ensures !('A' <= r <= 'Z')
    ensures ('a' <= r <= 'z') <==> ('A' <= c <= 'Z') || ('a' <= c <= 'z')
    ensures r != c ==> 'A' <= c <= 'Z'
  {
    if 'A' <= c <= 'Z' then (c as int + 32) as char else c
  }
}
