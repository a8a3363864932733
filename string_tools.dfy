/**
 * The string functions of SimFireStringTools.cpp: trimming, prefix and
 * suffix tests, escape decoding, separator lookup, case-insensitive
 * comparison and joining. `std::string` is a `string`; a parameter the
 * C++ code changes through a reference becomes a returned value.
 */
module StringTools {
  import opened Wrappers
  import opened CharTests

  /** gDefaultTrimChars: tab, LF, VT, FF, CR, space and DC1 (code 0x11). */
  const DefaultTrimChars: CString := ['\t', '\n', 11 as char, 12 as char, '\r', ' ', 17 as char]

  // ----- Trim -----------------------------------------------------------------------------

  /** The number of leading characters of `s` that belong to `chars`. */
  function LeadCount(s: string, chars: string): (n: nat)
    ensures n <= |s|
    ensures forall i :: 0 <= i < n ==> s[i] in chars
    ensures n < |s| ==> s[n] !in chars
    decreases |s|
  {
    if |s| > 0 && s[0] in chars then 1 + LeadCount(s[1..], chars) else 0
  }

  /** The smallest index from `lo` on after which `s` holds only characters of `chars`. */
  function TrailStart(s: string, chars: string, lo: nat): (j: nat)
    requires lo <= |s|
    ensures lo <= j <= |s|
    ensures forall i :: j <= i < |s| ==> s[i] in chars
    ensures j > lo ==> s[j - 1] !in chars
    decreases |s| - lo
  {
    if lo == |s| then lo
    else if s[|s| - 1] in chars then TrailStart(s[..|s| - 1], chars, lo)
    else |s|
  }

  /**
   * What Trim leaves of `s`: the contiguous slice from the first to the
   * last character outside `chars`; neither end is a trim character, and
   * an input made only of trim characters becomes empty.
   */
  function Trimmed(s: string, chars: string): (t: string)
    ensures exists a :: (0 <= a <= |s| && t <= s[a..] &&
      (forall i :: 0 <= i < a ==> s[i] in chars) &&
      (forall i :: a + |t| <= i < |s| ==> s[i] in chars))
    ensures t != [] ==> t[0] !in chars && t[|t| - 1] !in chars
    ensures t == [] <==> forall i :: 0 <= i < |s| ==> s[i] in chars
  {
    var a := LeadCount(s, chars);
    var b := TrailStart(s, chars, a);
    assert s[a..b] <= s[a..];
    s[a..b]
  }

  /** Trimming twice is trimming once. */
  lemma {:induction false} TrimIdempotent(s: string, chars: string)
    ensures Trimmed(Trimmed(s, chars), chars) == Trimmed(s, chars)
  {
    var t := Trimmed(s, chars);
    assert LeadCount(t, chars) == 0;
    assert TrailStart(t, chars, 0) == |t|;
    assert t[0..|t|] == t;
  }

  /**
   * Trim(std::string &): erases the leading characters up to
   * `find_first_not_of(chars)` (all of them when there is none), then
   * everything after `find_last_not_of(chars)`.
   */
  method Trim(s: string, chars: string) returns (t: string)
    ensures t == Trimmed(s, chars)
  {
    var first := 0;
    while first < |s| && s[first] in chars
      invariant 0 <= first <= |s|
      invariant forall i :: 0 <= i < first ==> s[i] in chars
    {
      first := first + 1;
    }
    assert first == LeadCount(s, chars);
    t := s[first..];
    var end := |t|;
    while end > 0 && t[end - 1] in chars
      invariant 0 <= end <= |t|
      invariant forall i :: end <= i < |t| ==> t[i] in chars
    {
      end := end - 1;
    }
    assert first + end == TrailStart(s, chars, first);
    t := t[..end];
  }

  // ----- StartsWith / EndsWith ------------------------------------------------------------

  /** StartsWith: true exactly when `needle` is a prefix of `haystack`. */
  predicate StartsWith(haystack: string, needle: string)
    ensures StartsWith(haystack, needle) <==> needle <= haystack
  {
    if |needle| > |haystack| then false
    else forall i :: 0 <= i < |needle| ==> needle[i] == haystack[i]
  }

  /** EndsWith: true exactly when `needle` is a suffix of `haystack` (compared from the back). */
  predicate EndsWith(haystack: string, needle: string)
    ensures EndsWith(haystack, needle) <==>
      |needle| <= |haystack| && haystack[|haystack| - |needle|..] == needle
  {
    if |needle| > |haystack| then false
    else
      // the last |needle| positions of haystack, paired with needle from the back
      var d := |haystack| - |needle|;
      forall j :: d <= j < |haystack| ==> haystack[j] == needle[j - d]
  }

  /**
   * `s.substr(pos, count)`: at most `count` characters from `pos`; the
   * C++ call throws `out_of_range` when `pos > size()`, which callers
   * here never reach.
   */
  function SubStr(s: string, pos: nat, count: nat): (r: string)
    requires pos <= |s|
    ensures r <= s[pos..]
    ensures |r| <= count && (|r| < count ==> r == s[pos..])
  {
    if pos + count <= |s| then s[pos..pos + count] else s[pos..]
  }

  const SizeModulus: nat := 0x1_0000_0000_0000_0000

  /** `a - b` on 64-bit `size_t`: wraps around below zero. */
  function SizeSub(a: nat, b: nat): (r: nat)
    ensures r < SizeModulus
    ensures b <= a < SizeModulus ==> r == a - b
    ensures a < b <= a + SizeModulus ==> r == SizeModulus - (b - a)
  {
    (a - b) % SizeModulus
  }

  // ----- Unescape -------------------------------------------------------------------------

  /** The character that the escape `\c` stands for, when `c` is one Unescape knows. */
  function EscapeValue(c: char): Option<char>
  {
    match c
    case 'n' => Some('\n')
    case '\'' => Some('\'')
    case '"' => Some('"')
    case 'a' => Some(7 as char)
    case 'b' => Some(8 as char)
    case 'f' => Some(12 as char)
    case 'r' => Some('\r')
    case 't' => Some('\t')
    case 'v' => Some(11 as char)
    case '\\' => Some('\\')
    case '?' => Some('?')
    case _ => None
  }

  /** The eleven letters of the escapes Unescape decodes. */
  const EscapeLetters := "n'\"abfrtv\\?"

  /** The escapes that are dropped, not decoded, when `nlq` is false: newline and the two quotes. */
  predicate IsNlqEscape(c: char)
  {
    c == 'n' || c == '\'' || c == '"'
  }

  /**
   * The character a recognised escape starting at `pos` stands for; a
   * backslash in the last position looks at the terminator, which is no
   * escape letter.
   */
  function EscapeAt(data: string, pos: nat): (e: Option<char>)
    requires pos < |data|
    ensures e.Some? <==> pos + 1 < |data| && data[pos] == '\\' && data[pos + 1] in EscapeLetters
  {
    if data[pos] == '\\' && pos + 1 < |data| then EscapeValue(data[pos + 1]) else None
  }

  /**
   * Unescape's scan from position `pos`, with the text `buffer` already
   * produced and `escaped` escapes already decoded. A backslash followed
   * by a known escape letter is one escape of two characters, written as
   * one character (or, without `nlq`, dropped when it is one of the
   * newline or quote escapes); every other character is copied.
   */
  function UnescapeFrom(data: string, pos: nat, nlq: bool, buffer: string, escaped: nat): (r: (string, nat))
    requires pos <= |data|
    decreases |data| - pos
  {
    if pos == |data| then (buffer, escaped)
    else
      var e := EscapeAt(data, pos);
      if e.Some? then
        var emitted := if nlq || !IsNlqEscape(data[pos + 1]) then [e.value] else [];
        UnescapeFrom(data, pos + 2, nlq, buffer + emitted, escaped + 1)
      else
        UnescapeFrom(data, pos + 1, nlq, buffer + [data[pos]], escaped)
  }

  /** What Unescape produces from `data`, with the number of escapes decoded. */
  function Unescaped(data: string, nlq: bool): (r: (string, nat))
  {
    UnescapeFrom(data, 0, nlq, "", 0)
  }

  lemma {:induction false} UnescapeFromBounds(data: string, pos: nat, nlq: bool, buffer: string, escaped: nat)
    requires pos <= |data|
    ensures var r := UnescapeFrom(data, pos, nlq, buffer, escaped);
      buffer <= r.0 && escaped <= r.1 && 2 * (r.1 - escaped) <= |data| - pos &&
      (nlq ==> |r.0| - |buffer| + r.1 - escaped == |data| - pos)
    decreases |data| - pos
  {
    if pos < |data| {
      var e := EscapeAt(data, pos);
      if e.Some? {
        var emitted := if nlq || !IsNlqEscape(data[pos + 1]) then [e.value] else [];
        UnescapeFromBounds(data, pos + 2, nlq, buffer + emitted, escaped + 1);
      } else {
        UnescapeFromBounds(data, pos + 1, nlq, buffer + [data[pos]], escaped);
      }
    }
  }

  lemma {:induction false} UnescapeFromPlain(data: string, pos: nat, nlq: bool, buffer: string, escaped: nat)
    requires pos <= |data|
    requires forall i :: pos <= i < |data| ==> data[i] != '\\'
    ensures UnescapeFrom(data, pos, nlq, buffer, escaped) == (buffer + data[pos..], escaped)
    decreases |data| - pos
  {
    if pos < |data| {
      assert EscapeAt(data, pos).None?;
      UnescapeFromPlain(data, pos + 1, nlq, buffer + [data[pos]], escaped);
      assert (buffer + [data[pos]]) + data[pos + 1..] == buffer + data[pos..];
    } else {
      assert buffer + data[pos..] == buffer;
    }
  }

  /**
   * Every escape takes two characters of the input, and with `nlq` each
   * becomes exactly one character, so the output is shorter than the
   * input by the number of escapes.
   */
  lemma UnescapedLength(data: string, nlq: bool)
    ensures 2 * Unescaped(data, nlq).1 <= |data|
    ensures nlq ==> |Unescaped(data, nlq).0| == |data| - Unescaped(data, nlq).1
  {
    UnescapeFromBounds(data, 0, nlq, "", 0);
  }

  /** Text without a backslash comes back unchanged, with no escape counted. */
  lemma UnescapedPlain(data: string, nlq: bool)
    requires '\\' !in data
    ensures Unescaped(data, nlq) == (data, 0)
  {
    UnescapeFromPlain(data, 0, nlq, "", 0);
    assert "" + data[0..] == data;
  }

  /** The text already produced stays at the front of Unescape's result. */
  lemma {:induction false} UnescapeFromExtends(data: string, pos: nat, nlq: bool, buffer: string, escaped: nat)
    requires pos <= |data|
    ensures buffer <= UnescapeFrom(data, pos, nlq, buffer, escaped).0
  {
    UnescapeFromBounds(data, pos, nlq, buffer, escaped);
  }

  /** A first character that is not a backslash comes through Unescape unchanged. */
  lemma UnescapedKeepsFirst(data: string, nlq: bool)
    requires data != [] && data[0] != '\\'
    ensures Unescaped(data, nlq).0 != [] && Unescaped(data, nlq).0[0] == data[0]
  {
    assert EscapeAt(data, 0).None?;
    assert "" + [data[0]] == [data[0]];
    assert Unescaped(data, nlq) == UnescapeFrom(data, 1, nlq, [data[0]], 0);
    UnescapeFromExtends(data, 1, nlq, [data[0]], 0);
  }

  /** Each backslash of `s` written twice: the form in which Unescape gives `s` back. */
  function EscapeBackslashes(s: string): (r: string)
    decreases |s|
  {
    if s == [] then []
    else (if s[0] == '\\' then "\\\\" else [s[0]]) + EscapeBackslashes(s[1..])
  }

  /** The number of backslashes in `s`. */
  function CountBackslashes(s: string): nat
    decreases |s|
  {
    if s == [] then 0 else (if s[0] == '\\' then 1 else 0) + CountBackslashes(s[1..])
  }

  lemma {:induction false} UnescapeDoubledFrom(p: string, s: string, nlq: bool, buffer: string, escaped: nat)
    ensures UnescapeFrom(p + EscapeBackslashes(s), |p|, nlq, buffer, escaped) ==
      (buffer + s, escaped + CountBackslashes(s))
    decreases |s|
  {
    var data := p + EscapeBackslashes(s);
    if s == [] {
      assert data == p;
      assert buffer + s == buffer;
    } else {
      var tail := EscapeBackslashes(s[1..]);
      if s[0] == '\\' {
        var p' := p + "\\\\";
        assert data == p' + tail;
        assert data[|p|] == '\\' && data[|p| + 1] == '\\';
        assert EscapeValue('\\') == Some('\\') && !IsNlqEscape('\\');
        UnescapeDoubledFrom(p', s[1..], nlq, buffer + ['\\'], escaped + 1);
      } else {
        var p' := p + [s[0]];
        assert data == p' + tail;
        assert data[|p|] == s[0];
        UnescapeDoubledFrom(p', s[1..], nlq, buffer + [s[0]], escaped);
      }
      assert s == [s[0]] + s[1..];
      assert buffer + s == (buffer + [s[0]]) + s[1..];
    }
  }

  /** Unescape undoes the doubling of backslashes, decoding one escape per backslash of `s`. */
  lemma UnescapeDoubledBackslashes(s: string, nlq: bool)
    ensures Unescaped(EscapeBackslashes(s), nlq) == (s, CountBackslashes(s))
  {
    UnescapeDoubledFrom([], s, nlq, "", 0);
    assert [] + EscapeBackslashes(s) == EscapeBackslashes(s);
    assert "" + s == s;
  }

  /**
   * Unescape (with its internal buffer): copies `data` character by
   * character, replacing each recognised two-character escape, and
   * returns the new text with the number of escapes replaced. A trailing
   * backslash looks at the terminator, which is no escape, and is kept.
   */
  method Unescape(data: string, nlq: bool) returns (result: string, escaped: nat)
    ensures (result, escaped) == Unescaped(data, nlq)
  {
    var buffer := "";
    escaped := 0;
    var pos := 0;
    while pos < |data|
      invariant 0 <= pos <= |data|
      invariant UnescapeFrom(data, pos, nlq, buffer, escaped) == Unescaped(data, nlq)
      decreases |data| - pos
    {
      var decoded := EscapeAt(data, pos);
      if decoded.Some? {
        var emitted := if nlq || !IsNlqEscape(data[pos + 1]) then [decoded.value] else [];
        buffer := buffer + emitted;
        pos := pos + 2;
        escaped := escaped + 1;
        continue;
      }
      buffer := buffer + [data[pos]];
      pos := pos + 1;
    }
    result := buffer;
  }

  // ----- IsSeparator ----------------------------------------------------------------------

  /** The index of the first `c` in `s`, or -1 when `s` holds none. */
  function IndexOf(c: char, s: string): (r: int)
    ensures -1 <= r < |s|
    ensures r == -1 <==> c !in s
    ensures r >= 0 ==> s[r] == c && c !in s[..r]
    decreases |s|
  {
    if s == [] then -1
    else if s[0] == c then 0
    else
      var k := IndexOf(c, s[1..]);
      assert s[1..][..k + 1] == s[1..k + 2] by { }
      if k < 0 then -1 else k + 1
  }

  /** What IsSeparator returns: the index of `c` in `separators`, or -1 for a null pointer. */
  function SeparatorIndex(c: char, separators: Option<CString>): (r: int)
  {
    if separators.None? then -1 else IndexOf(c, separators.value)
  }

  /**
   * IsSeparator: the index of the first occurrence of `character` in the
   * C string `separators`, or -1 when it is absent or the pointer is
   * null. The terminator is never compared, so '\0' is never found.
   */
  method IsSeparator(character: char, separators: Option<CString>) returns (r: int)
    ensures r == SeparatorIndex(character, separators)
    ensures r == -1 <==> separators.None? || character !in separators.value
    ensures r >= 0 ==> (r < |separators.value| && separators.value[r] == character &&
      character !in separators.value[..r])
  {
    if separators.None? {
      return -1;
    }
    var sep := separators.value;
    var i := 0;
    while At(sep, i) != '\0'
      invariant 0 <= i <= |sep|
      decreases |sep| - i
      invariant character !in sep[..i]
    {
      if character == sep[i] {
        return i;
      }
      assert sep[..i + 1] == sep[..i] + [sep[i]];
      i := i + 1;
    }
    assert sep[..i] == sep;
    r := -1;
  }

  // ----- IEquals --------------------------------------------------------------------------

  /** A string with every character passed through `tolower`. */
  function Lowered(s: string): (r: string)
    ensures |r| == |s|
    ensures forall i :: 0 <= i < |r| ==> !('A' <= r[i] <= 'Z')
  {
    seq(|s|, i requires 0 <= i < |s| => ToLower(s[i]))
  }

  /** Lower-casing a second time changes nothing. */
  lemma LoweredIdempotent(s: string)
    ensures Lowered(Lowered(s)) == Lowered(s)
  {
  }

  /**
   * IEquals: `std::equal` over both ranges with a `tolower` comparison, so
   * true exactly when both strings lower-case to the same string.
   */
  predicate IEquals(a: string, b: string)
    ensures IEquals(a, b) <==> Lowered(a) == Lowered(b)
  {
    assert forall i :: 0 <= i < |a| ==> Lowered(a)[i] == ToLower(a[i]);
    assert forall i :: 0 <= i < |b| ==> Lowered(b)[i] == ToLower(b[i]);
    |a| == |b| && forall i :: 0 <= i < |a| ==> ToLower(a[i]) == ToLower(b[i])
  }

  // ----- JoinStrings ----------------------------------------------------------------------

  /**
   * The string JoinStrings builds: each element is appended in turn, the
   * glue first whenever the text built so far is not empty.
   */
  function Joined(elements: seq<string>, glue: string): (r: string)
    decreases |elements|
  {
    if elements == [] then []
    else
      var acc := Joined(elements[..|elements| - 1], glue);
      (if acc == [] then acc else acc + glue) + elements[|elements| - 1]
  }

  /** The elements separated by `glue`: e0 + glue + e1 + ... + glue + en. */
  function Interleaved(elements: seq<string>, glue: string): string
    decreases |elements|
  {
    if elements == [] then []
    else if |elements| == 1 then elements[0]
    else elements[0] + glue + Interleaved(elements[1..], glue)
  }

  /** The total length of the elements. */
  function TotalLength(elements: seq<string>): nat
    decreases |elements|
  {
    if elements == [] then 0 else |elements[0]| + TotalLength(elements[1..])
  }

  lemma {:induction false} InterleavedSnoc(elements: seq<string>, glue: string, e: string)
    requires elements != []
    ensures Interleaved(elements + [e], glue) == Interleaved(elements, glue) + glue + e
    decreases |elements|
  {
    if |elements| == 1 {
      assert elements + [e] == [elements[0], e];
    } else {
      assert (elements + [e])[1..] == elements[1..] + [e];
      InterleavedSnoc(elements[1..], glue, e);
    }
  }

  lemma {:induction false} InterleavedLength(elements: seq<string>, glue: string)
    requires elements != []
    ensures |Interleaved(elements, glue)| == TotalLength(elements) + (|elements| - 1) * |glue|
    decreases |elements|
  {
    if |elements| > 1 {
      InterleavedLength(elements[1..], glue);
    } else {
      assert TotalLength(elements[1..]) == 0;
    }
  }

  /** Joined gives "" exactly when every element is empty. */
  lemma {:induction false} JoinedEmpty(elements: seq<string>, glue: string)
    ensures Joined(elements, glue) == [] <==> forall i :: 0 <= i < |elements| ==> elements[i] == []
    decreases |elements|
  {
    if elements != [] {
      var init := elements[..|elements| - 1];
      JoinedEmpty(init, glue);
      assert forall i :: 0 <= i < |init| ==> init[i] == elements[i];
    }
  }

  /**
   * When no element is empty, JoinStrings interleaves the elements with
   * the glue, so the result has length Σ|eᵢ| + (n−1)·|glue|.
   */
  lemma {:induction false} JoinedNonEmptyElements(elements: seq<string>, glue: string)
    requires forall i :: 0 <= i < |elements| ==> elements[i] != []
    ensures Joined(elements, glue) == Interleaved(elements, glue)
    ensures elements != [] ==>
      |Joined(elements, glue)| == TotalLength(elements) + (|elements| - 1) * |glue|
    decreases |elements|
  {
    if elements != [] {
      var n := |elements|;
      var init := elements[..n - 1];
      JoinedNonEmptyElements(init, glue);
      if n > 1 {
        assert init[0] == elements[0];
        JoinedEmpty(init, glue);
        InterleavedSnoc(init, glue, elements[n - 1]);
        assert init + [elements[n - 1]] == elements;
      }
      InterleavedLength(elements, glue);
    }
  }

  /**
   * JoinStrings: "" for no elements; a null or empty glue joins with
   * nothing; otherwise each element is appended, preceded by the glue
   * whenever the text so far is not empty.
   */
  method JoinStrings(elements: seq<string>, glue: Option<CString>) returns (r: string)
    ensures r == Joined(elements, NullEmptyStr(glue))
  {
    if elements == [] {
      return [];
    }
    var g := NullEmptyStr(glue);
    r := [];
    for i := 0 to |elements|
      invariant r == Joined(elements[..i], g)
    {
      assert elements[..i + 1][..i] == elements[..i];
      if r != [] {
        r := r + g;
      }
      r := r + elements[i];
    }
    assert elements[..|elements|] == elements;
  }
}
