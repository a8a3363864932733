/*
 * SplitLine, the quote-aware tokenizer of SimFireStringTools.cpp, and the
 * C-string Trim it calls to find the non-blank span of an item.
 */
module LineSplitter {
  import opened Wrappers
  import opened CharTests
  import opened StringTools

  // ----- Trim over a C string (the index helper of SplitLine) -----

  /**
   * Trim(const char*, first, last, len) as written, for an item of `len`
   * characters that starts right after the character `before`. On an item
   * made only of trim characters, line 36 moves `last` one below `first`
   * (in size_t arithmetic) whenever the character it looks at, the
   * item's second-to-last one or `before` for a one-character item, is
   * itself a trim character.
   */
  function TrimSpanAsWritten(item: string, before: char, chars: string): (span: (nat, nat))
    requires 1 <= |item| < SizeModulus
    ensures span.0 < |item| && span.1 < SizeModulus
    ensures span.0 <= span.1 <= |item| || SizeSub(span.1, span.0) == SizeModulus - 1
  {
    var first := LeadCount(item[..|item| - 1], chars);
    var last := TrailStart(item, chars, first);
    var atLast := if last >= 1 then item[last - 1] else before;
    if first == last && atLast in chars then (first, SizeSub(first, 1)) else (first, last)
  }

  /**
   * The span SplitLine needs from Trim: the first non-trim character and
   * one past the last, or an empty span when every character is a trim
   * character.
   */
  function TrimSpan(item: string, chars: string): (span: (nat, nat))
    requires |item| >= 1
    ensures span.0 <= span.1 <= |item|
    ensures item[span.0..span.1] == Trimmed(item, chars)
  {
    var first := LeadCount(item[..|item| - 1], chars);
    var lead := LeadCount(item, chars);
    assert first == lead || (lead == |item| && first == |item| - 1);
    var last := TrailStart(item, chars, first);
    (first, last)
  }

  /** Wherever the item holds a character that is not trimmed, the span as written is the intended one. */
  lemma TrimSpanAsWrittenAgrees(item: string, before: char, chars: string, k: nat)
    requires 1 <= |item| < SizeModulus
    requires k < |item| && item[k] !in chars
    ensures TrimSpanAsWritten(item, before, chars) == TrimSpan(item, chars)
  {
    var first := LeadCount(item[..|item| - 1], chars);
    var last := TrailStart(item, chars, first);
    if first == last {
      assert false;
    }
  }

  /**
   * On an item of trim characters only, the span as written ends before it
   * begins whenever the character looked at is a trim character (always so
   * for two characters or more), and SplitLine's item length
   * `last - first` wraps around to 2^64 - 1.
   */
  lemma AllBlankItemWraps(item: string, before: char, chars: string)
    requires 1 <= |item| < SizeModulus
    requires forall i :: 0 <= i < |item| ==> item[i] in chars
    requires |item| >= 2 || before in chars
    ensures var span := TrimSpanAsWritten(item, before, chars);
      span.0 == |item| - 1 && SizeSub(span.1, span.0) == SizeModulus - 1
  {
    var n := |item|;
    var first := LeadCount(item[..n - 1], chars);
    assert first == n - 1;
    var last := TrailStart(item, chars, first);
    assert last == first;
    if n >= 2 {
      assert item[last - 1] in chars;
    }
  }

  /** An item of two blanks: the span as written is (1, 0) where the intended one is the empty (1, 1). */
  lemma TwoBlanksCounterexample()
    ensures TrimSpanAsWritten("  ", ' ', DefaultTrimChars) == (1, 0)
    ensures TrimSpan("  ", DefaultTrimChars) == (1, 1)
  {
    AllBlankItemWraps("  ", ' ', DefaultTrimChars);
    assert "  "[0] in DefaultTrimChars;
  }

  // ----- SplitLine -----

  /** The fixed arguments of one SplitLine call, once `separators` is known to be non-empty. */
  datatype SplitOptions = SplitOptions(separators: CString, glues: Option<CString>, leaveBlanks: bool, trim: bool)

  /**
   * The loop variables of SplitLine: where the current item began, whether
   * an item is being read, and the index in `glues` of the quote that is
   * open (-1 when none is).
   */
  datatype ScanState = ScanState(beg: nat, isItem: bool, quote: int)

  /** The facts the loop keeps about its variables at index `i`. */
  predicate ScanOk(line: CString, i: nat, st: ScanState)
  {
    i <= |line| && st.beg <= i && (st.isItem ==> st.beg < i) && (st.quote >= 0 ==> st.isItem)
  }

  /** The text stored for the item `line[beg..end]`, trimmed of the default characters when asked. */
  function ItemText(line: CString, beg: nat, end: nat, trim: bool): (t: string)
    requires beg < end <= |line|
    ensures |t| <= end - beg
    ensures !trim ==> t != []
    ensures trim && t != [] ==> t[0] !in DefaultTrimChars && t[|t| - 1] !in DefaultTrimChars
  {
    if trim then Trimmed(line[beg..end], DefaultTrimChars) else line[beg..end]
  }

  /** The quote state after reading the ordinary character `c`: a glue opens a region, and only the same glue closes it. */
  function NextQuote(quote: int, c: char, glues: Option<CString>): (r: int)
    ensures quote < 0 ==> (r >= 0 <==> SeparatorIndex(c, glues) >= 0)
    ensures quote >= 0 ==> (r < 0 <==> SeparatorIndex(c, glues) == quote)
    ensures quote >= 0 && r >= 0 ==> r == quote
  {
    var g := SeparatorIndex(c, glues);
    if g < 0 then quote
    else if quote < 0 then g
    else if quote == g then -1
    else quote
  }

  /**
   * One iteration of SplitLine's loop at index `i`: the new loop variables
   * and the items stored so far.
   */
  function ScanStep(line: CString, opt: SplitOptions, i: nat, st: ScanState, out: seq<string>): (next: (ScanState, seq<string>))
    requires ScanOk(line, i, st) && i < |line|
    ensures ScanOk(line, i + 1, next.0)
  {
    var c := line[i];
    if st.quote >= 0 && c == '\\' && SeparatorIndex(At(line, i + 1), opt.glues) >= 0 then
      // an escaped glue inside quotes: only the backslash is skipped
      (st, out)
    else if st.quote < 0 && SeparatorIndex(c, Some(opt.separators)) >= 0 then
      if st.isItem then (st.(isItem := false), out + [ItemText(line, st.beg, i, opt.trim)])
      else (st, if opt.leaveBlanks then out + [""] else out)
    else
      (ScanState(if st.isItem then st.beg else i, true, NextQuote(st.quote, c, opt.glues)), out)
  }

  /**
   * The items SplitLine stores from index `i` on, in state `st`, appended to
   * the items `out` already stored.
   */
  function SplitFrom(line: CString, opt: SplitOptions, i: nat, st: ScanState, out: seq<string>): seq<string>
    requires ScanOk(line, i, st)
    decreases |line| - i
  {
    if i == |line| then
      if st.isItem then out + [ItemText(line, st.beg, i, opt.trim)] else out
    else
      var next := ScanStep(line, opt, i, st, out);
      SplitFrom(line, opt, i + 1, next.0, next.1)
  }

  /** What SplitLine stores in `output`. */
  function Split(line: Option<CString>, separators: Option<CString>, glues: Option<CString>,
                 leaveBlanks: bool, trim: bool): seq<string>
  {
    if line.None? then []
    else if IsEmpty(separators) then [line.value]
    else if line.value == [] then []
    else SplitFrom(line.value, SplitOptions(separators.value, glues, leaveBlanks, trim), 0, ScanState(0, false, -1), [])
  }

  /**
   * SplitLine: scans the line once, cutting it at separators that are not
   * inside a quoted region. An item starts at its first character and is
   * stored (trimmed, when asked) at the next separator or at the end of the
   * line; a separator with no item before it stores a blank only when
   * blanks are kept.
   */
  method SplitLine(line: Option<CString>, separators: Option<CString>, glues: Option<CString>,
                   leaveBlanks: bool, trim: bool) returns (output: seq<string>)
    ensures output == Split(line, separators, glues, leaveBlanks, trim)
  {
    output := [];
    if line.None? {
      return;
    }
    if separators.None? || At(separators.value, 0) == '\0' {
      output := [line.value];
      return;
    }
    var l := line.value;
    var opt := SplitOptions(separators.value, glues, leaveBlanks, trim);
    if |l| < 1 {
      return;
    }
    var beg := 0;
    var isItem := false;
    var isUnseparable := -1;
    for strLoop := 0 to |l|
      invariant ScanOk(l, strLoop, ScanState(beg, isItem, isUnseparable))
      invariant SplitFrom(l, opt, strLoop, ScanState(beg, isItem, isUnseparable), output) ==
                SplitFrom(l, opt, 0, ScanState(0, false, -1), [])
    {
      var c := l[strLoop];
      if isUnseparable >= 0 && c == '\\' {
        var escaped := IsSeparator(At(l, strLoop + 1), glues);
        if escaped >= 0 {
          continue;
        }
      }
      var sep := -1;
      if isUnseparable < 0 {
        sep := IsSeparator(c, separators);
      }
      if sep >= 0 {
        if isItem {
          var item := l[beg..strLoop];
          if trim {
            var span := TrimSpan(item, DefaultTrimChars);
            item := item[span.0..span.1];
          }
          output := output + [item];
          isItem := false;
        } else {
          if leaveBlanks {
            output := output + [""];
          }
          continue;
        }
      } else {
        var tmpSep := IsSeparator(c, glues);
        if tmpSep >= 0 {
          if isUnseparable < 0 {
            isUnseparable := tmpSep;
          } else if isUnseparable == tmpSep {
            isUnseparable := -1;
          }
        }
        if isItem {
          continue;
        } else {
          beg := strLoop;
          isItem := true;
          continue;
        }
      }
    }
    if isItem {
      var item := l[beg..|l|];
      if trim {
        var span := TrimSpan(item, DefaultTrimChars);
        item := item[span.0..span.1];
      }
      output := output + [item];
    }
  }

  /** The degenerate calls: a null line gives nothing, null or empty separators give the whole line, an empty line gives nothing. */
  lemma SplitDegenerate(line: Option<CString>, separators: Option<CString>, glues: Option<CString>,
                        leaveBlanks: bool, trim: bool)
    ensures line.None? ==> Split(line, separators, glues, leaveBlanks, trim) == []
    ensures line.Some? && (separators.None? || separators.value == []) ==>
      Split(line, separators, glues, leaveBlanks, trim) == [line.value]
    ensures line == Some([]) && separators.Some? && separators.value != [] ==>
      Split(line, separators, glues, leaveBlanks, trim) == []
  {
  }

  // ----- Reference: the maximal runs between separators -----

  /** `t` holds no character of `seps`. */
  predicate NoSeparator(t: string, seps: string)
  {
    forall i :: 0 <= i < |t| ==> t[i] !in seps
  }

  /** Where the separator-free run starting at index `i` of `s` ends. */
  function RunEnd(s: string, i: nat, seps: string): (j: nat)
    requires i <= |s|
    ensures i <= j <= |s|
    ensures forall k :: i <= k < j ==> s[k] !in seps
    ensures j < |s| ==> s[j] in seps
    decreases |s| - i
  {
    if i == |s| || s[i] in seps then i else RunEnd(s, i + 1, seps)
  }

  /** The maximal non-empty runs of `s[i..]` that contain no separator, in order. */
  function RunsFrom(s: string, i: nat, seps: string): (r: seq<string>)
    requires i <= |s|
    ensures forall j :: 0 <= j < |r| ==> r[j] != [] && NoSeparator(r[j], seps)
    decreases |s| - i
  {
    if i == |s| then []
    else if s[i] in seps then RunsFrom(s, i + 1, seps)
    else
      var j := RunEnd(s, i, seps);
      [s[i..j]] + RunsFrom(s, j, seps)
  }

  /** The maximal non-empty runs of `s` that contain no separator, in order. */
  function Runs(s: string, seps: string): seq<string>
  {
    RunsFrom(s, 0, seps)
  }

  /** The options of the plain split: no glues, no blanks kept, no trimming. */
  predicate Plain(opt: SplitOptions)
  {
    opt.glues.None? && !opt.leaveBlanks && !opt.trim
  }

  /** One step of the plain split over a separator: the item being read, if any, is stored. */
  lemma PlainSeparatorStep(line: CString, opt: SplitOptions, i: nat, beg: nat, isItem: bool, out: seq<string>)
    requires Plain(opt) && ScanOk(line, i, ScanState(beg, isItem, -1))
    requires i < |line| && line[i] in opt.separators
    ensures SplitFrom(line, opt, i, ScanState(beg, isItem, -1), out) ==
      SplitFrom(line, opt, i + 1, ScanState(beg, false, -1), if isItem then out + [line[beg..i]] else out)
  {
  }

  /** One step of the plain split over any other character: it starts or extends the item. */
  lemma PlainOrdinaryStep(line: CString, opt: SplitOptions, i: nat, beg: nat, isItem: bool, out: seq<string>)
    requires Plain(opt) && ScanOk(line, i, ScanState(beg, isItem, -1))
    requires i < |line| && line[i] !in opt.separators
    ensures SplitFrom(line, opt, i, ScanState(beg, isItem, -1), out) ==
      SplitFrom(line, opt, i + 1, ScanState(if isItem then beg else i, true, -1), out)
  {
  }

  /** The start of an item not being read does not matter. */
  lemma {:induction false} SplitFromIgnoresBeg(line: CString, opt: SplitOptions, i: nat, b1: nat, b2: nat, out: seq<string>)
    requires Plain(opt)
    requires b1 <= i && b2 <= i <= |line|
    ensures SplitFrom(line, opt, i, ScanState(b1, false, -1), out) ==
            SplitFrom(line, opt, i, ScanState(b2, false, -1), out)
    decreases |line| - i
  {
    if i < |line| {
      if line[i] in opt.separators {
        PlainSeparatorStep(line, opt, i, b1, false, out);
        PlainSeparatorStep(line, opt, i, b2, false, out);
        SplitFromIgnoresBeg(line, opt, i + 1, b1, b2, out);
      } else {
        PlainOrdinaryStep(line, opt, i, b1, false, out);
        PlainOrdinaryStep(line, opt, i, b2, false, out);
      }
    }
  }

  /** Outside an item, the plain split of the rest of the line yields its runs. */
  lemma {:induction false} RunsOutsideItem(line: CString, opt: SplitOptions, i: nat, out: seq<string>)
    requires Plain(opt)
    requires i <= |line|
    ensures SplitFrom(line, opt, i, ScanState(i, false, -1), out) == out + RunsFrom(line, i, opt.separators)
    decreases |line| - i, 0
  {
    var seps := opt.separators;
    if i == |line| {
      assert out + [] == out;
    } else if line[i] in seps {
      PlainSeparatorStep(line, opt, i, i, false, out);
      SplitFromIgnoresBeg(line, opt, i + 1, i, i + 1, out);
      RunsOutsideItem(line, opt, i + 1, out);
    } else {
      PlainOrdinaryStep(line, opt, i, i, false, out);
      RunsInsideItem(line, opt, i, i + 1, out);
      var j := RunEnd(line, i + 1, seps);
      assert RunEnd(line, i, seps) == j;
      assert out + [line[i..j]] + RunsFrom(line, j, seps) == out + ([line[i..j]] + RunsFrom(line, j, seps));
    }
  }

  /**
   * Inside an item begun at `beg`, the plain split runs the item to the next
   * separator, and the rest of the line yields its runs.
   */
  lemma {:induction false} RunsInsideItem(line: CString, opt: SplitOptions, beg: nat, i: nat, out: seq<string>)
    requires Plain(opt)
    requires beg < i <= |line|
    ensures SplitFrom(line, opt, i, ScanState(beg, true, -1), out) ==
      out + [line[beg..RunEnd(line, i, opt.separators)]] + RunsFrom(line, RunEnd(line, i, opt.separators), opt.separators)
    decreases |line| - i, 2
  {
    var seps := opt.separators;
    if i == |line| {
      assert RunEnd(line, i, seps) == i && RunsFrom(line, i, seps) == [];
      assert out + [line[beg..i]] + [] == out + [line[beg..i]];
    } else if line[i] in seps {
      RunsItemAtSeparator(line, opt, beg, i, out);
    } else {
      assert RunEnd(line, i, seps) == RunEnd(line, i + 1, seps);
      PlainOrdinaryStep(line, opt, i, beg, true, out);
      RunsInsideItem(line, opt, beg, i + 1, out);
    }
  }

  /** An item ended by a separator at `i` is stored, and the rest of the line yields its runs. */
  lemma {:induction false} RunsItemAtSeparator(line: CString, opt: SplitOptions, beg: nat, i: nat, out: seq<string>)
    requires Plain(opt)
    requires beg < i < |line| && line[i] in opt.separators
    ensures SplitFrom(line, opt, i, ScanState(beg, true, -1), out) ==
      out + [line[beg..i]] + RunsFrom(line, i + 1, opt.separators)
    decreases |line| - i, 1
  {
    PlainSeparatorStep(line, opt, i, beg, true, out);
    SplitFromIgnoresBeg(line, opt, i + 1, beg, i + 1, out + [line[beg..i]]);
    RunsOutsideItem(line, opt, i + 1, out + [line[beg..i]]);
  }

  /**
   * With no glues, no blanks and no trimming, SplitLine stores exactly the
   * maximal separator-free runs of the line, in order, none of them empty.
   */
  lemma SplitIsRuns(line: CString, separators: CString)
    requires separators != []
    ensures Split(Some(line), Some(separators), None, false, false) == Runs(line, separators)
  {
    if line != [] {
      RunsOutsideItem(line, SplitOptions(separators, None, false, false), 0, []);
      assert [] + Runs(line, separators) == Runs(line, separators);
    }
  }

  // ----- What every stored item looks like -----

  /** An item SplitLine may store: empty only when blanks are kept or items are trimmed, and free of surrounding blanks when trimmed. */
  predicate StoredItem(opt: SplitOptions, t: string)
  {
    (t == [] ==> opt.leaveBlanks || opt.trim) && (opt.trim ==> Trimmed(t, DefaultTrimChars) == t)
  }

  /** The text stored for an item has the shape of a stored item. */
  lemma ItemTextStored(line: CString, opt: SplitOptions, beg: nat, end: nat)
    requires beg < end <= |line|
    ensures StoredItem(opt, ItemText(line, beg, end, opt.trim))
  {
    if opt.trim {
      TrimIdempotent(line[beg..end], DefaultTrimChars);
    }
  }

  /** Every item of `items` has the shape of a stored item. */
  predicate AllStored(opt: SplitOptions, items: seq<string>)
  {
    forall k :: 0 <= k < |items| ==> StoredItem(opt, items[k])
  }

  /** One iteration stores only items of the right shape. */
  lemma ScanStepStored(line: CString, opt: SplitOptions, i: nat, st: ScanState, out: seq<string>)
    requires ScanOk(line, i, st) && i < |line|
    requires AllStored(opt, out)
    ensures AllStored(opt, ScanStep(line, opt, i, st, out).1)
  {
    if st.isItem {
      ItemTextStored(line, opt, st.beg, i);
    }
    if opt.leaveBlanks {
      assert Trimmed("", DefaultTrimChars) == "";
      assert StoredItem(opt, "");
    }
  }

  lemma {:induction false} ItemsStoredFrom(line: CString, opt: SplitOptions, i: nat, st: ScanState, out: seq<string>)
    requires ScanOk(line, i, st)
    requires AllStored(opt, out)
    ensures AllStored(opt, SplitFrom(line, opt, i, st, out))
    decreases |line| - i
  {
    if i == |line| {
      if st.isItem {
        ItemTextStored(line, opt, st.beg, i);
      }
    } else {
      var next := ScanStep(line, opt, i, st, out);
      ScanStepStored(line, opt, i, st, out);
      ItemsStoredFrom(line, opt, i + 1, next.0, next.1);
    }
  }

  /**
   * Once the separators are not empty, SplitLine stores no empty item unless
   * blanks are kept or items trimmed, and a trimmed item starts and ends
   * with a character that is not a default trim character.
   */
  lemma SplitItems(line: Option<CString>, separators: Option<CString>, glues: Option<CString>,
                   leaveBlanks: bool, trim: bool)
    requires separators.Some? && separators.value != []
    ensures var r := Split(line, separators, glues, leaveBlanks, trim);
      forall k :: 0 <= k < |r| ==>
        (!leaveBlanks && !trim ==> r[k] != []) &&
        (trim && r[k] != [] ==> r[k][0] !in DefaultTrimChars && r[k][|r[k]| - 1] !in DefaultTrimChars)
  {
    if line.Some? && line.value != [] {
      var opt := SplitOptions(separators.value, glues, leaveBlanks, trim);
      ItemsStoredFrom(line.value, opt, 0, ScanState(0, false, -1), []);
      var r := Split(line, separators, glues, leaveBlanks, trim);
      assert r == SplitFrom(line.value, opt, 0, ScanState(0, false, -1), []);
      assert AllStored(opt, r);
      forall k | 0 <= k < |r| && trim && r[k] != []
        ensures r[k][0] !in DefaultTrimChars && r[k][|r[k]| - 1] !in DefaultTrimChars
      {
        assert StoredItem(opt, r[k]);
        assert Trimmed(r[k], DefaultTrimChars) == r[k];
      }
    }
  }

  /** The line `"a\\",b"`, whose quoted region holds an escaped quote. */
  const EscapedQuoteLine: CString := "\"a\\\",b\""

  /** Comma separators and the double quote as the only glue. */
  const CommaQuote := SplitOptions(",", Some("\""), false, false)

  /** The backslash is skipped, the quote after it closes the region, and the comma ends the first item. */
  lemma EscapedQuoteFirstItem()
    ensures SplitFrom(EscapedQuoteLine, CommaQuote, 0, ScanState(0, false, -1), []) ==
            SplitFrom(EscapedQuoteLine, CommaQuote, 5, ScanState(0, false, -1), [EscapedQuoteLine[0..4]])
  {
    var line, opt := EscapedQuoteLine, CommaQuote;
    assert SplitFrom(line, opt, 0, ScanState(0, false, -1), []) == SplitFrom(line, opt, 1, ScanState(0, true, 0), []);
    assert SplitFrom(line, opt, 1, ScanState(0, true, 0), []) == SplitFrom(line, opt, 2, ScanState(0, true, 0), []);
    assert SplitFrom(line, opt, 2, ScanState(0, true, 0), []) == SplitFrom(line, opt, 3, ScanState(0, true, 0), []);
    assert SplitFrom(line, opt, 3, ScanState(0, true, 0), []) == SplitFrom(line, opt, 4, ScanState(0, true, -1), []);
  }

  /** The rest of the line, `b"`, is the second item, its quote left open at the end. */
  lemma EscapedQuoteSecondItem(out: seq<string>)
    ensures SplitFrom(EscapedQuoteLine, CommaQuote, 5, ScanState(0, false, -1), out) == out + [EscapedQuoteLine[5..7]]
  {
    var line, opt := EscapedQuoteLine, CommaQuote;
    assert SplitFrom(line, opt, 5, ScanState(0, false, -1), out) == SplitFrom(line, opt, 6, ScanState(5, true, -1), out);
    assert SplitFrom(line, opt, 6, ScanState(5, true, -1), out) == SplitFrom(line, opt, 7, ScanState(5, true, 0), out);
  }

  /**
   * Inside quotes, a backslash before a glue is skipped but the glue after it
   * still closes the quoted region: `"a\\",b"` splits at the comma into
   * `"a\\"` and `b"`.
   */
  lemma EscapedQuoteCloses()
    ensures Split(Some(EscapedQuoteLine), Some(","), Some("\""), false, false) == ["\"a\\\"", "b\""]
  {
    EscapedQuoteFirstItem();
    EscapedQuoteSecondItem([EscapedQuoteLine[0..4]]);
    assert EscapedQuoteLine[0..4] == "\"a\\\"" && EscapedQuoteLine[5..7] == "b\"";
  }
}
