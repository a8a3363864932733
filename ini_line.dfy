/*
 * ParseINIKeyValuePair's scan of one `key = v1, v2 | v3 ; comment` line:
 * quotes make '=', ',', '|', '#' and ';' inert, a comment character ends
 * the scan, and an embedded NUL rejects the line.
 */
module IniLine {
  import opened Wrappers
  import opened StringTools
  import opened ConfigStore

  /**
   * The loop variables: whether the key is still being read, the open
   * quote character ('\0' when none), the key once an '=' ended it, the
   * values cut so far, and where the current value began.
   */
  datatype IniState = IniState(readingKey: bool, quote: char, key: string, vals: seq<string>, start: nat)

  const IniStart := IniState(true, '\0', "", [], 0)

  /** The facts the loop keeps about its variables at index `i`. */
  predicate IniOk(line: string, i: nat, st: IniState)
  {
    i <= |line| && st.start <= i && (st.quote != '\0' ==> 1 <= i) && (st.readingKey ==> st.vals == [])
  }

  /** What one iteration does: reject the line, leave the loop, or go on with new variables. */
  datatype IniMove = NulFound | Stop | Advance(next: IniState)

  /** One iteration of the scan at index `i`. */
  function IniStep(line: string, i: nat, st: IniState): (m: IniMove)
    requires IniOk(line, i, st) && i < |line|
    ensures m.Advance? ==> IniOk(line, i + 1, m.next)
  {
    var c := line[i];
    if c == '\0' then NulFound
    else if c == st.quote then
      // the open quote closes unless a backslash precedes it
      Advance(if line[i - 1] != '\\' then st.(quote := '\0') else st)
    else if st.quote != '\0' then Advance(st)
    else if c == '"' || c == '\'' then Advance(st.(quote := c))
    else if c == '#' || c == ';' then Stop
    else if c == '=' && st.readingKey then Advance(st.(key := line[..i], start := i + 1, readingKey := false))
    else if (c == ',' || c == '|') && !st.readingKey then
      Advance(st.(vals := st.vals + [line[st.start..i]], start := i + 1))
    else Advance(st)
  }

  /** The scan from index `i`: None when it meets a NUL, else the final variables and the index where it stopped. */
  function IniScan(line: string, i: nat, st: IniState): (r: Option<(IniState, nat)>)
    requires IniOk(line, i, st)
    ensures r.Some? ==> r.value.0.start <= r.value.1 <= |line|
    decreases |line| - i
  {
    if i == |line| then Some((st, i))
    else
      match IniStep(line, i, st)
      case NulFound => None
      case Stop => Some((st, i))
      case Advance(next) => IniScan(line, i + 1, next)
  }

  /** The raw key: the text before the first '=', or the whole line when there is none. */
  function FinalKey(line: string, st: IniState): string
  {
    if st.readingKey then line else st.key
  }

  /** The raw values: none without an '=', else those cut so far and the last one up to where the scan stopped. */
  function FinalValues(line: string, st: IniState, stop: nat): seq<string>
    requires st.start <= stop <= |line|
  {
    if st.readingKey then [] else st.vals + [line[st.start..stop]]
  }

  /**
   * The key as it is stored: trimmed, and when it is quoted at both ends,
   * unescaped and stripped of its first and last character.
   */
  function KeyName(raw: string): (key: string)
    ensures !Quoted(Trimmed(raw, DefaultTrimChars)) ==> key == Trimmed(raw, DefaultTrimChars)
  {
    var k := Trimmed(raw, DefaultTrimChars);
    if Quoted(k) then
      UnescapedKeepsFirst(k, true);
      Unquoted(Unescaped(k, true).0)
    else k
  }

  /** What ParseINIKeyValuePair does with a line: reject it, accept it storing nothing, or store an entry. */
  datatype IniOutcome = Rejected | Skipped | Entry(key: string, values: seq<string>)

  function IniOutcomeOf(line: string): (r: IniOutcome)
    ensures r.Entry? ==> r.key != []
  {
    match IniScan(line, 0, IniStart)
    case None => Rejected
    case Some((st, stop)) =>
      var key := KeyName(FinalKey(line, st));
      if key == [] then Skipped else Entry(key, FinalValues(line, st, stop))
  }

  /** The outcome, read off a scan that ended with variables `st` at index `stop`. */
  lemma ScanOutcome(line: string, st: IniState, stop: nat, key: string, values: seq<string>)
    requires IniScan(line, 0, IniStart) == Some((st, stop))
    requires key == KeyName(FinalKey(line, st)) && values == FinalValues(line, st, stop)
    ensures IniOutcomeOf(line) == if key == [] then Skipped else Entry(key, values)
  {
  }

  // ----- Reference: the pieces between value separators -----

  /** The first index from `i` on, below `end`, that holds a character of `delims`; `end` if none does. */
  function NextDelim(s: string, i: nat, end: nat, delims: string): (j: nat)
    requires i <= end <= |s|
    ensures i <= j <= end
    ensures forall k :: i <= k < j ==> s[k] !in delims
    ensures j < end ==> s[j] in delims
    decreases end - i
  {
    if i == end || s[i] in delims then i else NextDelim(s, i + 1, end, delims)
  }

  /** `s[start..end]` cut at every character of `delims`: one more piece than there are delimiters, empty pieces kept. */
  function PiecesBetween(s: string, start: nat, end: nat, delims: string): (r: seq<string>)
    requires start <= end <= |s|
    ensures |r| >= 1
    ensures forall k :: 0 <= k < |r| ==> forall c :: c in delims ==> c !in r[k]
    decreases end - start
  {
    var j := NextDelim(s, start, end, delims);
    if j == end then [s[start..end]]
    else [s[start..j]] + PiecesBetween(s, j + 1, end, delims)
  }

  // ----- Quotes -----

  /**
   * The quote open just before index `i` ('\0' when none), read from the
   * line alone: outside a quote, '"' or '\'' opens one; inside, only the
   * same character closes it, and only when no backslash precedes it.
   */
  function OpenQuote(line: string, i: nat): (q: char)
    requires i <= |line|
    ensures q == '\0' || q == '"' || q == '\''
    ensures q != '\0' ==> 1 <= i
  {
    if i == 0 then '\0'
    else
      var q := OpenQuote(line, i - 1);
      var c := line[i - 1];
      if q != '\0' then (if c == q && line[i - 2] != '\\' then '\0' else q)
      else if c == '"' || c == '\'' then c
      else '\0'
  }

  /** A '#' or ';' outside quotes at `k`: where the scan stops. */
  predicate IsRemark(line: string, k: nat)
    requires k < |line|
  {
    (line[k] == '#' || line[k] == ';') && OpenQuote(line, k) == '\0'
  }

  /** The scan's quote variable is the quote the line has open at that index. */
  lemma QuoteTracked(line: string, i: nat, st: IniState)
    requires IniOk(line, i, st) && i < |line| && st.quote == OpenQuote(line, i)
    requires IniStep(line, i, st).Advance?
    ensures IniStep(line, i, st).next.quote == OpenQuote(line, i + 1)
  {
  }

  /**
   * Inside an open quote, every character up to the first copy of that
   * quote not preceded by a backslash is inert: '=', ',', '|', '#' and ';'
   * change nothing, and the unescaped quote closes the region.
   */
  lemma {:induction false} QuotedRegion(line: string, i: nat, e: nat, st: IniState)
    requires IniOk(line, i, st) && st.quote != '\0'
    requires i <= e < |line| && line[e] == st.quote && line[e - 1] != '\\'
    requires forall k :: i <= k < e ==> line[k] != '\0' && (line[k] == st.quote ==> line[k - 1] == '\\')
    ensures IniScan(line, i, st) == IniScan(line, e + 1, st.(quote := '\0'))
    decreases e - i
  {
    if i < e {
      assert IniStep(line, i, st) == Advance(st);
      QuotedRegion(line, i + 1, e, st);
    }
  }

  /** A quote character preceded by a backslash leaves the quote open. */
  lemma EscapedQuoteStaysOpen(line: string, i: nat, st: IniState)
    requires IniOk(line, i, st) && st.quote != '\0'
    requires i < |line| && line[i] == st.quote && line[i - 1] == '\\'
    ensures IniScan(line, i, st) == IniScan(line, i + 1, st)
  {
  }

  /** A whole quoted span, from its opening quote to its unescaped closing one, leaves every variable as it was. */
  lemma QuotedSpan(line: string, o: nat, e: nat, st: IniState)
    requires IniOk(line, o, st) && st.quote == '\0'
    requires o < e < |line| && (line[o] == '"' || line[o] == '\'')
    requires line[e] == line[o] && line[e - 1] != '\\'
    requires forall k :: o < k < e ==> line[k] != '\0' && (line[k] == line[o] ==> line[k - 1] == '\\')
    ensures IniScan(line, o, st) == IniScan(line, e + 1, st)
  {
    var open := st.(quote := line[o]);
    assert IniStep(line, o, st) == Advance(open);
    QuotedRegion(line, o + 1, e, open);
    assert open.(quote := '\0') == st;
  }

  // ----- When a line is rejected -----

  /** A line without NUL is never rejected. */
  lemma {:induction false} NulFreeScans(line: string, i: nat, st: IniState)
    requires IniOk(line, i, st)
    requires forall k :: i <= k < |line| ==> line[k] != '\0'
    ensures IniScan(line, i, st).Some?
    decreases |line| - i
  {
    if i < |line| {
      var m := IniStep(line, i, st);
      if m.Advance? {
        NulFreeScans(line, i + 1, m.next);
      }
    }
  }

  lemma NulFreeAccepted(line: string)
    requires '\0' !in line
    ensures IniOutcomeOf(line) != Rejected
  {
    NulFreeScans(line, 0, IniStart);
  }

  /** No '#' or ';' outside quotes before index `n`. */
  predicate NoRemarkBefore(line: string, n: nat)
    requires n <= |line|
  {
    forall k :: 0 <= k < n ==> !IsRemark(line, k)
  }

  lemma {:induction false} NulScanRejects(line: string, i: nat, st: IniState, n: nat)
    requires IniOk(line, i, st) && st.quote == OpenQuote(line, i)
    requires i <= n < |line| && line[n] == '\0'
    requires forall k :: i <= k < n ==> !IsRemark(line, k)
    ensures IniScan(line, i, st).None?
    decreases |line| - i
  {
    assert i < n ==> !IsRemark(line, i);
    var m := IniStep(line, i, st);
    if m.Advance? {
      QuoteTracked(line, i, st);
      NulScanRejects(line, i + 1, m.next, n);
    }
  }

  /** A NUL before the first '#' or ';' outside quotes rejects the line, wherever else comment characters appear. */
  lemma NulRejected(line: string, n: nat)
    requires n < |line| && line[n] == '\0'
    requires NoRemarkBefore(line, n)
    ensures IniOutcomeOf(line) == Rejected
  {
    NulScanRejects(line, 0, IniStart, n);
  }

  lemma {:induction false} RemarkScanAccepts(line: string, i: nat, st: IniState)
    requires IniOk(line, i, st) && st.quote == OpenQuote(line, i)
    requires forall n :: i <= n < |line| && line[n] == '\0' ==> exists k :: i <= k < n && IsRemark(line, k)
    ensures IniScan(line, i, st).Some?
    decreases |line| - i
  {
    if i < |line| {
      var m := IniStep(line, i, st);
      if m.Advance? {
        QuoteTracked(line, i, st);
        forall n | i + 1 <= n < |line| && line[n] == '\0'
          ensures exists k :: i + 1 <= k < n && IsRemark(line, k)
        {
          var k :| i <= k < n && IsRemark(line, k);
          assert k != i;
        }
        RemarkScanAccepts(line, i + 1, m.next);
      }
    }
  }

  /** ParseINIKeyValuePair returns false exactly when a NUL comes before every '#' or ';' outside quotes. */
  lemma RejectedIff(line: string)
    ensures IniOutcomeOf(line) == Rejected <==>
      exists n :: 0 <= n < |line| && line[n] == '\0' && NoRemarkBefore(line, n)
  {
    if n :| 0 <= n < |line| && line[n] == '\0' && NoRemarkBefore(line, n) {
      NulRejected(line, n);
    } else {
      RemarkScanAccepts(line, 0, IniStart);
    }
  }

  /** `k="#"` followed by a NUL: the '#' is quoted, so the NUL is reached and the line is rejected. */
  lemma QuotedRemarkThenNul()
    ensures IniOutcomeOf("k=\"#\"\0") == Rejected
  {
    var line := "k=\"#\"\0";
    assert OpenQuote(line, 3) == '"';
    assert OpenQuote(line, 5) == '\0';
    assert NoRemarkBefore(line, 5);
    NulRejected(line, 5);
  }

  lemma {:induction false} NoAssignmentScan(line: string, i: nat, st: IniState)
    requires IniOk(line, i, st) && st.readingKey
    requires forall k :: i <= k < |line| ==> line[k] != '\0' && line[k] != '='
    ensures IniScan(line, i, st).Some? && IniScan(line, i, st).value.0.readingKey
    decreases |line| - i
  {
    if i < |line| {
      var m := IniStep(line, i, st);
      if m.Advance? {
        NoAssignmentScan(line, i + 1, m.next);
      }
    }
  }

  /** Without an '=' the whole line, comment included, is the key, and the value list is empty. */
  lemma NoAssignment(line: string)
    requires '\0' !in line && '=' !in line
    ensures IniOutcomeOf(line) == (if KeyName(line) == [] then Skipped else Entry(KeyName(line), []))
  {
    NoAssignmentScan(line, 0, IniStart);
  }

  /** No quote, comment character or NUL in `line[i..j]`. */
  predicate PlainBetween(line: string, i: nat, j: nat)
    requires i <= j <= |line|
  {
    forall k :: i <= k < j ==> line[k] != '"' && line[k] != '\'' && line[k] != '#' && line[k] != ';' && line[k] != '\0'
  }

  /** Before the first '=', plain characters leave the variables alone, and the '=' ends the key. */
  lemma {:induction false} KeyPhase(line: string, e: nat, i: nat, st: IniState)
    requires IniOk(line, i, st) && st.readingKey && st.quote == '\0'
    requires i <= e < |line| && line[e] == '='
    requires PlainBetween(line, i, e)
    requires forall k :: i <= k < e ==> line[k] != '='
    ensures IniScan(line, i, st) == IniScan(line, e + 1, st.(key := line[..e], start := e + 1, readingKey := false))
    decreases e - i
  {
    if i < e {
      KeyPhase(line, e, i + 1, st);
    }
  }

  /**
   * The scan result `r`, run on the value part from variables `st`, stopped
   * at `p` and holds the values already cut plus the pieces of
   * `line[st.start..p]` between ',' and '|'.
   */
  predicate ValuesResult(line: string, p: nat, st: IniState, r: Option<(IniState, nat)>)
    requires st.start <= p <= |line|
  {
    && r.Some? && r.value.1 == p && r.value.0.start <= p
    && !r.value.0.readingKey && r.value.0.key == st.key
    && FinalValues(line, r.value.0, p) == st.vals + PiecesBetween(line, st.start, p, ",|")
  }

  /** A value separator at `i` closes the value begun at `st.start`. */
  lemma ValuesSeparatorStep(line: string, p: nat, i: nat, st: IniState)
    requires IniOk(line, i, st) && !st.readingKey && st.quote == '\0'
    requires i < p <= |line| && (line[i] == ',' || line[i] == '|')
    requires forall k :: st.start <= k < i ==> line[k] != ',' && line[k] != '|'
    requires var next := st.(vals := st.vals + [line[st.start..i]], start := i + 1);
      ValuesResult(line, p, next, IniScan(line, i + 1, next))
    ensures ValuesResult(line, p, st, IniScan(line, i, st))
  {
    var next := st.(vals := st.vals + [line[st.start..i]], start := i + 1);
    assert IniStep(line, i, st) == Advance(next);
    assert NextDelim(line, st.start, p, ",|") == i;
    assert st.vals + [line[st.start..i]] + PiecesBetween(line, i + 1, p, ",|") ==
           st.vals + ([line[st.start..i]] + PiecesBetween(line, i + 1, p, ",|"));
  }

  /** After the '=', plain characters up to `p` are cut into values at every ',' and '|'. */
  lemma {:induction false} ValuesPhase(line: string, p: nat, i: nat, st: IniState)
    requires IniOk(line, i, st) && !st.readingKey && st.quote == '\0'
    requires i <= p <= |line| && (p < |line| ==> line[p] == '#' || line[p] == ';')
    requires PlainBetween(line, i, p)
    requires forall k :: st.start <= k < i ==> line[k] != ',' && line[k] != '|'
    ensures ValuesResult(line, p, st, IniScan(line, i, st))
    decreases p - i
  {
    if i == p {
      assert NextDelim(line, st.start, p, ",|") == p;
    } else if line[i] == ',' || line[i] == '|' {
      var next := st.(vals := st.vals + [line[st.start..i]], start := i + 1);
      ValuesPhase(line, p, i + 1, next);
      ValuesSeparatorStep(line, p, i, st);
    } else {
      assert IniStep(line, i, st) == Advance(st);
      ValuesPhase(line, p, i + 1, st);
    }
  }

  /**
   * A line whose text before the comment character at `p` (or the end) has
   * no quote and no NUL: the key is the text before the first '=', and the
   * values are the pieces between it and `p`, cut at every ',' and '|'.
   */
  lemma SimpleLine(line: string, e: nat, p: nat)
    requires e < p <= |line| && (p < |line| ==> line[p] == '#' || line[p] == ';')
    requires PlainBetween(line, 0, p)
    requires line[e] == '=' && forall k :: 0 <= k < e ==> line[k] != '='
    ensures IniOutcomeOf(line) ==
      (if KeyName(line[..e]) == [] then Skipped else Entry(KeyName(line[..e]), PiecesBetween(line, e + 1, p, ",|")))
  {
    KeyPhase(line, e, 0, IniStart);
    var st := IniStart.(key := line[..e], start := e + 1, readingKey := false);
    ValuesPhase(line, p, e + 1, st);
  }

  const QuotedKeyLine := "\"a=b\" = c"

  /** The scan of `"a=b" = c`: the quote hides the first '=', the second one ends the key. */
  lemma QuotedKeyScan()
    ensures IniScan(QuotedKeyLine, 0, IniStart) ==
      Some((IniStart.(key := QuotedKeyLine[..6], start := 7, readingKey := false), 9))
  {
    var line := QuotedKeyLine;
    var open := IniStart.(quote := '"');
    assert IniScan(line, 0, IniStart) == IniScan(line, 1, open);
    assert IniScan(line, 1, open) == IniScan(line, 4, open);
    assert IniScan(line, 4, open) == IniScan(line, 6, IniStart);
    var st := IniStart.(key := line[..6], start := 7, readingKey := false);
    assert IniScan(line, 6, IniStart) == IniScan(line, 7, st);
  }

  /** The raw key `"a=b" ` is trimmed, then loses its quotes. */
  lemma QuotedKeyName()
    ensures KeyName(QuotedKeyLine[..6]) == "a=b"
  {
    assert QuotedKeyLine[..6] == "\"a=b\" ";
    var raw := QuotedKeyLine[..6];
    assert LeadCount(raw, DefaultTrimChars) == 0;
    assert raw[..5] == "\"a=b\"";
    assert TrailStart(raw, DefaultTrimChars, 0) == TrailStart(raw[..5], DefaultTrimChars, 0) == 5;
    var k := Trimmed(raw, DefaultTrimChars);
    assert k == "\"a=b\"";
    UnescapedPlain(k, true);
  }

  /** Inside quotes '=' is inert: `"a=b" = c` stores the key `a=b` with the value ` c` (InsertItem trims it later). */
  lemma QuotedKeyKeepsAssignment()
    ensures IniOutcomeOf(QuotedKeyLine) == Entry("a=b", [" c"])
  {
    QuotedKeyScan();
    QuotedKeyName();
    QuotedKeyValue();
    var st := IniStart.(key := QuotedKeyLine[..6], start := 7, readingKey := false);
    ScanOutcome(QuotedKeyLine, st, 9, "a=b", [" c"]);
  }

  lemma QuotedKeyValue()
    ensures QuotedKeyLine[7..9] == " c"
  {
    assert |QuotedKeyLine| == 9 && QuotedKeyLine[7] == ' ' && QuotedKeyLine[8] == 'c';
  }
}
