/*
 * CSimFireConfig: the configuration content, the typed getters over it,
 * and the two parsers that fill it (one INI `key = values` line, and the
 * command line).
 */
module SimFireConfig {
  import opened Wrappers
  import opened CharTests
  import opened StringTools
  import opened NumericClass
  import opened LineSplitter
  import opened ConfigStore
  import opened IniLine
  import opened CommandLine

  /** The glue GetValueStr joins a multi-valued item with. */
  const ValueGlue: CString := ", "

  /**
   * GetValueStr: the default when the section or the item is missing, else
   * the values joined with ", ", which is "" exactly when every value is.
   */
  function ValueStr(store: Store, sect: string, item: string, def: string): (r: string)
    ensures Lookup(store, sect, item).None? ==> r == def
    ensures Lookup(store, sect, item).Some? ==>
      (r == [] <==> forall k :: 0 <= k < |Lookup(store, sect, item).value| ==> Lookup(store, sect, item).value[k] == [])
  {
    match Lookup(store, sect, item)
    case None => def
    case Some(vals) =>
      JoinedEmpty(vals, ValueGlue);
      Joined(vals, ValueGlue)
  }

  /** The kinds the integer getters hand to stoll / stoull. */
  predicate IntegerLike(t: NumberType)
  {
    t == IndexNumeric || t == IntegerNumeric || t == HexaNumeric
  }

  /**
   * GetValueInteger with `stoll` as the conversion (None: it throws). An
   * empty value gives the default; a value IsNumeric (reading up to the
   * first NUL) calls an index, integer or hexadecimal number is converted;
   * anything else gives the default.
   */
  function ValueInteger(store: Store, sect: string, item: string, def: int, stoll: string -> Option<int>): (r: Option<int>)
    ensures r != Some(def) ==> ValueStr(store, sect, item, "") != [] && r == stoll(ValueStr(store, sect, item, ""))
  {
    var v := ValueStr(store, sect, item, "");
    if v == [] then Some(def)
    else if IntegerLike(NumberClass(CView(v))) then stoll(v)
    else Some(def)
  }

  /** GetValueUnsigned: as GetValueInteger, converting with `stoull`. */
  function ValueUnsigned(store: Store, sect: string, item: string, def: nat, stoull: string -> Option<nat>): (r: Option<nat>)
    ensures r != Some(def) ==> ValueStr(store, sect, item, "") != [] && r == stoull(ValueStr(store, sect, item, ""))
  {
    var v := ValueStr(store, sect, item, "");
    if v == [] then Some(def)
    else if IntegerLike(NumberClass(CView(v))) then stoull(v)
    else Some(def)
  }

  /** GetValueBool: a number is true when `stoll` gives non-zero; any other value is true exactly when it is "true" in any case. */
  function ValueBool(store: Store, sect: string, item: string, def: bool, stoll: string -> Option<int>): (r: Option<bool>)
    ensures r.None? ==> stoll(ValueStr(store, sect, item, "")).None?
    ensures r != Some(def) ==> ValueStr(store, sect, item, "") != []
  {
    var v := ValueStr(store, sect, item, "");
    if v == [] then Some(def)
    else if IntegerLike(NumberClass(CView(v))) then
      match stoll(v)
      case None => None
      case Some(n) => Some(n != 0)
    else Some(IEquals(v, TrueName))
  }

  // ----- Properties of the getters -----

  /** A missing section or item reads as the default in every getter. */
  lemma MissingGivesDefault(store: Store, sect: string, item: string, stoll: string -> Option<int>, stoull: string -> Option<nat>,
                            defStr: string, defBool: bool, defInt: int, defNat: nat)
    requires Lookup(store, sect, item).None?
    ensures ValueStr(store, sect, item, defStr) == defStr
    ensures ValueBool(store, sect, item, defBool, stoll) == Some(defBool)
    ensures ValueInteger(store, sect, item, defInt, stoll) == Some(defInt)
    ensures ValueUnsigned(store, sect, item, defNat, stoull) == Some(defNat)
  {
  }

  /** A single value reads back as itself. */
  lemma SingleValueStr(store: Store, sect: string, item: string, v: string, def: string)
    requires Lookup(store, sect, item) == Some([v])
    ensures ValueStr(store, sect, item, def) == v
  {
    JoinedSingle(v, ValueGlue);
  }

  lemma JoinedSingle(v: string, glue: string)
    ensures Joined([v], glue) == v
  {
    assert [v][..0] == [];
  }

  /** What InsertItem stores reads back trimmed, and every other item reads as before. */
  lemma InsertThenRead(store: Store, sect: string, item: string, v: string, s: string, i: string, def: string)
    ensures ValueStr(Inserted(store, sect, item, [v]), sect, item, def) == Trimmed(v, DefaultTrimChars)
    ensures s != sect || i != item ==> ValueStr(Inserted(store, sect, item, [v]), s, i, def) == ValueStr(store, s, i, def)
  {
    var r := Inserted(store, sect, item, [v]);
    assert TrimAll([v]) == [Trimmed(v, DefaultTrimChars)];
    SingleValueStr(r, sect, item, Trimmed(v, DefaultTrimChars), def);
  }

  /** Joining two or more values with a non-empty first one starts with that value and the glue. */
  lemma {:induction false} JoinedHead(vs: seq<string>, glue: string)
    requires |vs| >= 2 && vs[0] != []
    ensures vs[0] + glue <= Joined(vs, glue)
    decreases |vs|
  {
    var init := vs[..|vs| - 1];
    if |vs| == 2 {
      assert init == [vs[0]];
      JoinedSingle(vs[0], glue);
    } else {
      JoinedHead(init, glue);
      var acc := Joined(init, glue);
      assert Joined(vs, glue) == acc + glue + vs[|vs| - 1];
    }
  }

  /** A text with a comma after a non-empty NUL-free start is no number, and no spelling of "true". */
  lemma CommaIsNoNumber(v: string, n: nat)
    requires 1 <= n < |v| && v[n] == ','
    requires forall k :: 0 <= k <= n ==> v[k] != '\0'
    ensures NumberClass(CView(v)) == Nothing
    ensures !IEquals(v, TrueName)
  {
    var c := CView(v);
    assert |c| > n;
    assert c[n] == ',';
    if HasHexPrefix(c) {
      assert !IsHexDigit(c[n]);
    } else {
      ForeignCharIsNothing(c, n);
    }
    if |v| == |TrueName| {
      assert ToLower(v[n]) != ToLower(TrueName[n]);
    }
  }

  /**
   * A multi-valued item (its first value non-empty and without NUL) is
   * joined with ", ", and a comma makes no number: the integer getters
   * give the default and GetValueBool gives false.
   */
  lemma MultiValuedIsNoNumber(store: Store, sect: string, item: string, stoll: string -> Option<int>, stoull: string -> Option<nat>,
                              defBool: bool, defInt: int, defNat: nat)
    requires Lookup(store, sect, item).Some?
    requires var vs := Lookup(store, sect, item).value; |vs| >= 2 && vs[0] != [] && '\0' !in vs[0]
    ensures ValueBool(store, sect, item, defBool, stoll) == Some(false)
    ensures ValueInteger(store, sect, item, defInt, stoll) == Some(defInt)
    ensures ValueUnsigned(store, sect, item, defNat, stoull) == Some(defNat)
  {
    var vs := Lookup(store, sect, item).value;
    var v := ValueStr(store, sect, item, "");
    JoinedHead(vs, ValueGlue);
    var n := |vs[0]|;
    assert (vs[0] + ValueGlue)[n] == ',';
    assert forall k :: 0 <= k < n ==> v[k] == vs[0][k];
    CommaIsNoNumber(v, n);
  }

  /** A single value made of digits only is handed to the conversion. */
  lemma DigitsAreConverted(store: Store, sect: string, item: string, v: string, stoll: string -> Option<int>, stoull: string -> Option<nat>,
                           defInt: int, defNat: nat)
    requires Lookup(store, sect, item) == Some([v])
    requires v != [] && forall k :: 0 <= k < |v| ==> IsNumberChar(v[k])
    ensures ValueInteger(store, sect, item, defInt, stoll) == stoll(v)
    ensures ValueUnsigned(store, sect, item, defNat, stoull) == stoull(v)
  {
    SingleValueStr(store, sect, item, v, "");
    assert '\0' !in v by {
      forall k | 0 <= k < |v|
        ensures v[k] != '\0'
      {
        assert IsNumberChar(v[k]);
      }
    }
    DigitsAreIndex(v);
  }

  /**
   * A single value starting with a character no number contains is never
   * converted: GetValueBool is true exactly when it lower-cases to "true",
   * and the integer getters give the default.
   */
  lemma WordsAreBooleans(store: Store, sect: string, item: string, v: string, stoll: string -> Option<int>, stoull: string -> Option<nat>,
                         defBool: bool, defInt: int, defNat: nat)
    requires Lookup(store, sect, item) == Some([v])
    requires v != [] && v[0] != '\0' && !NumericChar(v[0])
    ensures ValueBool(store, sect, item, defBool, stoll) == Some(Lowered(v) == Lowered(TrueName))
    ensures ValueInteger(store, sect, item, defInt, stoll) == Some(defInt)
    ensures ValueUnsigned(store, sect, item, defNat, stoull) == Some(defNat)
  {
    SingleValueStr(store, sect, item, v, "");
    var c := CView(v);
    assert c != [] && c[0] == v[0];
    ForeignCharIsNothing(c, 0);
  }

  /** CSimFireConfig: the content, section -> item -> values (mCfgContent). */
  class Config {
    var content: Store

    constructor()
      ensures content == map[]
    {
      content := map[];
    }

    /**
     * InsertItem: refuses an empty item name; otherwise the item (and its
     * section, if missing) is created or overwritten with the values, each
     * then trimmed in place.
     */
    method InsertItem(sect: string, item: string, vals: seq<string>) returns (ok: bool)
      modifies this
      ensures ok <==> item != []
      ensures content == if ok then Inserted(old(content), sect, item, vals) else old(content)
    {
      if item == [] {
        return false;
      }
      var values := vals;
      for i := 0 to |values|
        invariant content == old(content)
        invariant |values| == |vals|
        invariant forall k :: 0 <= k < i ==> values[k] == Trimmed(vals[k], DefaultTrimChars)
        invariant forall k :: i <= k < |vals| ==> values[k] == vals[k]
      {
        var t := Trim(values[i], DefaultTrimChars);
        values := values[i := t];
      }
      assert values == TrimAll(vals);
      var section := if sect in content then content[sect] else map[];
      content := content[sect := section[item := values]];
      return true;
    }

    method GetValueStr(sect: string, item: string, def: string) returns (r: string)
      ensures r == ValueStr(content, sect, item, def)
    {
      if sect !in content {
        return def;
      }
      if item !in content[sect] {
        return def;
      }
      r := JoinStrings(content[sect][item], Some(ValueGlue));
    }

    method GetValueBool(sect: string, item: string, def: bool, stoll: string -> Option<int>) returns (r: Option<bool>)
      ensures r == ValueBool(content, sect, item, def, stoll)
    {
      var v := GetValueStr(sect, item, "");
      if v == [] {
        return Some(def);
      }
      var t := IsNumeric(Some(CView(v)));
      if t == IndexNumeric || t == IntegerNumeric || t == HexaNumeric {
        var n := stoll(v);
        if n.None? {
          return None;
        }
        return Some(n.value != 0);
      }
      return Some(IEquals(v, TrueName));
    }

    method GetValueInteger(sect: string, item: string, def: int, stoll: string -> Option<int>) returns (r: Option<int>)
      ensures r == ValueInteger(content, sect, item, def, stoll)
    {
      var v := GetValueStr(sect, item, "");
      if v == [] {
        return Some(def);
      }
      var t := IsNumeric(Some(CView(v)));
      if t == IndexNumeric || t == IntegerNumeric || t == HexaNumeric {
        return stoll(v);
      }
      return Some(def);
    }

    method GetValueUnsigned(sect: string, item: string, def: nat, stoull: string -> Option<nat>) returns (r: Option<nat>)
      ensures r == ValueUnsigned(content, sect, item, def, stoull)
    {
      var v := GetValueStr(sect, item, "");
      if v == [] {
        return Some(def);
      }
      var t := IsNumeric(Some(CView(v)));
      if t == IndexNumeric || t == IntegerNumeric || t == HexaNumeric {
        return stoull(v);
      }
      return Some(def);
    }

    /**
     * ParseINIKeyValuePair: scans the line once (see IniLine), rejects it
     * at a NUL, and stores the entry it finds in section `sect`.
     */
    method ParseINIKeyValuePair(line: string, sect: string) returns (ok: bool)
      modifies this
      ensures ok <==> !IniOutcomeOf(line).Rejected?
      ensures content == match IniOutcomeOf(line)
        case Entry(key, values) => Inserted(old(content), sect, key, values)
        case _ => old(content)
    {
      var readingKey := true;
      var readingQuotes := '\0';
      var readedKey := "";
      var readedVal: seq<string> := [];
      var start := 0;  // SIZE_MAX in the source; never read before the '=' sets it
      var chIdx := 0;
      while chIdx < |line|
        invariant content == old(content)
        invariant IniOk(line, chIdx, IniState(readingKey, readingQuotes, readedKey, readedVal, start))
        invariant IniScan(line, 0, IniStart) == IniScan(line, chIdx, IniState(readingKey, readingQuotes, readedKey, readedVal, start))
        decreases |line| - chIdx
      {
        var actChar := line[chIdx];
        if actChar == '\0' {
          return false;
        }
        if actChar == readingQuotes {
          if line[chIdx - 1] != '\\' {
            readingQuotes := '\0';
          }
          chIdx := chIdx + 1;
          continue;
        }
        if readingQuotes != '\0' {
          chIdx := chIdx + 1;
          continue;
        }
        if actChar == '"' || actChar == '\'' {
          readingQuotes := actChar;
          chIdx := chIdx + 1;
          continue;
        }
        if actChar == '#' || actChar == ';' {
          break;
        }
        if actChar == '=' && readingKey {
          readedKey := line[..chIdx];
          start := chIdx + 1;
          readingKey := false;
          chIdx := chIdx + 1;
          continue;
        }
        if (actChar == ',' || actChar == '|') && !readingKey {
          readedVal := readedVal + [line[start..chIdx]];
          start := chIdx + 1;
        }
        chIdx := chIdx + 1;
      }
      ghost var st := IniState(readingKey, readingQuotes, readedKey, readedVal, start);
      assert IniScan(line, 0, IniStart) == Some((st, chIdx));
      if readingKey {
        readedKey := line;
      } else {
        readedVal := readedVal + [line[start..chIdx]];
      }
      assert readedKey == FinalKey(line, st) && readedVal == FinalValues(line, st, chIdx);
      var key := Trim(readedKey, DefaultTrimChars);
      if Quoted(key) {
        UnescapedKeepsFirst(key, true);
        var unescaped, _ := Unescape(key, true);
        key := Unquoted(unescaped);
      }
      assert key == KeyName(readedKey);
      ScanOutcome(line, st, chIdx, key, readedVal);
      if key != [] {
        var _ := InsertItem(sect, key, readedVal);
      }
      return true;
    }

    /**
     * ParseCommandLine: the tokens of every argument, argv[0] included,
     * read as keys and values (see CommandLine); returns false when a key
     * with an empty name has to be stored.
     */
    method ParseCommandLine(argv: seq<CString>) returns (ok: bool)
      modifies this
      ensures (ok, content) == CommandLineResult(old(content), argv)
    {
      var found := false;
      var lastKey := "";
      var lastVal: seq<string> := [];
      for loop := 0 to |argv|
        invariant RunArgs(old(content), CmdStart, argv) == RunArgs(content, CmdState(found, lastKey, lastVal), argv[loop..])
      {
        var items := SplitLine(Some(argv[loop]), Some(ArgSeparators), Some(ArgGlues), false, true);
        ghost var tokens := ArgTokens(argv[loop]);
        ghost var store0, st0 := content, CmdState(found, lastKey, lastVal);
        assert argv[loop..][0] == argv[loop] && argv[loop..][1..] == argv[loop + 1..];
        for j := 0 to |items|
          invariant RunArgs(old(content), CmdStart, argv) == RunArgs(store0, st0, argv[loop..])
          invariant RunTokens(store0, st0, tokens) == RunTokens(content, CmdState(found, lastKey, lastVal), tokens[j..])
        {
          var token, _ := Unescape(items[j], true);
          assert tokens[j..][0] == token && tokens[j..][1..] == tokens[j + 1..];
          if StartsWith(token, "-") {
            if found {
              var inserted := InsertItem("", lastKey, StoredVals(lastVal));
              if !inserted {
                return false;
              }
            }
            lastKey := if StartsWith(token, "--") then token[2..] else token[1..];
            lastVal := [];
            found := true;
          } else {
            if Quoted(token) {
              token := Unquoted(token);
            }
            if token != [] {
              lastVal := lastVal + [token];
            }
          }
        }
      }
      if lastKey != [] {
        ok := InsertItem("", lastKey, StoredVals(lastVal));
      } else {
        ok := true;
      }
    }
  }
}
