/*
 * ParseCommandLine's reading of argv: every argument is split at ',', '|'
 * and ';' (quotes glue), each piece unescaped, and the resulting tokens
 * read as `-key` / `--key` followed by its values. Every key goes to the
 * global section "" with its values, or with "true" when it has none.
 */
module CommandLine {
  import opened Wrappers
  import opened CharTests
  import opened StringTools
  import opened LineSplitter
  import opened ConfigStore

  /** The separators and glues ParseCommandLine hands to SplitLine (mSeparators, mGlues). */
  const ArgSeparators: CString := ",|;"
  const ArgGlues: CString := "\"'"

  /** gTrueName: the value stored for a key given without values. */
  const TrueName := "true"

  /**
   * The tokens of one argument: its split items (trimmed, blanks dropped),
   * each unescaped, which leaves one token per item, at least half as long
   * and no longer.
   */
  function ArgTokens(arg: CString): (r: seq<string>)
    ensures var items := Split(Some(arg), Some(ArgSeparators), Some(ArgGlues), false, true);
      |r| == |items| && forall j :: 0 <= j < |r| ==> |items[j]| <= 2 * |r[j]| && |r[j]| <= |items[j]|
  {
    var items := Split(Some(arg), Some(ArgSeparators), Some(ArgGlues), false, true);
    assert forall j :: 0 <= j < |items| ==>
      2 * Unescaped(items[j], true).1 <= |items[j]| && |Unescaped(items[j], true).0| == |items[j]| - Unescaped(items[j], true).1 by {
      forall j | 0 <= j < |items| {
        UnescapedLength(items[j], true);
      }
    }
    seq(|items|, j requires 0 <= j < |items| => Unescaped(items[j], true).0)
  }

  /** The tokens of all arguments in order, argv[0] included. */
  function AllTokens(argv: seq<CString>): seq<string>
  {
    if argv == [] then [] else ArgTokens(argv[0]) + AllTokens(argv[1..])
  }

  /** A token that starts a new key. */
  predicate IsKeyToken(t: string)
  {
    StartsWith(t, "-")
  }

  /** The key a key token names: the text after "--", or after "-". */
  function KeyOf(t: string): (k: string)
    requires IsKeyToken(t)
    ensures t == "--" + k || (t == "-" + k && !StartsWith(t, "--"))
  {
    if StartsWith(t, "--") then t[2..] else t[1..]
  }

  /** A value token without the quotes around it, if it is quoted as a whole; a lone quote becomes "". */
  function ValueOf(t: string): (v: string)
    ensures !Quoted(t) ==> v == t
    ensures Quoted(t) && 2 <= |t| < SizeModulus ==> v == t[1..|t| - 1]
    ensures Quoted(t) && |t| == 1 ==> v == []
  {
    if Quoted(t) then Unquoted(t) else t
  }

  /** The values stored for a key: those given, or "true" when none were. */
  function StoredVals(vals: seq<string>): (r: seq<string>)
    ensures r != []
  {
    if vals == [] then [TrueName] else vals
  }

  /** firstTokenFound, lastKey and lastVal. */
  datatype CmdState = CmdState(found: bool, key: string, vals: seq<string>)

  const CmdStart := CmdState(false, "", [])

  /** The parse so far: still running with the content and the variables, or failed (return false) with the content left. */
  datatype Flow = Running(store: Store, st: CmdState) | Failed(store: Store)

  /** `after` differs from `before` at most in the global section "". */
  ghost predicate GlobalOnly(before: Store, after: Store)
  {
    after.Keys <= before.Keys + {""} &&
    forall s, i :: s != "" ==> Lookup(after, s, i) == Lookup(before, s, i)
  }

  /**
   * One token. A key token first stores the pending key (failing when its
   * name is empty, as InsertItem refuses it) and then becomes the pending
   * key; any other token, unquoted, joins the pending values unless empty.
   */
  function CmdStep(store: Store, st: CmdState, t: string): (r: Flow)
    ensures r.Failed? <==> IsKeyToken(t) && st.found && st.key == []
    ensures !IsKeyToken(t) ==> r.store == store
  {
    if IsKeyToken(t) then
      if st.found && st.key == [] then Failed(store)
      else
        var stored := if st.found then Inserted(store, "", st.key, StoredVals(st.vals)) else store;
        Running(stored, CmdState(true, KeyOf(t), []))
    else Running(store, WithValue(st, t))
  }

  /** A value token joins the pending values, unquoted, unless it is empty then. */
  function WithValue(st: CmdState, t: string): (r: CmdState)
    ensures r.found == st.found && r.key == st.key
    ensures r.vals == st.vals <==> ValueOf(t) == []
    ensures r.vals != st.vals ==> r.vals == st.vals + [ValueOf(t)]
  {
    var v := ValueOf(t);
    if v == [] then st else st.(vals := st.vals + [v])
  }

  /** The tokens read one after another from `st`, stopping at the first failure. */
  function RunTokens(store: Store, st: CmdState, tokens: seq<string>): Flow
    decreases |tokens|
  {
    if tokens == [] then Running(store, st)
    else
      match CmdStep(store, st, tokens[0])
      case Failed(s) => Failed(s)
      case Running(s, next) => RunTokens(s, next, tokens[1..])
  }

  /** The arguments read one after another, each through its own tokens. */
  function RunArgs(store: Store, st: CmdState, argv: seq<CString>): Flow
    decreases |argv|
  {
    if argv == [] then Running(store, st)
    else
      match RunTokens(store, st, ArgTokens(argv[0]))
      case Failed(s) => Failed(s)
      case Running(s, next) => RunArgs(s, next, argv[1..])
  }

  /** The end of the parse: a failure returns false; else the last pending key, if named, is stored. */
  function Finish(flow: Flow): (r: (bool, Store))
    ensures r.0 <==> flow.Running?
    ensures flow.Failed? ==> r.1 == flow.store
    ensures GlobalOnly(flow.store, r.1)
  {
    match flow
    case Failed(s) => (false, s)
    case Running(s, st) =>
      if st.key == [] then (true, s) else (true, Inserted(s, "", st.key, StoredVals(st.vals)))
  }

  /** ParseCommandLine's result and the content it leaves, from content `store`: only the global section "" changes. */
  function CommandLineResult(store: Store, argv: seq<CString>): (r: (bool, Store))
    ensures GlobalOnly(store, r.1)
  {
    RunArgsGlobalOnly(store, CmdStart, argv);
    Finish(RunArgs(store, CmdStart, argv))
  }

  /** One token changes at most the global section. */
  lemma CmdStepGlobalOnly(store: Store, st: CmdState, t: string)
    ensures GlobalOnly(store, CmdStep(store, st, t).store)
  {
  }

  /** Reading tokens changes at most the global section. */
  lemma {:induction false} RunTokensGlobalOnly(store: Store, st: CmdState, tokens: seq<string>)
    ensures GlobalOnly(store, RunTokens(store, st, tokens).store)
    decreases |tokens|
  {
    if tokens != [] {
      CmdStepGlobalOnly(store, st, tokens[0]);
      match CmdStep(store, st, tokens[0])
      case Failed(s) =>
      case Running(s, next) => RunTokensGlobalOnly(s, next, tokens[1..]);
    }
  }

  lemma {:induction false} RunArgsGlobalOnly(store: Store, st: CmdState, argv: seq<CString>)
    ensures GlobalOnly(store, RunArgs(store, st, argv).store)
    decreases |argv|
  {
    if argv != [] {
      RunTokensGlobalOnly(store, st, ArgTokens(argv[0]));
      match RunTokens(store, st, ArgTokens(argv[0]))
      case Failed(s) =>
      case Running(s, next) => RunArgsGlobalOnly(s, next, argv[1..]);
    }
  }

  /** What parsing a flat token list leaves. */
  function TokensResult(store: Store, tokens: seq<string>): (bool, Store)
  {
    Finish(RunTokens(store, CmdStart, tokens))
  }

  // ----- From arguments to one token list -----

  /** Reading `a + b` is reading `a`, then `b` from where `a` left off. */
  lemma {:induction false} RunTokensAppend(store: Store, st: CmdState, a: seq<string>, b: seq<string>)
    ensures RunTokens(store, st, a + b) ==
      match RunTokens(store, st, a)
      case Failed(s) => Failed(s)
      case Running(s, next) => RunTokens(s, next, b)
    decreases |a|
  {
    if a == [] {
      assert a + b == b;
    } else {
      assert (a + b)[0] == a[0];
      assert (a + b)[1..] == a[1..] + b;
      match CmdStep(store, st, a[0])
      case Failed(s) =>
      case Running(s, next) => RunTokensAppend(s, next, a[1..], b);
    }
  }

  /** Reading the arguments one by one is reading all their tokens as one list. */
  lemma {:induction false} RunArgsFlat(store: Store, st: CmdState, argv: seq<CString>)
    ensures RunArgs(store, st, argv) == RunTokens(store, st, AllTokens(argv))
    decreases |argv|
  {
    if argv != [] {
      RunTokensAppend(store, st, ArgTokens(argv[0]), AllTokens(argv[1..]));
      match RunTokens(store, st, ArgTokens(argv[0]))
      case Failed(s) =>
      case Running(s, next) => RunArgsFlat(s, next, argv[1..]);
    }
  }

  lemma CommandLineIsTokens(store: Store, argv: seq<CString>)
    ensures CommandLineResult(store, argv) == TokensResult(store, AllTokens(argv))
  {
    RunArgsFlat(store, CmdStart, argv);
  }

  // ----- When the parse fails -----

  /** Some key token with an empty name (a bare "-" or "--") is followed later by another key token. */
  predicate EmptyKeyFollowed(tokens: seq<string>)
  {
    exists i, j :: 0 <= i < j < |tokens| && IsKeyToken(tokens[i]) && IsKeyToken(tokens[j]) && KeyOf(tokens[i]) == []
  }

  predicate HasKeyToken(tokens: seq<string>)
  {
    exists j :: 0 <= j < |tokens| && IsKeyToken(tokens[j])
  }

  lemma EmptyKeyFollowedCons(t: string, rest: seq<string>)
    ensures EmptyKeyFollowed([t] + rest) <==>
      EmptyKeyFollowed(rest) || (IsKeyToken(t) && KeyOf(t) == [] && HasKeyToken(rest))
  {
    var ts := [t] + rest;
    if EmptyKeyFollowed(ts) {
      var i, j :| 0 <= i < j < |ts| && IsKeyToken(ts[i]) && IsKeyToken(ts[j]) && KeyOf(ts[i]) == [];
      if i == 0 {
        assert IsKeyToken(rest[j - 1]);
      } else {
        assert IsKeyToken(rest[i - 1]) && IsKeyToken(rest[j - 1]) && KeyOf(rest[i - 1]) == [];
      }
    }
    if EmptyKeyFollowed(rest) {
      var i, j :| 0 <= i < j < |rest| && IsKeyToken(rest[i]) && IsKeyToken(rest[j]) && KeyOf(rest[i]) == [];
      assert ts[i + 1] == rest[i] && ts[j + 1] == rest[j];
    }
    if IsKeyToken(t) && KeyOf(t) == [] && HasKeyToken(rest) {
      var j :| 0 <= j < |rest| && IsKeyToken(rest[j]);
      assert ts[0] == t && ts[j + 1] == rest[j];
    }
  }

  lemma HasKeyTokenCons(t: string, rest: seq<string>)
    ensures HasKeyToken([t] + rest) <==> IsKeyToken(t) || HasKeyToken(rest)
  {
    var ts := [t] + rest;
    if HasKeyToken(ts) {
      var j :| 0 <= j < |ts| && IsKeyToken(ts[j]);
      if j > 0 {
        assert IsKeyToken(rest[j - 1]);
      }
    }
    if HasKeyToken(rest) {
      var j :| 0 <= j < |rest| && IsKeyToken(rest[j]);
      assert ts[j + 1] == rest[j];
    }
    assert ts[0] == t;
  }

  /** From any variables, reading fails exactly when an empty-named key is followed by another key, the pending one included. */
  lemma {:induction false} RunTokensFails(store: Store, st: CmdState, tokens: seq<string>)
    ensures RunTokens(store, st, tokens).Failed? <==>
      EmptyKeyFollowed(tokens) || (st.found && st.key == [] && HasKeyToken(tokens))
    decreases |tokens|
  {
    if tokens == [] {
      assert !HasKeyToken(tokens);
    } else {
      var t, rest := tokens[0], tokens[1..];
      assert tokens == [t] + rest;
      EmptyKeyFollowedCons(t, rest);
      HasKeyTokenCons(t, rest);
      match CmdStep(store, st, t)
      case Failed(s) =>
      case Running(s, next) => RunTokensFails(s, next, rest);
    }
  }

  /**
   * ParseCommandLine returns false exactly when a key with an empty name
   * ("-" or "--" alone) is followed by another key; an empty last key is
   * simply not stored.
   */
  lemma CommandLineFails(store: Store, argv: seq<CString>)
    ensures !CommandLineResult(store, argv).0 <==> EmptyKeyFollowed(AllTokens(argv))
  {
    CommandLineIsTokens(store, argv);
    RunTokensFails(store, CmdStart, AllTokens(argv));
  }

  // ----- What a successful parse stores -----

  /** The values a run of non-key tokens contributes: each unquoted, empty ones dropped. */
  function Kept(vs: seq<string>): (r: seq<string>)
    ensures forall k :: 0 <= k < |r| ==> r[k] != []
    decreases |vs|
  {
    if vs == [] then []
    else
      var v := ValueOf(vs[0]);
      (if v == [] then [] else [v]) + Kept(vs[1..])
  }

  /** A key-free list starts with a value token, and its tail is key-free too. */
  lemma {:induction false} KeyFreeTail(vs: seq<string>)
    requires vs != [] && !HasKeyToken(vs)
    ensures !IsKeyToken(vs[0]) && !HasKeyToken(vs[1..])
  {
    assert forall j :: 0 <= j < |vs| - 1 ==> vs[1..][j] == vs[j + 1];
  }

  /** A non-key token leaves the content alone and passes its value on. */
  lemma {:induction false} ValueTokenRun(store: Store, st: CmdState, vs: seq<string>)
    requires vs != [] && !IsKeyToken(vs[0])
    ensures RunTokens(store, st, vs) == RunTokens(store, WithValue(st, vs[0]), vs[1..])
  {
    assert CmdStep(store, st, vs[0]) == Running(store, WithValue(st, vs[0]));
  }

  /** The values kept after a token are those kept with it. */
  lemma {:induction false} ValueTokenKept(st: CmdState, vs: seq<string>)
    requires vs != []
    ensures WithValue(st, vs[0]).vals + Kept(vs[1..]) == st.vals + Kept(vs)
  {
    var v, rest := ValueOf(vs[0]), Kept(vs[1..]);
    assert Kept(vs) == (if v == [] then [] else [v]) + rest;
    if v == [] {
      assert WithValue(st, vs[0]) == st;
      assert [] + rest == rest;
    } else {
      assert WithValue(st, vs[0]).vals == st.vals + [v];
      assert st.vals + [v] + rest == st.vals + ([v] + rest);
    }
  }

  /** The first of several non-key tokens: the rest has no key token, and the values kept so far grow by its own. */
  lemma {:induction false} ValueTokenStep(store: Store, st: CmdState, vs: seq<string>)
    requires vs != [] && !HasKeyToken(vs)
    ensures !HasKeyToken(vs[1..])
    ensures RunTokens(store, st, vs) == RunTokens(store, WithValue(st, vs[0]), vs[1..])
    ensures WithValue(st, vs[0]).vals + Kept(vs[1..]) == st.vals + Kept(vs)
  {
    KeyFreeTail(vs);
    ValueTokenRun(store, st, vs);
    ValueTokenKept(st, vs);
  }

  /** Non-key tokens only append their kept values; content, key and the found flag stay. */
  lemma {:induction false} ValueTokens(store: Store, st: CmdState, vs: seq<string>)
    requires !HasKeyToken(vs)
    ensures RunTokens(store, st, vs) == Running(store, st.(vals := st.vals + Kept(vs)))
    decreases |vs|
  {
    if vs == [] {
      assert st.vals + [] == st.vals;
    } else {
      ValueTokenStep(store, st, vs);
      ValueTokens(store, WithValue(st, vs[0]), vs[1..]);
    }
  }

  /** Without any key token, parsing succeeds and stores nothing. */
  lemma NoKeyNoChange(store: Store, tokens: seq<string>)
    requires !HasKeyToken(tokens)
    ensures TokensResult(store, tokens) == (true, store)
  {
    ValueTokens(store, CmdStart, tokens);
  }

  /** Tokens before the first key are read as values of no key and dropped. */
  lemma LeadingValuesDropped(store: Store, noise: seq<string>, rest: seq<string>)
    requires !HasKeyToken(noise)
    requires rest != [] && IsKeyToken(rest[0])
    ensures TokensResult(store, noise + rest) == TokensResult(store, rest)
  {
    RunTokensAppend(store, CmdStart, noise, rest);
    ValueTokens(store, CmdStart, noise);
    var st := CmdStart.(vals := CmdStart.vals + Kept(noise));
    assert rest == [rest[0]] + rest[1..];
    assert CmdStep(store, st, rest[0]) == CmdStep(store, CmdStart, rest[0]);
  }

  /** One key and its values: the key, if named, gets the kept values, or "true" when none are left. */
  lemma SingleOption(store: Store, k: string, vs: seq<string>)
    requires IsKeyToken(k) && !HasKeyToken(vs)
    ensures TokensResult(store, [k] + vs) ==
      (true, if KeyOf(k) == [] then store else Inserted(store, "", KeyOf(k), StoredVals(Kept(vs))))
  {
    var st := CmdState(true, KeyOf(k), []);
    assert ([k] + vs)[1..] == vs;
    ValueTokens(store, st, vs);
    assert st.vals + Kept(vs) == Kept(vs);
  }

  /** Two options in a row: the first is stored before the second is read. */
  lemma TwoOptions(store: Store, k1: string, vs1: seq<string>, k2: string, vs2: seq<string>)
    requires IsKeyToken(k1) && KeyOf(k1) != [] && !HasKeyToken(vs1)
    requires IsKeyToken(k2) && !HasKeyToken(vs2)
    ensures TokensResult(store, [k1] + vs1 + ([k2] + vs2)) ==
      TokensResult(Inserted(store, "", KeyOf(k1), StoredVals(Kept(vs1))), [k2] + vs2)
  {
    var st := CmdState(true, KeyOf(k1), []);
    assert [k1] + vs1 + ([k2] + vs2) == [k1] + (vs1 + ([k2] + vs2));
    assert ([k1] + (vs1 + ([k2] + vs2)))[1..] == vs1 + ([k2] + vs2);
    RunTokensAppend(store, st, vs1, [k2] + vs2);
    ValueTokens(store, st, vs1);
    assert st.vals + Kept(vs1) == Kept(vs1);
    assert ([k2] + vs2)[1..] == vs2;
  }
}
