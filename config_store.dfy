/*
 * The content of the configuration (mCfgContent): section name -> item
 * name -> list of values, and the update InsertItem performs on it.
 */
module ConfigStore {
  import opened Wrappers
  import opened StringTools

  /** The items of one section, each with its list of values. */
  type Section = map<string, seq<string>>

  /** The whole configuration: sections by name; "" is the global section. */
  type Store = map<string, Section>

  /** The values of `item` in section `sect`, if both exist. */
  function Lookup(store: Store, sect: string, item: string): Option<seq<string>>
  {
    if sect in store && item in store[sect] then Some(store[sect][item]) else None
  }

  /** Every value with the default trim characters removed from both ends: no value left starts or ends with one. */
  function TrimAll(vals: seq<string>): (r: seq<string>)
    ensures |r| == |vals|
    ensures forall i :: 0 <= i < |r| && r[i] != [] ==> r[i][0] !in DefaultTrimChars && r[i][|r[i]| - 1] !in DefaultTrimChars
  {
    seq(|vals|, i requires 0 <= i < |vals| => Trimmed(vals[i], DefaultTrimChars))
  }

  /**
   * The content after InsertItem(sect, item, vals) with a non-empty item
   * name: the section is created when missing, the item gets the trimmed
   * values in place of anything it held, and every other entry is kept.
   */
  function Inserted(store: Store, sect: string, item: string, vals: seq<string>): (r: Store)
    ensures Lookup(r, sect, item) == Some(TrimAll(vals))
    ensures forall s, i :: (s != sect || i != item) ==> Lookup(r, s, i) == Lookup(store, s, i)
    ensures r.Keys == store.Keys + {sect}
  {
    var section := if sect in store then store[sect] else map[];
    store[sect := section[item := TrimAll(vals)]]
  }

  /** Inserting the same entry twice leaves the same content as inserting it once. */
  lemma InsertedIdempotent(store: Store, sect: string, item: string, vals: seq<string>)
    ensures Inserted(Inserted(store, sect, item, vals), sect, item, vals) == Inserted(store, sect, item, vals)
  {
    InsertedOverwrites(store, sect, item, vals, vals);
  }

  /** Later insertions of the same entry win over earlier ones. */
  lemma InsertedOverwrites(store: Store, sect: string, item: string, v1: seq<string>, v2: seq<string>)
    ensures Inserted(Inserted(store, sect, item, v1), sect, item, v2) == Inserted(store, sect, item, v2)
  {
    var section := if sect in store then store[sect] else map[];
    var once := Inserted(store, sect, item, v1);
    assert once[sect][item := TrimAll(v2)] == section[item := TrimAll(v2)];
  }

  /** The whole text is enclosed in a pair of double or of single quotes (a lone quote counts). */
  predicate Quoted(t: string)
    ensures Quoted(t) <==> t != [] && (t[0] == '"' || t[0] == '\'') && t[|t| - 1] == t[0]
  {
    (StartsWith(t, "\"") && EndsWith(t, "\"")) || (StartsWith(t, "'") && EndsWith(t, "'"))
  }

  /**
   * `t.substr(1, t.size() - 2)`, used to drop the quotes around a text: all
   * but the first and last character, and "" for a single character, whose
   * count wraps around in size_t.
   */
  function Unquoted(t: string): (r: string)
    requires t != []
    ensures 2 <= |t| < SizeModulus ==> r == t[1..|t| - 1]
    ensures |t| == 1 ==> r == []
  {
    SubStr(t, 1, SizeSub(|t|, 2))
  }
}
