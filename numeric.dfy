// The character-class number classifier IsNumeric. It looks only at which
// characters occur, not at their order, so "-10", "1-0" and "10-" are all
// integers.

module NumericClass {
  import opened Wrappers
  import opened CharTests

  /** The kinds a string can be classified as (NumberType_t). */
  datatype NumberType =
    | Nothing
    | Whitespace
    | IndexNumeric
    | IntegerNumeric
    | HexaNumeric
    | FloatNumeric
    | ScientificNumeric
    | ComplexNumeric

  predicate IsHexDigit(c: char)
  {
    ('0' <= c <= '9') || ('A' <= c <= 'F') || ('a' <= c <= 'f')
  }

  /** The string starts with "0x" or "0X". */
  predicate HasHexPrefix(s: string)
  {
    |s| >= 2 && s[0] == '0' && (s[1] == 'x' || s[1] == 'X')
  }

  /** A character the decimal branch accepts: a digit, a sign, a point, an exponent letter or 'i'. */
  predicate NumericChar(c: char)
  {
    IsNumberChar(c) || c == '+' || c == '-' || c == '.' || c == 'e' || c == 'E' || c == 'i'
  }

  /**
   * The kind the decimal branch reports for text made of numeric characters:
   * the strongest marker present wins, in the order imaginary unit,
   * exponent, decimal point, sign; digits alone are an index.
   */
  function Strongest(p: string): NumberType
  {
    if 'i' in p then ComplexNumeric
    else if 'e' in p || 'E' in p then ScientificNumeric
    else if '.' in p then FloatNumeric
    else if '+' in p || '-' in p then IntegerNumeric
    else IndexNumeric
  }

  /** The kind of the C string `s`, stated by which characters it contains. */
  function NumberClass(s: CString): NumberType
  {
    if HasHexPrefix(s) then
      if forall i :: 2 <= i < |s| ==> IsHexDigit(s[i]) then HexaNumeric else Nothing
    else if forall i :: 0 <= i < |s| ==> NumericChar(s[i]) then Strongest(s)
    else Nothing
  }

  /**
   * IsNumeric: a null pointer is Nothing; after a "0x" prefix every
   * character must be a hex digit; otherwise the characters are scanned
   * once, upgrading the kind as markers are met and giving up on the
   * first character no number can contain.
   */
  method IsNumeric(str: Option<CString>) returns (r: NumberType)
    ensures str.None? ==> r == Nothing
    ensures str.Some? ==> r == NumberClass(str.value)
  {
    if str.None? {
      return Nothing;
    }
    var s := str.value;
    if At(s, 0) == '0' && (At(s, 1) == 'x' || At(s, 1) == 'X') {
      var ptr := 2;
      while At(s, ptr) != '\0'
        invariant 2 <= ptr <= |s|
        invariant forall i :: 2 <= i < ptr ==> IsHexDigit(s[i])
        decreases |s| - ptr
      {
        if !IsHexDigit(s[ptr]) {
          return Nothing;
        }
        ptr := ptr + 1;
      }
      return HexaNumeric;
    }
    var retVal := IndexNumeric;
    var ptr := 0;
    while At(s, ptr) != '\0'
      invariant 0 <= ptr <= |s|
      invariant forall i :: 0 <= i < ptr ==> NumericChar(s[i])
      invariant retVal == Strongest(s[..ptr])
      decreases |s| - ptr
    {
      var c := s[ptr];
      assert s[..ptr + 1] == s[..ptr] + [c];
      if IsNumberChar(c) {
        ptr := ptr + 1;
        continue;
      }
      if c == '+' || c == '-' {
        if retVal == IndexNumeric {
          retVal := IntegerNumeric;
        }
        ptr := ptr + 1;
        continue;
      }
      if c == '.' || c == 'e' || c == 'E' {
        if retVal != ComplexNumeric {
          if c == '.' && retVal != ScientificNumeric {
            retVal := FloatNumeric;
          } else {
            retVal := ScientificNumeric;
          }
        }
        ptr := ptr + 1;
        continue;
      }
      if c == 'i' {
        retVal := ComplexNumeric;
        ptr := ptr + 1;
        continue;
      }
      return Nothing;
    }
    assert s[..ptr] == s;
    return retVal;
  }

  /** After a "0x" prefix the result is hexadecimal exactly when every further character is a hex digit, and Nothing otherwise. */
  lemma HexPrefixClass(s: CString)
    requires HasHexPrefix(s)
    ensures NumberClass(s) == HexaNumeric <==> forall i :: 2 <= i < |s| ==> IsHexDigit(s[i])
    ensures NumberClass(s) != HexaNumeric ==> NumberClass(s) == Nothing
  {
  }

  /** Without a hex prefix, any character outside digits and "+-.eEi" makes the string Nothing. */
  lemma ForeignCharIsNothing(s: CString, k: nat)
    requires !HasHexPrefix(s)
    requires k < |s| && !NumericChar(s[k])
    ensures NumberClass(s) == Nothing
  {
  }

  /** Digits alone, the empty string included, are an index. */
  lemma DigitsAreIndex(s: CString)
    requires forall i :: 0 <= i < |s| ==> IsNumberChar(s[i])
    ensures NumberClass(s) == IndexNumeric
  {
    assert !HasHexPrefix(s) by {
      if |s| >= 2 {
        assert IsNumberChar(s[1]);
      }
    }
    assert 'i' !in s && 'e' !in s && 'E' !in s && '.' !in s && '+' !in s && '-' !in s by {
      forall k | 0 <= k < |s|
        ensures s[k] != 'i' && s[k] != 'e' && s[k] != 'E' && s[k] != '.' && s[k] != '+' && s[k] != '-'
      {
        assert IsNumberChar(s[k]);
      }
    }
  }

  /** Digits with a sign anywhere among them are an integer. */
  lemma SignedDigitsAreInteger(s: CString, k: nat)
    requires forall i :: 0 <= i < |s| ==> IsNumberChar(s[i]) || s[i] == '+' || s[i] == '-'
    requires k < |s| && (s[k] == '+' || s[k] == '-')
    ensures NumberClass(s) == IntegerNumeric
  {
    assert !HasHexPrefix(s) by {
      if |s| >= 2 {
        assert IsNumberChar(s[1]) || s[1] == '+' || s[1] == '-';
      }
    }
    assert 'i' !in s && 'e' !in s && 'E' !in s && '.' !in s by {
      forall j | 0 <= j < |s|
        ensures s[j] != 'i' && s[j] != 'e' && s[j] != 'E' && s[j] != '.'
      {
        assert IsNumberChar(s[j]) || s[j] == '+' || s[j] == '-';
      }
    }
    assert s[k] in s;
  }

  /** The sign's position does not matter: "-10", "1-0" and "10-" are all integers. */
  lemma SignPositionIrrelevant()
    ensures NumberClass("-10") == IntegerNumeric
    ensures NumberClass("1-0") == IntegerNumeric
    ensures NumberClass("10-") == IntegerNumeric
  {
    SignedDigitsAreInteger("-10", 0);
    SignedDigitsAreInteger("1-0", 1);
    SignedDigitsAreInteger("10-", 2);
  }

  /**
   * Away from the hex prefix, the kind depends only on which characters
   * occur and how often, not on their order.
   */
  lemma {:induction false} OrderIndependent(s: CString, t: CString)
    requires multiset(s) == multiset(t)
    requires !HasHexPrefix(s) && !HasHexPrefix(t)
    ensures NumberClass(s) == NumberClass(t)
  {
    forall c
      ensures c in s <==> c in t
    {
      assert c in s <==> c in multiset(s);
      assert c in t <==> c in multiset(t);
    }
    if forall i :: 0 <= i < |s| ==> NumericChar(s[i]) {
      forall j | 0 <= j < |t|
        ensures NumericChar(t[j])
      {
        assert t[j] in t;
        var i :| 0 <= i < |s| && s[i] == t[j];
      }
    } else {
      var i :| 0 <= i < |s| && !NumericChar(s[i]);
      assert s[i] in s;
      var j :| 0 <= j < |t| && t[j] == s[i];
    }
  }
}
