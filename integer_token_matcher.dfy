/** Velox's IntegerTokenMatcher: it accepts an optional leading '-' and then
    digits, and reports at each character whether the token goes on. */
module IntegerTokens {
  import opened Text

  /** The states ProcessChar reports: the character belongs to the token,
      the token ended before it, or no token starts here. */
  datatype TokenizerState = Valid | Success | Fail

  /** ProcessChar's answer for c, given whether c is the token's first
      character. */
  function Respond(c: char, first: bool): (r: TokenizerState)
    ensures r == Valid <==> IsDigit(c) || (c == '-' && first)
    ensures r == Fail <==> first && !IsDigit(c) && c != '-'
  {
    if c == '-' && first then Valid
    else if IsDigit(c) then Valid
    else if first then Fail
    else Success
  }

  /** The answers to the characters of s fed one by one to a fresh or
      started matcher. */
  function Responses(s: string, first: bool): (r: seq<TokenizerState>)
    ensures |r| == |s|
  {
    if s == [] then [] else [Respond(s[0], first)] + Responses(s[1..], false)
  }

  /** An integer token's text: an optional '-' and then digits. */
  predicate IntegerText(s: string) {
    forall i :: 0 <= i < |s| ==> IsDigit(s[i]) || (i == 0 && s[i] == '-')
  }

  /** The i-th answer is the answer to s[i], which is a first character
      only at position 0 of a fresh matcher. */
  lemma {:induction false} ResponseAt(s: string, first: bool, i: int)
    requires 0 <= i < |s|
    ensures Responses(s, first)[i] == Respond(s[i], first && i == 0)
    decreases i
  {
    if i > 0 {
      ResponseAt(s[1..], false, i - 1);
    }
  }

  /** A fresh matcher answers Valid to every character of s exactly when s
      is integer text: a '-' anywhere but first ends the token. */
  lemma AcceptsIntegerText(s: string)
    ensures (forall i :: 0 <= i < |s| ==> Responses(s, true)[i] == Valid) <==> IntegerText(s)
  {
    var r := Responses(s, true);
    if IntegerText(s) {
      forall i | 0 <= i < |s|
        ensures r[i] == Valid
      {
        ResponseAt(s, true, i);
      }
    } else {
      var i :| 0 <= i < |s| && !(IsDigit(s[i]) || (i == 0 && s[i] == '-'));
      ResponseAt(s, true, i);
      assert r[i] != Valid;
    }
  }

  class IntegerTokenMatcher {
    var firstChar: bool

    /** A new matcher waits for the token's first character. */
    constructor ()
      ensures firstChar
    {
      firstChar := true;
    }

    /** CreateTokenProcessor: a fresh matcher in the initial state. */
    method CreateTokenProcessor() returns (m: IntegerTokenMatcher)
      ensures fresh(m) && m.firstChar
    {
      m := new IntegerTokenMatcher();
    }

    /** TranslateToken: the token text unchanged. */
    function TranslateToken(originalToken: string): (r: string)
      ensures r == originalToken
    {
      originalToken
    }

    method ResetState()
      modifies this
      ensures firstChar
    {
      firstChar := true;
    }

    /** ProcessChar: the answer for c at the current position; afterwards the
        matcher is past its first character, whichever answer it gave. */
    method ProcessChar(c: char) returns (r: TokenizerState)
      modifies this
      ensures r == Respond(c, old(firstChar)) && !firstChar
    {
      if c == '-' && firstChar {
        r := Valid;
      } else if IsDigit(c) {
        r := Valid;
      } else if firstChar {
        r := Fail;
      } else {
        r := Success;
      }
      firstChar := false;
    }
  }

  /** "-12-": valid through "-12", then the second '-' ends the token. */
  method SecondMinusEndsToken() returns (rs: seq<TokenizerState>)
    ensures rs == [Valid, Valid, Valid, Success]
  {
    var m := new IntegerTokenMatcher();
    var r1 := m.ProcessChar('-');
    var r2 := m.ProcessChar('1');
    var r3 := m.ProcessChar('2');
    var r4 := m.ProcessChar('-');
    rs := [r1, r2, r3, r4];
  }
}
