/** The tokenizer's behaviour as functions over the characters still to be
    read ("pending"). The imperative tokenizer is proved against these. */
module JsonLexer {
  import opened Results
  import opened Text
  import opened JsonTokens

  /** CharFeeder.Next on the pending characters: the first one, or '\0' once
      the input is exhausted (and then on every further call). */
  function Read(p: seq<char>): (r: (char, seq<char>))
    ensures p == [] ==> r == ('\0', [])
    ensures p != [] ==> [r.0] + r.1 == p
  {
    if p == [] then ('\0', []) else (p[0], p[1..])
  }

  /** CharFeeder.Backtrack: the character last read is read again. A '\0'
      pushed back onto exhausted input is the same as exhausted input. */
  function Push(c: char, p: seq<char>): (r: seq<char>)
    ensures Read(r) == (c, p)
    ensures |r| <= |p| + 1 && (c != '\0' ==> r == [c] + p)
  {
    if c == '\0' && p == [] then [] else [c] + p
  }

  /** The structural characters and their tokens. */
  function Structural(c: char): Option<TokenType> {
    match c
    case '{' => Some(ObjectStart)
    case '}' => Some(ObjectEnd)
    case '[' => Some(ArrayStart)
    case ']' => Some(ArrayEnd)
    case ',' => Some(Comma)
    case ':' => Some(Colon)
    case _ => None
  }

  const Keywords: map<string, TokenType> := map["null" := Null, "true" := True, "false" := False]

  /** ReadNumber after its first digit: digits and at most one '.', then the
      stopping character is pushed back. Result: text, whether a dot was seen,
      and the pending characters afterwards. */
  function ScanNumber(text: string, hasDot: bool, p: seq<char>): (r: (string, bool, seq<char>))
    ensures |r.2| <= |p|
    decreases |p|
  {
    var (c, p1) := Read(p);
    if c == '.' && !hasDot then ScanNumber(text + [c], true, p1)
    else if IsDigit(c) then ScanNumber(text + [c], hasDot, p1)
    else (text, hasDot, Push(c, p1))
  }

  /** ReadKeyword: letters are accumulated until the word is a keyword; the
      first non-letter read before that raises an exception. */
  function ScanKeyword(word: string, p: seq<char>): (r: Result<(JsonToken, seq<char>)>)
    ensures r.Ok? ==> r.value.0.kind in Keywords.Values && r.value.0.text == None && |r.value.1| <= |p|
    decreases |p|
  {
    if word in Keywords then Ok((JsonToken(Keywords[word], None), p))
    else
      var (c, p1) := Read(p);
      if !IsLetter(c) then Err(Exception(""))
      else ScanKeyword(word + [c], p1)
  }

  /** ReadStringToken's loop: raw characters up to the first quote that is not
      escaped, the backslashes kept; '\0' (end of input) raises an exception. */
  function ScanRaw(p: seq<char>, inEscape: bool, acc: string): (r: Result<(string, seq<char>)>)
    ensures r.Ok? ==> |r.value.1| < |p|
    ensures r.Err? ==> r.error == Exception("")
    decreases |p|
  {
    var (c, p1) := Read(p);
    if c == '\0' then Err(Exception(""))
    else if inEscape then ScanRaw(p1, false, acc + [c])
    else if c == '\\' then ScanRaw(p1, true, acc + [c])
    else if c == '"' then Ok((acc, p1))
    else ScanRaw(p1, false, acc + [c])
  }

  /** The character a two-character escape stands for. */
  function SimpleEscape(c: char): Option<char> {
    match c
    case 'n' => Some('\n')
    case 'r' => Some('\r')
    case 't' => Some('\t')
    case '"' => Some('"')
    case '\\' => Some('\\')
    case '/' => Some('/')
    case _ => None
  }

  predicate IsSurrogate(u: nat) { 0xD800 <= u < 0xE000 }
  predicate IsHighSurrogate(u: nat) { 0xD800 <= u < 0xDC00 }
  predicate IsLowSurrogate(u: nat) { 0xDC00 <= u < 0xE000 }

  /** The scalar value a UTF-16 surrogate pair encodes. */
  function CombineSurrogates(hi: nat, lo: nat): (v: nat)
    requires IsHighSurrogate(hi) && IsLowSurrogate(lo)
    ensures 0x10000 <= v < 0x110000
  {
    0x10000 + (hi - 0xD800) * 0x400 + (lo - 0xDC00)
  }

  /** "\u" or "\U" followed by four hex digits at the start of s. */
  predicate UnicodeEscapeAt(s: string) {
    |s| >= 6 && s[0] == '\\' && (s[1] == 'u' || s[1] == 'U') && IsHex4(s[2..6])
  }

  /** The text of a string token: one left-to-right pass that decodes each
      escape exactly once. A \u escape pair for a high and a low surrogate
      yields one character; an unknown escape or a lone surrogate escape is
      kept as written. */
  function Unescape(s: string): string
    decreases |s|
  {
    if s == [] then []
    else if s[0] == '\\' && |s| >= 2 && SimpleEscape(s[1]).Some? then
      [SimpleEscape(s[1]).value] + Unescape(s[2..])
    else if UnicodeEscapeAt(s) then
      var u, t := Hex4Value(s[2..6]), s[6..];
      if IsHighSurrogate(u) && UnicodeEscapeAt(t) && IsLowSurrogate(Hex4Value(t[2..6])) then
        [CombineSurrogates(u, Hex4Value(t[2..6])) as char] + Unescape(t[6..])
      else if !IsSurrogate(u) then [u as char] + Unescape(s[6..])
      else [s[0]] + Unescape(s[1..])
    else [s[0]] + Unescape(s[1..])
  }

  /** The token ReadStringToken returns for the raw characters between the
      quotes: unescaped only when a backslash was seen. */
  function StringToken(raw: string): JsonToken {
    JsonToken(String, Some(if '\\' in raw then Unescape(raw) else raw))
  }

  /** The first token of the pending characters and the pending characters
      after it (JsonTokenizer.NextToken). */
  function Lex(p: seq<char>): (r: Result<(JsonToken, seq<char>)>)
    ensures r.Ok? ==> |r.value.1| <= |p|
    ensures r.Ok? && r.value.0.kind != EOF ==> |r.value.1| < |p|
    ensures r.Ok? ==> WellFormed(r.value.0)
    decreases |p|
  {
    var (c, p1) := Read(p);
    if IsWhiteSpace(c) then Lex(p1) else LexToken(c, p1)
  }

  /** The token that starts with the non-blank character c. */
  function LexToken(c: char, p: seq<char>): (r: Result<(JsonToken, seq<char>)>)
    ensures r.Ok? ==> |r.value.1| <= |p|
    ensures r.Ok? ==> WellFormed(r.value.0)
  {
    if Structural(c).Some? then Ok((JsonToken(Structural(c).value, None), p))
    else if c == '"' then LexString(p)
    else if IsDigit(c) then
      var (text, hasDot, rest) := ScanNumber([c], false, p);
      Ok((JsonToken(if hasDot then Float else Integer, Some(text)), rest))
    else if IsLetter(c) then ScanKeyword([c], p)
    else Ok((JsonToken(EOF, None), p))
  }

  /** ReadStringToken after the opening quote. */
  function LexString(p: seq<char>): (r: Result<(JsonToken, seq<char>)>)
    ensures r.Ok? ==> |r.value.1| < |p| && r.value.0.kind == String && r.value.0.text.Some?
  {
    match ScanRaw(p, false, [])
    case Err(e) => Err(e)
    case Ok((raw, rest)) => Ok((StringToken(raw), rest))
  }
}
