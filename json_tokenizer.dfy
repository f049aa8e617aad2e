/** The string-backed character feeder and the tokenizer, as the classes that
    update their state one character at a time. */
module Tokenizer {
  import opened Results
  import opened Text
  import opened JsonTokens
  import opened JsonLexer

  /** CharFeeder over a string: one character of lookahead and a single-level
      backtrack flag. */
  class StringCharFeeder {
    const s: string
    var index: nat
    var backTracked: bool
    var current: char

    ghost predicate Valid()
      reads this
    {
      index <= |s|
    }

    /** The characters the following calls of Next return, in order. */
    ghost function Pending(): seq<char>
      reads this
      requires Valid()
    {
      if backTracked then Push(current, s[index..]) else s[index..]
    }

    constructor (s: string)
      ensures Valid() && this.s == s && Pending() == s
      ensures !backTracked && current == '\0'
    {
      this.s := s;
      index := 0;
      backTracked := false;
      current := '\0';
    }

    /** The next character of the string as a code, or -1 at its end. */
    method ReadNext() returns (r: int)
      requires Valid()
      modifies this`index
      ensures Valid()
      ensures old(index) >= |s| ==> r == -1 && index == old(index)
      ensures old(index) < |s| ==> r == s[old(index)] as int && index == old(index) + 1
    {
      if index >= |s| {
        r := -1;
      } else {
        r := s[index] as int;
        index := index + 1;
      }
    }

    method Next() returns (c: char)
      requires Valid()
      modifies this
      ensures Valid()
      ensures (c, Pending()) == Read(old(Pending()))
      ensures current == c && !backTracked
    {
      if backTracked {
        backTracked := false;
      } else {
        var next := ReadNext();
        if next < 0 {
          current := '\0';
        } else {
          current := next as char;
        }
      }
      c := current;
    }

    /** Only the flag changes: a second Backtrack replays nothing more. */
    method Backtrack()
      requires Valid()
      modifies this`backTracked
      ensures Valid() && backTracked
      ensures Pending() == if old(backTracked) then old(Pending()) else Push(current, old(Pending()))
    {
      backTracked := true;
    }
  }

  class JsonTokenizer {
    const feeder: StringCharFeeder

    constructor (json: string)
      ensures fresh(feeder) && feeder.Valid() && feeder.Pending() == json
    {
      feeder := new StringCharFeeder(json);
    }

    method NextToken() returns (r: Result<JsonToken>)
      requires feeder.Valid()
      modifies feeder
      ensures feeder.Valid()
      ensures r.Ok? ==> Lex(old(feeder.Pending())) == Ok((r.value, feeder.Pending()))
      ensures r.Err? ==> Lex(old(feeder.Pending())) == Err(r.error)
    {
      while true
        invariant feeder.Valid()
        invariant Lex(feeder.Pending()) == Lex(old(feeder.Pending()))
        decreases |feeder.Pending()|
      {
        var c := feeder.Next();
        if IsWhiteSpace(c) {
          continue;
        }
        var tokenType := Structural(c);
        if tokenType.Some? {
          return Ok(JsonToken(tokenType.value, None));
        }
        if c == '"' {
          r := ReadStringToken();
          return;
        }
        if IsDigit(c) {
          var t := ReadNumber();
          return Ok(t);
        }
        if IsLetter(c) {
          r := ReadKeyword();
          return;
        }
        return Ok(JsonToken(EOF, None));
      }
    }

    /** Reads letters after the current one until the word is a keyword; the
        first non-letter read before that is an error. */
    method ReadKeyword() returns (r: Result<JsonToken>)
      requires feeder.Valid()
      modifies feeder
      ensures feeder.Valid()
      ensures r.Ok? ==> ScanKeyword([old(feeder.current)], old(feeder.Pending())) == Ok((r.value, feeder.Pending()))
      ensures r.Err? ==> ScanKeyword([old(feeder.current)], old(feeder.Pending())) == Err(r.error)
    {
      var keyword := [feeder.current];
      while true
        invariant feeder.Valid()
        invariant ScanKeyword(keyword, feeder.Pending()) == ScanKeyword([old(feeder.current)], old(feeder.Pending()))
        decreases |feeder.Pending()|
      {
        if keyword in Keywords {
          return Ok(JsonToken(Keywords[keyword], None));
        }
        var c := feeder.Next();
        keyword := keyword + [c];
        if !IsLetter(c) {
          return Err(Exception(""));
        }
      }
    }

    /** Reads the rest of a number whose first digit is the current character
        and pushes the stopping character back. */
    method ReadNumber() returns (t: JsonToken)
      requires feeder.Valid()
      modifies feeder
      ensures feeder.Valid()
      ensures var (text, hasDot, rest) := ScanNumber([old(feeder.current)], false, old(feeder.Pending()));
        t == JsonToken(if hasDot then Float else Integer, Some(text)) && feeder.Pending() == rest
    {
      var hasDot := false;
      var s := [feeder.current];
      while true
        invariant feeder.Valid()
        invariant ScanNumber(s, hasDot, feeder.Pending()) == ScanNumber([old(feeder.current)], false, old(feeder.Pending()))
        decreases |feeder.Pending()|
      {
        var c := feeder.Next();
        if c == '.' && !hasDot {
          hasDot := true;
          s := s + [c];
        } else if IsDigit(c) {
          s := s + [c];
        } else {
          feeder.Backtrack();
          return JsonToken(if hasDot then Float else Integer, Some(s));
        }
      }
    }

    /** Reads up to the closing quote and unescapes when a backslash was seen. */
    method ReadStringToken() returns (r: Result<JsonToken>)
      requires feeder.Valid()
      modifies feeder
      ensures feeder.Valid()
      ensures r.Ok? ==> exists raw :: ScanRaw(old(feeder.Pending()), false, []) == Ok((raw, feeder.Pending())) && r.value == StringToken(raw)
      ensures r.Err? ==> ScanRaw(old(feeder.Pending()), false, []) == Err(r.error)
    {
      var inEscape := false;
      var foundEscape := false;
      var s: string := [];
      while true
        invariant feeder.Valid()
        invariant ScanRaw(feeder.Pending(), inEscape, s) == ScanRaw(old(feeder.Pending()), false, [])
        invariant foundEscape <==> '\\' in s
        invariant inEscape ==> foundEscape
        decreases |feeder.Pending()|
      {
        var c := feeder.Next();
        if c == '\0' {
          return Err(Exception(""));
        }
        if inEscape {
          inEscape := false;
        } else if c == '\\' {
          inEscape := true;
          foundEscape := true;
        } else if c == '"' {
          ghost var raw := s;
          if foundEscape {
            s := Unescape(s);
          }
          assert StringToken(raw) == JsonToken(String, Some(s));
          return Ok(JsonToken(String, Some(s)));
        }
        s := s + [c];
      }
    }
  }
}
