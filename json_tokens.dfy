/** Lexical units of the JSON dialect: the token kinds and the token record
    (kind, text). */
module JsonTokens {
  import opened Results

  /** The token kinds. `Whitespace` exists only in the older enumeration and is
      never produced by the tokenizer. */
  datatype TokenType =
    | ObjectStart | ObjectEnd | ArrayStart | ArrayEnd
    | Null | True | False | Whitespace
    | Comma | Colon | Integer | Float | String | EOF

  /** A token; `text` is present for String, Integer and Float tokens only. */
  datatype JsonToken = JsonToken(kind: TokenType, text: Option<string>)

  /** A token as the tokenizer makes them: with text exactly when it is a
      string or a number. */
  predicate WellFormed(t: JsonToken) {
    t.text.Some? <==> (t.kind == String || t.kind == Integer || t.kind == Float)
  }

  /** The enumeration's ToString, used in the "Unexpected token" message. */
  function TypeName(t: TokenType): string {
    match t
    case ObjectStart => "ObjectStart"
    case ObjectEnd => "ObjectEnd"
    case ArrayStart => "ArrayStart"
    case ArrayEnd => "ArrayEnd"
    case Null => "Null"
    case True => "True"
    case False => "False"
    case Whitespace => "Whitespace"
    case Comma => "Comma"
    case Colon => "Colon"
    case Integer => "Integer"
    case Float => "Float"
    case String => "String"
    case EOF => "EOF"
  }

  /** The text of a token, null (None) when it has none. */
  function TextOf(t: JsonToken): string {
    if t.text.Some? then t.text.value else ""
  }
}
