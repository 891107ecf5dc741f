/** The classifier of tokenizer.js, `get_token_str`: a total, pure lookup from
    the exact text of a lexeme to its category label, or to the empty label
    for a lexical error. */
module Classifier {
  import opened Scanner

  const IntLiteral := "an INT_LITERAL"

  /** The operator and punctuation rows of the lookup, as a table. */
  const Operators: map<string, string> := map[
    "=" := "an ASSIGN_OP",
    "==" := "an EQUALS_OP",
    "<" := "a LESS_THEN_OP",
    "<=" := "a LESS_THEN_OR_EQUAL_OP",
    ">" := "a GREATER_THEN_OP",
    ">=" := "a GREATER_THEN_OR_EQUAL_OP",
    "!" := "a NOT_OP",
    "!=" := "a NOT_EQUALS_OP",
    "+" := "an ADD_OP",
    "-" := "a SUB_OP",
    "*" := "a MULT_OP",
    "/" := "a DIV_OP",
    "^" := "an EXPON_OP",
    "(" := "a LEFT_PAREN",
    ")" := "a RIGHT_PAREN",
    ";" := "a SEMI_COLON"
  ]

  /** ECMAScript white space and line terminators: the characters that
      JavaScript's string-to-number conversion trims. */
  predicate IsJsSpace(c: char)
  {
    c == '\t' || c == '\n' || c == '\U{000B}' || c == '\U{000C}' || c == '\r' || c == ' '
    || c == '\U{00A0}' || c == '\U{1680}' || ('\U{2000}' <= c <= '\U{200A}')
    || c == '\U{2028}' || c == '\U{2029}' || c == '\U{202F}' || c == '\U{205F}'
    || c == '\U{3000}' || c == '\U{FEFF}'
  }

  /** `!isNaN(token)` for the strings the scanner can produce: a string that is
      empty or one white-space character converts to 0, a digit run to its
      value, and "Infinity" to infinity; every other such string is NaN. */
  predicate IsNumber(token: string)
  {
    AllDigits(token) || token == "Infinity" || (|token| == 1 && IsJsSpace(token[0]))
  }

  /** `get_token_str`: the numeric test first, then one equality test per
      operator or punctuation lexeme, and the empty label otherwise. */
  function Label(token: string): (category: string)
    ensures category == "" <==> !IsNumber(token) && token !in Operators
    ensures category == IntLiteral <==> IsNumber(token)
  {
    if IsNumber(token) then IntLiteral
    else if token == "=" then "an ASSIGN_OP"
    else if token == "==" then "an EQUALS_OP"
    else if token == "<" then "a LESS_THEN_OP"
    else if token == "<=" then "a LESS_THEN_OR_EQUAL_OP"
    else if token == ">" then "a GREATER_THEN_OP"
    else if token == ">=" then "a GREATER_THEN_OR_EQUAL_OP"
    else if token == "!" then "a NOT_OP"
    else if token == "!=" then "a NOT_EQUALS_OP"
    else if token == "+" then "an ADD_OP"
    else if token == "-" then "a SUB_OP"
    else if token == "*" then "a MULT_OP"
    else if token == "/" then "a DIV_OP"
    else if token == "^" then "an EXPON_OP"
    else if token == "(" then "a LEFT_PAREN"
    else if token == ")" then "a RIGHT_PAREN"
    else if token == ";" then "a SEMI_COLON"
    else ""
  }

  /** The if-chain agrees with the table: numbers first, then the table, else an error. */
  lemma LabelIsTableLookup(token: string)
    ensures Label(token) == if IsNumber(token) then IntLiteral
                            else if token in Operators then Operators[token]
                            else ""
  {
    if !IsNumber(token) && token in Operators {
      if token == "=" {} else if token == "==" {} else if token == "<" {}
      else if token == "<=" {} else if token == ">" {} else if token == ">=" {}
      else if token == "!" {} else if token == "!=" {} else if token == "+" {}
      else if token == "-" {} else if token == "*" {} else if token == "/" {}
      else if token == "^" {} else if token == "(" {} else if token == ")" {}
      else if token == ";" {}
    }
  }

  /** On the lexemes the scanner produces: a digit run is an INT_LITERAL, a
      letter run other than "Infinity" is a lexical error, and a one- or
      two-character operator lexeme gets its operator label. */
  lemma LabelOfLexeme(t: string)
    requires WellFormed(t)
    ensures |t| > 0 && AllDigits(t) ==> Label(t) == IntLiteral
    ensures |t| > 0 && AllLetters(t) ==> Label(t) == if t == "Infinity" then IntLiteral else ""
    ensures t in Operators ==> Label(t) == Operators[t]
  {
    if |t| > 0 && AllLetters(t) && t != "Infinity" {
      assert !IsDigit(t[0]) && !IsJsSpace(t[0]);
      assert t !in Operators by {
        assert !IsOpChar(t[0]) && t[0] !in "+-*/^();";
      }
    }
  }
}
