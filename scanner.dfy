/** The scanner of tokenizer.js: `get_token` cuts one lexeme off the input at a
    cursor, `analyze` repeats it until the cursor reaches the end of the input.
    The source keeps the cursor in a global variable; here it is passed in and
    handed back explicitly, one scan per fresh cursor. */
module Scanner {

  /** `/[0-9]/` applied to one character. */
  predicate IsDigit(c: char) { '0' <= c <= '9' }

  /** `/[a-zA-Z]/` applied to one character. */
  predicate IsLetter(c: char) { 'a' <= c <= 'z' || 'A' <= c <= 'Z' }

  /** `/=|!|<|>/` applied to one character. */
  predicate IsOpChar(c: char) { c == '=' || c == '!' || c == '<' || c == '>' }

  /** A regular expression `test` succeeds when it matches anywhere in the string. */
  predicate HasLetter(s: string) { exists k :: 0 <= k < |s| && IsLetter(s[k]) }

  predicate HasOpChar(s: string) { exists k :: 0 <= k < |s| && IsOpChar(s[k]) }

  predicate AllDigits(s: string) { forall k :: 0 <= k < |s| ==> IsDigit(s[k]) }

  predicate AllLetters(s: string) { forall k :: 0 <= k < |s| ==> IsLetter(s[k]) }

  /** End of the maximal run of digits that starts at `i`. */
  function DigitRunEnd(data: string, i: nat): (j: nat)
    requires i <= |data|
    ensures i <= j <= |data|
    ensures AllDigits(data[i..j])
    ensures j == |data| || !IsDigit(data[j])
    decreases |data| - i
  {
    if i < |data| && IsDigit(data[i]) then DigitRunEnd(data, i + 1) else i
  }

  /** End of the maximal run of ASCII letters that starts at `i`. */
  function LetterRunEnd(data: string, i: nat): (j: nat)
    requires i <= |data|
    ensures i <= j <= |data|
    ensures AllLetters(data[i..j])
    ensures j == |data| || !IsLetter(data[j])
    decreases |data| - i
  {
    if i < |data| && IsLetter(data[i]) then LetterRunEnd(data, i + 1) else i
  }

  /** Where the lexeme that starts at `i` ends, stated case by case: a digit run,
      a letter run, a comparison operator followed by `=`, or one character. */
  function LexemeEnd(data: string, i: nat): (j: nat)
    requires i < |data|
    ensures i < j <= |data|
  {
    if IsDigit(data[i]) then DigitRunEnd(data, i)
    else if IsLetter(data[i]) then LetterRunEnd(data, i + 1)
    else if IsOpChar(data[i]) && i + 1 < |data| && data[i + 1] == '=' then i + 2
    else i + 1
  }

  /** The lexemes that repeated scanning produces from cursor `i` to the end. */
  function LexemesFrom(data: string, i: nat): seq<string>
    requires i <= |data|
    decreases |data| - i
  {
    if i == |data| then []
    else [data[i..LexemeEnd(data, i)]] + LexemesFrom(data, LexemeEnd(data, i))
  }

  function Concat(ss: seq<string>): string
  {
    if ss == [] then "" else ss[0] + Concat(ss[1..])
  }

  /** The four shapes a lexeme can take. */
  predicate WellFormed(t: string)
  {
    (|t| > 0 && AllDigits(t))
    || (|t| > 0 && AllLetters(t))
    || (|t| == 2 && IsOpChar(t[0]) && t[1] == '=')
    || (|t| == 1 && !IsDigit(t[0]) && !IsLetter(t[0]))
  }

  /** `get_token`: extract one lexeme at cursor `start` and return it with the
      advanced cursor. The caller must not call it at the end of the input
      (there `data[index]` is undefined in the source). */
  method GetToken(data: string, start: nat) returns (token: string, index: nat)
    requires start < |data|
    ensures start < index <= |data|
    ensures token == data[start..index]
    ensures index == LexemeEnd(data, start)
  {
    token := "";
    index := start;
    while index < |data| && IsDigit(data[index])
      invariant start <= index <= |data|
      invariant token == data[start..index]
      invariant AllDigits(token)
      invariant start < index ==> IsDigit(data[start])
      invariant IsDigit(data[start]) ==> DigitRunEnd(data, start) == DigitRunEnd(data, index)
    {
      token := token + [data[index]];
      index := index + 1;
    }
    if token == "" {
      token := token + [data[index]];
      index := index + 1;
      assert HasOpChar(token) <==> IsOpChar(token[0]);
      if index < |data| && HasOpChar(token) && data[index] == '=' {
        token := token + [data[index]];
        index := index + 1;
        assert !IsLetter(token[0]) && !IsLetter(token[1]);
      }
    } else {
      assert !IsLetter(token[0]);
    }
    if HasLetter(token) {
      assert IsLetter(data[start]) && index == start + 1;
      while index < |data| && IsLetter(data[index])
        invariant start < index <= |data|
        invariant token == data[start..index]
        invariant LetterRunEnd(data, start + 1) == LetterRunEnd(data, index)
      {
        token := token + [data[index]];
        index := index + 1;
      }
    }
  }

  /** `analyze`: scan from cursor `start` until the cursor reaches the end. */
  method Analyze(data: string, start: nat) returns (tokens: seq<string>, index: nat)
    requires start <= |data|
    ensures index == |data|
    ensures tokens == LexemesFrom(data, start)
    ensures Concat(tokens) == data[start..]
    ensures forall k :: 0 <= k < |tokens| ==> WellFormed(tokens[k])
  {
    tokens := [];
    index := start;
    while index < |data|
      invariant start <= index <= |data|
      invariant tokens + LexemesFrom(data, index) == LexemesFrom(data, start)
    {
      var token;
      token, index := GetToken(data, index);
      tokens := tokens + [token];
    }
    ConcatLexemes(data, start);
    LexemesWellFormed(data, start);
  }

  lemma {:induction false} ConcatAppend(a: seq<string>, b: seq<string>)
    ensures Concat(a + b) == Concat(a) + Concat(b)
  {
    if a != [] {
      assert (a + b)[0] == a[0] && (a + b)[1..] == a[1..] + b;
      ConcatAppend(a[1..], b);
    } else {
      assert a + b == b;
    }
  }

  /** Concatenating the lexemes in order gives back the input from the cursor on. */
  lemma {:induction false} ConcatLexemes(data: string, i: nat)
    requires i <= |data|
    ensures Concat(LexemesFrom(data, i)) == data[i..]
    decreases |data| - i
  {
    if i < |data| {
      var j := LexemeEnd(data, i);
      ConcatLexemes(data, j);
      assert [data[i..j]] + LexemesFrom(data, j) == LexemesFrom(data, i);
      assert data[i..] == data[i..j] + data[j..];
    }
  }

  /** The lexeme at `i`, by the rule that produced it. A digit lexeme is a
      maximal digit run and never takes letters; otherwise the lexeme is a
      comparison operator with `=` exactly when the input has one there, a
      maximal letter run when it starts with a letter, and one character else. */
  lemma LexemeShape(data: string, i: nat)
    requires i < |data|
    ensures var j := LexemeEnd(data, i); var t := data[i..j];
      && (IsDigit(data[i]) ==> AllDigits(t) && (j == |data| || !IsDigit(data[j])))
      && (!IsDigit(data[i]) ==>
            && (IsLetter(data[i]) ==> AllLetters(t) && (j == |data| || !IsLetter(data[j])))
            && (!IsLetter(data[i]) ==>
                  if IsOpChar(data[i]) && i + 1 < |data| && data[i + 1] == '='
                  then t == [data[i], '=']
                  else t == [data[i]]))
      && WellFormed(t)
  {
  }

  /** Every lexeme the scanner produces has one of the four shapes. */
  lemma {:induction false} LexemesWellFormed(data: string, i: nat)
    requires i <= |data|
    ensures forall k :: 0 <= k < |LexemesFrom(data, i)| ==> WellFormed(LexemesFrom(data, i)[k])
    decreases |data| - i
  {
    if i < |data| {
      LexemeShape(data, i);
      LexemesWellFormed(data, LexemeEnd(data, i));
    }
  }
}
