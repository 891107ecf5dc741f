/** The reporter of tokenizer.js: the closure that `merge` returns, which turns
    one lexeme (with the label at its own running index) into a chunk of the
    report, and `reduce`, which concatenates those chunks left to right.

    The closure's three mutable counters become the fields of `Merger`; one
    call of the closure is `Merger.Merge`. Its meaning is the pure `Step` on
    `Counters`, and `ReportFrom` is the fold of `Step` that `Reduce` computes.
    `ClosedReportFrom` describes the same report without any counters, and
    `ReportIsClosedForm` proves the two equal. */
module Reporter {

  // ---------------------------------------------------------------------
  // Rendering numbers, as JavaScript's `"..." + n` does for integers.

  function DigitChar(d: nat): char
    requires d < 10
  {
    "0123456789"[d]
  }

  /** Decimal text of a natural number, most significant digit first. */
  function NatText(n: nat): (s: string)
    ensures |s| > 0
    ensures forall k :: 0 <= k < |s| ==> '0' <= s[k] <= '9'
  {
    if n < 10 then [DigitChar(n)] else NatText(n / 10) + [DigitChar(n % 10)]
  }

  /** Decimal text of an integer, with a leading minus sign when negative. */
  function IntText(i: int): string
  {
    if i < 0 then "-" + NatText(-i) else NatText(i)
  }

  /** The value of a string of decimal digits: the inverse of `NatText`. */
  function DecimalValue(s: string): int
  {
    if s == [] then 0 else 10 * DecimalValue(s[..|s| - 1]) + (s[|s| - 1] as int - '0' as int)
  }

  lemma {:induction false} NatTextRoundTrip(n: nat)
    ensures DecimalValue(NatText(n)) == n
  {
    if n >= 10 {
      NatTextRoundTrip(n / 10);
      var s := NatText(n);
      assert s[..|s| - 1] == NatText(n / 10);
    }
  }

  // ---------------------------------------------------------------------
  // The lines of the report.

  const Separator := "---------------------------------------------------------\n"

  function Header(statement: int): string
  {
    "Statement #" + IntText(statement) + "\n"
  }

  function ErrorLine(token: string): string
  {
    "===> '" + token + "' \nLexical error: not a lexeme\n"
  }

  function LexemeLine(lexeme: int, token: string, category: string): string
  {
    "Lexeme " + IntText(lexeme) + " is " + token + " and is " + category + "\n"
  }

  // ---------------------------------------------------------------------
  // One call of the closure, on values.

  /** The closure's counters: the next statement number, and the number of the
      next lexeme in the current statement, -1 meaning that a `;` was just seen. */
  datatype Counters = Counters(statementCount: int, lexemeCount: int)

  const Start := Counters(1, 0)

  /** The chunk one lexeme contributes, and the counters after it. */
  function Step(c: Counters, token: string, category: string): (string, Counters)
  {
    var lexeme := if c.lexemeCount == -1 then 0 else c.lexemeCount;
    var separator := if c.lexemeCount == -1 then Separator else "";
    var header := if lexeme == 0 then Header(c.statementCount) else "";
    var statement := if lexeme == 0 then c.statementCount + 1 else c.statementCount;
    var line := if |category| == 0 then ErrorLine(token) else LexemeLine(lexeme, token, category);
    var next := if |category| == 0 then lexeme else lexeme + 1;
    (separator + header + line, Counters(statement, if token == ";" then -1 else next))
  }

  /** The fold of `Step` over `tokens`, pairing each token with the label at
      the same position of `labels`. */
  function ReportFrom(c: Counters, tokens: seq<string>, labels: seq<string>): string
    requires |tokens| <= |labels|
    decreases |tokens|
  {
    if tokens == [] then ""
    else
      var (chunk, next) := Step(c, tokens[0], labels[0]);
      chunk + ReportFrom(next, tokens[1..], labels[1..])
  }

  /** The counters the closure holds after the chunks of `ReportFrom`. */
  function CountersFrom(c: Counters, tokens: seq<string>, labels: seq<string>): Counters
    requires |tokens| <= |labels|
    decreases |tokens|
  {
    if tokens == [] then c
    else CountersFrom(Step(c, tokens[0], labels[0]).1, tokens[1..], labels[1..])
  }

  /** The report the program writes for the filtered lexemes and their labels. */
  function Report(tokens: seq<string>, labels: seq<string>): string
    requires |tokens| <= |labels|
  {
    ReportFrom(Start, tokens, labels)
  }

  // ---------------------------------------------------------------------
  // The closure and the fold, as the source runs them.

  /** The closure returned by `merge(token_str)`. */
  class Merger {
    const tokenStr: seq<string>
    var statementCount: int
    var lexemeCount: int
    var index: nat

    function State(): Counters
      reads this
    {
      Counters(statementCount, lexemeCount)
    }

    /** `merge(token_str)`: the counters start at statement 1, lexeme 0, index 0. */
    constructor (tokenStr: seq<string>)
      ensures this.tokenStr == tokenStr
      ensures State() == Start && index == 0
    {
      this.tokenStr := tokenStr;
      statementCount := 1;
      lexemeCount := 0;
      index := 0;
    }

    /** One call of the closure: the chunk for `token`, labelled by the label
        at the closure's own running index. */
    method Merge(token: string) returns (result: string)
      requires index < |tokenStr|
      modifies this
      ensures result == Step(old(State()), token, tokenStr[old(index)]).0
      ensures State() == Step(old(State()), token, tokenStr[old(index)]).1
      ensures index == old(index) + 1
    {
      ghost var c, category := State(), tokenStr[index];
      ghost var separator := if c.lexemeCount == -1 then Separator else "";
      result := "";
      if lexemeCount == -1 {
        lexemeCount := lexemeCount + 1;
        result := result + Separator;
      }
      assert result == separator;
      ghost var lexeme := lexemeCount;
      ghost var header := if lexeme == 0 then Header(c.statementCount) else "";
      if lexemeCount == 0 {
        result := result + Header(statementCount);
        statementCount := statementCount + 1;
      }
      assert result == separator + header;
      if |tokenStr[index]| == 0 {
        result := result + ErrorLine(token);
      } else {
        result := result + LexemeLine(lexemeCount, token, tokenStr[index]);
        lexemeCount := lexemeCount + 1;
      }
      assert result == separator + header
        + if |category| == 0 then ErrorLine(token) else LexemeLine(lexeme, token, category);
      if token == ";" {
        lexemeCount := -1;
      }
      index := index + 1;
    }
  }

  /** `reduce(combine, tokens, base, index)`: append the chunk of every token
      from `index` on to `base`, calling the closure once per token, in order. */
  method Reduce(combine: Merger, tokens: seq<string>, base: string, index: nat) returns (r: string)
    requires index <= |tokens|
    requires combine.index + (|tokens| - index) <= |combine.tokenStr|
    modifies combine
    ensures r == base + ReportFrom(old(combine.State()), tokens[index..], old(combine.tokenStr[combine.index..]))
    ensures combine.State() == CountersFrom(old(combine.State()), tokens[index..], old(combine.tokenStr[combine.index..]))
    ensures combine.index == old(combine.index) + (|tokens| - index)
    decreases |tokens| - index
  {
    r := base;
    if index < |tokens| {
      ghost var before, labels := combine.State(), combine.tokenStr[combine.index..];
      var chunk := combine.Merge(tokens[index]);
      ghost var after := combine.State();
      assert tokens[index..][0] == tokens[index] && labels[0] == combine.tokenStr[old(combine.index)];
      FoldCons(before, tokens[index..], labels, chunk, after);
      assert tokens[index..][1..] == tokens[index + 1..];
      assert labels[1..] == combine.tokenStr[combine.index..];
      ghost var rest := ReportFrom(after, tokens[index + 1..], labels[1..]);
      r := Reduce(combine, tokens, r + chunk, index + 1);
      Regroup(base, chunk, rest);
    }
  }

  /** One step of the fold, with the step's chunk and counters named. */
  lemma FoldCons(c: Counters, tokens: seq<string>, labels: seq<string>, chunk: string, next: Counters)
    requires 0 < |tokens| <= |labels|
    requires Step(c, tokens[0], labels[0]) == (chunk, next)
    ensures ReportFrom(c, tokens, labels) == chunk + ReportFrom(next, tokens[1..], labels[1..])
    ensures CountersFrom(c, tokens, labels) == CountersFrom(next, tokens[1..], labels[1..])
  {
    ReportFromCons(c, tokens, labels);
    CountersFromCons(c, tokens, labels);
  }

  /** `ReportFrom` unfolded once. */
  lemma ReportFromCons(c: Counters, tokens: seq<string>, labels: seq<string>)
    requires 0 < |tokens| <= |labels|
    ensures ReportFrom(c, tokens, labels)
         == Step(c, tokens[0], labels[0]).0 + ReportFrom(Step(c, tokens[0], labels[0]).1, tokens[1..], labels[1..])
  {
  }

  /** Folding in two parts gives the same report as folding at once: the
      second part continues from the counters the first part leaves, so
      `reduce` may be resumed at any position with the closure as it stands. */
  lemma {:induction false} ReportFromSplit(c: Counters, tokens: seq<string>, labels: seq<string>, n: nat)
    requires n <= |tokens| <= |labels|
    ensures ReportFrom(c, tokens, labels)
         == ReportFrom(c, tokens[..n], labels[..n])
          + ReportFrom(CountersFrom(c, tokens[..n], labels[..n]), tokens[n..], labels[n..])
    decreases n
  {
    if n == 0 {
      assert tokens[..0] == [] && tokens[0..] == tokens && labels[0..] == labels;
    } else {
      var (chunk, next) := Step(c, tokens[0], labels[0]);
      var front, frontLabels := tokens[..n], labels[..n];
      ReportFromSplit(next, tokens[1..], labels[1..], n - 1);
      assert front[1..] == tokens[1..][..n - 1] && frontLabels[1..] == labels[1..][..n - 1];
      assert tokens[1..][n - 1..] == tokens[n..] && labels[1..][n - 1..] == labels[n..];
      var rest := ReportFrom(next, front[1..], frontLabels[1..]);
      var back := ReportFrom(CountersFrom(c, front, frontLabels), tokens[n..], labels[n..]);
      assert back == ReportFrom(CountersFrom(next, front[1..], frontLabels[1..]), tokens[n..], labels[n..]) by {
        CountersFromCons(c, front, frontLabels);
      }
      assert ReportFrom(c, front, frontLabels) == chunk + rest by {
        ReportFromCons(c, front, frontLabels);
      }
      assert ReportFrom(c, tokens, labels) == chunk + (rest + back) by {
        ReportFromCons(c, tokens, labels);
      }
      Regroup(chunk, rest, back);
    }
  }

  /** `CountersFrom` unfolded once. */
  lemma CountersFromCons(c: Counters, tokens: seq<string>, labels: seq<string>)
    requires 0 < |tokens| <= |labels|
    ensures CountersFrom(c, tokens, labels)
         == CountersFrom(Step(c, tokens[0], labels[0]).1, tokens[1..], labels[1..])
  {
  }

  /** Concatenation regrouped, for proofs whose strings are long literals. */
  lemma Regroup(a: string, b: string, c: string)
    ensures a + (b + c) == (a + b) + c
  {
  }

  // ---------------------------------------------------------------------
  // The same report, described without counters.

  /** The position where the statement holding position `n` begins: just after
      the last `;` before `n`, or 0. */
  function StatementStart(tokens: seq<string>, n: nat): (s: nat)
    requires n <= |tokens|
    ensures s <= n
    ensures forall k :: s <= k < n ==> tokens[k] != ";"
    ensures s == 0 || tokens[s - 1] == ";"
  {
    if n == 0 then 0 else if tokens[n - 1] == ";" then n else StatementStart(tokens, n - 1)
  }

  /** How many of the positions `lo` .. `hi - 1` carry a non-empty label. */
  function Recognized(labels: seq<string>, lo: nat, hi: nat): nat
    requires hi <= |labels|
    decreases hi
  {
    if hi <= lo then 0
    else Recognized(labels, lo, hi - 1) + (if |labels[hi - 1]| == 0 then 0 else 1)
  }

  /** The number the next recognized lexeme of the current statement gets. */
  function LexemeNumber(tokens: seq<string>, labels: seq<string>, n: nat): nat
    requires n <= |tokens| <= |labels|
  {
    Recognized(labels, StatementStart(tokens, n), n)
  }

  /** A header precedes position `n` exactly when its statement has no
      recognized lexeme before `n`. */
  predicate HeaderAt(tokens: seq<string>, labels: seq<string>, n: nat)
    requires n <= |tokens| <= |labels|
  {
    LexemeNumber(tokens, labels, n) == 0
  }

  /** How many headers the positions before `n` emit. */
  function HeadersBefore(tokens: seq<string>, labels: seq<string>, n: nat): nat
    requires n <= |tokens| <= |labels|
  {
    if n == 0 then 0
    else HeadersBefore(tokens, labels, n - 1) + (if HeaderAt(tokens, labels, n - 1) then 1 else 0)
  }

  /** The chunk of position `n`: a separator exactly when the previous lexeme
      is `;`; a header numbered one past the headers before it exactly when no
      lexeme of the statement has been recognized yet; then the error line, or
      the lexeme line numbered by the recognized lexemes before it. */
  function ClosedChunk(tokens: seq<string>, labels: seq<string>, n: nat): string
    requires n < |tokens| <= |labels|
  {
    (if n > 0 && tokens[n - 1] == ";" then Separator else "")
    + (if HeaderAt(tokens, labels, n) then Header(1 + HeadersBefore(tokens, labels, n)) else "")
    + (if |labels[n]| == 0 then ErrorLine(tokens[n])
       else LexemeLine(LexemeNumber(tokens, labels, n), tokens[n], labels[n]))
  }

  /** The chunks of the positions `n` .. `|tokens| - 1`, concatenated. */
  function ClosedReportFrom(tokens: seq<string>, labels: seq<string>, n: nat): string
    requires n <= |tokens| <= |labels|
    decreases |tokens| - n
  {
    if n == |tokens| then "" else ClosedChunk(tokens, labels, n) + ClosedReportFrom(tokens, labels, n + 1)
  }

  /** The counters after the positions before `n`, in closed form. */
  function CountersAt(tokens: seq<string>, labels: seq<string>, n: nat): Counters
    requires n <= |tokens| <= |labels|
  {
    Counters(1 + HeadersBefore(tokens, labels, n),
             if n > 0 && tokens[n - 1] == ";" then -1 else LexemeNumber(tokens, labels, n))
  }

  /** One step of the closure from the closed-form counters of position `n`
      emits the closed-form chunk of `n` and reaches the counters of `n + 1`. */
  lemma StepIsClosedForm(tokens: seq<string>, labels: seq<string>, n: nat)
    requires n < |tokens| <= |labels|
    ensures Step(CountersAt(tokens, labels, n), tokens[n], labels[n])
         == (ClosedChunk(tokens, labels, n), CountersAt(tokens, labels, n + 1))
  {
    var c := CountersAt(tokens, labels, n);
    var number := LexemeNumber(tokens, labels, n);
    var lexeme := if c.lexemeCount == -1 then 0 else c.lexemeCount;
    assert lexeme == number by {
      if n > 0 && tokens[n - 1] == ";" {
        assert StatementStart(tokens, n) == n;
      }
    }
    assert (c.lexemeCount == -1) == (n > 0 && tokens[n - 1] == ";");
    assert (lexeme == 0) == HeaderAt(tokens, labels, n);
    var (chunk, after) := Step(c, tokens[n], labels[n]);
    assert chunk == ClosedChunk(tokens, labels, n);
    var next := if |labels[n]| == 0 then lexeme else lexeme + 1;
    assert after == CountersAt(tokens, labels, n + 1) by {
      if tokens[n] != ";" {
        assert StatementStart(tokens, n + 1) == StatementStart(tokens, n);
        assert LexemeNumber(tokens, labels, n + 1) == next;
      }
    }
  }

  lemma {:induction false} ReportFromIsClosedForm(tokens: seq<string>, labels: seq<string>, n: nat)
    requires n <= |tokens| <= |labels|
    ensures ReportFrom(CountersAt(tokens, labels, n), tokens[n..], labels[n..])
         == ClosedReportFrom(tokens, labels, n)
    decreases |tokens| - n
  {
    if n < |tokens| {
      StepIsClosedForm(tokens, labels, n);
      ReportFromIsClosedForm(tokens, labels, n + 1);
      assert tokens[n..][1..] == tokens[n + 1..];
      assert labels[n..][1..] == labels[n + 1..];
      FoldCons(CountersAt(tokens, labels, n), tokens[n..], labels[n..],
               ClosedChunk(tokens, labels, n), CountersAt(tokens, labels, n + 1));
    }
  }

  /** When no lexeme is a lexical error, a header precedes exactly the first
      lexeme and every lexeme that follows a `;`: one header per statement. */
  lemma HeadersWithoutErrors(tokens: seq<string>, labels: seq<string>, n: nat)
    requires n < |tokens| <= |labels|
    requires forall k :: 0 <= k < |tokens| ==> |labels[k]| > 0
    ensures HeaderAt(tokens, labels, n) <==> n == 0 || tokens[n - 1] == ";"
  {
  }

  /** The report equals its closed-form description: every statement opens
      with `Statement #1`, `#2`, ... consecutively; a separator precedes
      exactly the lexemes that follow a `;`; recognized lexemes are numbered
      from 0 within their statement while errors take no number. */
  lemma ReportIsClosedForm(tokens: seq<string>, labels: seq<string>)
    requires |tokens| <= |labels|
    ensures Report(tokens, labels) == ClosedReportFrom(tokens, labels, 0)
  {
    assert CountersAt(tokens, labels, 0) == Start;
    ReportFromIsClosedForm(tokens, labels, 0);
  }
}
