/** The lexical engine as the program composes it: scan the whole input, drop
    the whitespace lexemes, label the rest, and fold them into the report.
    Reading the input file and writing the report are not part of the model. */
module Engine {
  import opened Scanner
  import opened Classifier
  import opened Pipeline
  import opened Reporter

  /** The label of each lexeme, position by position. */
  function LabelsOf(tokens: seq<string>): (labels: seq<string>)
    ensures |labels| == |tokens|
    ensures forall k :: 0 <= k < |tokens| ==> labels[k] == Label(tokens[k])
  {
    if tokens == [] then [] else [Label(tokens[0])] + LabelsOf(tokens[1..])
  }

  /** The lexemes that reach the report: every scanned lexeme but the whitespace ones. */
  function Visible(data: string): seq<string>
  {
    Kept(NotBlank, LexemesFrom(data, 0))
  }

  /** The report written for input `data`. */
  function Tokenize(data: string): string
  {
    Report(Visible(data), LabelsOf(Visible(data)))
  }

  /** Scan, filter, map and reduce, in the order the program runs them. */
  method Run(data: string) returns (report: string)
    ensures report == Tokenize(data)
  {
    var tokens, _ := Analyze(data, 0);
    tokens := Filter(NotBlank, tokens);
    var tokenStr := Map(Label, tokens);
    assert tokenStr == LabelsOf(tokens);
    var combine := new Merger(tokenStr);
    report := Reduce(combine, tokens, "", 0);
    assert tokens[0..] == tokens && tokenStr[0..] == tokenStr;
  }

  /** The scanner never merges whitespace into a longer lexeme, so the filter
      drops exactly the single tab, newline, return and space lexemes. */
  lemma {:induction false} BlankLexemes(data: string, i: nat)
    requires i <= |data|
    ensures forall k :: 0 <= k < |LexemesFrom(data, i)| ==>
      (!NotBlank(LexemesFrom(data, i)[k]) <==>
         |LexemesFrom(data, i)[k]| == 1 && IsBlank(LexemesFrom(data, i)[k][0]))
  {
    LexemesWellFormed(data, i);
    forall k | 0 <= k < |LexemesFrom(data, i)|
      ensures !NotBlank(LexemesFrom(data, i)[k]) <==>
                |LexemesFrom(data, i)[k]| == 1 && IsBlank(LexemesFrom(data, i)[k][0])
    {
      var t := LexemesFrom(data, i)[k];
      if !NotBlank(t) {
        var j :| 0 <= j < |t| && IsBlank(t[j]);
        assert !IsDigit(t[j]) && !IsLetter(t[j]) && !IsOpChar(t[j]) && t[j] != '=';
      }
    }
  }

  /** The lexemes that reach the report spell out the input with its tabs,
      newlines, returns and spaces removed. */
  lemma {:induction false} VisibleSpellsInput(data: string, i: nat)
    requires i <= |data|
    ensures Concat(Kept(NotBlank, LexemesFrom(data, i))) == Kept(NotBlankChar, data[i..])
    decreases |data| - i
  {
    if i < |data| {
      var j := LexemeEnd(data, i);
      var t := data[i..j];
      VisibleSpellsInput(data, j);
      BlankLexemes(data, i);
      assert LexemesFrom(data, i)[0] == t;
      assert [t] + LexemesFrom(data, j) == LexemesFrom(data, i);
      KeptAppend(NotBlank, [t], LexemesFrom(data, j));
      assert data[i..] == t + data[j..];
      KeptAppend(NotBlankChar, t, data[j..]);
      if NotBlank(t) {
        KeptBounds(NotBlankChar, t);
        assert Kept(NotBlank, [t]) == [t];
        ConcatAppend([t], Kept(NotBlank, LexemesFrom(data, j)));
      } else {
        assert |t| == 1 && IsBlank(t[0]);
        assert Kept(NotBlankChar, t) == [] by { assert t[1..] == []; }
        assert Kept(NotBlank, [t]) == [] by { assert [t][1..] == []; }
        assert Kept(NotBlank, LexemesFrom(data, i)) == Kept(NotBlank, LexemesFrom(data, j));
        assert Kept(NotBlankChar, data[i..]) == Kept(NotBlankChar, data[j..]);
      }
    }
  }

  /** A digit run is never extended by letters: "12abc" scans as "12", "abc". */
  lemma DigitsThenLetters()
    ensures LexemesFrom("12abc", 0) == ["12", "abc"]
  {
    var s := "12abc";
    assert LexemeEnd(s, 2) == 5 && LexemesFrom(s, 5) == [];
    assert LexemesFrom(s, 2) == [s[2..5]];
    assert LexemeEnd(s, 0) == 2;
    assert s[0..2] == "12" && s[2..5] == "abc";
  }

  /** Only `=` after a comparison character forms a two-character lexeme: "=a"
      scans as "=", "a" and "<=" as one lexeme. */
  lemma OperatorExtension()
    ensures LexemesFrom("=a", 0) == ["=", "a"]
    ensures LexemesFrom("<=", 0) == ["<="]
  {
    var s := "=a";
    assert LexemeEnd(s, 1) == 2 && LexemesFrom(s, 2) == [];
    assert LexemesFrom(s, 1) == [s[1..2]];
    assert LexemeEnd(s, 0) == 1;
    assert s[0..1] == "=" && s[1..2] == "a";
    var o := "<=";
    assert LexemeEnd(o, 0) == 2 && LexemesFrom(o, 2) == [];
    assert o[0..2] == "<=";
  }

  /** An error lexeme does not advance the lexeme number, so a statement whose
      first lexeme is an error gets a second header. */
  lemma ErrorFirstGivesTwoHeaders()
    ensures Tokenize("@1;")
         == (Header(1) + ErrorLine("@"))
          + (Header(2) + LexemeLine(0, "1", IntLiteral))
          + LexemeLine(1, ";", "a SEMI_COLON")
  {
    VisibleOfErrorFirst();
    LabelsOfErrorFirst();
    ReportOfErrorFirst();
  }

  lemma LabelsOfErrorFirst()
    ensures LabelsOf(["@", "1", ";"]) == ["", IntLiteral, "a SEMI_COLON"]
  {
    assert !IsNumber("@") by { assert !IsDigit("@"[0]) && |"@"| != |"Infinity"|; }
    assert !IsNumber(";") by { assert !IsDigit(";"[0]) && |";"| != |"Infinity"|; }
    assert Label("@") == "" by { LabelIsTableLookup("@"); }
    assert Label(";") == "a SEMI_COLON" by { LabelIsTableLookup(";"); }
  }

  lemma VisibleOfErrorFirst()
    ensures Visible("@1;") == ["@", "1", ";"]
  {
    var s := "@1;";
    assert LexemesFrom(s, 0) == ["@", "1", ";"] by {
      assert LexemeEnd(s, 2) == 3 && LexemesFrom(s, 3) == [];
      assert LexemesFrom(s, 2) == [s[2..3]];
      assert LexemeEnd(s, 1) == 2;
      assert LexemesFrom(s, 1) == [s[1..2]] + LexemesFrom(s, 2);
      assert LexemeEnd(s, 0) == 1;
      assert s[0..1] == "@" && s[1..2] == "1" && s[2..3] == ";";
    }
    var tokens := ["@", "1", ";"];
    assert NotBlank("@") && NotBlank("1") && NotBlank(";");
    assert Kept(NotBlank, tokens[2..]) == [";"];
    assert Kept(NotBlank, tokens[1..]) == ["1", ";"];
  }

  lemma ReportOfErrorFirst()
    ensures Report(["@", "1", ";"], ["", IntLiteral, "a SEMI_COLON"])
         == (Header(1) + ErrorLine("@"))
          + (Header(2) + LexemeLine(0, "1", IntLiteral))
          + LexemeLine(1, ";", "a SEMI_COLON")
  {
    ErrorFirstStep1();
    ErrorFirstStep2();
    ErrorFirstStep3();
    Regroup(Header(1) + ErrorLine("@"), Header(2) + LexemeLine(0, "1", IntLiteral), LexemeLine(1, ";", "a SEMI_COLON"));
  }

  lemma ErrorFirstStep1()
    ensures ReportFrom(Start, ["@", "1", ";"], ["", IntLiteral, "a SEMI_COLON"])
         == Header(1) + ErrorLine("@") + ReportFrom(Counters(2, 0), ["1", ";"], [IntLiteral, "a SEMI_COLON"])
  {
    var tokens, labels := ["@", "1", ";"], ["", IntLiteral, "a SEMI_COLON"];
    assert "@" != ";" by { assert "@"[0] != ";"[0]; }
    assert Step(Start, "@", "") == (Header(1) + ErrorLine("@"), Counters(2, 0)) by {
      assert "" + Header(1) == Header(1);
    }
    ReportFromCons(Start, tokens, labels);
    assert tokens[1..] == ["1", ";"] && labels[1..] == [IntLiteral, "a SEMI_COLON"];
  }

  lemma ErrorFirstStep2()
    ensures ReportFrom(Counters(2, 0), ["1", ";"], [IntLiteral, "a SEMI_COLON"])
         == Header(2) + LexemeLine(0, "1", IntLiteral) + ReportFrom(Counters(3, 1), [";"], ["a SEMI_COLON"])
  {
    var tokens, labels := ["1", ";"], [IntLiteral, "a SEMI_COLON"];
    assert "1" != ";" by { assert "1"[0] != ";"[0]; }
    assert Step(Counters(2, 0), "1", IntLiteral) == (Header(2) + LexemeLine(0, "1", IntLiteral), Counters(3, 1)) by {
      assert "" + Header(2) == Header(2);
    }
    ReportFromCons(Counters(2, 0), tokens, labels);
    assert tokens[1..] == [";"] && labels[1..] == ["a SEMI_COLON"];
  }

  lemma ErrorFirstStep3()
    ensures ReportFrom(Counters(3, 1), [";"], ["a SEMI_COLON"]) == LexemeLine(1, ";", "a SEMI_COLON")
  {
    var chunk := LexemeLine(1, ";", "a SEMI_COLON");
    assert Step(Counters(3, 1), ";", "a SEMI_COLON") == (chunk, Counters(3, -1)) by {
      assert "" + "" + chunk == chunk;
    }
    ReportFromCons(Counters(3, 1), [";"], ["a SEMI_COLON"]);
    assert [";"][1..] == [];
    assert chunk + "" == chunk;
  }
}
