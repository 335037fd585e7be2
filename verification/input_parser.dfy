/**
  `InputParser.parseInput` of the calculator: accepts a non-empty line made
  only of digits and the operator characters `+ - * / ! %`, and cuts it into
  the maximal runs of digits (the operands, kept as strings) and the maximal
  runs of operator characters (the operators, a stacked run such as `+!`
  staying one entry). Any other line gives `null`, modelled as `None`.
 */
module InputParser {
  import opened Wrappers
  import opened CharClasses
  import opened StringSplit

  /** The object `{operands, operators}` returned on success. */
  datatype Parsed = Parsed(operands: seq<seq<char>>, operators: seq<seq<char>>)

  /**
    The matches of the global regular expression `\d|[\+\-\*\/\!\%]`, in
    order. Each alternative matches exactly one character, so the matches
    are the legal characters of `s` themselves.
   */
  function LegalMatches(s: seq<char>): (m: seq<char>)
    ensures |m| <= |s|
    ensures AllLegal(m)
    ensures |m| == |s| <==> AllLegal(s)
    ensures |m| == 0 <==> forall i :: 0 <= i < |s| ==> !IsLegal(s[i])
  {
    if |s| == 0 then []
    else if IsLegal(s[0]) then
      var m := [s[0]] + LegalMatches(s[1..]);
      assert forall i :: 0 < i < |s| ==> s[i] == s[1..][i - 1];
      m
    else
      var m := LegalMatches(s[1..]);
      assert forall i :: 0 < i < |s| ==> s[i] == s[1..][i - 1];
      m
  }

  /** `input.match(/\d|[\+\-\*\/\!\%]/g)`: `null` when nothing matches, else the array of matches. */
  function MatchLegal(s: seq<char>): (r: Option<seq<char>>)
    ensures r.None? <==> forall i :: 0 <= i < |s| ==> !IsLegal(s[i])
    ensures r.Some? ==> 0 < |r.value| <= |s|
    ensures r.Some? ==> (|r.value| == |s| <==> AllLegal(s))
  {
    var m := LegalMatches(s);
    if |m| == 0 then None else Some(m)
  }

  /**
    `input.split(/[\+\-\*\/\!\%]/).filter(s => s.length)`: the non-empty
    stretches between operator characters.
   */
  function Operands(s: seq<char>): seq<seq<char>>
  {
    NonEmpty(SplitEach(s, Operator))
  }

  /** `input.split(/[\d]+/).filter(s => s.length)`: the non-empty stretches between runs of digits. */
  function Operators(s: seq<char>): seq<seq<char>>
  {
    NonEmpty(SplitRuns(s, Digit))
  }

  /**
    `parseInput`: rejects the line unless `match` found something and found
    one match per character; otherwise returns both lists.
   */
  function ParseInput(s: seq<char>): (r: Option<Parsed>)
    ensures r.Some? <==> |s| > 0 && AllLegal(s)
  {
    match MatchLegal(s)
    case None => None
    case Some(m) =>
      if |m| != |s| then None
      else Some(Parsed(Operands(s), Operators(s)))
  }

  /** The tokens of class `k`: operands for digits, operators for operator characters. */
  function TokensOf(s: seq<char>, k: CharClass): seq<seq<char>>
  {
    match k
    case Digit => Operands(s)
    case Operator => Operators(s)
  }

  lemma OtherOther(k: CharClass)
    ensures Other(Other(k)) == k
  {
  }

  lemma AllInExcludesOther(x: seq<char>, k: CharClass)
    requires AllIn(x, k)
    ensures NoneIn(x, Other(k))
    ensures AllLegal(x)
  {
  }

  /** The tokens of class `k` are the non-empty pieces between characters of the other class. */
  lemma TokensAsPieces(s: seq<char>, k: CharClass)
    ensures TokensOf(s, k) == NonEmpty(SplitEach(s, Other(k)))
  {
    if k == Operator {
      EachAndRunsAgree(s, Digit);
    }
  }

  lemma NoTokensInEmpty(k: CharClass)
    ensures TokensOf([], k) == []
  {
    TokensAsPieces([], k);
  }

  /**
    A maximal run `x` of class `k` at the front of the line becomes the
    first token of its class, and contributes nothing to the other class.
   */
  lemma PeelToken(x: seq<char>, y: seq<char>, k: CharClass)
    requires |x| > 0 && AllIn(x, k)
    requires |y| == 0 || InClass(y[0], Other(k))
    ensures TokensOf(x + y, k) == [x] + TokensOf(y, k)
    ensures TokensOf(x + y, Other(k)) == TokensOf(y, Other(k))
  {
    AllInExcludesOther(x, k);
    TokensAsPieces(x + y, k);
    TokensAsPieces(y, k);
    PiecesPeelPiece(x, y, Other(k));
    OtherOther(k);
    TokensAsPieces(x + y, Other(k));
    TokensAsPieces(y, Other(k));
    SplitEachSkipsSeparators(x, y, k);
  }

  /** A legal line splits into its leading maximal run and a rest that starts with the other class. */
  lemma LeadingRun(s: seq<char>) returns (x: seq<char>, y: seq<char>)
    requires |s| > 0 && AllLegal(s)
    ensures s == x + y
    ensures |x| > 0 && AllIn(x, ClassOf(s[0]))
    ensures |y| == 0 || InClass(y[0], Other(ClassOf(s[0])))
    ensures AllLegal(y) && |y| < |s|
  {
    var k := ClassOf(s[0]);
    var n := RunLength(s, k);
    x, y := s[..n], s[n..];
    assert s == x + y;
    if |y| > 0 {
      assert y[0] == s[n];
      LegalIsExactlyOneClass(y[0], Other(k));
      OtherOther(k);
    }
  }

  /** A token list and the list of the other class, taken alternately starting with the first. */
  predicate Alternating(first: seq<seq<char>>, second: seq<seq<char>>) {
    |second| <= |first| <= |second| + 1
  }

  /** Reassembles a line from alternating tokens: `first[0] + second[0] + first[1] + ...`. */
  function Weave(first: seq<seq<char>>, second: seq<seq<char>>): (r: seq<char>)
    requires Alternating(first, second)
    ensures |first| > 0 && |first[0]| > 0 ==> |r| > 0 && r[0] == first[0][0]
    decreases |first| + |second|
  {
    if |first| == 0 then [] else first[0] + Weave(second, first[1..])
  }

  /** The reassembly round trip for any legal line, by induction over its runs. */
  lemma {:induction false} TokensReassemble(s: seq<char>)
    requires |s| > 0 && AllLegal(s)
    ensures Alternating(TokensOf(s, ClassOf(s[0])), TokensOf(s, Other(ClassOf(s[0]))))
    ensures Weave(TokensOf(s, ClassOf(s[0])), TokensOf(s, Other(ClassOf(s[0])))) == s
    decreases |s|
  {
    var k := ClassOf(s[0]);
    var x, y := LeadingRun(s);
    PeelToken(x, y, k);
    var first := TokensOf(s, k);
    var second := TokensOf(s, Other(k));
    if |y| == 0 {
      NoTokensInEmpty(k);
      NoTokensInEmpty(Other(k));
      assert first == [x] && second == [];
      assert s == x;
    } else {
      TokensReassemble(y);
      assert ClassOf(y[0]) == Other(k);
      OtherOther(k);
      assert first == [x] + TokensOf(y, k);
      assert first[1..] == TokensOf(y, k);
      assert Weave(first, second) == x + Weave(second, first[1..]);
    }
  }

  /**
    Round trip of `parseInput`: taking operands and operators alternately,
    beginning with the list of the first character's kind, rebuilds the
    input exactly, and the list begun with is never shorter than the other
    nor more than one longer.
   */
  lemma RoundTrip(s: seq<char>)
    requires ParseInput(s).Some?
    ensures var p := ParseInput(s).value;
      if IsDigit(s[0]) then
        Alternating(p.operands, p.operators) && Weave(p.operands, p.operators) == s
      else
        Alternating(p.operators, p.operands) && Weave(p.operators, p.operands) == s
  {
    TokensReassemble(s);
  }

  /**
    On acceptance the operands concatenate to the line without its operator
    characters, and the operators to the line without its digits.
   */
  lemma Concatenation(s: seq<char>)
    requires ParseInput(s).Some?
    ensures Flatten(ParseInput(s).value.operands) == Without(s, Operator)
    ensures Flatten(ParseInput(s).value.operators) == Without(s, Digit)
  {
    SplitEachSpells(s, Operator);
    NonEmptyKeepsText(SplitEach(s, Operator));
    SplitEachSpells(s, Digit);
    NonEmptyKeepsText(SplitEach(s, Digit));
    EachAndRunsAgree(s, Digit);
  }

  /**
    On acceptance every operand is a non-empty string of digits and every
    operator a non-empty string of operator characters.
   */
  lemma TokenShape(s: seq<char>)
    requires ParseInput(s).Some?
    ensures var p := ParseInput(s).value;
      && (forall i :: 0 <= i < |p.operands| ==> |p.operands[i]| > 0 && AllIn(p.operands[i], Digit))
      && (forall i :: 0 <= i < |p.operators| ==> |p.operators[i]| > 0 && AllIn(p.operators[i], Operator))
  {
    var p := ParseInput(s).value;
    Concatenation(s);
    WithoutKeepsLegal(s, Operator);
    WithoutKeepsLegal(s, Digit);
    forall i | 0 <= i < |p.operands|
      ensures AllIn(p.operands[i], Digit)
    {
      forall j | 0 <= j < |p.operands[i]|
        ensures IsDigit(p.operands[i][j])
      {
        FlattenHasPieces(p.operands, i, j);
        assert !IsOperator(p.operands[i][j]);
      }
    }
    forall i | 0 <= i < |p.operators|
      ensures AllIn(p.operators[i], Operator)
    {
      forall j | 0 <= j < |p.operators[i]|
        ensures IsOperator(p.operators[i][j])
      {
        FlattenHasPieces(p.operators, i, j);
        assert !IsDigit(p.operators[i][j]);
      }
    }
  }

  /** Every character of every piece occurs in the concatenation. */
  lemma {:induction false} FlattenHasPieces(ps: seq<seq<char>>, i: nat, j: nat)
    requires i < |ps| && j < |ps[i]|
    ensures ps[i][j] in Flatten(ps)
  {
    if i > 0 {
      FlattenHasPieces(ps[1..], i - 1, j);
      assert ps[1..][i - 1] == ps[i];
    } else {
      assert Flatten(ps)[j] == ps[0][j];
    }
  }

  lemma LastOfAppend(x: seq<char>, y: seq<char>)
    requires |y| > 0
    ensures (x + y)[|x + y| - 1] == y[|y| - 1]
  {
  }

  /** The difference between the token counts, by induction over the runs of a legal line. */
  lemma {:induction false} TokenCountsDiffer(s: seq<char>)
    requires |s| > 0 && AllLegal(s)
    ensures |Operands(s)| - |Operators(s)|
         == (if IsDigit(s[0]) then 1 else 0) + (if IsDigit(s[|s| - 1]) then 1 else 0) - 1
    decreases |s|
  {
    var x, y := LeadingRun(s);
    var lead := if IsDigit(s[0]) then 1 else 0;
    assert |Operands(s)| - |Operators(s)| == 2 * lead - 1 + (|Operands(y)| - |Operators(y)|) by {
      PeelToken(x, y, ClassOf(s[0]));
    }
    if |y| == 0 {
      assert |Operands(y)| == 0 && |Operators(y)| == 0 by {
        NoTokensInEmpty(Digit);
        NoTokensInEmpty(Operator);
      }
      assert IsDigit(s[|s| - 1]) <==> IsDigit(s[0]) by {
        assert y == [];
        assert s == x;
        assert InClass(x[|x| - 1], ClassOf(s[0]));
      }
    } else {
      TokenCountsDiffer(y);
      LastOfAppend(x, y);
      assert IsDigit(y[0]) <==> !IsDigit(s[0]) by {
        assert InClass(y[0], Other(ClassOf(s[0])));
      }
    }
  }

  /**
    On acceptance there are as many operands as operators, one more operand
    exactly when the line starts and ends with a digit, and one more operator
    exactly when it starts and ends with an operator character.
   */
  lemma CountRelation(s: seq<char>)
    requires ParseInput(s).Some?
    ensures var p := ParseInput(s).value;
      && -1 <= |p.operands| - |p.operators| <= 1
      && (|p.operands| - |p.operators| == 1 <==> IsDigit(s[0]) && IsDigit(s[|s| - 1]))
      && (|p.operands| - |p.operators| == -1 <==> IsOperator(s[0]) && IsOperator(s[|s| - 1]))
  {
    TokenCountsDiffer(s);
    assert IsLegal(s[0]) && IsLegal(s[|s| - 1]);
  }

  /** A line woven from runs of the two classes contains only legal characters. */
  lemma {:induction false} WeaveIsLegal(first: seq<seq<char>>, second: seq<seq<char>>, k: CharClass)
    requires Alternating(first, second)
    requires forall i :: 0 <= i < |first| ==> AllIn(first[i], k)
    requires forall i :: 0 <= i < |second| ==> AllIn(second[i], Other(k))
    ensures AllLegal(Weave(first, second))
    decreases |first| + |second|
  {
    if |first| > 0 {
      OtherOther(k);
      WeaveIsLegal(second, first[1..], Other(k));
      AllInExcludesOther(first[0], k);
      var w := Weave(second, first[1..]);
      assert Weave(first, second) == first[0] + w;
      forall i | 0 <= i < |first[0] + w|
        ensures IsLegal((first[0] + w)[i])
      {
        if i >= |first[0]| {
          assert (first[0] + w)[i] == w[i - |first[0]|];
        }
      }
    }
  }

  /** Weaving non-empty alternating runs and tokenizing gives the runs back. */
  lemma {:induction false} WeaveTokens(first: seq<seq<char>>, second: seq<seq<char>>, k: CharClass)
    requires Alternating(first, second)
    requires forall i :: 0 <= i < |first| ==> |first[i]| > 0 && AllIn(first[i], k)
    requires forall i :: 0 <= i < |second| ==> |second[i]| > 0 && AllIn(second[i], Other(k))
    ensures TokensOf(Weave(first, second), k) == first
    ensures TokensOf(Weave(first, second), Other(k)) == second
    decreases |first| + |second|
  {
    if |first| == 0 {
      NoTokensInEmpty(k);
      NoTokensInEmpty(Other(k));
    } else {
      OtherOther(k);
      WeaveTokens(second, first[1..], Other(k));
      WeaveTokensStep(first, second, k);
    }
  }

  /** One step of `WeaveTokens`: the first run goes in front of the tokens of the rest. */
  lemma WeaveTokensStep(first: seq<seq<char>>, second: seq<seq<char>>, k: CharClass)
    requires Alternating(first, second) && |first| > 0
    requires |first[0]| > 0 && AllIn(first[0], k)
    requires |second| > 0 ==> |second[0]| > 0 && AllIn(second[0], Other(k))
    requires TokensOf(Weave(second, first[1..]), Other(k)) == second
    requires TokensOf(Weave(second, first[1..]), k) == first[1..]
    ensures TokensOf(Weave(first, second), k) == first
    ensures TokensOf(Weave(first, second), Other(k)) == second
  {
    var y := Weave(second, first[1..]);
    assert |y| == 0 || InClass(y[0], Other(k)) by {
      if |second| > 0 {
        assert y[0] == second[0][0];
      }
    }
    PeelToken(first[0], y, k);
    assert Weave(first, second) == first[0] + y;
    assert first == [first[0]] + first[1..];
  }

  /**
    `parseInput` accepts exactly the lines that are an alternation of
    non-empty digit runs and non-empty operator runs, and returns those very
    runs: any such decomposition of a line is the one it returns, so each
    operand and each operator is a maximal run.
   */
  lemma ParseIsUniqueTokenization(s: seq<char>, first: seq<seq<char>>, second: seq<seq<char>>, k: CharClass)
    requires Alternating(first, second) && |first| > 0
    requires forall i :: 0 <= i < |first| ==> |first[i]| > 0 && AllIn(first[i], k)
    requires forall i :: 0 <= i < |second| ==> |second[i]| > 0 && AllIn(second[i], Other(k))
    requires Weave(first, second) == s
    ensures ParseInput(s).Some?
    ensures k == Digit ==> ParseInput(s).value == Parsed(first, second)
    ensures k == Operator ==> ParseInput(s).value == Parsed(second, first)
  {
    WeaveIsLegal(first, second, k);
    WeaveTokens(first, second, k);
  }

  /** A stacked operator run stays one entry between its operands. */
  lemma ExampleStackedOperators()
    ensures ParseInput("5+!3") == Some(Parsed(["5", "3"], ["+!"]))
  {
    assert Weave(["5", "3"], ["+!"]) == "5+!3";
    ParseIsUniqueTokenization("5+!3", ["5", "3"], ["+!"], Digit);
  }

  /** A line may begin with an operator; multi-digit operands stay whole. */
  lemma ExampleLeadingOperator()
    ensures ParseInput("+12") == Some(Parsed(["12"], ["+"]))
  {
    assert Weave(["+"], ["12"]) == "+12";
    ParseIsUniqueTokenization("+12", ["+"], ["12"], Operator);
  }

  /** Blanks, `=`, `.` and letters are refused, and so is the empty line. */
  lemma ExamplesRejected()
    ensures ParseInput("") == None
    ensures ParseInput("5 + 3") == None
    ensures ParseInput("1=") == None
    ensures ParseInput("1.5") == None
    ensures ParseInput("q") == None
  {
    assert !IsLegal("5 + 3"[1]);
    assert !IsLegal("1="[1]);
    assert !IsLegal("1.5"[1]);
    assert !IsLegal("q"[0]);
  }
}
