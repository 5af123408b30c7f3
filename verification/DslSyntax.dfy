/** The text syntax spelled out: its punctuation, its quotes and escapes, its numerals, and what is wrong
    with a text that breaks off or goes on in the wrong way. */
module DslSyntax {
  import opened Wrappers
  import opened Runes
  import opened Dsl
  import opened DslGrammar
  import opened DslReader
  import opened DslText

  /** A text of a tree parses to what the tree denotes. */
  lemma Parses(u: Unicode, tree: PipelineTree, text: string, p: Pipeline)
    requires WfPipeline(u, tree) && Text(tree) == text && Value(u, tree) == p && |p| <= 20
    ensures ParseResult(u, text) == Ok(p)
  {
    EveryLayoutParses(u, tree);
  }

  function Single(step: StepTree): PipelineTree { Stages(One(Stage("", step, ""))) }

  function OneArg(name: string, arg: ArgTree): PipelineTree { Single(Step(name, "", Args(One(Slot("", arg, ""))))) }

  /** The text of a step with one argument. */
  lemma OneArgText(name: string, arg: ArgTree)
    ensures Text(OneArg(name, arg)) == name + "(" + WriteArg(arg, ")")
  {
    var close := ")" + ("" + "");
    assert close == ")" && "" + close == close;
    var call := "(" + ("" + WriteArg(arg, "" + close));
    assert Text(OneArg(name, arg)) == "" + (name + ("" + call));
    assert "" + WriteArg(arg, ")") == WriteArg(arg, ")") && "" + call == call;
    assert name + call == name + "(" + WriteArg(arg, ")");
  }

  lemma OneArgValue(u: Unicode, name: string, arg: ArgTree)
    requires Identifier(u, name) && WfArg(arg)
    ensures WfPipeline(u, OneArg(name, arg)) && Value(u, OneArg(name, arg)) == [Op(name, [ArgValue(arg)])]
  {
    BlankIsSpace(u);
  }

  lemma OneArgParses(u: Unicode, name: string, arg: ArgTree, literal: string, value: Arg)
    requires Identifier(u, name) && WfArg(arg) && WriteArg(arg, ")") == literal + ")" && ArgValue(arg) == value
    ensures ParseResult(u, name + "(" + literal + ")") == Ok([Op(name, [value])])
  {
    OneArgText(name, arg);
    OneArgValue(u, name, arg);
    assert name + "(" + (literal + ")") == name + "(" + literal + ")";
    Parses(u, OneArg(name, arg), name + "(" + literal + ")", [Op(name, [value])]);
  }

  /** An identifier is a letter or underscore, and then letters, digits or underscores. */
  lemma IdentifierMeans(u: Unicode, name: string)
    ensures Identifier(u, name)
       <==> && name != "" && (u.isLetter(name[0]) || name[0] == '_')
            && forall i | 0 < i < |name| :: u.isLetter(name[i]) || u.isDigit(name[i]) || name[i] == '_'
  {
    if name != "" {
      assert forall i | 0 < i < |name| :: name[i] == name[1..][i - 1];
      assert forall i | 0 <= i < |name[1..]| :: name[1..][i] == name[i + 1];
    }
  }

  function PlainBody(s: string): Body { if s == "" then Close else Plain(s[0], PlainBody(s[1..])) }

  lemma {:induction false} PlainBodyText(quote: char, s: string, rest: string)
    requires quote !in s && '\\' !in s
    ensures WfBody(quote, PlainBody(s)) && BodyValue(PlainBody(s)) == s
    ensures WriteBody(quote, PlainBody(s), rest) == s + [quote] + rest
  {
    if s != "" {
      PlainBodyText(quote, s[1..], rest);
      assert s == [s[0]] + s[1..];
      assert [s[0]] + (s[1..] + [quote] + rest) == s + [quote] + rest;
    }
  }

  /** Text between double or single quotes is a string argument. */
  lemma QuotedParses(u: Unicode, name: string, quote: char, s: string)
    requires Identifier(u, name) && (quote == '"' || quote == '\'') && quote !in s && '\\' !in s
    ensures ParseResult(u, name + "(" + ([quote] + s + [quote]) + ")") == Ok([Op(name, [StringArg(s)])])
  {
    PlainBodyText(quote, s, ")");
    assert [quote] + (s + [quote] + ")") == [quote] + s + [quote] + ")";
    OneArgParses(u, name, Quoted(quote, PlainBody(s)), [quote] + s + [quote], StringArg(s));
  }

  /** A rune after a backslash stands for itself, a quote or a backslash too. */
  lemma EscapedParses(u: Unicode, name: string, quote: char, c: char)
    requires Identifier(u, name) && (quote == '"' || quote == '\'')
    ensures ParseResult(u, name + "(" + [quote, '\\', c, quote] + ")") == Ok([Op(name, [StringArg([c])])])
  {
    var body := Escaped(c, Close);
    assert BodyValue(body) == [c] + "" == [c];
    assert WriteBody(quote, body, ")") == ['\\', c] + ([quote] + ")");
    assert [quote] + (['\\', c] + ([quote] + ")")) == [quote, '\\', c, quote] + ")";
    OneArgParses(u, name, Quoted(quote, body), [quote, '\\', c, quote], StringArg([c]));
  }

  lemma NumeralValue(n: nat)
    ensures n <= 0x7FFF_FFFF_FFFF_FFFF ==> LiteralValue(false, Decimal(n)) == Some(n)
    ensures n <= 0x8000_0000_0000_0000 ==> LiteralValue(true, Decimal(n)) == Some(0 - n as int)
  {
    DecimalValue(n);
    var digits := Decimal(n);
    assert digits != "" && AsciiDigits(digits) && DigitsValue(digits) == n;
  }

  /** A decimal numeral is an integer argument if it fits 64 bits, and so it is after a minus sign. */
  lemma NumeralParses(u: Unicode, name: string, n: nat)
    requires Identifier(u, name) && n <= 0x7FFF_FFFF_FFFF_FFFF
    ensures ParseResult(u, name + "(" + Decimal(n) + ")") == Ok([Op(name, [IntArg(n)])])
  {
    NumeralValue(n);
    OneArgParses(u, name, Literal(false, Decimal(n)), Decimal(n), IntArg(n));
  }

  lemma NegativeParses(u: Unicode, name: string, n: nat)
    requires Identifier(u, name) && n <= 0x8000_0000_0000_0000
    ensures ParseResult(u, name + "(" + ("-" + Decimal(n)) + ")") == Ok([Op(name, [IntArg(0 - n as int)])])
  {
    NumeralValue(n);
    assert "-" + (Decimal(n) + ")") == ("-" + Decimal(n)) + ")";
    OneArgParses(u, name, Literal(true, Decimal(n)), "-" + Decimal(n), IntArg(0 - n as int));
  }

  function TwoArgs(name: string, a: ArgTree, b: ArgTree): PipelineTree {
    Single(Step(name, "", Args(More(Slot("", a, ""), One(Slot(" ", b, ""))))))
  }

  lemma TwoArgsText(name: string, a: ArgTree, b: ArgTree)
    ensures Text(TwoArgs(name, a, b)) == name + "(" + WriteArg(a, ", " + WriteArg(b, ")"))
  {
    var close := ")" + ("" + "");
    assert close == ")" && "" + close == ")";
    var last := One(Slot(" ", b, ""));
    assert WriteSlots(last, close) == " " + WriteArg(b, "" + close);
    var tail := "," + WriteSlots(last, close);
    assert tail == ", " + WriteArg(b, ")") && "" + tail == tail;
    assert WriteSlots(More(Slot("", a, ""), last), close) == "" + WriteArg(a, "" + tail);
    var call := "(" + ("" + WriteArg(a, "" + tail));
    assert call == "(" + WriteArg(a, tail);
    assert Text(TwoArgs(name, a, b)) == "" + (name + ("" + call));
    assert "" + call == call && name + call == name + "(" + WriteArg(a, tail);
  }

  lemma TwoArgsValue(u: Unicode, name: string, a: ArgTree, b: ArgTree)
    requires Identifier(u, name) && WfArg(a) && WfArg(b)
    ensures WfPipeline(u, TwoArgs(name, a, b))
    ensures Value(u, TwoArgs(name, a, b)) == [Op(name, [ArgValue(a), ArgValue(b)])]
  {
    BlankIsSpace(u);
    var last := One(Slot(" ", b, ""));
    var slots := More(Slot("", a, ""), last);
    assert WfSlot(u, last.head) && WfSlots(u, last) && WfSlots(u, slots);
    assert SlotsValue(u, last) == [ArgValue(b)];
    assert SlotsValue(u, slots) == [ArgValue(a)] + SlotsValue(u, last);
    assert [ArgValue(a)] + [ArgValue(b)] == [ArgValue(a), ArgValue(b)];
  }

  lemma QuotedText(s: string, rest: string)
    requires '"' !in s && '\\' !in s
    ensures WriteArg(Quoted('"', PlainBody(s)), rest) == "\"" + s + "\"" + rest
    ensures WfArg(Quoted('"', PlainBody(s))) && ArgValue(Quoted('"', PlainBody(s))) == StringArg(s)
  {
    PlainBodyText('"', s, rest);
    assert "\"" + (s + "\"" + rest) == "\"" + s + "\"" + rest;
  }

  /** Arguments are separated by commas. */
  lemma ArgumentsParse(u: Unicode, name: string, s: string, t: string)
    requires Identifier(u, name) && '"' !in s && '"' !in t && '\\' !in s && '\\' !in t
    ensures ParseResult(u, name + "(\"" + s + "\", \"" + t + "\")") == Ok([Op(name, [StringArg(s), StringArg(t)])])
  {
    var a, b := Quoted('"', PlainBody(s)), Quoted('"', PlainBody(t));
    QuotedText(t, ")");
    QuotedText(s, ", " + WriteArg(b, ")"));
    TwoArgsText(name, a, b);
    TwoArgsValue(u, name, a, b);
    var text := name + "(\"" + s + "\", \"" + t + "\")";
    assert name + "(" + ("\"" + s + "\"" + (", " + ("\"" + t + "\"" + ")"))) == text;
    Parses(u, TwoArgs(name, a, b), text, [Op(name, [StringArg(s), StringArg(t)])]);
  }

  function Bare(name: string): StepTree { Step(name, "", NoArgs("")) }

  lemma BareText(name: string, rest: string)
    ensures WriteStep(Bare(name), rest) == name + "()" + rest
  {
    assert name + ("" + ("(" + ("" + (")" + rest)))) == name + "()" + rest;
  }

  /** A step needs parentheses even without arguments, and a blank text has no steps. */
  lemma StepParses(u: Unicode, name: string)
    requires Identifier(u, name)
    ensures ParseResult(u, name + "()") == Ok([Op(name, [])])
    ensures ParseResult(u, "") == Ok([]) && ParseResult(u, " ") == Ok([])
  {
    BlankIsSpace(u);
    BareText(name, "");
    assert "" + "" == "" && name + "()" + "" == name + "()";
    assert Text(Single(Bare(name))) == "" + WriteStep(Bare(name), "");
    Parses(u, Single(Bare(name)), name + "()", [Op(name, [])]);
    Parses(u, Blank(""), "", []);
    Parses(u, Blank(" "), " ", []);
  }

  function Piped(first: string, second: string): PipelineTree {
    Stages(More(Stage("", Bare(first), " "), One(Stage(" ", Bare(second), ""))))
  }

  lemma PipedText(first: string, second: string)
    ensures Text(Piped(first, second)) == first + "() | " + second + "()"
  {
    assert "" + "" == "";
    BareText(second, "");
    var tail := " " + ("|" + (" " + WriteStep(Bare(second), "")));
    assert tail == " | " + second + "()" by { assert second + "()" + "" == second + "()"; }
    BareText(first, tail);
    var last := One(Stage(" ", Bare(second), ""));
    assert WriteStages(last) == " " + WriteStep(Bare(second), "" + "");
    assert Text(Piped(first, second)) == "" + WriteStep(Bare(first), " " + ("|" + WriteStages(last)));
    assert first + "()" + (" | " + second + "()") == first + "() | " + second + "()";
  }

  /** Steps are separated by bars. */
  lemma StepsParse(u: Unicode, first: string, second: string)
    requires Identifier(u, first) && Identifier(u, second)
    ensures ParseResult(u, first + "() | " + second + "()") == Ok([Op(first, []), Op(second, [])])
  {
    BlankIsSpace(u);
    PipedText(first, second);
    var last := One(Stage(" ", Bare(second), ""));
    var stages := More(Stage("", Bare(first), " "), last);
    assert WfStage(u, last.head) && WfStages(u, last) && WfStages(u, stages);
    assert StagesValue(u, last) == [Op(second, [])];
    assert StagesValue(u, stages) == [Op(first, [])] + StagesValue(u, last);
    assert [Op(first, [])] + [Op(second, [])] == [Op(first, []), Op(second, [])];
    Parses(u, Piped(first, second), first + "() | " + second + "()", [Op(first, []), Op(second, [])]);
  }

  // ----- errors -----

  lemma NameIsRead(u: Unicode, name: string, rest: string)
    requires Identifier(u, name) && (rest == "" || !u.IsIdentPart(rest[0]))
    ensures IdentOf(u, name + rest) == Ok((name, rest))
  {
    var text := name + rest;
    assert text[0] == name[0] && text[1..] == name[1..] + rest;
    SpanTakes(u.IsIdentPart, name[1..], rest);
    assert [name[0]] + name[1..] == name;
  }

  /** What is not a step, or not one to its end. */
  lemma BrokenSteps(u: Unicode, name: string, c: char)
    requires Identifier(u, name)
    ensures !u.isSpace(c) && !u.IsIdentStart(c) ==> ParseResult(u, [c]) == Err(Syntax(ExpectedIdentifier))
    ensures ParseResult(u, name) == Err(Syntax(ExpectedOpenParen(name)))
    ensures ParseResult(u, name + "(") == Err(Syntax(ExpectedCloseParen(name)))
  {
    assert name + "" == name;
    NameIsRead(u, name, "");
    NameIsRead(u, name, "(");
    assert !u.isSpace(name[0]) && !u.isSpace((name + "(")[0]);
    assert "("[1..] == "";
  }

  /** What is not an argument, or not one to its end. */
  lemma BrokenArguments(u: Unicode, c: char)
    ensures ArgOf(u, "") == Err(ExpectedArgument)
    ensures c != '"' && c != '\'' && c != '-' && !u.isDigit(c) ==> ArgOf(u, [c]) == Err(UnexpectedArgument(c))
    ensures ArgOf(u, "\"") == ArgOf(u, "'") == Err(UnterminatedString)
    ensures ArgOf(u, "\"\\") == ArgOf(u, "'\\") == Err(UnterminatedEscape)
    ensures ArgOf(u, "-") == Err(ExpectedDigits)
    ensures u.isDigit(c) && !('0' <= c <= '9') ==> ArgOf(u, [c]) == Err(InvalidInteger([c]))
  {
    assert "\""[1..] == "'"[1..] == "-"[1..] == "";
    assert "\"\\"[1..] == "'\\"[1..] == "\\";
    if u.isDigit(c) && !('0' <= c <= '9') {
      assert c != '-' by { assert !u.isDigit('-'); }
      assert [c][1..] == "" && Span(u.isDigit, [c]) == ([c] + [], "");
      assert [c] + [] == [c];
    }
  }

  /** An argument list that is not closed, and a step that is followed by anything but a bar. */
  lemma BrokenSequences(u: Unicode, name: string, c: char)
    requires Identifier(u, name)
    ensures SlotsOf(u, name, "", "1") == Err(UnterminatedArguments(name))
    ensures !u.isSpace(c) && c != '|' ==> ParseResult(u, name + "()" + [c]) == Err(Syntax(ExpectedPipe(c)))
  {
    assert Decimal(1) == "1" by { assert "" + [DigitChar(1)] == "1"; }
    NumeralValue(1);
    BlankIsSpace(u);
    SlotComplete(u, Slot("", Literal(false, "1"), ""), "");
    assert "" + "" == "" && "1" + "" == "1";
    if !u.isSpace(c) && c != '|' {
      var text := WriteStep(Bare(name), [c]);
      BareText(name, [c]);
      StepStart(u, Bare(name), [c]);
      assert "" + [c] == [c];
      StageComplete(u, Stage("", Bare(name), ""), [c]);
      assert Span(u.isSpace, text) == ("", text);
    }
  }
}
