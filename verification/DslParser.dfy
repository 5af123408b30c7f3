/** The recursive-descent parser: a cursor into the runes of the source text that every method
    advances. */
module DslParser {
  import opened Wrappers
  import opened Runes
  import opened Dsl
  import opened DslGrammar
  import opened DslReader
  import opened DslText

  class Parser {
    const u: Unicode
    const input: string
    var pos: nat

    ghost predicate Valid()
      reads this
    {
      pos <= |input|
    }

    /** The input from the cursor on. */
    ghost function Rest(): string
      requires Valid()
      reads this
    {
      input[pos..]
    }

    constructor (u: Unicode, src: string)
      ensures Valid() && this.u == u && Rest() == src
    {
      this.u, input, pos := u, src, 0;
    }

    /** The rune under the cursor. */
    function Peek(): (c: char)
      requires Valid() && pos < |input|
      reads this
      ensures Rest() == [c] + Tail(Rest())
    {
      input[pos]
    }

    method Advance()
      requires Valid() && pos < |input|
      modifies this`pos
      ensures Valid() && Rest() == Tail(old(Rest()))
    {
      pos := pos + 1;
    }

    /** The runes from `start` to the cursor are a whole run of `p`. */
    lemma RunEnds(p: char -> bool, start: nat)
      requires Valid() && start <= pos
      requires forall i | start <= i < pos :: p(input[i])
      requires pos == |input| || !p(input[pos])
      ensures Span(p, input[start..]) == (input[start..pos], Rest())
    {
      assert input[start..] == input[start..pos] + input[pos..];
      SpanTakes(p, input[start..pos], input[pos..]);
    }

    method SkipSpace()
      requires Valid()
      modifies this`pos
      ensures Valid() && Rest() == Span(u.isSpace, old(Rest())).1
    {
      ghost var start := pos;
      while pos < |input| && u.isSpace(input[pos])
        invariant Valid() && start <= pos && forall i | start <= i < pos :: u.isSpace(input[i])
      {
        pos := pos + 1;
      }
      RunEnds(u.isSpace, start);
    }

    method ParseIdent() returns (r: Result<string, SyntaxError>)
      requires Valid()
      modifies this`pos
      ensures Valid()
      ensures match IdentOf(u, old(Rest()))
              case Ok((name, rest)) => r == Ok(name) && Rest() == rest
              case Err(e) => r == Err(e)
    {
      var start := pos;
      if pos >= |input| || !u.IsIdentStart(Peek()) { return Err(ExpectedIdentifier); }
      Advance();
      while pos < |input| && u.IsIdentPart(input[pos])
        invariant Valid() && start < pos && forall i | start < i < pos :: u.IsIdentPart(input[i])
      {
        pos := pos + 1;
      }
      RunEnds(u.IsIdentPart, start + 1);
      assert IdentOf(u, input[start..]) == Ok((input[start..pos], Rest())) by {
        assert input[start..][1..] == input[start + 1..];
        assert input[start..pos] == [input[start]] + input[start + 1..pos];
      }
      return Ok(input[start..pos]);
    }

    method ParseString() returns (r: Result<string, SyntaxError>)
      requires Valid() && pos < |input|
      modifies this`pos
      ensures Valid()
      ensures match BodyOf(old(Peek()), Tail(old(Rest())))
              case Ok((body, rest)) => r == Ok(BodyValue(body)) && Rest() == rest
              case Err(e) => r == Err(e)
    {
      var quote := Peek();
      Advance();
      var b := "";
      ghost var whole := BodyOf(quote, Rest());
      while true
        invariant Valid() && Continues(whole, b, BodyOf(quote, Rest()))
        decreases |input| - pos
      {
        if pos >= |input| { return Err(UnterminatedString); }
        var c := Peek();
        if c == '\\' {
          ghost var s := Rest();
          Advance();
          if pos >= |input| { return Err(UnterminatedEscape); }
          ReadEscaped(whole, b, quote, s);
          b := b + [Peek()];
          Advance();
          continue;
        }
        if c == quote {
          Advance();
          assert b + [] == b;
          return Ok(b);
        }
        ReadPlain(whole, b, quote, Rest());
        b := b + [c];
        Advance();
      }
    }

    /** The runes from `start` to the cursor are a whole integer literal. */
    lemma LiteralEnds(start: nat, digitsStart: nat)
      requires Valid() && start < |input| && digitsStart == (if input[start] == '-' then start + 1 else start)
      requires digitsStart <= pos && forall i | digitsStart <= i < pos :: u.isDigit(input[i])
      requires pos == |input| || !u.isDigit(input[pos])
      ensures LiteralOf(u, input[start..]) ==
              var text := input[start..pos];
              if digitsStart == pos then Err(ExpectedDigits)
              else if Atoi(text).None? then Err(InvalidInteger(text))
              else Ok((Literal(digitsStart != start, input[digitsStart..pos]), Rest()))
      ensures digitsStart < pos ==>
                Atoi(input[start..pos]) == LiteralValue(digitsStart != start, input[digitsStart..pos])
    {
      var digits := input[digitsStart..pos];
      assert input[start..pos] == Signed(digitsStart != start, digits);
      assert input[start..] == Signed(digitsStart != start, digits + Rest()) by {
        assert input[digitsStart..] == digits + Rest();
      }
      LiteralAt(u, digitsStart != start, digits, Rest());
    }

    method ParseInt() returns (r: Result<Int64, SyntaxError>)
      requires Valid() && pos < |input|
      modifies this`pos
      ensures Valid()
      ensures match LiteralOf(u, old(Rest()))
              case Ok((literal, rest)) => r.Ok? && IntArg(r.value) == ArgValue(literal) && Rest() == rest
              case Err(e) => r == Err(e)
    {
      var start := pos;
      if Peek() == '-' { Advance(); }
      var digitsStart := pos;
      while pos < |input| && u.isDigit(input[pos])
        invariant Valid() && digitsStart <= pos && forall i | digitsStart <= i < pos :: u.isDigit(input[i])
      {
        pos := pos + 1;
      }
      LiteralEnds(start, digitsStart);
      var text := input[start..pos];
      if pos == digitsStart { return Err(ExpectedDigits); }
      var n := Atoi(text);
      if n.None? { return Err(InvalidInteger(text)); }
      return Ok(n.value);
    }

    method ParseArg() returns (r: Result<Arg, SyntaxError>)
      requires Valid()
      modifies this`pos
      ensures Valid()
      ensures match ArgOf(u, old(Rest()))
              case Ok((arg, rest)) => r == Ok(ArgValue(arg)) && Rest() == rest
              case Err(e) => r == Err(e)
    {
      if pos >= |input| { return Err(ExpectedArgument); }
      if Peek() == '"' || Peek() == '\'' {
        var s :- ParseString();
        return Ok(StringArg(s));
      } else if Peek() == '-' || u.isDigit(Peek()) {
        var n :- ParseInt();
        return Ok(IntArg(n));
      } else {
        return Err(UnexpectedArgument(Peek()));
      }
    }

    /** An argument and the white space after it; `before` is the white space in front. */
    method ParseSlot(ghost before: string) returns (r: Result<Arg, SyntaxError>)
      requires Valid() && Space(u, before)
      modifies this`pos
      ensures Valid()
      ensures match SlotOf(u, before, old(Rest()))
              case Ok((slot, rest)) => r == Ok(ArgValue(slot.arg)) && Rest() == rest
              case Err(e) => r == Err(e)
    {
      var arg :- ParseArg();
      SkipSpace();
      return Ok(arg);
    }

    /** The argument loop of a step, from the first rune of its first argument. */
    method ParseArgs(name: string, ghost before: string) returns (r: Result<seq<Arg>, SyntaxError>)
      requires Valid() && Space(u, before)
      modifies this`pos
      ensures Valid()
      ensures match SlotsOf(u, name, before, old(Rest()))
              case Ok((slots, rest)) => r == Ok(SlotsValue(u, slots)) && Rest() == rest
              case Err(e) => r == Err(e)
    {
      var args := [];
      ghost var whole, skipped := SlotsOf(u, name, before, Rest()), before;
      while true
        invariant Valid() && Space(u, skipped)
        invariant MoreSlots(u, whole, args, SlotsOf(u, name, skipped, Rest()))
        decreases |input| - pos
      {
        ghost var s := Rest();
        assert whole.Err? <==> SlotsOf(u, name, skipped, s).Err?;
        var arg :- ParseSlot(skipped);
        if pos >= |input| { return Err(UnterminatedArguments(name)); }
        if Peek() == ',' {
          ReadSlot(u, name, whole, args, skipped, s);
          args := args + [arg];
          Advance();
          skipped := Span(u.isSpace, Rest()).0;
          SkipSpace();
          continue;
        }
        args := args + [arg];
        return Ok(args);
      }
    }

    /** The parenthesized arguments of op `name`. */
    method ParseCall(name: string) returns (r: Result<seq<Arg>, SyntaxError>)
      requires Valid()
      modifies this`pos
      ensures Valid()
      ensures match CallOf(u, name, old(Rest()))
              case Ok((args, rest)) => r == Ok(ArgsValue(u, args)) && Rest() == rest
              case Err(e) => r == Err(e)
    {
      if pos >= |input| || Peek() != '(' { return Err(ExpectedOpenParen(name)); }
      Advance();
      ghost var before := Span(u.isSpace, Rest()).0;
      SkipSpace();
      var args := [];
      if pos < |input| && Peek() != ')' {
        args :- ParseArgs(name, before);
      }
      if pos >= |input| || Peek() != ')' { return Err(ExpectedCloseParen(name)); }
      Advance();
      return Ok(args);
    }

    method ParseStep() returns (r: Result<Op, SyntaxError>)
      requires Valid()
      modifies this`pos
      ensures Valid()
      ensures match StepOf(u, old(Rest()))
              case Ok((step, rest)) => r == Ok(StepValue(u, step)) && Rest() == rest
              case Err(e) => r == Err(e)
    {
      var name :- ParseIdent();
      SkipSpace();
      var args :- ParseCall(name);
      return Ok(Op(name, args));
    }

    /** A step and the white space after it; `before` is the white space in front. */
    method ParseStage(ghost before: string) returns (r: Result<Op, SyntaxError>)
      requires Valid() && Space(u, before)
      modifies this`pos
      ensures Valid()
      ensures match StageOf(u, before, old(Rest()))
              case Ok((stage, rest)) => r == Ok(StepValue(u, stage.step)) && Rest() == rest
              case Err(e) => r == Err(e)
    {
      var op :- ParseStep();
      SkipSpace();
      return Ok(op);
    }

    method ParsePipeline() returns (r: Result<Pipeline, SyntaxError>)
      requires Valid()
      modifies this`pos
      ensures Valid()
      ensures match PipelineOf(u, old(Rest()))
              case Ok(tree) => r == Ok(Value(u, tree))
              case Err(e) => r == Err(e)
    {
      ghost var skipped := Span(u.isSpace, Rest()).0;
      SkipSpace();
      if pos >= |input| { return Ok([]); }
      r := ParseStages(skipped);
    }

    /** The step loop of a pipeline, from the first rune of its first step. */
    method ParseStages(ghost before: string) returns (r: Result<Pipeline, SyntaxError>)
      requires Valid() && Space(u, before)
      modifies this`pos
      ensures Valid()
      ensures match StagesOf(u, before, old(Rest()))
              case Ok(stages) => r == Ok(StagesValue(u, stages))
              case Err(e) => r == Err(e)
    {
      var pipeline: Pipeline := [];
      ghost var whole, skipped := StagesOf(u, before, Rest()), before;
      while true
        invariant Valid() && Space(u, skipped)
        invariant MoreStages(u, whole, pipeline, StagesOf(u, skipped, Rest()))
        decreases |input| - pos
      {
        ghost var s := Rest();
        var op :- ParseStage(skipped);
        if pos >= |input| {
          pipeline := pipeline + [op];
          return Ok(pipeline);
        }
        if Peek() != '|' { return Err(ExpectedPipe(Peek())); }
        ReadStage(u, whole, pipeline, skipped, s);
        pipeline := pipeline + [op];
        Advance();
        skipped := Span(u.isSpace, Rest()).0;
        SkipSpace();
      }
    }
  }

  /** Having read `b`, the literal that started as `whole` still has `now` to come. */
  ghost predicate Continues(whole: Parsed<Body>, b: string, now: Parsed<Body>) {
    match now
    case Ok((body, rest)) => whole.Ok? && BodyValue(whole.value.0) == b + BodyValue(body) && whole.value.1 == rest
    case Err(e) => whole == Err(e)
  }

  lemma ReadPlain(whole: Parsed<Body>, b: string, quote: char, s: string)
    requires Continues(whole, b, BodyOf(quote, s)) && s != [] && s[0] != '\\' && s[0] != quote
    ensures Continues(whole, b + [s[0]], BodyOf(quote, Tail(s)))
  {
    var now := BodyOf(quote, Tail(s));
    if now.Ok? {
      assert b + ([s[0]] + BodyValue(now.value.0)) == (b + [s[0]]) + BodyValue(now.value.0);
    }
  }

  lemma ReadEscaped(whole: Parsed<Body>, b: string, quote: char, s: string)
    requires Continues(whole, b, BodyOf(quote, s)) && |s| >= 2 && s[0] == '\\'
    ensures Continues(whole, b + [s[1]], BodyOf(quote, Tail(Tail(s))))
  {
    assert s[2..] == Tail(Tail(s));
    var now := BodyOf(quote, s[2..]);
    if now.Ok? {
      assert b + ([s[1]] + BodyValue(now.value.0)) == (b + [s[1]]) + BodyValue(now.value.0);
    }
  }

  /** `strconv.Atoi` on an optional minus sign and digits. */
  function Atoi(text: string): Option<Int64> {
    if text != [] && text[0] == '-' then LiteralValue(true, text[1..]) else LiteralValue(false, text)
  }

  lemma LiteralAt(u: Unicode, negative: bool, digits: string, rest: string)
    requires All(u.isDigit, digits) && (rest == [] || !u.isDigit(rest[0]))
    requires var s := Signed(negative, digits + rest); s != [] && (negative <==> s[0] == '-')
    ensures LiteralOf(u, Signed(negative, digits + rest)) ==
            if digits == [] then Err(ExpectedDigits)
            else if Atoi(Signed(negative, digits)).None? then Err(InvalidInteger(Signed(negative, digits)))
            else Ok((Literal(negative, digits), rest))
    ensures digits != [] ==> Atoi(Signed(negative, digits)) == LiteralValue(negative, digits)
  {
    var s := Signed(negative, digits + rest);
    if negative { assert s[1..] == digits + rest && Signed(true, digits)[1..] == digits; }
    SpanTakes(u.isDigit, digits, rest);
  }

  // The same for the argument loop and the step loop.

  ghost predicate MoreSlots(u: Unicode, whole: Parsed<Chain<Slot>>, args: seq<Arg>, now: Parsed<Chain<Slot>>) {
    match now
    case Ok((slots, rest)) =>
      && whole.Ok? && WfSlots(u, whole.value.0) && WfSlots(u, slots)
      && SlotsValue(u, whole.value.0) == args + SlotsValue(u, slots) && whole.value.1 == rest
    case Err(e) => whole == Err(e)
  }

  lemma ReadSlot(u: Unicode, name: string, whole: Parsed<Chain<Slot>>, args: seq<Arg>, before: string, s: string)
    requires Space(u, before) && MoreSlots(u, whole, args, SlotsOf(u, name, before, s))
    requires var r := SlotOf(u, before, s); r.Ok? && r.value.1 != [] && r.value.1[0] == ','
    ensures var (slot, s2) := SlotOf(u, before, s).value;
            var (before', s3) := Span(u.isSpace, Tail(s2));
            MoreSlots(u, whole, args + [ArgValue(slot.arg)], SlotsOf(u, name, before', s3))
  {
    var (slot, s2) := SlotOf(u, before, s).value;
    var (before', s3) := Span(u.isSpace, Tail(s2));
    var now := SlotsOf(u, name, before', s3);
    if now.Ok? {
      var more := SlotsValue(u, now.value.0);
      assert args + ([ArgValue(slot.arg)] + more) == (args + [ArgValue(slot.arg)]) + more;
    }
  }

  ghost predicate MoreStages(
    u: Unicode, whole: Result<Chain<Stage>, SyntaxError>, done: Pipeline, now: Result<Chain<Stage>, SyntaxError>)
  {
    match now
    case Ok(stages) =>
      && whole.Ok? && WfStages(u, whole.value) && WfStages(u, stages)
      && StagesValue(u, whole.value) == done + StagesValue(u, stages)
    case Err(e) => whole == Err(e)
  }

  lemma ReadStage(u: Unicode, whole: Result<Chain<Stage>, SyntaxError>, done: Pipeline, before: string, s: string)
    requires Space(u, before) && MoreStages(u, whole, done, StagesOf(u, before, s))
    requires var r := StageOf(u, before, s); r.Ok? && r.value.1 != [] && r.value.1[0] == '|'
    ensures var (stage, s2) := StageOf(u, before, s).value;
            var (before', s3) := Span(u.isSpace, Tail(s2));
            MoreStages(u, whole, done + [StepValue(u, stage.step)], StagesOf(u, before', s3))
  {
    var (stage, s2) := StageOf(u, before, s).value;
    var (before', s3) := Span(u.isSpace, Tail(s2));
    var now := StagesOf(u, before', s3);
    if now.Ok? {
      var more := StagesValue(u, now.value);
      assert done + ([StepValue(u, stage.step)] + more) == (done + [StepValue(u, stage.step)]) + more;
    }
  }

  /** The parser's entry point. */
  method Parse(u: Unicode, src: string) returns (r: Result<Pipeline, ParseError>)
    ensures r == ParseResult(u, src)
    ensures forall p :: r == Ok(p) <==> Derives(u, src, p) && |p| <= 20
  {
    var p := new Parser(u, src);
    var parsed := p.ParsePipeline();
    forall p: Pipeline
      ensures ParseResult(u, src) == Ok(p) <==> Derives(u, src, p) && |p| <= 20
    {
      ParseIffDerives(u, src, p);
    }
    match parsed
    case Err(e) => return Err(Syntax(e));
    case Ok(pipeline) =>
      if |pipeline| > MAX_PIPELINE_LENGTH { return Err(TooManySteps(|pipeline|)); }
      return Ok(pipeline);
  }
}
