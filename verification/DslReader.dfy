/** The function that the cursor parser computes. It works on what is left of the input and keeps the
    concrete syntax tree, so its postconditions say that nothing of the input is lost or invented. */
module DslReader {
  import opened Wrappers
  import opened Runes
  import opened Dsl
  import opened DslGrammar

  const MAX_PIPELINE_LENGTH := 20

  datatype SyntaxError =
    | ExpectedIdentifier
    | ExpectedOpenParen(name: string)
    | ExpectedCloseParen(name: string)
    | UnterminatedArguments(name: string)
    | ExpectedArgument
    | UnexpectedArgument(c: char)
    | UnterminatedString
    | UnterminatedEscape
    | ExpectedDigits
    | InvalidInteger(text: string)
    | ExpectedPipe(c: char)

  datatype ParseError = Syntax(error: SyntaxError) | TooManySteps(steps: nat)

  type Parsed<T> = Result<(T, string), SyntaxError>

  /** All but the first rune. */
  function Tail(s: string): (t: string)
    requires s != []
    ensures |t| < |s|
  {
    s[1..]
  }

  /** The longest prefix whose runes all satisfy `p`, and what follows it. */
  function Span(p: char -> bool, s: string): (r: (string, string))
    ensures All(p, r.0) && |r.1| <= |s|
    ensures r.1 == [] || !p(r.1[0])
  {
    if s == [] || !p(s[0]) then ([], s)
    else
      var (taken, rest) := Span(p, Tail(s));
      ([s[0]] + taken, rest)
  }

  /** The rest of a string literal after its opening quote. */
  function BodyOf(quote: char, s: string): (r: Parsed<Body>)
    ensures r.Ok? ==> WfBody(quote, r.value.0) && |r.value.1| < |s|
  {
    if s == [] then Err(UnterminatedString)
    else if s[0] == '\\' then
      if |s| == 1 then Err(UnterminatedEscape)
      else
        var (body, rest) :- BodyOf(quote, s[2..]);
        Ok((Escaped(s[1], body), rest))
    else if s[0] == quote then Ok((Close, Tail(s)))
    else
      var (body, rest) :- BodyOf(quote, Tail(s));
      Ok((Plain(s[0], body), rest))
  }

  function LiteralOf(u: Unicode, s: string): (r: Parsed<ArgTree>)
    requires s != []
    ensures r.Ok? ==> WfArg(r.value.0) && |r.value.1| < |s|
  {
    var negative := s[0] == '-';
    var (digits, rest) := Span(u.isDigit, if negative then s[1..] else s);
    if digits == [] then Err(ExpectedDigits)
    else if LiteralValue(negative, digits).None? then Err(InvalidInteger(Signed(negative, digits)))
    else Ok((Literal(negative, digits), rest))
  }

  function ArgOf(u: Unicode, s: string): (r: Parsed<ArgTree>)
    ensures r.Ok? ==> WfArg(r.value.0) && |r.value.1| < |s|
  {
    if s == [] then Err(ExpectedArgument)
    else if s[0] == '"' || s[0] == '\'' then
      var (body, rest) :- BodyOf(s[0], Tail(s));
      Ok((Quoted(s[0], body), rest))
    else if s[0] == '-' || u.isDigit(s[0]) then LiteralOf(u, s)
    else Err(UnexpectedArgument(s[0]))
  }

  /** One argument with the white space around it; `before` has already been skipped. */
  function SlotOf(u: Unicode, before: string, s: string): (r: Parsed<Slot>)
    requires Space(u, before)
    ensures r.Ok? ==> WfSlot(u, r.value.0) && |r.value.1| < |s|
  {
    var (arg, s1) :- ArgOf(u, s);
    var (after, s2) := Span(u.isSpace, s1);
    Ok((Slot(before, arg, after), s2))
  }

  /** The arguments of op `name`, up to the closing parenthesis; `before` has already been skipped. */
  function SlotsOf(u: Unicode, name: string, before: string, s: string): (r: Parsed<Chain<Slot>>)
    requires Space(u, before)
    ensures r.Ok? ==> WfSlots(u, r.value.0) && |r.value.1| < |s|
    decreases |s|
  {
    var (slot, s2) :- SlotOf(u, before, s);
    if s2 == [] then Err(UnterminatedArguments(name))
    else if s2[0] == ',' then
      var (before', s3) := Span(u.isSpace, Tail(s2));
      var (slots, rest) :- SlotsOf(u, name, before', s3);
      Ok((More(slot, slots), rest))
    else Ok((One(slot), s2))
  }

  function ArgsOf(u: Unicode, name: string, s: string): (r: Parsed<ArgsTree>)
    ensures r.Ok? ==> WfArgs(u, r.value.0) && |r.value.1| <= |s|
  {
    var (before, s1) := Span(u.isSpace, s);
    if s1 != [] && s1[0] != ')' then
      var (slots, rest) :- SlotsOf(u, name, before, s1);
      Ok((Args(slots), rest))
    else Ok((NoArgs(before), s1))
  }

  function IdentOf(u: Unicode, s: string): (r: Parsed<string>)
    ensures r.Ok? ==> Identifier(u, r.value.0) && |r.value.1| < |s|
  {
    if s == [] || !u.IsIdentStart(s[0]) then Err(ExpectedIdentifier)
    else
      var (parts, rest) := Span(u.IsIdentPart, s[1..]);
      Ok(([s[0]] + parts, rest))
  }

  /** The parenthesized arguments of op `name`. */
  function CallOf(u: Unicode, name: string, s: string): (r: Parsed<ArgsTree>)
    ensures r.Ok? ==> WfArgs(u, r.value.0) && |r.value.1| < |s|
  {
    if s == [] || s[0] != '(' then Err(ExpectedOpenParen(name))
    else
      var (args, s1) :- ArgsOf(u, name, Tail(s));
      if s1 == [] || s1[0] != ')' then Err(ExpectedCloseParen(name))
      else
        Ok((args, Tail(s1)))
  }

  function StepOf(u: Unicode, s: string): (r: Parsed<StepTree>)
    ensures r.Ok? ==> WfStep(u, r.value.0) && |r.value.1| < |s|
  {
    var (name, s1) :- IdentOf(u, s);
    var (gap, s2) := Span(u.isSpace, s1);
    var (args, rest) :- CallOf(u, name, s2);
    Ok((Step(name, gap, args), rest))
  }

  /** One step with the white space around it; `before` has already been skipped. */
  function StageOf(u: Unicode, before: string, s: string): (r: Parsed<Stage>)
    requires Space(u, before)
    ensures r.Ok? ==> WfStage(u, r.value.0) && |r.value.1| < |s|
  {
    var (step, s1) :- StepOf(u, s);
    var (after, s2) := Span(u.isSpace, s1);
    Ok((Stage(before, step, after), s2))
  }

  function StagesOf(u: Unicode, before: string, s: string): (r: Result<Chain<Stage>, SyntaxError>)
    requires Space(u, before)
    ensures r.Ok? ==> WfStages(u, r.value)
    decreases |s|
  {
    var (stage, s2) :- StageOf(u, before, s);
    if s2 == [] then Ok(One(stage))
    else if s2[0] != '|' then Err(ExpectedPipe(s2[0]))
    else
      var (before', s3) := Span(u.isSpace, Tail(s2));
      var stages :- StagesOf(u, before', s3);
      Ok(More(stage, stages))
  }

  function PipelineOf(u: Unicode, s: string): (r: Result<PipelineTree, SyntaxError>)
    ensures r.Ok? ==> WfPipeline(u, r.value)
  {
    var (before, s1) := Span(u.isSpace, s);
    if s1 == [] then Ok(Blank(before))
    else
      var stages :- StagesOf(u, before, s1);
      Ok(Stages(stages))
  }

  /** What `Parse` returns, as a function of the source text. */
  function ParseResult(u: Unicode, src: string): Result<Pipeline, ParseError> {
    match PipelineOf(u, src)
    case Err(e) => Err(Syntax(e))
    case Ok(tree) =>
      var pipeline := Value(u, tree);
      if |pipeline| > MAX_PIPELINE_LENGTH then Err(TooManySteps(|pipeline|)) else Ok(pipeline)
  }
}
