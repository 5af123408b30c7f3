/** A declarative grammar of the pipe-delimited text syntax. A concrete syntax tree records every
    choice a writer has: white space, quote style, escapes, digits. `Text` writes a tree out, and
    `Value` is the pipeline it denotes. Nothing here knows how the parser works. */
module DslGrammar {
  import opened Wrappers
  import opened Runes
  import opened Dsl

  // ----- integers -----

  predicate AsciiDigits(s: string) { forall i | 0 <= i < |s| :: '0' <= s[i] <= '9' }

  function DigitsValue(digits: string): (n: int)
    requires AsciiDigits(digits)
    ensures n >= 0
  {
    if digits == [] then 0
    else
      var last := |digits| - 1;
      var unit := digits[last] as int - '0' as int;
      DigitsValue(digits[..last]) * 10 + unit
  }

  /** The value of an integer literal, when it is made of ASCII digits and fits 64 bits. */
  function LiteralValue(negative: bool, digits: string): Option<Int64> {
    if digits != [] && AsciiDigits(digits) then
      var n := if negative then -DigitsValue(digits) else DigitsValue(digits);
      if MIN_INT64 <= n <= MAX_INT64 then Some(n) else None
    else None
  }

  // ----- trees -----

  /** The inside of a string literal up to its closing quote: runes written plainly or after a
      backslash. */
  datatype Body = Close | Plain(c: char, more: Body) | Escaped(c: char, more: Body)

  datatype ArgTree = Quoted(quote: char, body: Body) | Literal(negative: bool, digits: string)

  /** One or more items with a separator between them. */
  datatype Chain<T> = One(head: T) | More(head: T, tail: Chain<T>)

  /** An argument with the white space around it. */
  datatype Slot = Slot(before: string, arg: ArgTree, after: string)

  datatype ArgsTree = NoArgs(space: string) | Args(slots: Chain<Slot>)

  datatype StepTree = Step(name: string, gap: string, args: ArgsTree)

  /** A step with the white space around it. */
  datatype Stage = Stage(before: string, step: StepTree, after: string)

  datatype PipelineTree = Blank(space: string) | Stages(stages: Chain<Stage>)

  // ----- well-formedness -----

  predicate All(p: char -> bool, s: string) { forall i | 0 <= i < |s| :: p(s[i]) }

  predicate Space(u: Unicode, s: string) { All(u.isSpace, s) }

  predicate Identifier(u: Unicode, s: string) {
    s != [] && u.IsIdentStart(s[0]) && All(u.IsIdentPart, s[1..])
  }

  predicate WfBody(quote: char, b: Body) {
    match b
    case Close => true
    case Plain(c, more) => c != '\\' && c != quote && WfBody(quote, more)
    case Escaped(_, more) => WfBody(quote, more)
  }

  predicate WfArg(a: ArgTree) {
    match a
    case Quoted(quote, body) => (quote == '"' || quote == '\'') && WfBody(quote, body)
    case Literal(negative, digits) => LiteralValue(negative, digits).Some?
  }

  predicate WfSlot(u: Unicode, s: Slot) { Space(u, s.before) && WfArg(s.arg) && Space(u, s.after) }

  predicate WfSlots(u: Unicode, slots: Chain<Slot>) {
    WfSlot(u, slots.head) && (slots.More? ==> WfSlots(u, slots.tail))
  }

  predicate WfArgs(u: Unicode, a: ArgsTree) {
    match a
    case NoArgs(space) => Space(u, space)
    case Args(slots) => WfSlots(u, slots)
  }

  predicate WfStep(u: Unicode, s: StepTree) {
    Identifier(u, s.name) && Space(u, s.gap) && WfArgs(u, s.args)
  }

  predicate WfStage(u: Unicode, s: Stage) { Space(u, s.before) && WfStep(u, s.step) && Space(u, s.after) }

  predicate WfStages(u: Unicode, stages: Chain<Stage>) {
    WfStage(u, stages.head) && (stages.More? ==> WfStages(u, stages.tail))
  }

  predicate WfPipeline(u: Unicode, p: PipelineTree) {
    match p
    case Blank(space) => Space(u, space)
    case Stages(stages) => WfStages(u, stages)
  }

  // ----- what a tree is written as -----
  // Each function gives the text of its tree followed by `rest`.

  function WriteBody(quote: char, b: Body, rest: string): string {
    match b
    case Close => [quote] + rest
    case Plain(c, more) => [c] + WriteBody(quote, more, rest)
    case Escaped(c, more) => ['\\', c] + WriteBody(quote, more, rest)
  }

  function Signed(negative: bool, digits: string): string { if negative then "-" + digits else digits }

  function WriteArg(a: ArgTree, rest: string): string {
    match a
    case Quoted(quote, body) => [quote] + WriteBody(quote, body, rest)
    case Literal(negative, digits) => Signed(negative, digits + rest)
  }

  function WriteSlot(s: Slot, rest: string): string { s.before + WriteArg(s.arg, s.after + rest) }

  function WriteSlots(slots: Chain<Slot>, rest: string): string {
    WriteSlot(slots.head, if slots.One? then rest else "," + WriteSlots(slots.tail, rest))
  }

  function WriteArgs(a: ArgsTree, rest: string): string {
    match a
    case NoArgs(space) => space + rest
    case Args(slots) => WriteSlots(slots, rest)
  }

  function WriteStep(s: StepTree, rest: string): string {
    s.name + (s.gap + ("(" + WriteArgs(s.args, ")" + rest)))
  }

  function WriteStage(s: Stage, rest: string): string { s.before + WriteStep(s.step, s.after + rest) }

  function WriteStages(stages: Chain<Stage>): string {
    WriteStage(stages.head, if stages.One? then "" else "|" + WriteStages(stages.tail))
  }

  function Text(p: PipelineTree): string {
    match p
    case Blank(space) => space
    case Stages(stages) => WriteStages(stages)
  }

  // ----- what a tree denotes -----

  function BodyValue(b: Body): string {
    match b
    case Close => ""
    case Plain(c, more) => [c] + BodyValue(more)
    case Escaped(c, more) => [c] + BodyValue(more)
  }

  function ArgValue(a: ArgTree): Arg
    requires WfArg(a)
  {
    match a
    case Quoted(_, body) => StringArg(BodyValue(body))
    case Literal(negative, digits) => IntArg(LiteralValue(negative, digits).value)
  }

  function SlotsValue(u: Unicode, slots: Chain<Slot>): seq<Arg>
    requires WfSlots(u, slots)
  {
    var value := [ArgValue(slots.head.arg)];
    if slots.One? then value else value + SlotsValue(u, slots.tail)
  }

  function ArgsValue(u: Unicode, a: ArgsTree): seq<Arg>
    requires WfArgs(u, a)
  {
    match a
    case NoArgs(_) => []
    case Args(slots) => SlotsValue(u, slots)
  }

  function StepValue(u: Unicode, s: StepTree): Op
    requires WfStep(u, s)
  {
    Op(s.name, ArgsValue(u, s.args))
  }

  function StagesValue(u: Unicode, stages: Chain<Stage>): Pipeline
    requires WfStages(u, stages)
  {
    var value := [StepValue(u, stages.head.step)];
    if stages.One? then value else value + StagesValue(u, stages.tail)
  }

  function Value(u: Unicode, p: PipelineTree): Pipeline
    requires WfPipeline(u, p)
  {
    match p
    case Blank(_) => []
    case Stages(stages) => StagesValue(u, stages)
  }
}
