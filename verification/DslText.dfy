/** The parser is the grammar's inverse: it accepts exactly the texts of well-formed trees, each of
    which is the text of one tree only. */
module DslText {
  import opened Wrappers
  import opened Runes
  import opened Dsl
  import opened DslGrammar
  import opened DslReader

  // ----- the parser recovers every tree from its text -----

  lemma {:induction false} SpanTakes(p: char -> bool, taken: string, rest: string)
    requires All(p, taken) && (rest == [] || !p(rest[0]))
    ensures Span(p, taken + rest) == (taken, rest)
  {
    if taken == [] {
      assert taken + rest == rest;
    } else {
      assert Tail(taken + rest) == taken[1..] + rest;
      SpanTakes(p, taken[1..], rest);
      assert [taken[0]] + taken[1..] == taken;
    }
  }

  lemma {:induction false} BodyComplete(quote: char, b: Body, rest: string)
    requires WfBody(quote, b) && quote != '\\'
    ensures BodyOf(quote, WriteBody(quote, b, rest)) == Ok((b, rest))
  {
    var s := WriteBody(quote, b, rest);
    match b
    case Close => assert s[1..] == rest;
    case Plain(c, more) =>
      assert s[1..] == WriteBody(quote, more, rest);
      BodyComplete(quote, more, rest);
    case Escaped(c, more) =>
      assert s[2..] == WriteBody(quote, more, rest);
      BodyComplete(quote, more, rest);
  }

  lemma ArgComplete(u: Unicode, a: ArgTree, rest: string)
    requires WfArg(a) && (rest == [] || !u.isDigit(rest[0]))
    ensures ArgOf(u, WriteArg(a, rest)) == Ok((a, rest))
  {
    var s := WriteArg(a, rest);
    match a
    case Quoted(quote, body) =>
      assert s[1..] == WriteBody(quote, body, rest);
      BodyComplete(quote, body, rest);
    case Literal(negative, digits) =>
      assert AsciiDigits(digits) && All(u.isDigit, digits);
      SpanTakes(u.isDigit, digits, rest);
      if negative { assert s[1..] == digits + rest; }
  }

  lemma SlotComplete(u: Unicode, slot: Slot, rest: string)
    requires WfSlot(u, slot) && (rest == [] || (!u.isSpace(rest[0]) && !u.isDigit(rest[0])))
    ensures SlotOf(u, slot.before, WriteArg(slot.arg, slot.after + rest)) == Ok((slot, rest))
  {
    ArgComplete(u, slot.arg, slot.after + rest);
    SpanTakes(u.isSpace, slot.after, rest);
  }

  /** What follows the white space in front of an argument list. */
  function SlotsBody(slots: Chain<Slot>, rest: string): string {
    WriteArg(slots.head.arg, slots.head.after + if slots.One? then rest else "," + WriteSlots(slots.tail, rest))
  }

  lemma {:induction false} SlotsComplete(u: Unicode, name: string, slots: Chain<Slot>, rest: string)
    requires WfSlots(u, slots) && rest != [] && rest[0] == ')'
    ensures SlotsOf(u, name, slots.head.before, SlotsBody(slots, rest)) == Ok((slots, rest))
    decreases slots
  {
    match slots
    case One(slot) => SlotComplete(u, slot, rest);
    case More(slot, tail) =>
      var s2 := "," + WriteSlots(tail, rest);
      SlotComplete(u, slot, s2);
      assert s2[1..] == tail.head.before + SlotsBody(tail, rest);
      ArgStart(u, tail.head.arg, tail.head.after + if tail.One? then rest else "," + WriteSlots(tail.tail, rest));
      SpanTakes(u.isSpace, tail.head.before, SlotsBody(tail, rest));
      SlotsComplete(u, name, tail, rest);
  }

  lemma ArgStart(u: Unicode, a: ArgTree, rest: string)
    requires WfArg(a)
    ensures var s := WriteArg(a, rest); s != [] && !u.isSpace(s[0]) && s[0] != ')'
  {
  }

  lemma ArgsComplete(u: Unicode, name: string, a: ArgsTree, rest: string)
    requires WfArgs(u, a) && rest != [] && rest[0] == ')'
    ensures ArgsOf(u, name, WriteArgs(a, rest)) == Ok((a, rest))
  {
    match a
    case NoArgs(space) => SpanTakes(u.isSpace, space, rest);
    case Args(slots) =>
      ArgStart(u, slots.head.arg, slots.head.after + if slots.One? then rest else "," + WriteSlots(slots.tail, rest));
      SpanTakes(u.isSpace, slots.head.before, SlotsBody(slots, rest));
      SlotsComplete(u, name, slots, rest);
  }

  lemma StepComplete(u: Unicode, s: StepTree, rest: string)
    requires WfStep(u, s)
    ensures StepOf(u, WriteStep(s, rest)) == Ok((s, rest))
  {
    var call := "(" + WriteArgs(s.args, ")" + rest);
    var text := s.name + (s.gap + call);
    assert text[0] == s.name[0] && text[1..] == s.name[1..] + (s.gap + call);
    SpanTakes(u.IsIdentPart, s.name[1..], s.gap + call);
    assert [s.name[0]] + s.name[1..] == s.name;
    SpanTakes(u.isSpace, s.gap, call);
    assert call[1..] == WriteArgs(s.args, ")" + rest);
    ArgsComplete(u, s.name, s.args, ")" + rest);
    assert (")" + rest)[1..] == rest;
  }

  lemma StageComplete(u: Unicode, stage: Stage, rest: string)
    requires WfStage(u, stage) && (rest == [] || !u.isSpace(rest[0]))
    ensures StageOf(u, stage.before, WriteStep(stage.step, stage.after + rest)) == Ok((stage, rest))
  {
    StepComplete(u, stage.step, stage.after + rest);
    SpanTakes(u.isSpace, stage.after, rest);
  }

  function StagesBody(stages: Chain<Stage>): string {
    WriteStep(stages.head.step, stages.head.after + if stages.One? then "" else "|" + WriteStages(stages.tail))
  }

  lemma StepStart(u: Unicode, s: StepTree, rest: string)
    requires WfStep(u, s)
    ensures var t := WriteStep(s, rest); t != [] && !u.isSpace(t[0])
  {
  }

  lemma {:induction false} StagesComplete(u: Unicode, stages: Chain<Stage>)
    requires WfStages(u, stages)
    ensures StagesOf(u, stages.head.before, StagesBody(stages)) == Ok(stages)
    decreases stages
  {
    match stages
    case One(stage) => StageComplete(u, stage, "");
    case More(stage, tail) =>
      var s2 := "|" + WriteStages(tail);
      StageComplete(u, stage, s2);
      assert s2[1..] == tail.head.before + StagesBody(tail);
      StepStart(u, tail.head.step, tail.head.after + if tail.One? then "" else "|" + WriteStages(tail.tail));
      SpanTakes(u.isSpace, tail.head.before, StagesBody(tail));
      StagesComplete(u, tail);
  }

  /** Lossless: the tree the parser builds for a text is the tree the text was written from. */
  lemma PipelineComplete(u: Unicode, p: PipelineTree)
    requires WfPipeline(u, p)
    ensures PipelineOf(u, Text(p)) == Ok(p)
  {
    match p
    case Blank(space) =>
      SpanTakes(u.isSpace, space, "");
      assert space + "" == space;
    case Stages(stages) =>
      StepStart(u, stages.head.step, stages.head.after + if stages.One? then "" else "|" + WriteStages(stages.tail));
      SpanTakes(u.isSpace, stages.head.before, StagesBody(stages));
      StagesComplete(u, stages);
  }

  // ----- every accepted text is the text of the tree that was built -----

  lemma HeadTail(s: string)
    requires s != []
    ensures s == [s[0]] + Tail(s)
  {
  }

  lemma {:induction false} SpanSplits(p: char -> bool, s: string)
    ensures var (taken, rest) := Span(p, s); s == taken + rest
  {
    if s != [] && p(s[0]) {
      SpanSplits(p, Tail(s));
      HeadTail(s);
    }
  }

  lemma {:induction false} BodySound(quote: char, s: string)
    ensures var r := BodyOf(quote, s); r.Ok? ==> s == WriteBody(quote, r.value.0, r.value.1)
  {
    if s != [] {
      HeadTail(s);
      if s[0] == '\\' {
        if |s| > 1 { BodySound(quote, s[2..]); }
      } else if s[0] != quote {
        BodySound(quote, Tail(s));
      }
    }
  }

  lemma ArgSound(u: Unicode, s: string)
    ensures var r := ArgOf(u, s); r.Ok? ==> s == WriteArg(r.value.0, r.value.1)
  {
    if s != [] {
      HeadTail(s);
      BodySound(s[0], Tail(s));
      SpanSplits(u.isDigit, if s[0] == '-' then s[1..] else s);
    }
  }

  lemma SlotSound(u: Unicode, before: string, s: string)
    requires Space(u, before)
    ensures var r := SlotOf(u, before, s); r.Ok? ==> before + s == WriteSlot(r.value.0, r.value.1)
  {
    ArgSound(u, s);
    var arg := ArgOf(u, s);
    if arg.Ok? { SpanSplits(u.isSpace, arg.value.1); }
  }

  lemma {:induction false} SlotsSound(u: Unicode, name: string, before: string, s: string)
    requires Space(u, before)
    ensures var r := SlotsOf(u, name, before, s); r.Ok? ==> before + s == WriteSlots(r.value.0, r.value.1)
    decreases |s|
  {
    SlotSound(u, before, s);
    var slot := SlotOf(u, before, s);
    if slot.Ok? && slot.value.1 != [] && slot.value.1[0] == ',' {
      HeadTail(slot.value.1);
      SpanSplits(u.isSpace, Tail(slot.value.1));
      var (before', s3) := Span(u.isSpace, Tail(slot.value.1));
      SlotsSound(u, name, before', s3);
    }
  }

  lemma IdentSound(u: Unicode, s: string)
    ensures var r := IdentOf(u, s); r.Ok? ==> s == r.value.0 + r.value.1
  {
    if s != [] {
      HeadTail(s);
      SpanSplits(u.IsIdentPart, Tail(s));
    }
  }

  lemma StepSound(u: Unicode, s: string)
    ensures var r := StepOf(u, s); r.Ok? ==> s == WriteStep(r.value.0, r.value.1)
  {
    var r := StepOf(u, s);
    if r.Ok? {
      IdentSound(u, s);
      var (name, s1) := IdentOf(u, s).value;
      SpanSplits(u.isSpace, s1);
      CallSound(u, name, Span(u.isSpace, s1).1);
    }
  }

  lemma CallSound(u: Unicode, name: string, s: string)
    ensures var r := CallOf(u, name, s); r.Ok? ==> s == "(" + WriteArgs(r.value.0, ")" + r.value.1)
  {
    if s != [] && s[0] == '(' {
      HeadTail(s);
      SpanSplits(u.isSpace, Tail(s));
      var (before, s1) := Span(u.isSpace, Tail(s));
      SlotsSound(u, name, before, s1);
      var args := ArgsOf(u, name, Tail(s));
      if args.Ok? && args.value.1 != [] { HeadTail(args.value.1); }
    }
  }

  lemma StageSound(u: Unicode, before: string, s: string)
    requires Space(u, before)
    ensures var r := StageOf(u, before, s); r.Ok? ==> before + s == WriteStage(r.value.0, r.value.1)
  {
    StepSound(u, s);
    var step := StepOf(u, s);
    if step.Ok? { SpanSplits(u.isSpace, step.value.1); }
  }

  lemma {:induction false} StagesSound(u: Unicode, before: string, s: string)
    requires Space(u, before)
    ensures var r := StagesOf(u, before, s); r.Ok? ==> before + s == WriteStages(r.value)
    decreases |s|
  {
    StageSound(u, before, s);
    var stage := StageOf(u, before, s);
    if stage.Ok? && stage.value.1 != [] && stage.value.1[0] == '|' {
      HeadTail(stage.value.1);
      SpanSplits(u.isSpace, Tail(stage.value.1));
      var (before', s3) := Span(u.isSpace, Tail(stage.value.1));
      StagesSound(u, before', s3);
    }
  }

  lemma PipelineSound(u: Unicode, s: string)
    ensures var r := PipelineOf(u, s); r.Ok? ==> s == Text(r.value)
  {
    SpanSplits(u.isSpace, s);
    var (before, s1) := Span(u.isSpace, s);
    if s1 == [] {
      assert before + s1 == before;
    } else {
      StagesSound(u, before, s1);
    }
  }

  // ----- main results -----

  /** The grammar is unambiguous. */
  lemma Unambiguous(u: Unicode, p: PipelineTree, q: PipelineTree)
    requires WfPipeline(u, p) && WfPipeline(u, q) && Text(p) == Text(q)
    ensures p == q
  {
    PipelineComplete(u, p);
    PipelineComplete(u, q);
  }

  /** `src` is a text of pipeline `p`. */
  ghost predicate Derives(u: Unicode, src: string, p: Pipeline) {
    exists tree: PipelineTree :: WfPipeline(u, tree) && Text(tree) == src && Value(u, tree) == p
  }

  lemma DerivesIffTree(u: Unicode, src: string, p: Pipeline)
    ensures var r := PipelineOf(u, src); Derives(u, src, p) <==> r.Ok? && Value(u, r.value) == p
  {
    PipelineSound(u, src);
    if Derives(u, src, p) {
      var tree: PipelineTree :| WfPipeline(u, tree) && Text(tree) == src && Value(u, tree) == p;
      PipelineComplete(u, tree);
    }
  }

  /** `Parse` returns `p` exactly when the grammar derives `p` from the text and `p` is within the
      step cap. */
  lemma ParseIffDerives(u: Unicode, src: string, p: Pipeline)
    ensures ParseResult(u, src) == Ok(p) <==> Derives(u, src, p) && |p| <= 20
  {
    DerivesIffTree(u, src, p);
  }

  /** `Parse` reports too many steps exactly when the text is otherwise correct, and counts them. */
  lemma TooManyIffLong(u: Unicode, src: string, steps: nat)
    ensures ParseResult(u, src) == Err(TooManySteps(steps))
       <==> exists p :: Derives(u, src, p) && |p| == steps > 20
  {
    var r := PipelineOf(u, src);
    if r.Ok? { DerivesIffTree(u, src, Value(u, r.value)); }
    forall p | Derives(u, src, p) ensures r.Ok? && Value(u, r.value) == p {
      DerivesIffTree(u, src, p);
    }
  }

  // ----- which pipelines have a text -----

  /** What the text syntax can say: an identifier for a name, and for each argument one string or one
      integer. Lookup tables have no text form. */
  predicate PrintableArg(a: Arg) { a.OneKind() && a.M.None? }

  predicate PrintableArgs(args: seq<Arg>) { args == [] || (PrintableArg(args[0]) && PrintableArgs(args[1..])) }

  predicate Printable(u: Unicode, p: Pipeline) {
    p == [] || (Identifier(u, p[0].name) && PrintableArgs(p[0].args) && Printable(u, p[1..]))
  }

  lemma AppendDigit(high: string, c: char)
    requires AsciiDigits(high) && '0' <= c <= '9'
    ensures AsciiDigits(high + [c])
    ensures DigitsValue(high + [c]) == DigitsValue(high) * 10 + (c as int - '0' as int)
  {
    var d := high + [c];
    assert d[..|d| - 1] == high;
  }

  lemma {:induction false} DecimalValue(n: nat)
    ensures AsciiDigits(Decimal(n)) && DigitsValue(Decimal(n)) == n
  {
    if n < 10 {
      AppendDigit("", DigitChar(n));
    } else {
      DecimalValue(n / 10);
      AppendDigit(Decimal(n / 10), DigitChar(n % 10));
    }
  }

  function Quote(s: string): Body {
    if s == "" then Close
    else if s[0] == '"' || s[0] == '\\' then Escaped(s[0], Quote(s[1..]))
    else Plain(s[0], Quote(s[1..]))
  }

  lemma {:induction false} QuoteValue(s: string)
    ensures WfBody('"', Quote(s)) && BodyValue(Quote(s)) == s
  {
    if s != "" { QuoteValue(s[1..]); }
  }

  function Magnitude(n: Int64): nat { if n < 0 then 0 - (n as int) else n }

  function ArgTreeFor(a: Arg): (tree: ArgTree)
    requires PrintableArg(a)
    ensures WfArg(tree) && ArgValue(tree) == a
  {
    if a.S.Some? then
      QuoteValue(a.S.value);
      Quoted('"', Quote(a.S.value))
    else
      DecimalValue(Magnitude(a.I.value));
      Literal(a.I.value < 0, Decimal(Magnitude(a.I.value)))
  }

  function SlotsFor(args: seq<Arg>, before: string): Chain<Slot>
    requires args != [] && PrintableArgs(args)
  {
    var slot := Slot(before, ArgTreeFor(args[0]), "");
    if |args| == 1 then One(slot) else More(slot, SlotsFor(args[1..], " "))
  }

  lemma BlankIsSpace(u: Unicode)
    ensures Space(u, "") && Space(u, " ")
  {
  }

  lemma {:induction false} SlotsForValue(u: Unicode, args: seq<Arg>, before: string)
    requires args != [] && PrintableArgs(args) && Space(u, before)
    ensures WfSlots(u, SlotsFor(args, before)) && SlotsValue(u, SlotsFor(args, before)) == args
  {
    BlankIsSpace(u);
    if |args| > 1 {
      SlotsForValue(u, args[1..], " ");
      assert args == [args[0]] + args[1..];
    } else {
      assert args == [args[0]];
    }
  }

  function StagesFor(u: Unicode, p: Pipeline, before: string): Chain<Stage>
    requires p != [] && Printable(u, p)
  {
    if |p| == 1 then One(Stage(before, StepFor(u, p[0]), ""))
    else More(Stage(before, StepFor(u, p[0]), " "), StagesFor(u, p[1..], " "))
  }

  function StepFor(u: Unicode, op: Op): StepTree
    requires PrintableArgs(op.args)
  {
    Step(op.name, "", if op.args == [] then NoArgs("") else Args(SlotsFor(op.args, "")))
  }

  lemma StepForValue(u: Unicode, op: Op)
    requires Identifier(u, op.name) && PrintableArgs(op.args)
    ensures WfStep(u, StepFor(u, op)) && StepValue(u, StepFor(u, op)) == op
  {
    BlankIsSpace(u);
    if op.args != [] { SlotsForValue(u, op.args, ""); }
  }

  lemma {:induction false} StagesForValue(u: Unicode, p: Pipeline, before: string)
    requires p != [] && Printable(u, p) && Space(u, before)
    ensures WfStages(u, StagesFor(u, p, before)) && StagesValue(u, StagesFor(u, p, before)) == p
  {
    BlankIsSpace(u);
    StepForValue(u, p[0]);
    if |p| > 1 {
      StagesForValue(u, p[1..], " ");
      assert p == [p[0]] + p[1..];
    } else {
      assert p == [p[0]];
    }
  }

  /** The customary layout, as in `trim() | replace("a", "b")`. */
  function Print(u: Unicode, p: Pipeline): string
    requires Printable(u, p)
  {
    Text(if p == [] then Blank("") else Stages(StagesFor(u, p, "")))
  }

  lemma {:induction false} SlotsPrintable(u: Unicode, slots: Chain<Slot>)
    requires WfSlots(u, slots)
    ensures PrintableArgs(SlotsValue(u, slots))
  {
    if slots.More? { SlotsPrintable(u, slots.tail); }
  }

  lemma {:induction false} StagesPrintable(u: Unicode, stages: Chain<Stage>)
    requires WfStages(u, stages)
    ensures Printable(u, StagesValue(u, stages))
  {
    if stages.head.step.args.Args? { SlotsPrintable(u, stages.head.step.args.slots); }
    if stages.More? { StagesPrintable(u, stages.tail); }
  }

  /** Text round trip, for every layout and quoting: the text of any tree parses to the pipeline the
      tree denotes. */
  lemma EveryLayoutParses(u: Unicode, tree: PipelineTree)
    requires WfPipeline(u, tree) && |Value(u, tree)| <= 20
    ensures ParseResult(u, Text(tree)) == Ok(Value(u, tree))
  {
    PipelineComplete(u, tree);
  }

  lemma PrintParses(u: Unicode, p: Pipeline)
    requires Printable(u, p) && |p| <= 20
    ensures ParseResult(u, Print(u, p)) == Ok(p)
  {
    if p != [] { StagesForValue(u, p, ""); }
    EveryLayoutParses(u, if p == [] then Blank("") else Stages(StagesFor(u, p, "")));
  }

  /** Exactly the printable pipelines within the cap come out of `Parse`. */
  lemma ParseImage(u: Unicode, p: Pipeline)
    ensures (exists src :: ParseResult(u, src) == Ok(p)) <==> Printable(u, p) && |p| <= 20
  {
    if Printable(u, p) && |p| <= 20 {
      PrintParses(u, p);
    }
    forall src | ParseResult(u, src) == Ok(p) ensures Printable(u, p) {
      var tree := PipelineOf(u, src).value;
      if tree.Stages? { StagesPrintable(u, tree.stages); }
    }
  }
}
