/** The closed registry of operations and the interpreter of pipelines. */
module DslOps {
  import opened Wrappers
  import opened Runes
  import opened Dsl

  /** Functions of Go's `strings` and `regexp` packages, left uninterpreted. `replaceRegex` is None
      when the pattern does not compile. */
  datatype Library = Library(
    trimSpace: string -> string,
    trimLeft: (string, string) -> string,
    trimRight: (string, string) -> string,
    toUpper: string -> string,
    toLower: string -> string,
    replace: (string, string, string, int) -> string,
    replaceRegex: (string, string, string) -> Option<string>)

  datatype KnownOp =
    | Trim | TrimLeft | TrimRight | Upper | Lower
    | Replace | ReplaceN | ReplaceRegex
    | DeleteSubstring | DeleteRange | InsertAt | Slice
    | Prefix | Suffix | PadLeft | PadRight | Default | MapValues

  function Lookup(name: string): Option<KnownOp> {
    if name == "trim" then Some(Trim)
    else if name == "trimLeft" then Some(TrimLeft)
    else if name == "trimRight" then Some(TrimRight)
    else if name == "upper" then Some(Upper)
    else if name == "lower" then Some(Lower)
    else if name == "replace" then Some(Replace)
    else if name == "replaceN" then Some(ReplaceN)
    else if name == "replaceRegex" then Some(ReplaceRegex)
    else if name == "deleteSubstring" then Some(DeleteSubstring)
    else if name == "deleteRange" then Some(DeleteRange)
    else if name == "insertAt" then Some(InsertAt)
    else if name == "slice" then Some(Slice)
    else if name == "prefix" then Some(Prefix)
    else if name == "suffix" then Some(Suffix)
    else if name == "padLeft" then Some(PadLeft)
    else if name == "padRight" then Some(PadRight)
    else if name == "default" then Some(Default)
    else if name == "mapValues" then Some(MapValues)
    else None
  }

  datatype OpSpec = OpSpec(minArgs: nat, maxArgs: nat, argNames: seq<string>)

  function SpecOf(op: KnownOp): OpSpec {
    match op
    case Trim => OpSpec(0, 0, [])
    case TrimLeft => OpSpec(1, 1, ["cutset"])
    case TrimRight => OpSpec(1, 1, ["cutset"])
    case Upper => OpSpec(0, 0, [])
    case Lower => OpSpec(0, 0, [])
    case Replace => OpSpec(2, 2, ["old", "new"])
    case ReplaceN => OpSpec(3, 3, ["old", "new", "n"])
    case ReplaceRegex => OpSpec(2, 2, ["pattern", "repl"])
    case DeleteSubstring => OpSpec(1, 1, ["substr"])
    case DeleteRange => OpSpec(2, 2, ["start", "end"])
    case InsertAt => OpSpec(2, 2, ["pos", "text"])
    case Slice => OpSpec(2, 2, ["start", "end"])
    case Prefix => OpSpec(1, 1, ["text"])
    case Suffix => OpSpec(1, 1, ["text"])
    case PadLeft => OpSpec(2, 2, ["length", "pad"])
    case PadRight => OpSpec(2, 2, ["length", "pad"])
    case Default => OpSpec(1, 1, ["value"])
    case MapValues => OpSpec(1, 2, ["table", "fallback"])
  }

  /** The registry names every argument it allows, each differently: what the JSON codec relies on. */
  lemma RegistryNamesEveryArgument(op: KnownOp)
    ensures var spec := SpecOf(op);
            && spec.minArgs <= spec.maxArgs == |spec.argNames|
            && forall i, j | 0 <= i < j < |spec.argNames| :: spec.argNames[i] != spec.argNames[j]
  {
    var names := SpecOf(op).argNames;
    if |names| > 1 { assert names[0][0] != names[1][0]; }
    if |names| > 2 { assert |names[2]| == 1; }
  }

  datatype OpError =
    | NotAString(index: nat)
    | NotAnInteger(index: nat)
    | InvalidRegex(pattern: string)
    | RangeOutOfBounds(start: int, end: int, length: nat)
    | PositionOutOfBounds(pos: int, length: nat)
    | EmptyPad
    | NoTable

  function ArgString(args: seq<Arg>, i: nat): Result<string, OpError> {
    if i >= |args| || args[i].S.None? then Err(NotAString(i)) else Ok(args[i].S.value)
  }

  function ArgInt(args: seq<Arg>, i: nat): Result<int, OpError> {
    if i >= |args| || args[i].I.None? then Err(NotAnInteger(i)) else Ok(args[i].I.value)
  }

  function RuneRange(args: seq<Arg>, value: string): (r: Result<(int, int), OpError>)
    ensures r.Ok? ==> 0 <= r.value.0 <= r.value.1 <= |value|
  {
    var start :- ArgInt(args, 0);
    var end :- ArgInt(args, 1);
    if start < 0 || end > |value| || start > end then Err(RangeOutOfBounds(start, end, |value|))
    else Ok((start, end))
  }

  // ----- padding -----

  function Repeat(s: string, n: nat): string {
    if n == 0 then "" else s + Repeat(s, n - 1)
  }

  /** How often the padding loop runs: the least number of copies that brings the BYTE length up to
      `length`. */
  function Copies(current: string, length: int, padding: string): (k: nat)
    requires padding != ""
    ensures ByteLength(current) + k * ByteLength(padding) >= length
    ensures k > 0 ==> ByteLength(current) + (k - 1) * ByteLength(padding) < length
  {
    var missing := length - ByteLength(current);
    var width := ByteLength(padding);
    if missing <= 0 then 0
    else
      var k := (missing + width - 1) / width;
      DivisionRoundsUp(missing, width);
      k
  }

  lemma DivisionRoundsUp(missing: int, width: int)
    requires missing > 0 && width > 0
    ensures var k := (missing + width - 1) / width; k > 0 && k * width >= missing > (k - 1) * width
  {
    var k := (missing + width - 1) / width;
    assert k * width + (missing + width - 1) % width == missing + width - 1;
    assert (k - 1) * width == k * width - width;
  }

  function PadResult(current: string, args: seq<Arg>, left: bool): Result<string, OpError> {
    var length :- ArgInt(args, 0);
    var padding :- ArgString(args, 1);
    if padding == "" then Err(EmptyPad)
    else Ok(Padded(current, length, padding, left))
  }

  function Padded(current: string, length: int, padding: string, left: bool): string
    requires padding != ""
  {
    if |current| >= length then current
    else
      var copies := Repeat(padding, Copies(current, length, padding));
      var needed := length - |current|;
      var cut := if |copies| > needed then copies[..needed] else copies;
      if left then cut + current else current + cut
  }

  lemma {:induction false} RepeatLengths(s: string, n: nat)
    ensures |Repeat(s, n)| == n * |s| && ByteLength(Repeat(s, n)) == n * ByteLength(s)
  {
    if n > 0 {
      RepeatLengths(s, n - 1);
      ByteLengthConcat(s, Repeat(s, n - 1));
      assert n * |s| == (n - 1) * |s| + |s| && n * ByteLength(s) == (n - 1) * ByteLength(s) + ByteLength(s);
    }
  }

  lemma {:induction false} RepeatAppends(s: string, n: nat)
    ensures Repeat(s, n) + s == Repeat(s, n + 1)
  {
    if n == 0 {
      assert "" + s == s + "";
    } else {
      RepeatAppends(s, n - 1);
      assert (s + Repeat(s, n - 1)) + s == s + (Repeat(s, n - 1) + s);
    }
  }

  /** The copies begin with the text and go on with what stands a text's length before. */
  lemma RepeatAt(s: string, n: nat, k: nat)
    requires s != "" && k < |Repeat(s, n)|
    ensures Repeat(s, n)[k] == if k < |s| then s[k] else Repeat(s, n)[k - |s|]
  {
    RepeatAppends(s, n - 1);
    assert Repeat(s, n) == s + Repeat(s, n - 1);
  }

  /** The padding loop, with the source's two-part guard over bytes and runes. */
  method Pad(current: string, args: seq<Arg>, left: bool) returns (r: Result<string, OpError>)
    ensures r == PadResult(current, args, left)
  {
    var length :- ArgInt(args, 0);
    var padStr :- ArgString(args, 1);
    if padStr == "" { return Err(EmptyPad); }
    if |current| >= length { return Ok(current); }
    var b := "";
    ghost var k, total := 0, Copies(current, length, padStr);
    while ByteLength(b) + ByteLength(current) < length && |b| + |current| < length
      invariant b == Repeat(padStr, k) && k <= total && ByteLength(b) == k * ByteLength(padStr)
      decreases total - k
    {
      RepeatAppends(padStr, k);
      RepeatLengths(padStr, k + 1);
      if k == total { assert false; }
      b := b + padStr;
      k := k + 1;
    }
    if k < total { MoreCopiesMoreBytes(k, total - 1, ByteLength(padStr)); }
    var padding := b;
    var needed := length - |current|;
    if |padding| > needed { padding := padding[..needed]; }
    if left { return Ok(padding + current); }
    return Ok(current + padding);
  }

  lemma MoreCopiesMoreBytes(a: nat, b: nat, width: nat)
    requires a <= b
    ensures a * width <= b * width
  {
  }

  /** The length of a padded value in runes, in general. */
  lemma PaddedLength(current: string, length: int, padding: string, left: bool)
    requires padding != ""
    ensures var copied := |current| + Copies(current, length, padding) * |padding|;
            |Padded(current, length, padding, left)| ==
            if |current| >= length then |current| else if copied < length then copied else length
  {
    RepeatLengths(padding, Copies(current, length, padding));
  }

  /** The value is kept whole, and what is added is a prefix of the repeated padding. */
  lemma PaddedShape(current: string, length: int, padding: string, left: bool)
    requires padding != ""
    ensures exists added: string ::
              && added <= Repeat(padding, Copies(current, length, padding))
              && Padded(current, length, padding, left) == if left then added + current else current + added
  {
    var copies := Repeat(padding, Copies(current, length, padding));
    var needed := length - |current|;
    var added := if |current| >= length then "" else if |copies| > needed then copies[..needed] else copies;
    assert "" + current == current + "" == current;
    assert added <= copies;
  }

  /** `pad` reaches the length asked for exactly when the copies that the byte guard admits have
      enough runes; for text of one byte per rune they always do. */
  lemma PadReachesLength(current: string, length: int, padding: string, left: bool)
    requires padding != ""
    ensures |Padded(current, length, padding, left)| >= length
       <==> |current| + Copies(current, length, padding) * |padding| >= length
    ensures IsAscii(current) && IsAscii(padding) ==>
              |Padded(current, length, padding, left)| == if |current| >= length then |current| else length
  {
    PaddedLength(current, length, padding, left);
    AsciiByteLength(current);
    AsciiByteLength(padding);
  }

  /** A two-byte rune counts twice in the guard: padding it to two runes adds nothing. */
  lemma PadStopsShort()
    ensures Padded("\U{E9}", 2, "x", true) == "\U{E9}"
  {
    assert ByteLength("\U{E9}") == 2;
    assert Copies("\U{E9}", 2, "x") == 0;
    assert "" + "\U{E9}" == "\U{E9}";
  }

  // ----- the interpreter -----

  function OpResult(lib: Library, op: KnownOp, current: string, args: seq<Arg>): Result<string, OpError> {
    match op
    case Trim => Ok(lib.trimSpace(current))
    case TrimLeft => var cutset :- ArgString(args, 0); Ok(lib.trimLeft(current, cutset))
    case TrimRight => var cutset :- ArgString(args, 0); Ok(lib.trimRight(current, cutset))
    case Upper => Ok(lib.toUpper(current))
    case Lower => Ok(lib.toLower(current))
    case Replace =>
      var old' :- ArgString(args, 0);
      var next :- ArgString(args, 1);
      Ok(lib.replace(current, old', next, -1))
    case ReplaceN =>
      var old' :- ArgString(args, 0);
      var next :- ArgString(args, 1);
      var n :- ArgInt(args, 2);
      Ok(lib.replace(current, old', next, n))
    case ReplaceRegex =>
      var pattern :- ArgString(args, 0);
      var repl :- ArgString(args, 1);
      var replaced := lib.replaceRegex(current, pattern, repl);
      if replaced.None? then Err(InvalidRegex(pattern)) else Ok(replaced.value)
    case DeleteSubstring => var substr :- ArgString(args, 0); Ok(lib.replace(current, substr, "", -1))
    case DeleteRange => var (start, end) :- RuneRange(args, current); Ok(current[..start] + current[end..])
    case InsertAt =>
      var pos :- ArgInt(args, 0);
      var text :- ArgString(args, 1);
      if pos < 0 || pos > |current| then Err(PositionOutOfBounds(pos, |current|))
      else Ok(current[..pos] + text + current[pos..])
    case Slice => var (start, end) :- RuneRange(args, current); Ok(current[start..end])
    case Prefix => var text :- ArgString(args, 0); Ok(text + current)
    case Suffix => var text :- ArgString(args, 0); Ok(current + text)
    case PadLeft => PadResult(current, args, true)
    case PadRight => PadResult(current, args, false)
    case Default => if current != "" then Ok(current) else ArgString(args, 0)
    case MapValues =>
      if args == [] || args[0].M.None? then Err(NoTable)
      else if current in args[0].M.value then Ok(args[0].M.value[current])
      else if |args| == 2 then ArgString(args, 1)
      else Ok(current)
  }

  method RunOp(lib: Library, op: KnownOp, current: string, args: seq<Arg>) returns (r: Result<string, OpError>)
    ensures r == OpResult(lib, op, current, args)
  {
    match op
    case PadLeft => r := Pad(current, args, true);
    case PadRight => r := Pad(current, args, false);
    case _ => r := OpResult(lib, op, current, args);
  }

  datatype ApplyError =
    | UnknownOp(name: string)
    | WrongArity(name: string, spec: OpSpec, given: nat)
    | OpFailed(name: string, error: OpError)

  predicate Arity(spec: OpSpec, n: nat) { spec.minArgs <= n <= spec.maxArgs }

  function StepResult(lib: Library, op: Op, value: string): Result<string, ApplyError> {
    match Lookup(op.name)
    case None => Err(UnknownOp(op.name))
    case Some(known) =>
      if !Arity(SpecOf(known), |op.args|) then Err(WrongArity(op.name, SpecOf(known), |op.args|))
      else
        match OpResult(lib, known, value, op.args)
        case Err(e) => Err(OpFailed(op.name, e))
        case Ok(next) => Ok(next)
  }

  function ApplyResult(lib: Library, p: Pipeline, input: string): Result<string, ApplyError> {
    if p == [] then Ok(input)
    else
      var next :- StepResult(lib, p[0], input);
      ApplyResult(lib, p[1..], next)
  }

  method Apply(lib: Library, p: Pipeline, input: string) returns (r: Result<string, ApplyError>)
    ensures r == ApplyResult(lib, p, input)
  {
    var value := input;
    for i := 0 to |p|
      invariant ApplyResult(lib, p[i..], value) == ApplyResult(lib, p, input)
    {
      assert p[i..][1..] == p[i + 1..];
      var known := Lookup(p[i].name);
      if known.None? { return Err(UnknownOp(p[i].name)); }
      var spec := SpecOf(known.value);
      if |p[i].args| < spec.minArgs || |p[i].args| > spec.maxArgs {
        return Err(WrongArity(p[i].name, spec, |p[i].args|));
      }
      var next := RunOp(lib, known.value, value, p[i].args);
      if next.Err? { return Err(OpFailed(p[i].name, next.error)); }
      value := next.value;
    }
    return Ok(value);
  }

  // ----- the ops by their names -----

  /** The names that the registry knows. */
  const OP_NAMES: set<string> := {
    "trim", "trimLeft", "trimRight", "upper", "lower", "replace", "replaceN", "replaceRegex",
    "deleteSubstring", "deleteRange", "insertAt", "slice", "prefix", "suffix", "padLeft",
    "padRight", "default", "mapValues"}

  function NameOf(op: KnownOp): string {
    match op
    case Trim => "trim"
    case TrimLeft => "trimLeft"
    case TrimRight => "trimRight"
    case Upper => "upper"
    case Lower => "lower"
    case Replace => "replace"
    case ReplaceN => "replaceN"
    case ReplaceRegex => "replaceRegex"
    case DeleteSubstring => "deleteSubstring"
    case DeleteRange => "deleteRange"
    case InsertAt => "insertAt"
    case Slice => "slice"
    case Prefix => "prefix"
    case Suffix => "suffix"
    case PadLeft => "padLeft"
    case PadRight => "padRight"
    case Default => "default"
    case MapValues => "mapValues"
  }

  lemma NamesAreKnown(op: KnownOp)
    ensures Lookup(NameOf(op)) == Some(op) && NameOf(op) in OP_NAMES
  {
    DistinctNames();
  }

  /** Names of one length differ in a letter. */
  lemma DistinctNames()
    ensures "upper"[0] != "lower"[0] && "slice"[0] != "upper"[0] && "slice"[0] != "lower"[0]
    ensures "prefix"[0] != "suffix"[0]
    ensures "replace"[0] != "default"[0] && "padLeft"[0] != "replace"[0] && "padLeft"[0] != "default"[0]
    ensures "trimLeft"[0] != "replaceN"[0] && "insertAt"[0] != "trimLeft"[0] && "insertAt"[0] != "replaceN"[0]
    ensures "padRight"[0] != "trimLeft"[0] && "padRight"[0] != "replaceN"[0] && "padRight"[0] != "insertAt"[0]
    ensures "trimRight"[0] != "mapValues"[0]
  {
  }

  /** An op is unknown to the interpreter exactly when its name is none of the eighteen. */
  lemma UnknownIff(lib: Library, name: string, args: seq<Arg>, value: string)
    ensures ApplyResult(lib, [Op(name, args)], value) == Err(UnknownOp(name)) <==> name !in OP_NAMES
  {
    assert Lookup(name).Some? <==> name in OP_NAMES;
  }

  predicate Registers(name: string, minArgs: nat, maxArgs: nat, argNames: seq<string>) {
    Lookup(name).Some? && SpecOf(Lookup(name).value) == OpSpec(minArgs, maxArgs, argNames)
  }

  /** Arities and argument names, op by op: the wire format of the JSON encoding. */
  lemma TextOpsRegistered()
    ensures Registers("trim", 0, 0, [])
    ensures Registers("trimLeft", 1, 1, ["cutset"])
    ensures Registers("trimRight", 1, 1, ["cutset"])
    ensures Registers("upper", 0, 0, [])
    ensures Registers("lower", 0, 0, [])
    ensures Registers("replace", 2, 2, ["old", "new"])
    ensures Registers("replaceN", 3, 3, ["old", "new", "n"])
    ensures Registers("replaceRegex", 2, 2, ["pattern", "repl"])
    ensures Registers("deleteSubstring", 1, 1, ["substr"])
  {
    DistinctNames();
  }

  lemma OtherOpsRegistered()
    ensures Registers("deleteRange", 2, 2, ["start", "end"])
    ensures Registers("insertAt", 2, 2, ["pos", "text"])
    ensures Registers("slice", 2, 2, ["start", "end"])
    ensures Registers("prefix", 1, 1, ["text"])
    ensures Registers("suffix", 1, 1, ["text"])
    ensures Registers("padLeft", 2, 2, ["length", "pad"])
    ensures Registers("padRight", 2, 2, ["length", "pad"])
    ensures Registers("default", 1, 1, ["value"])
    ensures Registers("mapValues", 1, 2, ["table", "fallback"])
  {
    DistinctNames();
  }

  lemma OneStep(lib: Library, op: KnownOp, args: seq<Arg>, value: string)
    requires Arity(SpecOf(op), |args|)
    ensures ApplyResult(lib, [Op(NameOf(op), args)], value) ==
            match OpResult(lib, op, value, args)
            case Ok(next) => Ok(next)
            case Err(e) => Err(OpFailed(NameOf(op), e))
  {
    NamesAreKnown(op);
    var p := [Op(NameOf(op), args)];
    assert p[1..] == [];
  }

  /** A known op with too few or too many arguments says what it expects and what it was given, and is not
      run; any other failure is one inside the op. */
  lemma WrongArityIff(lib: Library, op: KnownOp, args: seq<Arg>, value: string)
    ensures var (r, spec) := (ApplyResult(lib, [Op(NameOf(op), args)], value), SpecOf(op));
            && (r == Err(WrongArity(NameOf(op), spec, |args|)) <==> |args| < spec.minArgs || |args| > spec.maxArgs)
            && (r.Err? && spec.minArgs <= |args| <= spec.maxArgs ==> r.error.OpFailed? && r.error.name == NameOf(op))
  {
    NamesAreKnown(op);
    if Arity(SpecOf(op), |args|) { OneStep(lib, op, args, value); }
  }

  /** `trim`, `upper`, `lower` and the two one-sided trims are the library's functions of those names. */
  lemma CaseAndSpaceOps(lib: Library, value: string, cutset: string)
    ensures ApplyResult(lib, [Op("trim", [])], value) == Ok(lib.trimSpace(value))
    ensures ApplyResult(lib, [Op("upper", [])], value) == Ok(lib.toUpper(value))
    ensures ApplyResult(lib, [Op("lower", [])], value) == Ok(lib.toLower(value))
    ensures ApplyResult(lib, [Op("trimLeft", [StringArg(cutset)])], value) == Ok(lib.trimLeft(value, cutset))
    ensures ApplyResult(lib, [Op("trimRight", [StringArg(cutset)])], value) == Ok(lib.trimRight(value, cutset))
  {
    OneStep(lib, Trim, [], value);
    OneStep(lib, Upper, [], value);
    OneStep(lib, Lower, [], value);
    OneStep(lib, TrimLeft, [StringArg(cutset)], value);
    OneStep(lib, TrimRight, [StringArg(cutset)], value);
  }

  /** The replacing ops: all occurrences, the first `n`, or all by nothing. */
  lemma ReplacingOps(lib: Library, value: string, from: string, to: string, n: Int64)
    ensures ApplyResult(lib, [Op("replace", [StringArg(from), StringArg(to)])], value)
         == Ok(lib.replace(value, from, to, -1))
    ensures ApplyResult(lib, [Op("replaceN", [StringArg(from), StringArg(to), IntArg(n)])], value)
         == Ok(lib.replace(value, from, to, n))
    ensures ApplyResult(lib, [Op("deleteSubstring", [StringArg(from)])], value) == Ok(lib.replace(value, from, "", -1))
  {
    OneStep(lib, Replace, [StringArg(from), StringArg(to)], value);
    OneStep(lib, ReplaceN, [StringArg(from), StringArg(to), IntArg(n)], value);
    OneStep(lib, DeleteSubstring, [StringArg(from)], value);
  }

  lemma RegexOp(lib: Library, value: string, from: string, to: string)
    ensures ApplyResult(lib, [Op("replaceRegex", [StringArg(from), StringArg(to)])], value) ==
            if lib.replaceRegex(value, from, to).Some? then Ok(lib.replaceRegex(value, from, to).value)
            else Err(OpFailed("replaceRegex", InvalidRegex(from)))
  {
    OneStep(lib, ReplaceRegex, [StringArg(from), StringArg(to)], value);
  }

  /** The ops on ranges, counted in runes. */
  lemma RangeOps(lib: Library, value: string, start: Int64, end: Int64)
    ensures ApplyResult(lib, [Op("slice", [IntArg(start), IntArg(end)])], value) ==
            if 0 <= start <= end <= |value| then Ok(value[start..end])
            else Err(OpFailed("slice", RangeOutOfBounds(start, end, |value|)))
    ensures ApplyResult(lib, [Op("deleteRange", [IntArg(start), IntArg(end)])], value) ==
            if 0 <= start <= end <= |value| then Ok(value[..start] + value[end..])
            else Err(OpFailed("deleteRange", RangeOutOfBounds(start, end, |value|)))
  {
    OneStep(lib, Slice, [IntArg(start), IntArg(end)], value);
    OneStep(lib, DeleteRange, [IntArg(start), IntArg(end)], value);
  }

  lemma InsertOp(lib: Library, value: string, start: Int64, text: string)
    ensures ApplyResult(lib, [Op("insertAt", [IntArg(start), StringArg(text)])], value) ==
            if 0 <= start <= |value| then Ok(value[..start] + text + value[start..])
            else Err(OpFailed("insertAt", PositionOutOfBounds(start, |value|)))
  {
    OneStep(lib, InsertAt, [IntArg(start), StringArg(text)], value);
  }

  /** Text in front and text behind. */
  lemma AffixOps(lib: Library, value: string, text: string)
    ensures ApplyResult(lib, [Op("prefix", [StringArg(text)])], value) == Ok(text + value)
    ensures ApplyResult(lib, [Op("suffix", [StringArg(text)])], value) == Ok(value + text)
  {
    OneStep(lib, Prefix, [StringArg(text)], value);
    OneStep(lib, Suffix, [StringArg(text)], value);
  }

  /** A value for the empty one, and a lookup that leaves a missing key alone unless there is a fallback. */
  lemma TableOps(lib: Library, value: string, text: string, table: map<string, string>)
    ensures ApplyResult(lib, [Op("default", [StringArg(text)])], value) == Ok(if value == "" then text else value)
    ensures ApplyResult(lib, [Op("mapValues", [MapArg(table)])], value)
         == Ok(if value in table then table[value] else value)
    ensures ApplyResult(lib, [Op("mapValues", [MapArg(table), StringArg(text)])], value)
         == Ok(if value in table then table[value] else text)
  {
    OneStep(lib, Default, [StringArg(text)], value);
    OneStep(lib, MapValues, [MapArg(table)], value);
    OneStep(lib, MapValues, [MapArg(table), StringArg(text)], value);
  }

  lemma PaddingSteps(lib: Library, value: string, length: Int64, padding: string)
    ensures ApplyResult(lib, [Op("padLeft", [IntArg(length), StringArg(padding)])], value) ==
            if padding == "" then Err(OpFailed("padLeft", EmptyPad)) else Ok(Padded(value, length, padding, true))
    ensures ApplyResult(lib, [Op("padRight", [IntArg(length), StringArg(padding)])], value) ==
            if padding == "" then Err(OpFailed("padRight", EmptyPad)) else Ok(Padded(value, length, padding, false))
  {
    OneStep(lib, PadLeft, [IntArg(length), StringArg(padding)], value);
    OneStep(lib, PadRight, [IntArg(length), StringArg(padding)], value);
  }

  /** `padLeft` puts what it adds in front of the value and `padRight` behind it: the same runes, those of
      the pad over and over, and none for a value that is long enough. An empty pad is an error. */
  lemma PaddingOps(lib: Library, value: string, length: Int64, padding: string) returns (added: string)
    ensures var left := ApplyResult(lib, [Op("padLeft", [IntArg(length), StringArg(padding)])], value);
            var right := ApplyResult(lib, [Op("padRight", [IntArg(length), StringArg(padding)])], value);
            if padding == "" then
              left == Err(OpFailed("padLeft", EmptyPad)) && right == Err(OpFailed("padRight", EmptyPad))
            else
              left == Ok(added + value) && right == Ok(value + added)
    ensures |value| + |added| <= if |value| < length then length else |value|
    ensures Cycles(padding, added)
  {
    PaddingSteps(lib, value, length, padding);
    added := "";
    if padding != "" { added := Added(value, length, padding); }
  }

  predicate StringAt(args: seq<Arg>, i: nat) { i < |args| && args[i].S.Some? }

  predicate IntAt(args: seq<Arg>, i: nat) { i < |args| && args[i].I.Some? }

  /** A successful op was given arguments of its kinds. */
  lemma OpsNeedTheirKinds(lib: Library, op: KnownOp, args: seq<Arg>, value: string)
    requires ApplyResult(lib, [Op(NameOf(op), args)], value).Ok?
    ensures match op
            case Trim => args == []
            case Upper => args == []
            case Lower => args == []
            case Replace => |args| == 2 && StringAt(args, 0) && StringAt(args, 1)
            case ReplaceN => |args| == 3 && StringAt(args, 0) && StringAt(args, 1) && IntAt(args, 2)
            case ReplaceRegex => |args| == 2 && StringAt(args, 0) && StringAt(args, 1)
            case DeleteRange => |args| == 2 && IntAt(args, 0) && IntAt(args, 1)
            case Slice => |args| == 2 && IntAt(args, 0) && IntAt(args, 1)
            case InsertAt => |args| == 2 && IntAt(args, 0) && StringAt(args, 1)
            case PadLeft => |args| == 2 && IntAt(args, 0) && StringAt(args, 1)
            case PadRight => |args| == 2 && IntAt(args, 0) && StringAt(args, 1)
            case Default => |args| == 1 && (value == "" ==> StringAt(args, 0))
            case MapValues => 1 <= |args| <= 2 && args[0].M.Some?
            case _ => |args| == 1 && StringAt(args, 0)
  {
    NamesAreKnown(op);
    if Arity(SpecOf(op), |args|) { OneStep(lib, op, args, value); }
  }

  /** `text` starts with the runes of the pad and repeats itself at that distance. */
  ghost predicate Cycles(padding: string, text: string) {
    && (forall k | 0 <= k < |text| && k < |padding| :: text[k] == padding[k])
    && (forall j, k | 0 <= j < k < |text| && k == j + |padding| :: text[k] == text[j])
  }

  /** The runes that both paddings add: those of the pad over and over, no more than are missing. */
  lemma Added(value: string, length: int, padding: string) returns (added: string)
    requires padding != ""
    ensures Padded(value, length, padding, true) == added + value
    ensures Padded(value, length, padding, false) == value + added
    ensures |value| + |added| <= if |value| < length then length else |value|
    ensures Cycles(padding, added)
  {
    var copies := Repeat(padding, Copies(value, length, padding));
    var needed := length - |value|;
    added := if |value| >= length then "" else if |copies| > needed then copies[..needed] else copies;
    assert "" + value == value + "" == value;
    forall k | 0 <= k < |added| ensures added[k] == if k < |padding| then padding[k] else copies[k - |padding|] {
      RepeatAt(padding, Copies(value, length, padding), k);
    }
  }

  /** The op is registered and has an arity the registry allows. */
  predicate WellFormedOp(op: Op) {
    var known := Lookup(op.name);
    known.Some? && Arity(SpecOf(known.value), |op.args|)
  }

  predicate WellFormed(p: Pipeline) { forall i | 0 <= i < |p| :: WellFormedOp(p[i]) }

  /** `slice` cuts out what `deleteRange` removes: inserting the slice at its start restores the
      value, for every range that either op accepts. */
  lemma DeletedSliceCanBeInserted(lib: Library, value: string, start: Int64, end: Int64)
    ensures var range := [IntArg(start), IntArg(end)];
            var deleted := OpResult(lib, DeleteRange, value, range);
            var slice := OpResult(lib, Slice, value, range);
            && (deleted.Ok? <==> 0 <= start <= end <= |value|)
            && (slice.Ok? <==> deleted.Ok?)
            && (deleted.Ok? ==>
                  OpResult(lib, InsertAt, deleted.value, [IntArg(start), StringArg(slice.value)]) == Ok(value))
  {
    if 0 <= start <= end <= |value| {
      var deleted := value[..start] + value[end..];
      assert deleted[..start] == value[..start] && deleted[start..] == value[end..];
      assert value[..start] + value[start..end] + value[end..] == value;
      assert OpResult(lib, DeleteRange, value, [IntArg(start), IntArg(end)]) == Ok(deleted);
      assert OpResult(lib, Slice, value, [IntArg(start), IntArg(end)]) == Ok(value[start..end]);
    }
  }

  /** What `prefix` and `suffix` put in front and behind can be sliced off again, and the rest is the value. */
  lemma AffixesCanBeSliced(lib: Library, value: string, text: string)
    requires |text| + |value| <= MAX_INT64
    ensures var (t, v, n) := (|text| as Int64, |value| as Int64, (|text| + |value|) as Int64);
            var front := OpResult(lib, Prefix, value, [StringArg(text)]);
            var back := OpResult(lib, Suffix, value, [StringArg(text)]);
            && front.Ok? && back.Ok?
            && OpResult(lib, Slice, front.value, [IntArg(0), IntArg(t)]) == Ok(text)
            && OpResult(lib, Slice, front.value, [IntArg(t), IntArg(n)]) == Ok(value)
            && OpResult(lib, Slice, back.value, [IntArg(0), IntArg(v)]) == Ok(value)
            && OpResult(lib, Slice, back.value, [IntArg(v), IntArg(n)]) == Ok(text)
  {
    var front, back := text + value, value + text;
    assert front[0..|text|] == text && front[|text|..|front|] == value;
    assert back[0..|value|] == value && back[|value|..|back|] == text;
  }

  /** The three replacing ops are one: `replace` is `replaceN` without a limit, and `deleteSubstring`
      replaces by nothing. */
  lemma ReplaceFamily(lib: Library, value: string, from: Arg, to: Arg)
    ensures OpResult(lib, Replace, value, [from, to]) == OpResult(lib, ReplaceN, value, [from, to, IntArg(-1)])
    ensures OpResult(lib, DeleteSubstring, value, [from]) == OpResult(lib, Replace, value, [from, StringArg("")])
  {
  }

  /** A table with a fallback is total; `default` only ever replaces the empty value, as the table of
      one entry that maps it would. */
  lemma TablesAndDefaults(lib: Library, value: string, table: map<string, string>, fallback: string)
    ensures OpResult(lib, MapValues, value, [MapArg(table), StringArg(fallback)])
         == Ok(if value in table then table[value] else fallback)
    ensures OpResult(lib, Default, value, [StringArg(fallback)])
         == OpResult(lib, MapValues, value, [MapArg(map["" := fallback])])
  {
  }

  /** Running two pipelines in a row is running one after the other. */
  lemma {:induction false} ApplyConcat(lib: Library, p: Pipeline, q: Pipeline, input: string)
    ensures ApplyResult(lib, p + q, input) ==
            match ApplyResult(lib, p, input)
            case Ok(value) => ApplyResult(lib, q, value)
            case Err(e) => Err(e)
  {
    if p == [] {
      assert p + q == q;
    } else {
      assert (p + q)[0] == p[0] && (p + q)[1..] == p[1..] + q;
      var next := StepResult(lib, p[0], input);
      if next.Ok? { ApplyConcat(lib, p[1..], q, next.value); }
    }
  }

  /** The registry checks depend on the pipeline alone: a well-formed one only ever fails inside an
      op, and one that is not well-formed fails on every input. */
  lemma {:induction false} WellFormedIffNoRegistryError(lib: Library, p: Pipeline, input: string)
    ensures WellFormed(p) ==> ApplyResult(lib, p, input).Ok? || ApplyResult(lib, p, input).error.OpFailed?
    ensures !WellFormed(p) ==> ApplyResult(lib, p, input).Err?
  {
    if p != [] {
      var next := StepResult(lib, p[0], input);
      if next.Ok? {
        WellFormedIffNoRegistryError(lib, p[1..], next.value);
        assert forall i | 1 <= i < |p| :: p[i] == p[1..][i - 1];
      }
    }
  }
}
