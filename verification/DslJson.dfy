/** The second encoding of pipelines: an array of ops with named arguments. JSON text is taken as
    already read into value trees (section 3 of RFC 8259), objects with their names distinct. */
module DslJson {
  import opened Wrappers
  import opened Dsl
  import opened DslOps

  datatype Json =
    | JNull
    | JBool(b: bool)
    | JInt(n: int)                        // a number without fraction or exponent
    | JFraction                           // any other number
    | JString(s: string)
    | JArray(items: seq<Json>)
    | JObject(fields: map<string, Json>)

  datatype JsonOp = JsonOp(op: string, args: map<string, Json>)

  datatype JsonError =
    | UnknownName(op: string)
    | NoValue(op: string, arg: string)
    | MissingArg(op: string, arg: string)
    | BadValue(op: string, arg: string, value: Json)

  // ----- arguments -----

  function ArgNameFor(spec: OpSpec, i: nat): string {
    if i < |spec.argNames| then spec.argNames[i] else "arg" + Decimal(i)
  }

  function MarshalArg(a: Arg): Option<Json> {
    if a.S.Some? then Some(JString(a.S.value))
    else if a.I.Some? then Some(JInt(a.I.value))
    else if a.M.Some? then Some(JObject(map k | k in a.M.value :: JString(a.M.value[k])))
    else None
  }

  /** The table that `encoding/json` reads from an object: a null member leaves the zero string. */
  predicate IsTable(fields: map<string, Json>) {
    forall k | k in fields :: fields[k].JString? || fields[k].JNull?
  }

  function TableOf(fields: map<string, Json>): map<string, string>
    requires IsTable(fields)
  {
    map k | k in fields :: if fields[k].JString? then fields[k].s else ""
  }

  /** Tries a table, then an integer, then a string. A null reads as a table that is nil, so the
      argument has no value. */
  function UnmarshalArg(raw: Json): Option<Arg> {
    match raw
    case JNull => Some(Arg(None, None, None))
    case JObject(fields) => if IsTable(fields) then Some(MapArg(TableOf(fields))) else None
    case JInt(n) => if MIN_INT64 <= n <= MAX_INT64 then Some(IntArg(n)) else None
    case JString(s) => Some(StringArg(s))
    case _ => None
  }

  lemma {:induction false} ArgRoundTrip(a: Arg)
    ensures MarshalArg(a).Some? <==> a.HasValue()
    ensures a.HasValue() ==> UnmarshalArg(MarshalArg(a).value).Some?
    ensures a.HasValue() ==> (UnmarshalArg(MarshalArg(a).value) == Some(a) <==> a.OneKind())
  {
    if a.M.Some? {
      var fields := map k | k in a.M.value :: JString(a.M.value[k]);
      assert TableOf(fields) == a.M.value;
    }
  }

  // ----- encoding -----

  /** The argument object after the arguments of a whole op, or of its first few. */
  function EncodeArgs(op: string, spec: OpSpec, args: seq<Arg>): Result<map<string, Json>, JsonError> {
    if args == [] then Ok(map[])
    else
      var last := |args| - 1;
      var before :- EncodeArgs(op, spec, args[..last]);
      var name := ArgNameFor(spec, last);
      var raw := MarshalArg(args[last]);
      if raw.None? then Err(NoValue(op, name)) else Ok(before[name := raw.value])
  }

  function EncodeOp(op: Op): Result<JsonOp, JsonError> {
    var known := Lookup(op.name);
    if known.None? then Err(UnknownName(op.name))
    else
      var args :- EncodeArgs(op.name, SpecOf(known.value), op.args);
      Ok(JsonOp(op.name, args))
  }

  function Encode(p: Pipeline): (r: Result<seq<JsonOp>, JsonError>)
    ensures r.Ok? ==> |r.value| == |p|
  {
    if p == [] then Ok([])
    else
      var last := |p| - 1;
      var before :- Encode(p[..last]);
      var op :- EncodeOp(p[last]);
      Ok(before + [op])
  }

  method MarshalJSON(p: Pipeline) returns (r: Result<seq<JsonOp>, JsonError>)
    ensures r == Encode(p)
  {
    var ops := [];
    for i := 0 to |p|
      invariant Encode(p[..i]) == Ok(ops)
    {
      assert p[..i + 1][..i] == p[..i];
      EncodePrefixError(p, i + 1);
      var known := Lookup(p[i].name);
      if known.None? { return Err(UnknownName(p[i].name)); }
      var spec := SpecOf(known.value);
      var args: map<string, Json> := map[];
      var all := p[i].args;
      for j := 0 to |all|
        invariant EncodeArgs(p[i].name, spec, all[..j]) == Ok(args)
      {
        assert all[..j + 1][..j] == all[..j];
        EncodeArgsPrefixError(p[i].name, spec, all, j + 1);
        var name := ArgNameFor(spec, j);
        var raw := MarshalArg(all[j]);
        if raw.None? { return Err(NoValue(p[i].name, name)); }
        args := args[name := raw.value];
      }
      assert all[..|all|] == all;
      ops := ops + [JsonOp(p[i].name, args)];
    }
    assert p[..|p|] == p;
    return Ok(ops);
  }

  lemma {:induction false} EncodePrefixError(p: Pipeline, n: nat)
    requires n <= |p|
    ensures Encode(p[..n]).Err? ==> Encode(p) == Encode(p[..n])
  {
    if n == |p| {
      assert p[..n] == p;
    } else {
      var shorter := p[..|p| - 1];
      assert shorter[..n] == p[..n];
      EncodePrefixError(shorter, n);
    }
  }

  lemma {:induction false} EncodeArgsPrefixError(op: string, spec: OpSpec, args: seq<Arg>, n: nat)
    requires n <= |args|
    ensures EncodeArgs(op, spec, args[..n]).Err? ==> EncodeArgs(op, spec, args) == EncodeArgs(op, spec, args[..n])
  {
    if n == |args| {
      assert args[..n] == args;
    } else {
      var shorter := args[..|args| - 1];
      assert shorter[..n] == args[..n];
      EncodeArgsPrefixError(op, spec, shorter, n);
    }
  }

  // ----- decoding -----

  /** The arguments from position `j` on: reading stops at the first optional one that is absent. */
  function DecodeArgs(op: string, spec: OpSpec, args: map<string, Json>, j: nat): (r: Result<seq<Arg>, JsonError>)
    requires j <= |spec.argNames|
    ensures r.Ok? ==> |r.value| <= |spec.argNames| - j
    ensures r.Ok? ==> spec.minArgs <= |spec.argNames| ==> spec.minArgs <= j + |r.value|
    decreases |spec.argNames| - j
  {
    if j == |spec.argNames| then Ok([])
    else
      var name := spec.argNames[j];
      if name !in args then if j < spec.minArgs then Err(MissingArg(op, name)) else Ok([])
      else
        var arg := UnmarshalArg(args[name]);
        if arg.None? then Err(BadValue(op, name, args[name]))
        else
          var rest :- DecodeArgs(op, spec, args, j + 1);
          Ok([arg.value] + rest)
  }

  function DecodeOp(jo: JsonOp): Result<Op, JsonError> {
    var known := Lookup(jo.op);
    if known.None? then Err(UnknownName(jo.op))
    else
      var args :- DecodeArgs(jo.op, SpecOf(known.value), jo.args, 0);
      Ok(Op(jo.op, args))
  }

  function Decode(ops: seq<JsonOp>): (r: Result<Pipeline, JsonError>)
    ensures r.Ok? ==> |r.value| == |ops|
  {
    if ops == [] then Ok([])
    else
      var last := |ops| - 1;
      var before :- Decode(ops[..last]);
      var op :- DecodeOp(ops[last]);
      Ok(before + [op])
  }

  lemma {:induction false} DecodePrefixError(ops: seq<JsonOp>, n: nat)
    requires n <= |ops|
    ensures Decode(ops[..n]).Err? ==> Decode(ops) == Decode(ops[..n])
  {
    if n == |ops| {
      assert ops[..n] == ops;
    } else {
      var shorter := ops[..|ops| - 1];
      assert shorter[..n] == ops[..n];
      DecodePrefixError(shorter, n);
    }
  }

  /** The loop over one op's argument names. */
  method ArgsFromJSON(op: string, spec: OpSpec, raw: map<string, Json>) returns (r: Result<seq<Arg>, JsonError>)
    ensures r == DecodeArgs(op, spec, raw, 0)
  {
    var args := [];
    for j := 0 to |spec.argNames|
      invariant var whole, now := DecodeArgs(op, spec, raw, 0), DecodeArgs(op, spec, raw, j);
                if now.Ok? then whole.Ok? && whole.value == args + now.value else whole == now
    {
      var name := spec.argNames[j];
      if name !in raw {
        if j < spec.minArgs { return Err(MissingArg(op, name)); }
        assert args + [] == args;
        return Ok(args);
      }
      var arg := UnmarshalArg(raw[name]);
      if arg.None? { return Err(BadValue(op, name, raw[name])); }
      args := args + [arg.value];
    }
    assert args + [] == args;
    return Ok(args);
  }

  method FromJSON(ops: seq<JsonOp>) returns (r: Result<Pipeline, JsonError>)
    ensures r == Decode(ops)
  {
    var pipeline := [];
    for i := 0 to |ops|
      invariant Decode(ops[..i]) == Ok(pipeline)
    {
      assert ops[..i + 1][..i] == ops[..i];
      DecodePrefixError(ops, i + 1);
      var jo := ops[i];
      var known := Lookup(jo.op);
      if known.None? { return Err(UnknownName(jo.op)); }
      var spec := SpecOf(known.value);
      var args := ArgsFromJSON(jo.op, spec, jo.args);
      if args.Err? { return Err(args.error); }
      pipeline := pipeline + [Op(jo.op, args.value)];
    }
    assert ops[..|ops|] == ops;
    return Ok(pipeline);
  }

  // ----- main results -----

  /** The name under which argument `j` is stored still holds its value when later arguments follow. */
  lemma {:induction false} EncodedArg(op: string, known: KnownOp, args: seq<Arg>, j: nat)
    requires var spec := SpecOf(known); EncodeArgs(op, spec, args).Ok? && j < |args| <= |spec.argNames|
    ensures var m := EncodeArgs(op, SpecOf(known), args).value;
            var name := SpecOf(known).argNames[j];
            name in m && args[j].HasValue() && m[name] == MarshalArg(args[j]).value
  {
    RegistryNamesEveryArgument(known);
    var last := |args| - 1;
    if j < last {
      EncodedArg(op, known, args[..last], j);
      assert args[..last][j] == args[j];
    }
  }

  lemma {:induction false} EncodedNames(op: string, known: KnownOp, args: seq<Arg>)
    requires var spec := SpecOf(known); EncodeArgs(op, spec, args).Ok? && |args| <= |spec.argNames|
    ensures var m := EncodeArgs(op, SpecOf(known), args).value;
            forall j | |args| <= j < |SpecOf(known).argNames| :: SpecOf(known).argNames[j] !in m
  {
    RegistryNamesEveryArgument(known);
    if args != [] { EncodedNames(op, known, args[..|args| - 1]); }
  }

  /** Decoding what was encoded, from argument `j` on. */
  lemma {:induction false} ArgsRoundTrip(op: string, known: KnownOp, args: seq<Arg>, j: nat)
    requires var spec := SpecOf(known); EncodeArgs(op, spec, args).Ok? && Arity(spec, |args|) && j <= |args|
    ensures DecodeArgs(op, SpecOf(known), EncodeArgs(op, SpecOf(known), args).value, j) == Ok(args[j..])
       <==> forall i | j <= i < |args| :: args[i].OneKind()
    decreases |args| - j
  {
    RegistryNamesEveryArgument(known);
    if j == |args| {
      EncodedNames(op, known, args);
    } else {
      EncodedArg(op, known, args, j);
      ArgRoundTrip(args[j]);
      ArgsRoundTrip(op, known, args, j + 1);
      assert args[j..] == [args[j]] + args[j + 1..];
      assert args[j..][0] == args[j] && args[j..][1..] == args[j + 1..];
    }
  }

  predicate OneKindArgs(op: Op) { forall i | 0 <= i < |op.args| :: op.args[i].OneKind() }

  /** An op survives the encoding exactly when its arity is in range and every argument has one kind. */
  lemma {:induction false} OpRoundTrip(op: Op)
    requires EncodeOp(op).Ok?
    ensures DecodeOp(EncodeOp(op).value) == Ok(op) <==> WellFormedOp(op) && OneKindArgs(op)
  {
    var known := Lookup(op.name).value;
    RegistryNamesEveryArgument(known);
    if Arity(SpecOf(known), |op.args|) {
      ArgsRoundTrip(op.name, known, op.args, 0);
      assert op.args[0..] == op.args;
    }
  }

  predicate OneKindPipeline(p: Pipeline) { forall i | 0 <= i < |p| :: OneKindArgs(p[i]) }

  lemma {:induction false} EncodedOp(p: Pipeline, i: nat)
    requires Encode(p).Ok? && i < |p|
    ensures EncodeOp(p[i]) == Ok(Encode(p).value[i])
  {
    if i < |p| - 1 { EncodedOp(p[..|p| - 1], i); }
  }

  lemma {:induction false} DecodedOp(ops: seq<JsonOp>, i: nat)
    requires Decode(ops).Ok? && i < |ops|
    ensures DecodeOp(ops[i]) == Ok(Decode(ops).value[i])
  {
    if i < |ops| - 1 { DecodedOp(ops[..|ops| - 1], i); }
  }

  lemma {:induction false} DecodesOk(ops: seq<JsonOp>)
    requires forall i | 0 <= i < |ops| :: DecodeOp(ops[i]).Ok?
    ensures Decode(ops).Ok?
  {
    if ops != [] { DecodesOk(ops[..|ops| - 1]); }
  }

  lemma {:induction false} DecodesTo(ops: seq<JsonOp>, p: Pipeline)
    requires |p| == |ops| && forall i | 0 <= i < |p| :: DecodeOp(ops[i]) == Ok(p[i])
    ensures Decode(ops) == Ok(p)
  {
    DecodesOk(ops);
    forall i | 0 <= i < |p| ensures Decode(ops).value[i] == p[i] { DecodedOp(ops, i); }
    assert Decode(ops).value == p;
  }

  /** JSON round trip: the decoder inverts the encoder on exactly the well-formed pipelines whose
      arguments have one kind each. */
  lemma {:induction false} PipelineRoundTrip(p: Pipeline)
    requires Encode(p).Ok?
    ensures Decode(Encode(p).value) == Ok(p) <==> WellFormed(p) && OneKindPipeline(p)
  {
    var ops := Encode(p).value;
    forall i | 0 <= i < |p|
      ensures DecodeOp(ops[i]) == Ok(p[i]) <==> WellFormedOp(p[i]) && OneKindArgs(p[i])
      ensures Decode(ops).Ok? ==> DecodeOp(ops[i]) == Ok(Decode(ops).value[i])
    {
      EncodedOp(p, i);
      OpRoundTrip(p[i]);
      if Decode(ops).Ok? { DecodedOp(ops, i); }
    }
    if WellFormed(p) && OneKindPipeline(p) {
      DecodesTo(ops, p);
    }
  }

  predicate AllHaveValues(args: seq<Arg>) { forall i | 0 <= i < |args| :: args[i].HasValue() }

  lemma {:induction false} EncodeArgsOk(op: string, spec: OpSpec, args: seq<Arg>)
    ensures EncodeArgs(op, spec, args).Ok? <==> AllHaveValues(args)
  {
    if args != [] {
      var last := |args| - 1;
      EncodeArgsOk(op, spec, args[..last]);
      assert AllHaveValues(args) <==> AllHaveValues(args[..last]) && args[last].HasValue();
    }
  }

  predicate EncodableOp(op: Op) { Lookup(op.name).Some? && AllHaveValues(op.args) }

  predicate Encodable(p: Pipeline) { forall i | 0 <= i < |p| :: EncodableOp(p[i]) }

  lemma {:induction false} EncodeOpOk(op: Op)
    ensures EncodeOp(op).Ok? <==> EncodableOp(op)
  {
    var known := Lookup(op.name);
    if known.Some? { EncodeArgsOk(op.name, SpecOf(known.value), op.args); }
  }

  lemma {:induction false} EncodableEncodes(p: Pipeline)
    requires Encodable(p)
    ensures Encode(p).Ok?
  {
    if p != [] {
      EncodableEncodes(p[..|p| - 1]);
      EncodeOpOk(p[|p| - 1]);
    }
  }

  /** Encoding succeeds exactly when every op is registered and every argument has a value. */
  lemma {:induction false} EncodeOk(p: Pipeline)
    ensures Encode(p).Ok? <==> Encodable(p)
  {
    if Encodable(p) { EncodableEncodes(p); }
    if Encode(p).Ok? {
      forall i | 0 <= i < |p| ensures EncodableOp(p[i]) {
        EncodedOp(p, i);
        EncodeOpOk(p[i]);
      }
    }
  }

  /** A decoded argument has one kind, or it came from a null and has no value. */
  predicate Decoded(a: Arg) { a.OneKind() || !a.HasValue() }

  lemma {:induction false} DecodedArgs(op: string, spec: OpSpec, raw: map<string, Json>, j: nat)
    requires j <= |spec.argNames| && DecodeArgs(op, spec, raw, j).Ok?
    ensures forall a <- DecodeArgs(op, spec, raw, j).value :: Decoded(a)
    decreases |spec.argNames| - j
  {
    if j < |spec.argNames| && spec.argNames[j] in raw { DecodedArgs(op, spec, raw, j + 1); }
  }

  /** Whatever `FromJSON` accepts passes the interpreter's registry and arity checks. */
  lemma {:induction false} DecodedIsWellFormed(ops: seq<JsonOp>)
    requires Decode(ops).Ok?
    ensures var p := Decode(ops).value;
            WellFormed(p) && forall i | 0 <= i < |p| :: forall a <- p[i].args :: Decoded(a)
  {
    if ops != [] {
      var last := |ops| - 1;
      DecodedIsWellFormed(ops[..last]);
      var known := Lookup(ops[last].op).value;
      RegistryNamesEveryArgument(known);
      DecodedArgs(ops[last].op, SpecOf(known), ops[last].args, 0);
    }
  }

  /** Re-encoding: a decoded pipeline can be encoded again exactly when no argument was null, and then
      decoding gives it back. */
  lemma {:induction false} DecodeEncodeFixpoint(ops: seq<JsonOp>)
    requires Decode(ops).Ok?
    ensures var p := Decode(ops).value;
            && (Encode(p).Ok? <==> OneKindPipeline(p))
            && (Encode(p).Ok? ==> Decode(Encode(p).value) == Ok(p))
  {
    var p := Decode(ops).value;
    DecodedIsWellFormed(ops);
    EncodeOk(p);
    if Encode(p).Ok? {
      forall i, j | 0 <= i < |p| && 0 <= j < |p[i].args| ensures p[i].args[j].OneKind() {
        assert Decoded(p[i].args[j]) && EncodableOp(p[i]);
      }
      PipelineRoundTrip(p);
    }
  }

  // ----- what decoding loses -----

  /** A value that an argument of one kind is written as. */
  predicate PlainValue(v: Json) {
    match v
    case JString(_) => true
    case JInt(n) => -0x8000_0000_0000_0000 <= n <= 0x7FFF_FFFF_FFFF_FFFF
    case JObject(fields) => forall k | k in fields :: fields[k].JString?
    case _ => false
  }

  /** A decoded value is written as it was read exactly when it is a plain one. */
  lemma {:induction false} ValueRoundTrip(v: Json)
    ensures PlainValue(v) ==> UnmarshalArg(v).Some?
    ensures UnmarshalArg(v).Some? ==> (MarshalArg(UnmarshalArg(v).value) == Some(v) <==> PlainValue(v))
  {
    if v.JObject? && IsTable(v.fields) {
      var table := TableOf(v.fields);
      var written := map k | k in table :: JString(table[k]);
      if PlainValue(v) { assert written == v.fields; }
      if written == v.fields {
        forall k | k in v.fields ensures v.fields[k].JString? { assert written[k] == v.fields[k]; }
      }
    }
  }

  /** Every argument that is present has a registered name and a plain value. */
  predicate Lossless(jo: JsonOp) {
    var known := Lookup(jo.op);
    && known.Some?
    && forall name | name in jo.args :: name in SpecOf(known.value).argNames && PlainValue(jo.args[name])
  }

  /** Argument `j + i` was read under its name, and the first name that was not read is absent. */
  lemma {:induction false} DecodedFrom(op: string, known: KnownOp, raw: map<string, Json>, j: nat, i: nat)
    requires var spec := SpecOf(known); j <= |spec.argNames| && DecodeArgs(op, spec, raw, j).Ok?
    ensures var names, args := SpecOf(known).argNames, DecodeArgs(op, SpecOf(known), raw, j).value;
            && (i < |args| ==> names[j + i] in raw && UnmarshalArg(raw[names[j + i]]) == Some(args[i]))
            && (j + |args| < |names| ==> names[j + |args|] !in raw && j + |args| >= SpecOf(known).minArgs)
    decreases |SpecOf(known).argNames| - j
  {
    var names := SpecOf(known).argNames;
    if j < |names| && names[j] in raw {
      DecodedFrom(op, known, raw, j + 1, if i > 0 then i - 1 else 0);
    }
  }

  lemma {:induction false} EncodedKeys(op: string, known: KnownOp, args: seq<Arg>, name: string)
    requires var spec := SpecOf(known); EncodeArgs(op, spec, args).Ok? && |args| <= |spec.argNames|
    ensures name in EncodeArgs(op, SpecOf(known), args).value <==> name in SpecOf(known).argNames[..|args|]
  {
    if args != [] {
      var last, names := |args| - 1, SpecOf(known).argNames;
      EncodedKeys(op, known, args[..last], name);
      assert names[..|args|] == names[..last] + [names[last]];
    }
  }

  /** Only the last argument of an op may be optional. */
  lemma {:induction false} OneOptionalArgument(known: KnownOp)
    ensures var spec := SpecOf(known); |spec.argNames| <= spec.minArgs + 1
  {
  }

  /** The names that were read are the present ones of the registry. */
  lemma {:induction false} NamesRead(op: string, known: KnownOp, raw: map<string, Json>, name: string)
    requires DecodeArgs(op, SpecOf(known), raw, 0).Ok? && name in SpecOf(known).argNames
    ensures name in SpecOf(known).argNames[..|DecodeArgs(op, SpecOf(known), raw, 0).value|] <==> name in raw
  {
    RegistryNamesEveryArgument(known);
    OneOptionalArgument(known);
    var names, n := SpecOf(known).argNames, |DecodeArgs(op, SpecOf(known), raw, 0).value|;
    var i :| 0 <= i < |names| && names[i] == name;
    DecodedFrom(op, known, raw, 0, i);
    if i < n { assert names[..n][i] == name; }
    if name in names[..n] {
      var k :| 0 <= k < n && names[..n][k] == name;
      DecodedFrom(op, known, raw, 0, k);
    }
  }

  /** A value that was read is written back as it was exactly when it is plain. */
  lemma {:induction false} ArgWrittenBack(op: string, known: KnownOp, raw: map<string, Json>, i: nat)
    requires var r := DecodeArgs(op, SpecOf(known), raw, 0); r.Ok? && i < |r.value| <= |SpecOf(known).argNames|
    ensures var name, args := SpecOf(known).argNames[i], DecodeArgs(op, SpecOf(known), raw, 0).value;
            && name in raw && (MarshalArg(args[i]) == Some(raw[name]) <==> PlainValue(raw[name]))
            && (EncodeArgs(op, SpecOf(known), args).Ok? ==>
                  var m := EncodeArgs(op, SpecOf(known), args).value;
                  name in m && (m[name] == raw[name] <==> PlainValue(raw[name])))
  {
    DecodedFrom(op, known, raw, 0, i);
    ValueRoundTrip(raw[SpecOf(known).argNames[i]]);
    var args := DecodeArgs(op, SpecOf(known), raw, 0).value;
    if EncodeArgs(op, SpecOf(known), args).Ok? { EncodedArg(op, known, args, i); }
  }

  lemma {:induction false} LosslessArgs(op: string, known: KnownOp, raw: map<string, Json>)
    requires DecodeArgs(op, SpecOf(known), raw, 0).Ok?
    requires forall name | name in raw :: name in SpecOf(known).argNames && PlainValue(raw[name])
    ensures EncodeArgs(op, SpecOf(known), DecodeArgs(op, SpecOf(known), raw, 0).value) == Ok(raw)
  {
    var args := DecodeArgs(op, SpecOf(known), raw, 0).value;
    var names, n := SpecOf(known).argNames, |args|;
    forall i | 0 <= i < n ensures args[i].HasValue() {
      ArgWrittenBack(op, known, raw, i);
      ArgRoundTrip(args[i]);
    }
    EncodeArgsOk(op, SpecOf(known), args);
    var m := EncodeArgs(op, SpecOf(known), args).value;
    forall name ensures name in m <==> name in raw {
      EncodedKeys(op, known, args, name);
      if name in names { NamesRead(op, known, raw, name); }
    }
    forall name | name in m ensures m[name] == raw[name] {
      EncodedKeys(op, known, args, name);
      var i :| 0 <= i < n && names[..n][i] == name;
      ArgWrittenBack(op, known, raw, i);
    }
    assert m == raw;
  }

  lemma {:induction false} WrittenBackIsLossless(op: string, known: KnownOp, raw: map<string, Json>, name: string)
    requires DecodeArgs(op, SpecOf(known), raw, 0).Ok? && name in raw
    requires EncodeArgs(op, SpecOf(known), DecodeArgs(op, SpecOf(known), raw, 0).value) == Ok(raw)
    ensures name in SpecOf(known).argNames && PlainValue(raw[name])
  {
    var args := DecodeArgs(op, SpecOf(known), raw, 0).value;
    EncodedKeys(op, known, args, name);
    var i :| 0 <= i < |args| && SpecOf(known).argNames[..|args|][i] == name;
    ArgWrittenBack(op, known, raw, i);
  }

  /** An op in JSON is written back as it was read exactly when none of its arguments has an unknown name
      or a value that is not plain. */
  lemma {:induction false} DecodedOpRoundTrip(jo: JsonOp)
    requires DecodeOp(jo).Ok?
    ensures EncodeOp(DecodeOp(jo).value) == Ok(jo) <==> Lossless(jo)
  {
    var known := Lookup(jo.op).value;
    if Lossless(jo) { LosslessArgs(jo.op, known, jo.args); }
    if EncodeOp(DecodeOp(jo).value) == Ok(jo) {
      forall name | name in jo.args ensures name in SpecOf(known).argNames && PlainValue(jo.args[name]) {
        WrittenBackIsLossless(jo.op, known, jo.args, name);
      }
    }
  }

  lemma {:induction false} EncodesTo(p: Pipeline, ops: seq<JsonOp>)
    requires |p| == |ops| && forall i | 0 <= i < |p| :: EncodeOp(p[i]) == Ok(ops[i])
    ensures Encode(p) == Ok(ops)
  {
    forall i | 0 <= i < |p| ensures EncodableOp(p[i]) { EncodeOpOk(p[i]); }
    EncodeOk(p);
    forall i | 0 <= i < |p| ensures Encode(p).value[i] == ops[i] { EncodedOp(p, i); }
    assert Encode(p).value == ops;
  }

  /** The other half of the JSON round trip: the encoder inverts the decoder on exactly the accepted
      arrays of ops in which every argument has a registered name and a plain value. */
  lemma {:induction false} DecodedPipelineRoundTrip(ops: seq<JsonOp>)
    requires Decode(ops).Ok?
    ensures Encode(Decode(ops).value) == Ok(ops) <==> forall i | 0 <= i < |ops| :: Lossless(ops[i])
  {
    var p := Decode(ops).value;
    forall i | 0 <= i < |ops|
      ensures EncodeOp(p[i]) == Ok(ops[i]) <==> Lossless(ops[i])
      ensures Encode(p).Ok? ==> EncodeOp(p[i]) == Ok(Encode(p).value[i])
    {
      DecodedOp(ops, i);
      DecodedOpRoundTrip(ops[i]);
      if Encode(p).Ok? { EncodedOp(p, i); }
    }
    if forall i | 0 <= i < |ops| :: Lossless(ops[i]) {
      EncodesTo(p, ops);
    }
  }

  /** An argument that `trim` does not have is dropped without an error, and a null in a table is read as
      the empty string. */
  lemma {:induction false} DecodingIsSilent()
    ensures DecodeOp(JsonOp("trim", map["x" := JInt(1)])) == Ok(Op("trim", []))
    ensures DecodeOp(JsonOp("mapValues", map["table" := JObject(map["a" := JNull])]))
         == Ok(Op("mapValues", [MapArg(map["a" := ""])]))
  {
    assert "mapValues"[0] == 'm' && Lookup("mapValues") == Some(MapValues);
    var fields, spec := map["a" := JNull], SpecOf(MapValues);
    var args := map["table" := JObject(fields)];
    assert TableOf(fields) == map["a" := ""];
    assert spec.argNames[1] == "fallback" && "fallback"[0] != "table"[0];
    assert DecodeArgs("mapValues", spec, args, 1) == Ok([]);
    var table := [MapArg(map["a" := ""])];
    assert table + [] == table;
    assert DecodeArgs("mapValues", spec, args, 0) == Ok(table);
  }

  // ----- the wire format, spelled out -----

  /** Each kind of argument is written as the JSON value of its kind. */
  lemma ArgumentsAreWritten(s: string, n: Int64, m: map<string, string>)
    ensures MarshalArg(StringArg(s)) == Some(JString(s))
    ensures MarshalArg(IntArg(n)) == Some(JInt(n))
    ensures var raw := MarshalArg(MapArg(m));
            && raw.Some? && raw.value.JObject? && raw.value.fields.Keys == m.Keys
            && forall k | k in m :: raw.value.fields[k] == JString(m[k])
    ensures MarshalArg(Arg(None, None, None)) == None
  {
  }

  /** And read back from it: a null has no value, a null member is empty, and nothing else is accepted. */
  lemma {:induction false} ArgumentsAreRead(raw: Json)
    ensures raw.JString? ==> UnmarshalArg(raw) == Some(StringArg(raw.s))
    ensures raw.JNull? ==> UnmarshalArg(raw) == Some(Arg(None, None, None))
    ensures raw.JInt? ==>
              UnmarshalArg(raw) ==
              if -0x8000_0000_0000_0000 <= raw.n <= 0x7FFF_FFFF_FFFF_FFFF then Some(IntArg(raw.n)) else None
    ensures raw.JBool? || raw.JFraction? || raw.JArray? ==> UnmarshalArg(raw) == None
    ensures raw.JObject? ==>
              (UnmarshalArg(raw).Some?
               <==> forall k | k in raw.fields :: raw.fields[k].JString? || raw.fields[k].JNull?)
    ensures raw.JObject? && UnmarshalArg(raw).Some? ==>
              var a := UnmarshalArg(raw).value;
              && a.S == None && a.I == None && a.M.Some? && a.M.value.Keys == raw.fields.Keys
              && forall k | k in raw.fields :: a.M.value[k] == if raw.fields[k].JString? then raw.fields[k].s else ""
  {
  }

  /** The argument object of an op: its argument at position `i` under the name at position `i`. */
  lemma {:induction false} ArgumentsAreNamed(op: Op, i: nat)
    requires EncodeOp(op).Ok? && i < |op.args|
    requires |op.args| <= |SpecOf(Lookup(op.name).value).argNames|
    ensures var jo, names := EncodeOp(op).value, SpecOf(Lookup(op.name).value).argNames;
            && jo.op == op.name && names[i] in jo.args && Some(jo.args[names[i]]) == MarshalArg(op.args[i])
            && forall name :: name in jo.args <==> name in names[..|op.args|]
  {
    var known := Lookup(op.name).value;
    EncodedArg(op.name, known, op.args, i);
    forall name ensures name in EncodeOp(op).value.args <==> name in SpecOf(known).argNames[..|op.args|] {
      EncodedKeys(op.name, known, op.args, name);
    }
  }

  /** An argument of an op, as far as reading goes: there if required, and readable if there. */
  predicate Readable(known: KnownOp, raw: map<string, Json>, j: nat)
    requires j < |SpecOf(known).argNames|
  {
    var name := SpecOf(known).argNames[j];
    (j < SpecOf(known).minArgs ==> name in raw) && (name in raw ==> UnmarshalArg(raw[name]).Some?)
  }

  lemma {:induction false} DecodeArgsOk(op: string, known: KnownOp, raw: map<string, Json>, j: nat)
    requires j <= |SpecOf(known).argNames|
    ensures DecodeArgs(op, SpecOf(known), raw, j).Ok?
       <==> forall i | j <= i < |SpecOf(known).argNames| :: Readable(known, raw, i)
    decreases |SpecOf(known).argNames| - j
  {
    var names := SpecOf(known).argNames;
    OneOptionalArgument(known);
    if j < |names| {
      assert Readable(known, raw, j) <==>
             (j < SpecOf(known).minArgs ==> names[j] in raw)
             && (names[j] in raw ==> UnmarshalArg(raw[names[j]]).Some?);
      DecodeArgsOk(op, known, raw, j + 1);
    }
  }

  /** An op is accepted exactly when it is registered, its required arguments are there, and those that are
      there can be read. */
  lemma {:induction false} DecodeOpOk(jo: JsonOp)
    ensures Lookup(jo.op).None? ==> DecodeOp(jo) == Err(UnknownName(jo.op))
    ensures Lookup(jo.op).Some? ==>
              var known := Lookup(jo.op).value;
              && (DecodeOp(jo).Ok? <==> forall j | 0 <= j < |SpecOf(known).argNames| :: Readable(known, jo.args, j))
              && (DecodeOp(jo).Ok? ==> DecodeOp(jo).value.name == jo.op)
  {
    if Lookup(jo.op).Some? { DecodeArgsOk(jo.op, Lookup(jo.op).value, jo.args, 0); }
  }

  /** The first argument that is missing or cannot be read is the one reported. */
  lemma {:induction false} DecodeArgsError(op: string, known: KnownOp, raw: map<string, Json>, j: nat, i: nat)
    requires j <= i < |SpecOf(known).argNames| && !Readable(known, raw, i)
    requires forall k | j <= k < i :: Readable(known, raw, k)
    ensures var name := SpecOf(known).argNames[i];
            DecodeArgs(op, SpecOf(known), raw, j) ==
            Err(if name in raw then BadValue(op, name, raw[name]) else MissingArg(op, name))
    decreases i - j
  {
    OneOptionalArgument(known);
    if j < i {
      assert Readable(known, raw, j);
      DecodeArgsError(op, known, raw, j + 1, i);
    }
  }

  /** The first argument without a value is the one reported when an op cannot be written. */
  lemma {:induction false} EncodeArgsError(op: string, spec: OpSpec, args: seq<Arg>, i: nat)
    requires i < |args| && !args[i].HasValue() && forall k | 0 <= k < i :: args[k].HasValue()
    ensures EncodeArgs(op, spec, args) == Err(NoValue(op, ArgNameFor(spec, i)))
  {
    var last := |args| - 1;
    if i < last {
      EncodeArgsError(op, spec, args[..last], i);
    } else {
      EncodeArgsOk(op, spec, args[..last]);
    }
  }

  lemma {:induction false} DecodeLast(ops: seq<JsonOp>, front: seq<JsonOp>, last: JsonOp)
    requires ops == front + [last]
    ensures Decode(front).Err? ==> Decode(ops) == Err(Decode(front).error)
    ensures Decode(front).Ok? && DecodeOp(last).Err? ==> Decode(ops) == Err(DecodeOp(last).error)
  {
    assert ops[..|ops| - 1] == front;
  }

  /** The first op that cannot be read decides the error of an array, and likewise in writing. */
  lemma {:induction false} DecodeError(ops: seq<JsonOp>, good: seq<JsonOp>, bad: JsonOp, rest: seq<JsonOp>)
    requires ops == good + [bad] + rest && Decode(good).Ok? && DecodeOp(bad).Err?
    ensures Decode(ops) == Err(DecodeOp(bad).error)
    decreases |rest|
  {
    if rest == [] {
      assert ops == good + [bad];
      DecodeLast(ops, good, bad);
    } else {
      var n := |rest| - 1;
      var front := good + [bad] + rest[..n];
      DecodeError(front, good, bad, rest[..n]);
      assert ops == front + [rest[n]];
      DecodeLast(ops, front, rest[n]);
    }
  }

  lemma {:induction false} EncodeLast(p: Pipeline, front: Pipeline, last: Op)
    requires p == front + [last]
    ensures Encode(front).Err? ==> Encode(p) == Err(Encode(front).error)
    ensures Encode(front).Ok? && EncodeOp(last).Err? ==> Encode(p) == Err(EncodeOp(last).error)
  {
    assert p[..|p| - 1] == front;
  }

  lemma {:induction false} EncodeError(p: Pipeline, good: Pipeline, bad: Op, rest: Pipeline)
    requires p == good + [bad] + rest && Encode(good).Ok? && EncodeOp(bad).Err?
    ensures Encode(p) == Err(EncodeOp(bad).error)
    decreases |rest|
  {
    if rest == [] {
      assert p == good + [bad];
      EncodeLast(p, good, bad);
    } else {
      var n := |rest| - 1;
      var front := good + [bad] + rest[..n];
      EncodeError(front, good, bad, rest[..n]);
      assert p == front + [rest[n]];
      EncodeLast(p, front, rest[n]);
    }
  }

  /** An argument beyond those that the registry names is written under its number. */
  lemma {:induction false} ExtraArgument(s: string)
    ensures EncodeOp(Op("trim", [StringArg(s)])) == Ok(JsonOp("trim", map["arg0" := JString(s)]))
  {
    var args := [StringArg(s)];
    assert Decimal(0) == "0" by { assert "" + [DigitChar(0)] == "0"; }
    assert "arg" + "0" == "arg0" && args[..0] == [];
    assert EncodeArgs("trim", SpecOf(Trim), args) == Ok(map["arg0" := JString(s)]);
  }
}
