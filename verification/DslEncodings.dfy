/** The two encodings carry the same pipelines, up to what each of them cannot say. */
module DslEncodings {
  import opened Wrappers
  import opened Runes
  import opened Dsl
  import opened DslGrammar
  import opened DslReader
  import opened DslText
  import opened DslOps
  import opened DslJson

  lemma {:induction false} PrintableOneKind(u: Unicode, p: Pipeline)
    requires Printable(u, p)
    ensures OneKindPipeline(p)
  {
    if p != [] {
      PrintableArgsOneKind(p[0].args);
      PrintableOneKind(u, p[1..]);
      assert forall i | 1 <= i < |p| :: p[i] == p[1..][i - 1];
    }
  }

  lemma {:induction false} PrintableArgsOneKind(args: seq<Arg>)
    requires PrintableArgs(args)
    ensures forall i | 0 <= i < |args| :: args[i].OneKind()
  {
    if args != [] {
      PrintableArgsOneKind(args[1..]);
      assert forall i | 1 <= i < |args| :: args[i] == args[1..][i - 1];
    }
  }

  /** From text to JSON: a parsed pipeline survives exactly when it is well-formed, and one that does
      not survive fails on every input anyway. */
  lemma {:induction false} TextSurvivesJson(u: Unicode, lib: Library, src: string, p: Pipeline, input: string)
    requires ParseResult(u, src) == Ok(p)
    ensures WellFormed(p) <==> Encode(p).Ok? && Decode(Encode(p).value) == Ok(p)
    ensures !WellFormed(p) ==> ApplyResult(lib, p, input).Err?
  {
    ParseImage(u, p);
    PrintableOneKind(u, p);
    EncodeOk(p);
    WellFormedIffNoRegistryError(lib, p, input);
    if Encode(p).Ok? { PipelineRoundTrip(p); }
    if WellFormed(p) {
      forall i | 0 <= i < |p| ensures EncodableOp(p[i]) {
        assert WellFormedOp(p[i]) && OneKindArgs(p[i]);
      }
    }
  }

  predicate Letters(name: string) {
    name != [] && forall i | 0 <= i < |name| :: 'a' <= name[i] <= 'z' || 'A' <= name[i] <= 'Z'
  }

  lemma {:induction false} RegisteredNamesAreLetters(name: string)
    requires Lookup(name).Some?
    ensures Letters(name)
  {
  }

  /** Every registered name can be written in the text syntax. */
  lemma {:induction false} RegisteredNamesAreIdentifiers(u: Unicode, name: string)
    requires Lookup(name).Some?
    ensures Identifier(u, name)
  {
    RegisteredNamesAreLetters(name);
  }

  predicate NoTables(p: Pipeline) { forall i | 0 <= i < |p| :: PrintableArgs(p[i].args) }

  lemma {:induction false} PrintableIffNoTables(u: Unicode, p: Pipeline)
    requires WellFormed(p)
    ensures Printable(u, p) <==> NoTables(p)
  {
    if p != [] {
      assert WellFormedOp(p[0]);
      RegisteredNamesAreIdentifiers(u, p[0].name);
      PrintableIffNoTables(u, p[1..]);
      assert forall i | 1 <= i < |p| :: p[i] == p[1..][i - 1];
    }
  }

  /** From JSON to text: a decoded pipeline has a text exactly when none of its arguments is a table
      or a null and it is within the parser's step cap, which `FromJSON` does not impose. */
  lemma {:induction false} JsonHasText(u: Unicode, ops: seq<JsonOp>)
    requires Decode(ops).Ok?
    ensures var p := Decode(ops).value;
            (exists src :: ParseResult(u, src) == Ok(p)) <==> NoTables(p) && |ops| <= 20
  {
    DecodedIsWellFormed(ops);
    ParseImage(u, Decode(ops).value);
    PrintableIffNoTables(u, Decode(ops).value);
  }
}
