/** The transform pipeline's abstract syntax. */
module Dsl {
  import opened Wrappers

  const MIN_INT64 := -0x8000_0000_0000_0000
  const MAX_INT64 := 0x7FFF_FFFF_FFFF_FFFF

  /** Go's `int` on a 64-bit platform. */
  type Int64 = n: int | MIN_INT64 <= n <= MAX_INT64

  /** An argument keeps the source's three nilable fields, so the values that no encoder writes (no
      field set, or several) are representable. */
  datatype Arg = Arg(S: Option<string>, I: Option<Int64>, M: Option<map<string, string>>) {

    /** Exactly one field is set: what the source's comment promises of every argument. */
    predicate OneKind() {
      || (S.Some? && I.None? && M.None?)
      || (S.None? && I.Some? && M.None?)
      || (S.None? && I.None? && M.Some?)
    }

    predicate HasValue() { S.Some? || I.Some? || M.Some? }
  }

  function StringArg(s: string): Arg { Arg(Some(s), None, None) }

  function IntArg(n: Int64): Arg { Arg(None, Some(n), None) }

  function MapArg(m: map<string, string>): Arg { Arg(None, None, Some(m)) }

  datatype Op = Op(name: string, args: seq<Arg>)

  type Pipeline = seq<Op>

  // ----- decimal numerals -----

  function DigitChar(d: nat): (c: char)
    requires d < 10
    ensures '0' <= c <= '9' && c as int - '0' as int == d
  {
    ('0' as int + d) as char
  }

  function Decimal(n: nat): string {
    (if n < 10 then "" else Decimal(n / 10)) + [DigitChar(n % 10)]
  }
}
