/** The cluster-key template scanner. Braces are ASCII, so scanning runes finds the same segments as
    the source's scan of bytes. */
module Template {
  import opened Wrappers

  /** One call of the scanner's visitor. */
  datatype Visit = Lit(text: string) | Token(name: string)

  datatype Visits = End | Then(head: Visit, tail: Visits)

  /** The visits in order. */
  function InOrder(v: Visits): seq<Visit> {
    match v
    case End => []
    case Then(head, tail) => [head] + InOrder(tail)
  }

  /** `strings.IndexByte`: the first position of `c`. */
  function IndexOf(s: string, c: char): (r: Option<nat>)
    ensures r.Some? ==> r.value < |s| && s[r.value] == c && c !in s[..r.value]
    ensures r.None? ==> c !in s
  {
    if s == "" then None
    else if s[0] == c then Some(0)
    else
      match IndexOf(s[1..], c)
      case None => None
      case Some(i) => assert s[..i + 1] == [s[0]] + s[1..][..i]; Some(i + 1)
  }

  function Walk(t: string): Visits
    decreases |t|
  {
    match IndexOf(t, '{')
    case None => if t == "" then End else Then(Lit(t), End)
    case Some(open) =>
      var rest := WalkOpen(t[open..]);
      if open > 0 then Then(Lit(t[..open]), rest) else rest
  }

  /** The same for a text that starts with an opening brace. */
  function WalkOpen(t: string): Visits
    requires t != "" && t[0] == '{'
    decreases |t|, 0
  {
    match IndexOf(t, '}')
    case None => Then(Lit(t), End)
    case Some(close) => Then(Token(t[1..close]), Walk(t[close + 1..]))
  }

  lemma Associates<T>(a: seq<T>, b: seq<T>, c: seq<T>)
    ensures (a + b) + c == a + (b + c)
  {
  }

  method WalkTemplateTokens(tmpl: string) returns (visits: seq<Visit>)
    ensures visits == InOrder(Walk(tmpl))
  {
    visits := [];
    var i := 0;
    while i < |tmpl|
      invariant i <= |tmpl| && visits + InOrder(Walk(tmpl[i..])) == InOrder(Walk(tmpl))
    {
      var open := IndexOf(tmpl[i..], '{');
      if open.None? { return visits + [Lit(tmpl[i..])]; }
      var o := open.value + i;
      assert tmpl[o..] == tmpl[i..][open.value..];
      if o > i {
        var lit := Lit(tmpl[i..o]);
        assert tmpl[i..o] == tmpl[i..][..open.value];
        Associates(visits, [lit], InOrder(WalkOpen(tmpl[o..])));
        visits := visits + [lit];
      }
      assert visits + InOrder(WalkOpen(tmpl[o..])) == InOrder(Walk(tmpl));
      visits, i := VisitToken(tmpl, o, visits);
    }
  }

  lemma Slices(t: string, open: nat, close: nat)
    requires 0 < close && open + close < |t|
    ensures t[open..][1..close] == t[open + 1..open + close] && t[open..][close + 1..] == t[open + close + 1..]
  {
  }

  lemma OpenVisits(t: string, open: nat)
    requires open < |t| && t[open] == '{'
    ensures InOrder(Walk(t[|t|..])) == []
    ensures var close := IndexOf(t[open..], '}');
            InOrder(WalkOpen(t[open..])) ==
            if close.None? then [Lit(t[open..])]
            else [Token(t[open + 1..open + close.value])] + InOrder(Walk(t[open + close.value + 1..]))
  {
    var close := IndexOf(t[open..], '}');
    if close.Some? { Slices(t, open, close.value); }
  }

  /** The second half of an iteration, from the opening brace at `open`: a token, or the rest of the
      text when the brace is never closed. */
  method VisitToken(tmpl: string, open: nat, done: seq<Visit>) returns (visits: seq<Visit>, i: nat)
    requires open < |tmpl| && tmpl[open] == '{'
    ensures open < i <= |tmpl|
    ensures visits + InOrder(Walk(tmpl[i..])) == done + InOrder(WalkOpen(tmpl[open..]))
  {
    OpenVisits(tmpl, open);
    var close := IndexOf(tmpl[open..], '}');
    if close.None? {
      visits, i := done + [Lit(tmpl[open..])], |tmpl|;
      assert visits + [] == visits;
    } else {
      var c := close.value + open;
      var token := Token(tmpl[open + 1..c]);
      Associates(done, [token], InOrder(Walk(tmpl[c + 1..])));
      visits, i := done + [token], c + 1;
    }
  }

  // ----- what the scanner promises -----

  function VisitText(v: Visit): string {
    match v
    case Lit(text) => text
    case Token(name) => "{" + name + "}"
  }

  function Unparse(v: Visits): string {
    match v
    case End => ""
    case Then(head, tail) => VisitText(head) + Unparse(tail)
  }

  /** An opening brace that is never closed: a literal, and the last one. */
  predicate Unclosed(v: Visit) { v.Lit? && v.text != "" && v.text[0] == '{' && '}' !in v.text }

  predicate PlainLit(v: Visit) { v.Lit? && v.text != "" && '{' !in v.text }

  predicate StartsPlain(v: Visits) { v.Then? && PlainLit(v.head) }

  /** The segmentations the scanner is meant to give: tokens end at the first closing brace, plain
      literals are as long as possible, and only the last literal may be an unclosed brace. */
  predicate Segmented(v: Visits) {
    match v
    case End => true
    case Then(head, tail) =>
      if head.Token? then '}' !in head.name && Segmented(tail)
      else if Unclosed(head) then tail.End?
      else PlainLit(head) && !StartsPlain(tail) && Segmented(tail)
  }

  lemma {:induction false} WalkIsSegmented(t: string)
    ensures Segmented(Walk(t)) && Unparse(Walk(t)) == t
    decreases |t|
  {
    match IndexOf(t, '{')
    case None =>
    case Some(open) =>
      WalkOpenIsSegmented(t[open..]);
      assert t[..open] + t[open..] == t;
  }

  lemma {:induction false} WalkOpenIsSegmented(t: string)
    requires t != "" && t[0] == '{'
    ensures var v := WalkOpen(t); !StartsPlain(v) && Segmented(v) && Unparse(v) == t
    decreases |t|, 0
  {
    match IndexOf(t, '}')
    case None =>
    case Some(close) =>
      WalkIsSegmented(t[close + 1..]);
      NameHasNoBrace(t, close);
      Braced(t, close);
  }

  lemma Braced(t: string, close: nat)
    requires 0 < close < |t| && t[0] == '{' && t[close] == '}'
    ensures t == ("{" + t[1..close] + "}") + t[close + 1..]
  {
  }

  lemma NameHasNoBrace(t: string, close: nat)
    requires 0 < close < |t| && '}' !in t[..close]
    ensures '}' !in t[1..close]
  {
    assert t[1..close] == t[..close][1..];
  }

  lemma {:induction false} IndexUnique(s: string, c: char, i: nat)
    requires i < |s| && s[i] == c && c !in s[..i]
    ensures IndexOf(s, c) == Some(i)
  {
    if i > 0 {
      assert s[0] == s[..i][0] && s[1..][..i - 1] == s[..i][1..];
      IndexUnique(s[1..], c, i - 1);
    }
  }

  lemma TokenWalk(name: string, tail: string)
    requires '}' !in name
    ensures Walk(("{" + name + "}") + tail) == Then(Token(name), Walk(tail))
  {
    var t := ("{" + name + "}") + tail;
    IndexUnique(t, '{', 0);
    assert t[0..] == t && t[..|name| + 1] == "{" + name;
    IndexUnique(t, '}', |name| + 1);
    assert t[1..|name| + 1] == name && t[|name| + 2..] == tail;
  }

  lemma OpenWalk(t: string)
    requires t != "" && t[0] == '{'
    ensures Walk(t) == WalkOpen(t)
  {
    IndexUnique(t, '{', 0);
    assert t[0..] == t;
  }

  lemma LitWalk(text: string, tail: string)
    requires text != "" && '{' !in text && (tail == "" || tail[0] == '{')
    ensures Walk(text + tail) == Then(Lit(text), Walk(tail))
  {
    var t := text + tail;
    if tail == "" {
      assert t == text;
    } else {
      assert t[..|text|] == text && t[|text|..] == tail;
      IndexUnique(t, '{', |text|);
      OpenWalk(tail);
    }
  }

  lemma StartsOpen(v: Visits)
    requires Segmented(v) && !StartsPlain(v)
    ensures Unparse(v) == "" || Unparse(v)[0] == '{'
  {
  }

  /** The segmentation is unique, so the scanner finds the only one there is. */
  lemma {:induction false} SegmentedIsWalk(v: Visits)
    requires Segmented(v)
    ensures Walk(Unparse(v)) == v
    decreases v
  {
    match v
    case End =>
    case Then(head, tail) =>
      if head.Token? {
        SegmentedIsWalk(tail);
        TokenWalk(head.name, Unparse(tail));
      } else if Unclosed(head) {
        assert Unparse(v) == head.text;
        OpenWalk(head.text);
      } else {
        SegmentedIsWalk(tail);
        StartsOpen(tail);
        LitWalk(head.text, Unparse(tail));
      }
  }

  /** Lossless: the visits of a template are its one segmentation. */
  lemma WalkIffSegmented(t: string, v: Visits)
    ensures Walk(t) == v <==> Segmented(v) && Unparse(v) == t
  {
    WalkIsSegmented(t);
    if Segmented(v) { SegmentedIsWalk(v); }
  }

  // ----- rendering -----

  /** What the visitor writes; a token without a value writes nothing. */
  function VisitValue(v: Visit, values: map<string, string>): string {
    match v
    case Lit(text) => text
    case Token(name) => if name in values then values[name] else ""
  }

  function Rendered(v: Visits, values: map<string, string>): string {
    match v
    case End => ""
    case Then(head, tail) => VisitValue(head, values) + Rendered(tail, values)
  }

  function Render(tmpl: string, values: map<string, string>): string { Rendered(Walk(tmpl), values) }

  function TokensOf(v: Visits): seq<string> {
    match v
    case End => []
    case Then(Lit(_), tail) => TokensOf(tail)
    case Then(Token(name), tail) => [name] + TokensOf(tail)
  }

  method RenderTemplate(tmpl: string, values: map<string, string>) returns (b: string)
    ensures b == Render(tmpl, values)
  {
    var visits := WalkTemplateTokens(tmpl);
    b := "";
    ghost var rest := Walk(tmpl);
    for k := 0 to |visits|
      invariant visits[k..] == InOrder(rest) && b + Rendered(rest, values) == Render(tmpl, values)
    {
      assert visits[k..][1..] == visits[k + 1..];
      Associates(b, VisitValue(visits[k], values), Rendered(rest.tail, values));
      rest := rest.tail;
      b := b + VisitValue(visits[k], values);
    }
  }

  method ExtractTemplateTokens(tmpl: string) returns (tokens: seq<string>)
    ensures tokens == TokensOf(Walk(tmpl))
  {
    var visits := WalkTemplateTokens(tmpl);
    tokens := [];
    ghost var rest := Walk(tmpl);
    for k := 0 to |visits|
      invariant visits[k..] == InOrder(rest) && tokens + TokensOf(rest) == TokensOf(Walk(tmpl))
    {
      assert visits[k..][1..] == visits[k + 1..];
      rest := rest.tail;
      if visits[k].Token? { tokens := tokens + [visits[k].name]; }
    }
  }

  /** Mapping every token to its own braces renders the template itself. */
  lemma RenderIdentity(t: string, values: map<string, string>)
    requires forall name <- TokensOf(Walk(t)) :: name in values && values[name] == "{" + name + "}"
    ensures Render(t, values) == t
  {
    WalkIsSegmented(t);
    RenderedUnparse(Walk(t), values);
  }

  lemma {:induction false} RenderedUnparse(v: Visits, values: map<string, string>)
    requires forall name <- TokensOf(v) :: name in values && values[name] == "{" + name + "}"
    ensures Rendered(v, values) == Unparse(v)
  {
    if v.Then? {
      if v.head.Token? { assert v.head.name == TokensOf(v)[0]; }
      RenderedUnparse(v.tail, values);
    }
  }

  /** No brace is left open at the end. */
  predicate ClosedVisits(v: Visits) {
    v.End? || (!Unclosed(v.head) && ClosedVisits(v.tail))
  }

  predicate Closed(t: string) { ClosedVisits(Walk(t)) }

  /** The same read off the text: no opening brace comes after the last closing one. */
  predicate BracesClosed(t: string) { forall i | 0 <= i < |t| && t[i] == '{' :: '}' in t[i..] }

  lemma LitIsPlain(text: string, rest: Visits)
    requires text != "" && '{' !in text
    ensures ClosedVisits(Then(Lit(text), rest)) <==> ClosedVisits(rest)
  {
    assert text[0] in text;
  }

  /** The scanner's last step on a text that leaves the brace at `open` open. */
  lemma LeavesOpen(t: string, open: nat)
    requires IndexOf(t, '{') == Some(open) && IndexOf(t[open..], '}').None?
    ensures !Closed(t) && !BracesClosed(t)
  {
    var last := Lit(t[open..]);
    assert last.text[0] == '{' && Unclosed(last) && WalkOpen(t[open..]) == Then(last, End);
    if open > 0 { LitIsPlain(t[..open], Then(last, End)); }
    assert t[open] == '{' && '}' !in t[open..];
  }

  lemma ClosesToken(t: string, open: nat, close: nat)
    requires IndexOf(t, '{') == Some(open) && IndexOf(t[open..], '}') == Some(close)
    ensures Closed(t) <==> Closed(t[open..][close + 1..])
  {
    var rest := WalkOpen(t[open..]);
    assert ClosedVisits(rest) <==> Closed(t[open..][close + 1..]);
    if open > 0 { LitIsPlain(t[..open], rest); }
  }

  lemma {:induction false} ClosedIffBracesClosed(t: string)
    ensures Closed(t) <==> BracesClosed(t)
    decreases |t|
  {
    match IndexOf(t, '{')
    case None => if t != "" { LitIsPlain(t, End); }
    case Some(open) =>
      match IndexOf(t[open..], '}')
      case None => LeavesOpen(t, open);
      case Some(close) =>
        ClosesToken(t, open, close);
        assert t[open..][close + 1..] == t[open + close + 1..];
        ClosedIffBracesClosed(t[open + close + 1..]);
        TailBracesClosed(t, open, open + close);
  }

  /** Nothing opens before `open`, and the brace at `k` closes what opens before it. */
  lemma TailBracesClosed(t: string, open: nat, k: nat)
    requires open <= k < |t| && t[k] == '}' && '{' !in t[..open]
    ensures BracesClosed(t) <==> BracesClosed(t[k + 1..])
  {
    var tail := t[k + 1..];
    forall i | 0 <= i <= k && t[i] == '{' ensures '}' in t[i..] { assert t[i..][k - i] == '}'; }
    forall i | 0 <= i < |tail| ensures tail[i] == t[k + 1 + i] && tail[i..] == t[k + 1 + i..] {}
    if BracesClosed(tail) {
      forall i | k < i < |t| && t[i] == '{' ensures '}' in t[i..] { assert tail[i - k - 1] == '{'; }
    }
  }

  /** The visits of a concatenation: two plain literals that meet become one. */
  function Join(a: Visits, b: Visits): Visits {
    match a
    case End => b
    case Then(head, tail) =>
      if tail.End? && PlainLit(head) && StartsPlain(b) then Then(Lit(head.text + b.head.text), b.tail)
      else Then(head, Join(tail, b))
  }

  lemma {:induction false} JoinSegmented(a: Visits, b: Visits)
    requires Segmented(a) && ClosedVisits(a) && Segmented(b)
    ensures Segmented(Join(a, b)) && Unparse(Join(a, b)) == Unparse(a) + Unparse(b)
    ensures a.Then? ==> (StartsPlain(Join(a, b)) <==> StartsPlain(a))
  {
    match a
    case End =>
    case Then(head, tail) =>
      if tail.End? && PlainLit(head) && StartsPlain(b) {
        assert '{' !in head.text + b.head.text;
        Associates(head.text, b.head.text, Unparse(b.tail));
      } else {
        JoinSegmented(tail, b);
        Associates(VisitText(head), Unparse(tail), Unparse(b));
      }
  }

  lemma {:induction false} JoinRendered(a: Visits, b: Visits, values: map<string, string>)
    ensures Rendered(Join(a, b), values) == Rendered(a, values) + Rendered(b, values)
  {
    match a
    case End =>
    case Then(head, tail) =>
      if tail.End? && PlainLit(head) && StartsPlain(b) {
        Associates(head.text, b.head.text, Rendered(b.tail, values));
      } else {
        JoinRendered(tail, b, values);
        Associates(VisitValue(head, values), Rendered(tail, values), Rendered(b, values));
      }
  }

  lemma ClosedPrefixRenders(a: string, b: string, values: map<string, string>)
    requires Closed(a)
    ensures Render(a + b, values) == Render(a, values) + Render(b, values)
  {
    WalkIsSegmented(a);
    WalkIsSegmented(b);
    JoinSegmented(Walk(a), Walk(b));
    JoinRendered(Walk(a), Walk(b), values);
    SegmentedIsWalk(Join(Walk(a), Walk(b)));
  }

  /** The visits after a closing brace is appended to a text that leaves one open. */
  function CloseLast(v: Visits): Visits {
    match v
    case End => End
    case Then(head, tail) => if Unclosed(head) then Then(Token(head.text[1..]), End) else Then(head, CloseLast(tail))
  }

  lemma {:induction false} CloseLastSegmented(v: Visits)
    requires Segmented(v) && !ClosedVisits(v)
    ensures Segmented(CloseLast(v)) && Unparse(CloseLast(v)) == Unparse(v) + "}"
    ensures StartsPlain(CloseLast(v)) <==> StartsPlain(v)
    ensures |Rendered(CloseLast(v), map[])| < |Rendered(v, map[])|
  {
    if Unclosed(v.head) {
      assert v.head.text == "{" + v.head.text[1..];
    } else {
      CloseLastSegmented(v.tail);
    }
  }

  lemma OpenBraceSwallows(a: string)
    requires !Closed(a)
    ensures Render(a + "}", map[]) != Render(a, map[]) + Render("}", map[])
  {
    WalkIsSegmented(a);
    CloseLastSegmented(Walk(a));
    SegmentedIsWalk(CloseLast(Walk(a)));
  }

  /** Rendering distributes over appending, for every right part and all values, exactly when no opening
      brace of the left part comes after its last closing one. */
  lemma RenderDistributesIffClosed(a: string)
    ensures BracesClosed(a)
       <==> forall b, values :: Render(a + b, values) == Render(a, values) + Render(b, values)
  {
    ClosedIffBracesClosed(a);
    if Closed(a) {
      forall b, values ensures Render(a + b, values) == Render(a, values) + Render(b, values) {
        ClosedPrefixRenders(a, b, values);
      }
    } else {
      OpenBraceSwallows(a);
    }
  }

  // ----- the parts of a template -----

  /** Text without an opening brace stands for itself. */
  lemma RenderText(text: string, values: map<string, string>)
    requires '{' !in text
    ensures Render(text, values) == text && TokensOf(Walk(text)) == []
  {
    if text != "" {
      LitWalk(text, "");
      assert text + "" == text;
      assert Walk(text) == Then(Lit(text), End);
      assert Rendered(Then(Lit(text), End), values) == text + "";
    }
  }

  /** A token stands for its value, or for nothing if it has none. */
  lemma RenderToken(name: string, values: map<string, string>)
    requires '}' !in name
    ensures Render("{" + name + "}", values) == if name in values then values[name] else ""
    ensures TokensOf(Walk("{" + name + "}")) == [name]
  {
    var token := "{" + name + "}";
    TokenWalk(name, "");
    assert token + "" == token;
    var visits := Then(Token(name), End);
    assert Walk(token) == visits;
    assert Rendered(visits, values) == VisitValue(visits.head, values) + "";
    assert TokensOf(visits) == [name] + [];
  }

  /** A brace that is not closed stands for itself. */
  lemma RenderOpenBrace(name: string, values: map<string, string>)
    requires '}' !in name
    ensures Render("{" + name, values) == "{" + name && TokensOf(Walk("{" + name)) == []
  {
    var open := "{" + name;
    OpenWalk(open);
    assert '}' !in open && Walk(open) == Then(Lit(open), End);
    assert Rendered(Then(Lit(open), End), values) == open + "";
    assert open + "" == open;
  }

  lemma {:induction false} JoinTokens(a: Visits, b: Visits)
    ensures TokensOf(Join(a, b)) == TokensOf(a) + TokensOf(b)
  {
    match a
    case End => assert [] + TokensOf(b) == TokensOf(b);
    case Then(head, tail) =>
      if tail.End? && PlainLit(head) && StartsPlain(b) {
        assert [] + TokensOf(b) == TokensOf(b);
      } else {
        JoinTokens(tail, b);
        if head.Token? { Associates([head.name], TokensOf(tail), TokensOf(b)); }
      }
  }

  /** The tokens of a template come in the order of its parts. */
  lemma TokensInOrder(a: string, b: string)
    requires BracesClosed(a)
    ensures TokensOf(Walk(a + b)) == TokensOf(Walk(a)) + TokensOf(Walk(b))
  {
    ClosedIffBracesClosed(a);
    WalkIsSegmented(a);
    WalkIsSegmented(b);
    JoinSegmented(Walk(a), Walk(b));
    SegmentedIsWalk(Join(Walk(a), Walk(b)));
    JoinTokens(Walk(a), Walk(b));
  }
}
