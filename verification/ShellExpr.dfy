/**
 Rewriting shell references: every `$N`, `${N}`, `$(N)` in a command, argument or
 environment value becomes `$(N)`. Bytes are modelled as characters.
 */
module ShellExpr {

  predicate Ends(c: char) {
    c == ':' || c == '/' || c == ' ' || c == '}' || c == ')'
  }

  predicate Opens(c: char) {
    c == '{' || c == '(' || c == '$'
  }

  function Ref(key: string): string {
    "$(" + key + ")"
  }

  /** Where the scan is: inside a reference or not, what it has read and not yet written, the byte before. */
  datatype Mode = Mode(inRef: bool, key: string, pre: char)

  predicate EndsRef(m: Mode, cur: char) {
    Ends(cur) || (m.pre != '$' && cur == '$')
  }

  /** What one byte writes; the last byte flushes. */
  function Emit(m: Mode, cur: char, last: bool): string {
    if !m.inRef then (if last then m.key + [cur] else if cur == '$' then m.key else [])
    else if EndsRef(m, cur) then Ref(m.key)
    else if last then Ref(m.key + [cur])
    else []
  }

  function Move(m: Mode, cur: char, last: bool): Mode {
    if !m.inRef then (if cur == '$' || last then Mode(true, [], cur) else Mode(false, m.key + [cur], cur))
    else if EndsRef(m, cur) || last then
      Mode(cur == '$', if cur == '$' || cur == '}' || cur == ')' then [] else [cur], cur)
    else if m.pre == '$' && Opens(cur) then Mode(true, [], '$')
    else Mode(true, m.key + [cur], cur)
  }

  function Scan(m: Mode, rest: string): string
    decreases |rest|
  {
    if rest == [] then [] else
    Emit(m, rest[0], |rest| == 1) + Scan(Move(m, rest[0], |rest| == 1), rest[1..])
  }

  const START := Mode(false, [], '\0')

  function Correct(src: string): string {
    Scan(START, src)
  }

  /** One loop over the bytes, cutting the source at `startPos`. */
  method CorrectShellExpr(src: string) returns (dst: string)
    ensures dst == Correct(src)
  {
    hide Emit, Move;
    dst := [];
    var foundStart, startPos := false, 0;
    var pre: char := '\0';
    var n := |src|;
    assert src[0..] == src && src[0..0] == [];
    for i := 0 to n
      invariant 0 <= startPos <= i
      invariant dst + Scan(Mode(foundStart, src[startPos..i], pre), src[i..]) == Correct(src)
    {
      var cur := src[i];
      ghost var m := Mode(foundStart, src[startPos..i], pre);
      assert src[i..][0] == cur && src[i..][1..] == src[i + 1..];
      ghost var before := dst;
      dst, foundStart, startPos, pre := Byte(src, i, dst, foundStart, startPos, pre);
      ghost var moved := Scan(Move(m, cur, i == n - 1), src[i + 1..]);
      assert (before + Emit(m, cur, i == n - 1)) + moved == before + (Emit(m, cur, i == n - 1) + moved);
    }
  }

  /** The body of the loop. */
  method Byte(src: string, i: nat, dst: string, foundStart: bool, startPos: nat, pre: char)
    returns (dst': string, foundStart': bool, startPos': nat, pre': char)
    requires startPos <= i < |src|
    ensures startPos' <= i + 1
    ensures var m := Mode(foundStart, src[startPos..i], pre);
            && dst' == dst + Emit(m, src[i], i == |src| - 1)
            && Mode(foundStart', src[startPos'..i + 1], pre') == Move(m, src[i], i == |src| - 1)
  {
    dst', foundStart', startPos' := dst, foundStart, startPos;
    var cur, n := src[i], |src|;
    assert src[startPos..i] + [cur] == src[startPos..i + 1];
    if !foundStart {
      if cur == '$' || i == n - 1 {
        var index := if i == n - 1 then i + 1 else i;
        dst' := dst' + src[startPos..index];
        startPos' := i + 1;
        foundStart' := true;
      }
    } else {
      var foundEnd := Ends(cur) || (pre != '$' && cur == '$');
      if i == n - 1 || foundEnd {
        var index := if foundEnd then i else i + 1;
        dst' := dst' + Ref(src[startPos..index]);
        foundStart', startPos' := false, i;
        if cur == '$' { foundStart' := true; }
        if cur == '$' || cur == '}' || cur == ')' { startPos' := i + 1; }
      } else if pre == '$' && Opens(cur) {
        startPos' := i + 1;
        return dst', foundStart', startPos', pre;
      }
    }
    pre' := cur;
  }

  // ---------------------------------------------------------------- templates

  /** A literal, or a reference: a dollar, more openers, a name, and a closing bracket unless it is left open. */
  datatype Token = Lit(text: string) | Reference(openers: string, name: string, close: string)

  predicate Open(t: Token) {
    t.Reference? && t.close == []
  }

  /** A character of a name: none that ends a reference. */
  predicate Plain(c: char) {
    c != ':' && c != '/' && c != ' ' && c != '}' && c != ')' && c != '$'
  }

  /** A character that may follow the dollar before the name. */
  predicate Opener(c: char) {
    c == '{' || c == '(' || c == '$'
  }

  predicate TokenOk(t: Token) {
    match t
    case Lit(text) => text != [] && '$' !in text
    case Reference(openers, name, close) =>
      && (forall c :: c in openers ==> Opener(c))
      && (forall c :: c in name ==> Plain(c))
      && (name != [] ==> name[0] != '{' && name[0] != '(')
      && (close == [] || close == "}" || close == ")")
  }

  /**
   Any tokens, as long as two literals do not touch and an open reference is ended: by a colon, a slash or
   a space, or, when it has a name, by another reference or the end.
   */
  predicate Template(ts: seq<Token>) {
    ts == [] ||
    (&& TokenOk(ts[0]) && Template(ts[1..])
     && (ts[0].Lit? ==> |ts| == 1 || ts[1].Reference?)
     && (Open(ts[0]) && ts[0].name == [] ==> |ts| > 1 && ts[1].Lit?)
     && (Open(ts[0]) && |ts| > 1 && ts[1].Lit? ==> Separates(ts[1].text[0])))
  }

  predicate Separates(c: char) {
    c == ':' || c == '/' || c == ' '
  }

  function Show(t: Token): string {
    match t
    case Lit(text) => text
    case Reference(openers, name, close) => "$" + openers + name + close
  }

  function Render(ts: seq<Token>): string {
    if ts == [] then [] else Show(ts[0]) + Render(ts[1..])
  }

  /** The rewritten template. */
  function Normal(ts: seq<Token>): string {
    if ts == [] then [] else (if ts[0].Lit? then ts[0].text else Ref(ts[0].name)) + Normal(ts[1..])
  }

  /** A template that ends in one character after an open reference: the code drops that character. */
  predicate LoneEnd(ts: seq<Token>) {
    var n := |ts|;
    n >= 2 && ts[n - 1].Lit? && |ts[n - 1].text| == 1 && Open(ts[n - 2])
  }

  function Kept(ts: seq<Token>): seq<Token> {
    if LoneEnd(ts) then ts[..|ts| - 1] else ts
  }

  // ---------------------------------------------------------------- scanning a piece

  /** A byte that writes nothing. */
  lemma ScanQuiet(m: Mode, c: char, rest: string)
    requires rest != [] && Emit(m, c, false) == []
    ensures Scan(m, [c] + rest) == Scan(Move(m, c, false), rest)
  {
    hide Emit, Move;
    assert ([c] + rest)[1..] == rest;
    assert [] + Scan(Move(m, c, false), rest) == Scan(Move(m, c, false), rest);
  }

  lemma KeyGrows(key: string, text: string)
    requires text != []
    ensures (key + [text[0]]) + text[1..] == key + text
  {
  }

  lemma {:induction false} ScanLit(m: Mode, text: string, rest: string) returns (n: Mode)
    requires !m.inRef && '$' !in text && rest != []
    ensures !n.inRef && n.key == m.key + text && Scan(m, text + rest) == Scan(n, rest)
    decreases |text|
  {
    if text == [] {
      n := m;
      assert text + rest == rest;
    } else {
      assert text[0] in text;
      assert text + rest == [text[0]] + (text[1..] + rest);
      ScanQuiet(m, text[0], text[1..] + rest);
      var moved := Mode(false, m.key + [text[0]], text[0]);
      assert Move(m, text[0], false) == moved && '$' !in text[1..];
      hide *;
      n := ScanLit(moved, text[1..], rest);
      KeyGrows(m.key, text);
    }
  }

  lemma ScanLitEnd(m: Mode, text: string)
    requires !m.inRef && '$' !in text && text != []
    ensures Scan(m, text) == m.key + text
  {
    var k := |text| - 1;
    assert text == text[..k] + [text[k]];
    var n := ScanLit(m, text[..k], [text[k]]);
    assert n.key + [text[k]] == m.key + text;
  }

  const INSIDE := Mode(true, [], '$')

  lemma {:induction false} ScanOpeners(openers: string, rest: string)
    requires rest != [] && forall c :: c in openers ==> Opener(c)
    ensures Scan(INSIDE, openers + rest) == Scan(INSIDE, rest)
    decreases |openers|
  {
    if openers == [] {
      assert openers + rest == rest;
    } else {
      assert openers[0] in openers;
      assert openers + rest == [openers[0]] + (openers[1..] + rest);
      ScanQuiet(INSIDE, openers[0], openers[1..] + rest);
      hide Scan;
      ScanOpeners(openers[1..], rest);
    }
  }

  lemma {:induction false} ScanName(m: Mode, name: string, rest: string) returns (n: Mode)
    requires m.inRef && rest != [] && (forall c :: c in name ==> Plain(c))
    requires name != [] ==> m.pre != '$' || (name[0] != '{' && name[0] != '(')
    ensures n.inRef && n.key == m.key + name && n.pre == (if name == [] then m.pre else name[|name| - 1])
    ensures Scan(m, name + rest) == Scan(n, rest)
    decreases |name|
  {
    if name == [] {
      n := m;
      assert name + rest == rest;
    } else {
      assert name[0] in name;
      assert name + rest == [name[0]] + (name[1..] + rest);
      ScanQuiet(m, name[0], name[1..] + rest);
      hide Scan;
      n := ScanName(Mode(true, m.key + [name[0]], name[0]), name[1..], rest);
      KeyGrows(m.key, name);
    }
  }

  /** The last byte of a name flushes the reference. */
  lemma ScanLast(n: Mode, c: char)
    requires n.inRef && Plain(c)
    ensures Scan(n, [c]) == Ref(n.key + [c])
  {
    assert [c][1..] == [];
    assert Ref(n.key + [c]) + [] == Ref(n.key + [c]);
  }

  lemma ScanNameEnd(name: string)
    requires name != [] && name[0] != '{' && name[0] != '(' && (forall c :: c in name ==> Plain(c))
    ensures Scan(INSIDE, name) == Ref(name)
  {
    hide Scan, Plain, Ref;
    var k := |name| - 1;
    var init, c := name[..k], name[k];
    assert name == init + [c] && c in name && forall x :: x in init ==> x in name;
    var n := ScanName(INSIDE, init, [c]);
    ScanLast(n, c);
    assert n.key + [c] == name;
  }

  // ---------------------------------------------------------------- scanning a template

  lemma {:induction false} KeptNormal(ts: seq<Token>)
    requires ts != []
    ensures Normal(Kept(ts)) ==
            (if ts[0].Lit? then ts[0].text else Ref(ts[0].name)) + (if |ts| == 2 && LoneEnd(ts) then [] else Normal(Kept(ts[1..])))
  {
    if LoneEnd(ts) {
      var init := ts[..|ts| - 1];
      assert init[0] == ts[0];
      if |ts| == 2 {
        assert init[1..] == [];
      } else {
        assert ts[1..][..|ts| - 2] == init[1..];
        assert LoneEnd(ts[1..]);
      }
    } else {
      assert |ts| >= 3 ==> (LoneEnd(ts[1..]) <==> LoneEnd(ts));
    }
  }

  lemma Reassociate(o: string, n: string, c: string, r: string)
    ensures "$" + o + n + c + r == ['$'] + (o + (n + (c + r)))
  {
  }

  /** What follows the name of a reference: its closing bracket and the later tokens. */
  function After(ts: seq<Token>): string
    requires ts != [] && ts[0].Reference?
  {
    ts[0].close + Render(ts[1..])
  }

  lemma RenderReference(ts: seq<Token>)
    requires Template(ts) && ts != [] && ts[0].Reference?
    ensures Render(ts) == ['$'] + (ts[0].openers + (ts[0].name + After(ts)))
    ensures ts[0].name != [] || After(ts) != []
    ensures After(ts) == [] <==> Open(ts[0]) && |ts| == 1
  {
    var t := ts[0];
    Reassociate(t.openers, t.name, t.close, Render(ts[1..]));
    if |ts| > 1 {
      assert TokenOk(ts[1]);
      assert Render(ts[1..]) == Show(ts[1]) + Render(ts[1..][1..]);
    }
  }

  lemma ScanDollar(m: Mode, rest: string)
    requires !m.inRef && rest != []
    ensures Scan(m, ['$'] + rest) == m.key + Scan(INSIDE, rest)
  {
    assert (['$'] + rest)[1..] == rest;
  }

  lemma {:induction false} FromLiteral(m: Mode, ts: seq<Token>)
    requires !m.inRef && Template(ts)
    requires ts == [] ==> m.key == []
    requires ts != [] && ts[0].Lit? ==> m.key == []
    ensures Scan(m, Render(ts)) == m.key + Normal(Kept(ts))
    decreases |ts|, 2
  {
    if ts == [] {
    } else if ts[0].Reference? {
      RenderReference(ts);
      ScanDollar(m, ts[0].openers + (ts[0].name + After(ts)));
      FromReference(ts);
    } else {
      LiteralFirst(m, ts);
    }
  }

  lemma LastLiteral(ts: seq<Token>)
    requires |ts| == 1 && ts[0].Lit?
    ensures Render(ts) == Normal(Kept(ts)) == ts[0].text
  {
    assert ts[1..] == [];
    assert Kept(ts) == ts;
    assert ts[0].text + [] == ts[0].text;
  }

  lemma {:induction false} LiteralFirst(m: Mode, ts: seq<Token>)
    requires !m.inRef && m.key == [] && Template(ts) && ts != [] && ts[0].Lit?
    ensures Scan(m, Render(ts)) == Normal(Kept(ts))
    decreases |ts|, 1
  {
    assert TokenOk(ts[0]);
    hide Scan, Normal, Kept;
    if |ts| == 1 {
      LastLiteral(ts);
      ScanLitEnd(m, ts[0].text);
    } else {
      LiteralThen(m, ts[0].text, ts);
    }
  }

  /** The rest of a literal, then a reference. */
  lemma {:induction false} LiteralThen(m: Mode, more: string, ts: seq<Token>)
    requires !m.inRef && Template(ts) && |ts| > 1 && ts[0] == Lit(m.key + more) && '$' !in more
    ensures Scan(m, more + Render(ts[1..])) == Normal(Kept(ts))
    decreases |ts|, 0
  {
    KeptNormal(ts);
    assert Template(ts[1..]) && ts[1..][0].Reference? && !(|ts| == 2 && LoneEnd(ts));
    RenderReference(ts[1..]);
    hide *;
    var v := ScanLit(m, more, Render(ts[1..]));
    FromLiteral(v, ts[1..]);
  }

  lemma {:induction false} FromReference(ts: seq<Token>)
    requires Template(ts) && ts != [] && ts[0].Reference?
    ensures Scan(INSIDE, ts[0].openers + (ts[0].name + After(ts))) == Normal(Kept(ts))
    decreases |ts|, 1
  {
    var t := ts[0];
    var rest := After(ts);
    assert TokenOk(t);
    RenderReference(ts);
    ScanOpeners(t.openers, t.name + rest);
    KeptNormal(ts);
    if rest == [] {
      assert t.name + rest == t.name;
      ScanNameEnd(t.name);
    } else {
      var n := ScanName(INSIDE, t.name, rest);
      AfterName(n, ts);
    }
  }

  lemma ScanClose(n: Mode, c: char, rest: string)
    requires n.inRef && (c == '}' || c == ')')
    ensures Scan(n, [c] + rest) == Ref(n.key) + Scan(Mode(false, [], c), rest)
  {
    assert ([c] + rest)[1..] == rest;
  }

  lemma ScanSeparator(n: Mode, c: char, rest: string)
    requires n.inRef && Separates(c)
    ensures Scan(n, [c] + rest) == Ref(n.key) + Scan(Mode(false, [c], c), rest)
  {
    assert ([c] + rest)[1..] == rest;
  }

  lemma ScanNext(n: Mode, rest: string)
    requires n.inRef && n.pre != '$'
    ensures Scan(n, ['$'] + rest) == Ref(n.key) + Scan(INSIDE, rest)
  {
    assert (['$'] + rest)[1..] == rest;
  }

  lemma {:induction false} AfterClosed(n: Mode, c: char, tail: seq<Token>)
    requires n.inRef && (c == '}' || c == ')') && Template(tail)
    ensures Scan(n, [c] + Render(tail)) == Ref(n.key) + Normal(Kept(tail))
    decreases |tail|, 3
  {
    hide *;
    ScanClose(n, c, Render(tail));
    FromLiteral(Mode(false, [], c), tail);
  }

  lemma {:induction false} BeforeReference(n: Mode, tail: seq<Token>)
    requires n.inRef && n.pre != '$' && Template(tail) && tail != [] && tail[0].Reference?
    ensures Scan(n, Render(tail)) == Ref(n.key) + Normal(Kept(tail))
    decreases |tail|, 3
  {
    hide *;
    RenderReference(tail);
    ScanNext(n, tail[0].openers + (tail[0].name + After(tail)));
    FromReference(tail);
  }

  /** What a template says about a reference and what follows it. */
  lemma ReferenceFacts(ts: seq<Token>)
    requires Template(ts) && ts != [] && ts[0].Reference? && After(ts) != []
    ensures Template(ts[1..]) && '$' !in ts[0].name
    ensures !Open(ts[0]) ==> After(ts) == [ts[0].close[0]] + Render(ts[1..]) && (ts[0].close[0] == '}' || ts[0].close[0] == ')')
    ensures Open(ts[0]) ==> After(ts) == Render(ts[1..]) && |ts| > 1
    ensures Open(ts[0]) && ts[1].Lit? ==> ts[1].text != [] && Separates(ts[1].text[0])
    ensures Open(ts[0]) && ts[1].Reference? ==> ts[0].name != []
    ensures |ts| == 2 && LoneEnd(ts) <==> Open(ts[0]) && |ts| == 2 && ts[1].Lit? && |ts[1].text| == 1
  {
    assert TokenOk(ts[0]);
    if |ts| > 1 { assert TokenOk(ts[1]); }
  }

  /** The name is read: close the reference and go on. */
  lemma {:induction false} AfterName(n: Mode, ts: seq<Token>)
    requires Template(ts) && ts != [] && ts[0].Reference? && After(ts) != []
    requires n.inRef && n.key == ts[0].name && (ts[0].name != [] ==> n.pre in ts[0].name)
    ensures Scan(n, After(ts)) == Ref(ts[0].name) + if |ts| == 2 && LoneEnd(ts) then [] else Normal(Kept(ts[1..]))
    decreases |ts|, 0
  {
    ReferenceFacts(ts);
    var open := Open(ts[0]);
    hide *;
    if !open {
      AfterClosed(n, ts[0].close[0], ts[1..]);
    } else if ts[1].Reference? {
      BeforeReference(n, ts[1..]);
    } else {
      AfterOpen(n, ts[1..]);
    }
  }

  /** A literal that ends an open reference. */
  lemma {:induction false} AfterOpen(n: Mode, ts: seq<Token>)
    requires n.inRef && Template(ts) && ts != [] && ts[0].Lit? && Separates(ts[0].text[0])
    ensures Scan(n, Render(ts)) == Ref(n.key) + if |ts| == 1 && |ts[0].text| == 1 then [] else Normal(Kept(ts))
    decreases |ts|, 1
  {
    var text := ts[0].text;
    var c, more := text[0], text[1..];
    RenderLiteral(ts);
    if |ts| == 1 {
      LastLiteral(ts);
      hide *;
      ScanSeparator(n, c, more);
      LiteralTail(c, more);
    } else {
      hide *;
      ScanSeparator(n, c, more + Render(ts[1..]));
      LiteralThen(Mode(false, [c], c), more, ts);
    }
  }

  lemma RenderLiteral(ts: seq<Token>)
    requires Template(ts) && ts != [] && ts[0].Lit?
    ensures var text := ts[0].text;
            && text != [] && ts[0] == Lit([text[0]] + text[1..]) && '$' !in text[1..] && text == [text[0]] + text[1..]
            && Render(ts) == [text[0]] + (text[1..] + Render(ts[1..]))
  {
    var text := ts[0].text;
    assert TokenOk(ts[0]) && text != [] && '$' !in text && Render(ts) == text + Render(ts[1..]);
    hide *;
    SplitFirst(text, Render(ts[1..]));
  }

  lemma SplitFirst(text: string, rest: string)
    requires text != []
    ensures text == [text[0]] + text[1..] && text + rest == [text[0]] + (text[1..] + rest)
    ensures forall c :: c in text[1..] ==> c in text
  {
  }

  lemma LiteralTail(c: char, more: string)
    requires '$' !in more
    ensures Scan(Mode(false, [c], c), more) == if more == [] then [] else [c] + more
  {
    if more != [] { ScanLitEnd(Mode(false, [c], c), more); }
  }

  // ---------------------------------------------------------------- the results

  /**
   Every template is rewritten token by token, except that a single character left after a final open
   reference is lost; so the rewriting is right if and only if the template does not end that way.
   */
  lemma RewritesTemplates(ts: seq<Token>)
    requires Template(ts)
    ensures Correct(Render(ts)) == Normal(Kept(ts))
    ensures Correct(Render(ts)) == Normal(ts) <==> !LoneEnd(ts)
  {
    FromLiteral(START, ts);
    if LoneEnd(ts) { NormalLength(ts); }
  }

  lemma {:induction false} NormalLength(ts: seq<Token>)
    requires ts != []
    ensures |Normal(ts)| == |Normal(ts[..|ts| - 1])| + if ts[|ts| - 1].Lit? then |ts[|ts| - 1].text| else |ts[|ts| - 1].name| + 3
  {
    if |ts| > 1 {
      NormalLength(ts[1..]);
      assert ts[1..][..|ts| - 2] == ts[..|ts| - 1][1..];
    }
  }

  /** The same tokens with every reference written as `$(N)`. */
  function Canonical(ts: seq<Token>): seq<Token> {
    seq(|ts|, i requires 0 <= i < |ts| => if ts[i].Lit? then ts[i] else Reference("(", ts[i].name, ")"))
  }

  /** Well-formed tokens, no two literals touching. */
  predicate Loose(ts: seq<Token>) {
    (forall i :: 0 <= i < |ts| ==> TokenOk(ts[i])) && (forall i :: 0 < i < |ts| ==> ts[i].Reference? || ts[i - 1].Reference?)
  }

  lemma {:induction false} TemplateLoose(ts: seq<Token>)
    requires Template(ts)
    ensures Loose(ts)
  {
    if ts != [] {
      TemplateLoose(ts[1..]);
      forall i | 0 <= i < |ts| ensures TokenOk(ts[i]) { if i > 0 { assert ts[i] == ts[1..][i - 1]; } }
      forall i | 0 < i < |ts| ensures ts[i].Reference? || ts[i - 1].Reference? {
        if i > 1 { assert ts[i] == ts[1..][i - 1] && ts[i - 1] == ts[1..][i - 2]; }
      }
    }
  }

  lemma {:induction false} CanonicalTemplate(ts: seq<Token>)
    requires Loose(ts)
    ensures Template(Canonical(ts)) && !LoneEnd(Canonical(ts))
  {
    if ts != [] {
      assert Canonical(ts)[1..] == Canonical(ts[1..]);
      CanonicalTemplate(ts[1..]);
      assert TokenOk(ts[0]) && TokenOk(Canonical(ts)[0]);
    }
  }

  lemma {:induction false} CanonicalRender(ts: seq<Token>)
    ensures Render(Canonical(ts)) == Normal(ts)
  {
    if ts != [] {
      assert Canonical(ts)[1..] == Canonical(ts[1..]);
      CanonicalRender(ts[1..]);
      CanonicalShow(ts[0]);
    }
  }

  lemma CanonicalShow(t: Token)
    ensures t.Reference? ==> Show(Reference("(", t.name, ")")) == Ref(t.name)
  {
    if t.Reference? { assert "$" + "(" + t.name + ")" == "$(" + t.name + ")"; }
  }

  lemma {:induction false} CanonicalNormal(ts: seq<Token>)
    ensures Normal(Canonical(ts)) == Normal(ts)
  {
    if ts != [] {
      assert Canonical(ts)[1..] == Canonical(ts[1..]);
      CanonicalNormal(ts[1..]);
    }
  }

  /** Rewriting what was rewritten changes nothing. */
  lemma RewritingTwice(ts: seq<Token>)
    requires Template(ts)
    ensures Correct(Correct(Render(ts))) == Correct(Render(ts))
  {
    RewritesTemplates(ts);
    TemplateLoose(ts);
    CanonicalTemplate(Kept(ts));
    CanonicalNormal(Kept(ts));
    CanonicalRender(Kept(ts));
    RewritesTemplates(Canonical(Kept(ts)));
  }

  /** The lost character: `$A:` becomes `$(A)`. */
  lemma LoneCharacterLost()
    ensures Correct("$A:") == "$(A)"
  {
    assert "$A:"[1..] == "A:" && "A:"[1..] == ":" && ":"[1..] == "";
    assert Scan(Mode(true, "A", 'A'), ":") == "$(A)";
    assert Scan(INSIDE, "A:") == Scan(Mode(true, "A", 'A'), ":");
    assert Scan(START, "$A:") == Scan(INSIDE, "A:");
  }

  /** A dollar at the end of a literal stays. */
  lemma FinalDollarStays(text: string)
    requires '$' !in text
    ensures Correct(text + "$") == text + "$"
  {
    var n := ScanLit(START, text, "$");
    assert Scan(n, "$") == n.key + "$";
  }

  /** A dollar at the end of an open reference is lost. */
  lemma FinalDollarLost(name: string)
    requires name != [] && name[0] != '{' && name[0] != '(' && forall c :: c in name ==> Plain(c)
    ensures Correct("$" + name + "$") == Ref(name)
  {
    assert "$" + name + "$" == ['$'] + (name + "$");
    ScanDollar(START, name + "$");
    var n := ScanName(INSIDE, name, "$");
    assert n.pre in name;
    assert Scan(n, "$") == Ref(n.key) by { ScanNext(n, []); assert ['$'] + [] == "$"; }
  }
}
