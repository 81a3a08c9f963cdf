/** The span scanner of src/writer.rs on the JSON texts of RFC 8259. */
module JsonScan {
  import opened Bytes

  const QUOTE: byte := 0x22
  const BACKSLASH: byte := 0x5c
  const COMMA: byte := 0x2c
  const COLON: byte := 0x3a

  /** A value's kind and its span [a, b): 0 string, 1 number, 2 array, 3 object, 4 literal. */
  datatype Tok = Tok(tag: nat, a: nat, b: nat)

  predicate IsWs(c: byte) {
    c == 0x20 || c == 0x09 || c == 0x0a || c == 0x0d
  }

  predicate IsDigit(c: byte) {
    0x30 <= c <= 0x39
  }

  /** A byte the number branch consumes. */
  predicate InNumber(c: byte) {
    IsDigit(c) || c == 0x2d || c == 0x2b || c == 0x2e || c == 0x65 || c == 0x45
  }

  /** A byte that ends a literal. */
  predicate EndsLiteral(c: byte) {
    c == COMMA || c == 0x5d || c == 0x7d
  }

  // ---------------------------------------------------------------------
  // JSON texts (RFC 8259).
  // ---------------------------------------------------------------------

  /** Section 7: unescaped bytes, two-character escapes, \u escapes. */
  datatype Ch = Plain(c: byte) | Esc(c: byte) | Uni(hex: seq<byte>)

  predicate IsHex(c: byte) {
    0x30 <= c <= 0x39 || 0x41 <= c <= 0x46 || 0x61 <= c <= 0x66
  }

  predicate ChOk(ch: Ch) {
    match ch
    case Plain(c) => c >= 0x20 && c != 0x22 && c != 0x5c
    case Esc(c) => c in {0x22, 0x5c, 0x2f, 0x62, 0x66, 0x6e, 0x72, 0x74}
    case Uni(hex) => |hex| == 4 && IsHex(hex[0]) && IsHex(hex[1]) && IsHex(hex[2]) && IsHex(hex[3])
  }

  function RenderCh(ch: Ch): (r: seq<byte>) {
    match ch
    case Plain(c) => [c]
    case Esc(c) => [0x5c, c]
    case Uni(hex) => [0x5c, 0x75] + hex
  }

  function RenderChs(chs: seq<Ch>): (r: seq<byte>) {
    if chs == [] then [] else RenderCh(chs[0]) + RenderChs(chs[1..])
  }

  function RenderText(chs: seq<Ch>): (r: seq<byte>) {
    [0x22] + RenderChs(chs) + [0x22]
  }

  datatype Bracket = Square | Curly

  function OpenOf(b: Bracket): (r: byte) { if b.Square? then 0x5b else 0x7b }

  function CloseOf(b: Bracket): (r: byte) { if b.Square? then 0x5d else 0x7d }

  /** Section 3 to 7; an object's members are items with keys. `gap` is the inside of an empty container. */
  datatype Json =
    | Text(chs: seq<Ch>)
    | Number(text: seq<byte>)
    | Literal(text: seq<byte>)
    | Container(kind: Bracket, gap: seq<byte>, items: Items)

  datatype Items = Nil | Cons(pre: seq<byte>, key: Option<Key>, v: Json, post: seq<byte>, rest: Items)

  datatype Key = Key(chs: seq<Ch>, before: seq<byte>, after: seq<byte>)

  function RenderKey(key: Option<Key>): (r: seq<byte>) {
    if key.None? then [] else RenderText(key.value.chs) + key.value.before + [0x3a] + key.value.after
  }

  function Render(j: Json): (r: seq<byte>) {
    match j
    case Text(chs) => RenderText(chs)
    case Number(text) => text
    case Literal(text) => text
    case Container(kind, gap, items) =>
      var inside := if items.Nil? then gap else RenderItems(items);
      if kind.Square? then [0x5b] + inside + [0x5d] else [0x7b] + inside + [0x7d]
  }

  function RenderItems(items: Items): (r: seq<byte>) {
    match items
    case Nil => []
    case Cons(pre, key, v, post, rest) =>
      pre + RenderKey(key) + Render(v) + post + (if rest.Nil? then [] else [0x2c] + RenderItems(rest))
  }

  predicate Blank(w: seq<byte>) {
    forall k :: 0 <= k < |w| ==> w[k] == 0x20 || w[k] == 0x09 || w[k] == 0x0a || w[k] == 0x0d
  }

  predicate ChsOk(chs: seq<Ch>) {
    forall k :: 0 <= k < |chs| ==> ChOk(chs[k])
  }

  predicate Digits(w: seq<byte>) {
    w != [] && forall k :: 0 <= k < |w| ==> 0x30 <= w[k] <= 0x39
  }

  /** Section 6: [ minus ] int [ frac ] [ exp ]. */
  ghost predicate NumberOk(text: seq<byte>) {
    exists minus, ip, frac, exp :: NumberParts(text, minus, ip, frac, exp)
  }

  predicate NumberParts(text: seq<byte>, minus: bool, ip: seq<byte>, frac: seq<byte>, exp: seq<byte>) {
    && text == (if minus then [0x2d] else []) + ip + frac + exp
    && Digits(ip) && (|ip| > 1 ==> ip[0] != 0x30)
    && (frac == [] || (frac[0] == 0x2e && Digits(frac[1..])))
    && ExponentOk(exp)
  }

  predicate ExponentOk(exp: seq<byte>) {
    || exp == []
    || ((exp[0] == 0x65 || exp[0] == 0x45)
        && (Digits(exp[1..]) || (|exp| > 1 && (exp[1] == 0x2b || exp[1] == 0x2d) && Digits(exp[2..]))))
  }

  predicate LiteralOk(text: seq<byte>) {
    || text == [0x74, 0x72, 0x75, 0x65]
    || text == [0x66, 0x61, 0x6c, 0x73, 0x65]
    || text == [0x6e, 0x75, 0x6c, 0x6c]
  }

  ghost predicate JsonOk(j: Json) {
    match j
    case Text(chs) => ChsOk(chs)
    case Number(text) => NumberOk(text)
    case Literal(text) => LiteralOk(text)
    case Container(kind, gap, items) => Blank(gap) && ItemsOk(kind, items)
  }

  ghost predicate ItemsOk(kind: Bracket, items: Items)
    decreases items
  {
    match items
    case Nil => true
    case Cons(pre, key, v, post, rest) =>
      && Blank(pre) && Blank(post) && JsonOk(v) && ItemsOk(kind, rest)
      && (key.Some? <==> kind.Curly?)
      && (key.Some? ==> ChsOk(key.value.chs) && Blank(key.value.before) && Blank(key.value.after))
  }

  // ---------------------------------------------------------------------
  // The scanner, on the bytes still ahead.
  // ---------------------------------------------------------------------

  /** From inside a string: the bytes from the closing quote on, or none. */
  function AtQuote(t: seq<byte>): (r: seq<byte>)
    ensures |r| <= |t|
  {
    if t == [] then []
    else if t[0] == BACKSLASH then (if |t| >= 2 then AtQuote(t[2..]) else [])
    else if t[0] == QUOTE then t
    else AtQuote(t[1..])
  }

  /** The bracket loop at depth `d`: how many bytes are left behind the closing bracket. */
  function Closing(t: seq<byte>, kind: Bracket, d: nat): (r: Option<nat>)
    ensures r.Some? ==> r.value < |t|
    decreases |t|
  {
    if t == [] then None
    else if t[0] == QUOTE then
      var u := AtQuote(t[1..]);
      if u == [] then None else Closing(u[1..], kind, d)
    else if t[0] == OpenOf(kind) then Closing(t[1..], kind, d + 1)
    else if t[0] == CloseOf(kind) then (if d <= 1 then Some(|t| - 1) else Closing(t[1..], kind, d - 1))
    else Closing(t[1..], kind, d)
  }

  /** How many leading bytes belong to a number. */
  function NumberRun(t: seq<byte>): (n: nat)
    ensures n <= |t|
  {
    if t == [] || !InNumber(t[0]) then 0 else 1 + NumberRun(t[1..])
  }

  function LiteralRun(t: seq<byte>): (n: nat)
    ensures n <= |t|
  {
    if t == [] || EndsLiteral(t[0]) then 0 else 1 + LiteralRun(t[1..])
  }

  function WsRun(t: seq<byte>): (n: nat)
    ensures n <= |t|
  {
    if t == [] || !IsWs(t[0]) then 0 else 1 + WsRun(t[1..])
  }

  /** One value: its tag and how many bytes are left behind it. */
  function Value(t: seq<byte>): (r: Option<(nat, nat)>)
    ensures r.Some? ==> r.value.1 < |t|
  {
    if t == [] then None
    else if t[0] == QUOTE then
      var u := AtQuote(t[1..]);
      if u == [] then None else Some((0, |u| - 1))
    else if t[0] == 0x2d || IsDigit(t[0]) then Some((1, |t| - NumberRun(t)))
    else if t[0] == 0x5b || t[0] == 0x7b then
      var kind := if t[0] == 0x5b then Square else Curly;
      var r := Closing(t, kind, 0);
      if r.None? then None else Some((if kind.Square? then 2 else 3, r.value))
    else if LiteralRun(t) == 0 then None
    else Some((4, |t| - LiteralRun(t)))
  }

  // ---------------------------------------------------------------------
  // The methods.
  // ---------------------------------------------------------------------

  lemma Ahead(s: seq<byte>, i: nat)
    requires i < |s|
    ensures s[i..][0] == s[i] && s[i..][1..] == s[i + 1..]
    ensures i + 2 <= |s| ==> s[i..][2..] == s[i + 2..]
  {
  }

  /** `skip_ws`. */
  method SkipWs(s: seq<byte>, i0: nat) returns (ok: bool, i: nat)
    requires i0 <= |s|
    ensures i == i0 + WsRun(s[i0..]) && i <= |s| && ok == (i < |s|)
  {
    i := i0;
    while i < |s| && (s[i] == 0x20 || s[i] == 0x09 || s[i] == 0x0a || s[i] == 0x0d)
      invariant i0 <= i <= |s| && i + WsRun(s[i..]) == i0 + WsRun(s[i0..])
    {
      Ahead(s, i);
      i := i + 1;
    }
    if i < |s| { Ahead(s, i); }
    ok := i < |s|;
  }

  lemma QuoteStep(s: seq<byte>, i: nat)
    requires i <= |s|
    ensures i == |s| ==> AtQuote(s[i..]) == []
    ensures i < |s| ==>
              if s[i] == BACKSLASH then AtQuote(s[i..]) == (if i + 2 <= |s| then AtQuote(s[i + 2..]) else [])
              else if s[i] == QUOTE then AtQuote(s[i..]) == s[i..]
              else AtQuote(s[i..]) == AtQuote(s[i + 1..])
  {
    if i < |s| { Ahead(s, i); }
  }

  /** The loop inside a string; `i` ends on the closing quote, or at or past the end. */
  method FindQuote(s: seq<byte>, i0: nat) returns (i: nat)
    requires i0 <= |s|
    ensures if AtQuote(s[i0..]) == [] then i >= |s| else i == |s| - |AtQuote(s[i0..])|
  {
    hide AtQuote;
    ghost var goal := AtQuote(s[i0..]);
    i := i0;
    QuoteStep(s, i);
    while i < |s|
      invariant i <= |s| ==> AtQuote(s[i..]) == goal
      invariant i >= |s| ==> goal == []
      decreases |s| - i
    {
      QuoteStep(s, i);
      if s[i] == BACKSLASH {
        i := i + 2;
        if i <= |s| { QuoteStep(s, i); }
        continue;
      }
      if s[i] == QUOTE {
        return;
      }
      i := i + 1;
      QuoteStep(s, i);
    }
  }

  lemma {:induction false} AtQuoteSuffix(t: seq<byte>)
    ensures AtQuote(t) == t[|t| - |AtQuote(t)|..]
  {
    if t == [] {
    } else {
      if t[0] == BACKSLASH {
        if |t| >= 2 { AtQuoteSuffix(t[2..]); }
      } else if t[0] != QUOTE {
        AtQuoteSuffix(t[1..]);
      }
    }
  }

  lemma ClosingStep(s: seq<byte>, i: nat, kind: Bracket, d: nat)
    requires i <= |s|
    ensures i == |s| ==> Closing(s[i..], kind, d).None?
    ensures i < |s| ==>
              if s[i] == QUOTE then
                var u := AtQuote(s[i + 1..]);
                Closing(s[i..], kind, d) == if u == [] then None else Closing(s[|s| - |u| + 1..], kind, d)
              else if s[i] == OpenOf(kind) then Closing(s[i..], kind, d) == Closing(s[i + 1..], kind, d + 1)
              else if s[i] == CloseOf(kind) then
                Closing(s[i..], kind, d) == if d <= 1 then Some(|s| - i - 1) else Closing(s[i + 1..], kind, d - 1)
              else Closing(s[i..], kind, d) == Closing(s[i + 1..], kind, d)
  {
    if i < |s| {
      hide AtQuote;
      Ahead(s, i);
      var u := AtQuote(s[i + 1..]);
      AtQuoteSuffix(s[i + 1..]);
      if u != [] {
        assert u == s[|s| - |u|..];
        assert u[1..] == s[|s| - |u| + 1..];
      }
    }
  }

  /** The bracket branch of `scan_val`. */
  method ScanBrackets(s: seq<byte>, a: nat, kind: Bracket) returns (end: Option<nat>)
    requires a < |s| && s[a] == OpenOf(kind)
    ensures end == (var r := Closing(s[a..], kind, 0); if r.None? then None else Some(|s| - r.value))
  {
    hide AtQuote, Closing;
    ghost var goal := Closing(s[a..], kind, 0);
    var i, d := a, 0;
    while i < |s|
      invariant i >= a && (i == a ==> d == 0) && (i > a ==> d >= 1)
      invariant i < |s| ==> Closing(s[i..], kind, d) == goal
      invariant i >= |s| ==> goal.None?
      decreases |s| - i
    {
      var c := s[i];
      ClosingStep(s, i, kind, d);
      if c == QUOTE {
        i := FindQuote(s, i + 1);
      } else if c == OpenOf(kind) {
        d := d + 1;
      } else if c == CloseOf(kind) {
        d := d - 1;
        if d == 0 {
          return Some(i + 1);
        }
      }
      i := i + 1;
      if i == |s| { ClosingStep(s, i, kind, d); }
    }
    end := None;
  }

  method PassNumber(s: seq<byte>, a: nat) returns (i: nat)
    requires a <= |s|
    ensures i == a + NumberRun(s[a..])
  {
    i := a;
    while i < |s| && InNumber(s[i])
      invariant a <= i <= |s| && i + NumberRun(s[i..]) == a + NumberRun(s[a..])
    {
      Ahead(s, i);
      i := i + 1;
    }
    if i < |s| { Ahead(s, i); }
  }

  method PassLiteral(s: seq<byte>, a: nat) returns (i: nat)
    requires a <= |s|
    ensures i == a + LiteralRun(s[a..])
  {
    i := a;
    while i < |s| && s[i] != COMMA && s[i] != 0x5d && s[i] != 0x7d
      invariant a <= i <= |s| && i + LiteralRun(s[i..]) == a + LiteralRun(s[a..])
    {
      Ahead(s, i);
      i := i + 1;
    }
    if i < |s| { Ahead(s, i); }
  }

  /** `scan_val`. */
  method ScanVal(s: seq<byte>, a: nat) returns (r: Option<Tok>)
    requires a < |s|
    ensures r == (var v := Value(s[a..]); if v.None? then None else Some(Tok(v.value.0, a, |s| - v.value.1)))
  {
    hide AtQuote, Closing, NumberRun, LiteralRun;
    Ahead(s, a);
    var i := a;
    if s[a] == QUOTE {
      i := FindQuote(s, a + 1);
      if i < |s| { return Some(Tok(0, a, i + 1)); }
      return None;
    }
    if s[a] == 0x2d || IsDigit(s[a]) {
      i := PassNumber(s, a);
      return Some(Tok(1, a, i));
    }
    if s[a] == 0x5b || s[a] == 0x7b {
      var kind := if s[a] == 0x5b then Square else Curly;
      var end := ScanBrackets(s, a, kind);
      if end.None? { return None; }
      return Some(Tok(if kind.Square? then 2 else 3, a, end.value));
    }
    i := PassLiteral(s, a);
    if i == a { return None; }
    r := Some(Tok(4, a, i));
  }

  /** The element loop, standing at `i` behind the bracket or a comma. */
  function Elements(s: seq<byte>, i: nat): (r: Option<seq<Tok>>)
    requires i <= |s|
    decreases |s| - i, 1
  {
    AtElement(s, i + WsRun(s[i..]))
  }

  /** The same, behind the blanks. */
  function AtElement(s: seq<byte>, p: nat): (r: Option<seq<Tok>>)
    requires p <= |s|
    decreases |s| - p, 0
  {
    if p >= |s| then None
    else if s[p] == 0x5d then Some([])
    else match Value(s[p..])
      case None => None
      case Some(v) =>
        var tok := Tok(v.0, p, |s| - v.1);
        var q := tok.b + WsRun(s[tok.b..]);
        if q >= |s| then None
        else if s[q] == 0x5d then Some([tok])
        else if s[q] != COMMA then None
        else
          var n := q + 1 + WsRun(s[q + 1..]);
          if n >= |s| || s[n] == 0x5d then None
          else
            var more := Elements(s, n);
            if more.None? then None else Some([tok] + more.value)
  }

  lemma Unfold(s: seq<byte>, i: nat)
    requires i <= |s|
    ensures Elements(s, i) == AtElement(s, i + WsRun(s[i..]))
  {
    hide AtElement, WsRun;
  }

  function Joined(out: seq<Tok>, more: Option<seq<Tok>>): (r: Option<seq<Tok>>) {
    if more.None? then None else Some(out + more.value)
  }

  /** What `scan_arr` finds. */
  function ArrayOf(s: seq<byte>): (r: Option<seq<Tok>>) {
    var p := WsRun(s);
    if p >= |s| || s[p] != 0x5b then None else Elements(s, p + 1)
  }

  lemma JoinedNothing(more: Option<seq<Tok>>)
    ensures Joined([], more) == more
  {
    assert more.Some? ==> [] + more.value == more.value;
  }

  /** One turn of the element loop. */
  lemma {:induction false} ElementsStep(s: seq<byte>, i: nat, out: seq<Tok>)
    requires i <= |s|
    ensures var p := i + WsRun(s[i..]);
            if p >= |s| then Joined(out, Elements(s, i)).None?
            else if s[p] == 0x5d then Joined(out, Elements(s, i)) == Some(out)
            else match Value(s[p..])
              case None => Joined(out, Elements(s, i)).None?
              case Some(v) =>
                var tok := Tok(v.0, p, |s| - v.1);
                var q := tok.b + WsRun(s[tok.b..]);
                if q >= |s| then Joined(out, Elements(s, i)).None?
                else if s[q] == 0x5d then Joined(out, Elements(s, i)) == Some(out + [tok])
                else if s[q] != COMMA then Joined(out, Elements(s, i)).None?
                else
                  var n := q + 1 + WsRun(s[q + 1..]);
                  if n >= |s| || s[n] == 0x5d then Joined(out, Elements(s, i)).None?
                  else Joined(out, Elements(s, i)) == Joined(out + [tok], Elements(s, n))
  {
    hide WsRun, Value, Joined, Elements;
    Unfold(s, i);
    var p := i + WsRun(s[i..]);
    if p >= |s| {
      JoinedTurn(out, [], None);
    } else if s[p] == 0x5d {
      JoinedTurn(out, [], Some([]));
    } else {
      JoinedTurn(out, [], None);
      var v := Value(s[p..]);
      if v.Some? {
        var tok := Tok(v.value.0, p, |s| - v.value.1);
        JoinedTurn(out, [tok], Some([]));
        var q := tok.b + WsRun(s[tok.b..]);
        if q < |s| && s[q] == COMMA {
          var n := q + 1 + WsRun(s[q + 1..]);
          if n < |s| && s[n] != 0x5d {
            JoinedTurn(out, [tok], Elements(s, n));
          }
        }
      }
    }
  }

  lemma JoinedTurn(out: seq<Tok>, t: seq<Tok>, more: Option<seq<Tok>>)
    ensures Joined(out, Joined(t, more)) == Joined(out + t, more)
    ensures more.None? ==> Joined(t, more).None?
    ensures more == Some([]) ==> Joined(t, more) == Some(t)
    ensures more.Some? ==> Joined(t, more) == Some(t + more.value)
    ensures Joined(out, None).None? && Joined(out, Some([])) == Some(out) && Joined(out, Some(t)) == Some(out + t)
  {
    assert t + [] == t && out + [] == out;
    assert more.Some? ==> out + (t + more.value) == out + t + more.value;
  }

  lemma ArrayStart(s: seq<byte>)
    ensures s[0..] == s
    ensures var p := WsRun(s);
            if p >= |s| || s[p] != 0x5b then ArrayOf(s).None? else ArrayOf(s) == Elements(s, p + 1)
  {
    hide WsRun, Elements;
  }

  /** `scan_arr`. */
  method ScanArr(s: seq<byte>) returns (r: Option<seq<Tok>>)
    ensures r == ArrayOf(s)
  {
    hide WsRun, Value, Joined, Elements, AtElement, ArrayOf, IsWs;
    var ok, i := SkipWs(s, 0);
    ArrayStart(s);
    if !ok || s[i] != 0x5b {
      return None;
    }
    i := i + 1;
    var out: seq<Tok> := [];
    JoinedNothing(Elements(s, i));
    while true
      invariant i <= |s| && Joined(out, Elements(s, i)) == ArrayOf(s)
      decreases |s| - i
    {
      ElementsStep(s, i, out);
      ok, i := SkipWs(s, i);
      if !ok { return None; }
      if s[i] == 0x5d { break; }
      var tok := ScanVal(s, i);
      if tok.None? { return None; }
      out := out + [tok.value];
      ok, i := SkipWs(s, tok.value.b);
      if !ok { return None; }
      if s[i] == COMMA {
        i := i + 1;
        ok, i := SkipWs(s, i);
        if !ok || s[i] == 0x5d { return None; }
      } else if s[i] == 0x5d {
        break;
      } else {
        return None;
      }
    }
    r := Some(out);
  }

  // ---------------------------------------------------------------------
  // Scanning a rendered value passes exactly over it.
  // ---------------------------------------------------------------------

  lemma Cons1(c: byte, w: seq<byte>)
    ensures ([c] + w)[0] == c && ([c] + w)[1..] == w
  {
  }

  lemma PlainPasses(c: byte, rest: seq<byte>)
    requires c != QUOTE && c != BACKSLASH
    ensures AtQuote([c] + rest) == AtQuote(rest)
  {
    Cons1(c, rest);
  }

  lemma EscPasses(c: byte, rest: seq<byte>)
    ensures AtQuote([BACKSLASH, c] + rest) == AtQuote(rest)
  {
    assert ([BACKSLASH, c] + rest)[2..] == rest;
  }

  lemma ChPasses(ch: Ch, rest: seq<byte>)
    requires ChOk(ch)
    ensures AtQuote(RenderCh(ch) + rest) == AtQuote(rest)
  {
    hide AtQuote;
    match ch
    case Plain(c) => PlainPasses(c, rest);
    case Esc(c) => EscPasses(c, rest);
    case Uni(hex) =>
      var r3 := [hex[3]] + rest;
      var r2 := [hex[2]] + r3;
      var r1 := [hex[1]] + r2;
      assert RenderCh(ch) + rest == [BACKSLASH, 0x75] + ([hex[0]] + r1);
      EscPasses(0x75, [hex[0]] + r1);
      PlainPasses(hex[0], r1);
      PlainPasses(hex[1], r2);
      PlainPasses(hex[2], r3);
      PlainPasses(hex[3], rest);
  }

  /** Escapes never hide the closing quote nor invent one. */
  lemma {:induction false} ChsPass(chs: seq<Ch>, rest: seq<byte>)
    requires ChsOk(chs)
    ensures AtQuote(RenderChs(chs) + rest) == AtQuote(rest)
  {
    hide AtQuote, ChOk, RenderCh;
    if chs == [] {
      assert RenderChs(chs) + rest == rest;
    } else {
      assert RenderChs(chs) + rest == RenderCh(chs[0]) + (RenderChs(chs[1..]) + rest);
      ChPasses(chs[0], RenderChs(chs[1..]) + rest);
      ChsPass(chs[1..], rest);
    }
  }

  lemma TextEnds(chs: seq<Ch>, rest: seq<byte>)
    requires ChsOk(chs)
    ensures (RenderText(chs) + rest)[0] == QUOTE && AtQuote((RenderText(chs) + rest)[1..]) == [QUOTE] + rest
  {
    hide ChsOk, RenderChs;
    ChsPass(chs, [QUOTE] + rest);
    assert (RenderText(chs) + rest)[1..] == RenderChs(chs) + ([QUOTE] + rest);
  }

  lemma TextPasses(chs: seq<Ch>, rest: seq<byte>, kind: Bracket, d: nat)
    requires ChsOk(chs)
    ensures Closing(RenderText(chs) + rest, kind, d) == Closing(rest, kind, d)
  {
    TextEnds(chs, rest);
    Cons1(QUOTE, rest);
    hide RenderText, AtQuote, ChsOk;
  }

  /** A byte the bracket loop does not look at. */
  predicate Dull(c: byte) {
    c != QUOTE && c != 0x5b && c != 0x5d && c != 0x7b && c != 0x7d
  }

  predicate AllDull(w: seq<byte>) {
    forall k :: 0 <= k < |w| ==> Dull(w[k])
  }

  lemma {:induction false} DullPasses(w: seq<byte>, rest: seq<byte>, kind: Bracket, d: nat)
    requires AllDull(w)
    ensures Closing(w + rest, kind, d) == Closing(rest, kind, d)
  {
    if w == [] {
      assert w + rest == rest;
    } else {
      assert (w + rest)[0] == w[0] && (w + rest)[1..] == w[1..] + rest;
      DullPasses(w[1..], rest, kind, d);
    }
  }

  lemma OpenPasses(c: byte, rest: seq<byte>, kind: Bracket, d: nat)
    requires c == OpenOf(Square) || c == OpenOf(Curly)
    ensures Closing([c] + rest, kind, d) == Closing(rest, kind, if c == OpenOf(kind) then d + 1 else d)
  {
    Cons1(c, rest);
  }

  lemma ClosePasses(c: byte, rest: seq<byte>, kind: Bracket, d: nat)
    requires c == CloseOf(Square) || c == CloseOf(Curly)
    ensures Closing([c] + rest, kind, d)
         == if c != CloseOf(kind) then Closing(rest, kind, d)
            else if d <= 1 then Some(|rest|) else Closing(rest, kind, d - 1)
  {
    Cons1(c, rest);
  }

  lemma NumberShape(text: seq<byte>)
    requires NumberOk(text)
    ensures text != [] && (text[0] == 0x2d || IsDigit(text[0]))
    ensures forall k :: 0 <= k < |text| ==> InNumber(text[k])
  {
    var minus, ip, frac, exp :| NumberParts(text, minus, ip, frac, exp);
    var head: seq<byte> := if minus then [0x2d] else [];
    assert forall k :: 0 <= k < |frac| ==> InNumber(frac[k]) by {
      assert forall k :: 1 <= k < |frac| ==> frac[k] == frac[1..][k - 1];
    }
    assert forall k :: 0 <= k < |exp| ==> InNumber(exp[k]) by {
      ExponentShape(exp);
    }
    hide ExponentOk;
    assert text == head + ip + frac + exp;
  }

  lemma ExponentShape(exp: seq<byte>)
    requires ExponentOk(exp)
    ensures forall k :: 0 <= k < |exp| ==> InNumber(exp[k])
  {
    assert forall k :: 1 <= k < |exp| ==> exp[k] == exp[1..][k - 1];
    assert forall k :: 2 <= k < |exp| ==> exp[k] == exp[2..][k - 2];
  }

  lemma LiteralShape(text: seq<byte>)
    requires LiteralOk(text)
    ensures text != [] && AllDull(text)
    ensures forall k :: 0 <= k < |text| ==> !EndsLiteral(text[k])
    ensures text[0] in {0x74, 0x66, 0x6e}
  {
  }

  /** Inside a container of either kind a whole value leaves the depth as it was, although only one
      kind of bracket is counted. */
  lemma {:induction false} ValuePasses(j: Json, rest: seq<byte>, kind: Bracket, d: nat)
    requires JsonOk(j) && d >= 1
    ensures Closing(Render(j) + rest, kind, d) == Closing(rest, kind, d)
    decreases j
  {
    hide Closing, ChsOk, NumberOk, LiteralOk, RenderText, ItemsOk, RenderItems;
    match j
    case Text(chs) => TextPasses(chs, rest, kind, d);
    case Number(text) =>
      NumberShape(text);
      DullPasses(text, rest, kind, d);
    case Literal(text) =>
      LiteralShape(text);
      DullPasses(text, rest, kind, d);
    case Container(k, gap, items) =>
      var body := if items.Nil? then gap else RenderItems(items);
      var tail := [CloseOf(k)] + rest;
      assert Render(j) + rest == [OpenOf(k)] + (body + tail);
      OpenPasses(OpenOf(k), body + tail, kind, d);
      var e := if OpenOf(k) == OpenOf(kind) then d + 1 else d;
      if items.Nil? {
        DullPasses(gap, tail, kind, e);
      } else {
        ItemsPass(k, items, tail, kind, e);
      }
      ClosePasses(CloseOf(k), rest, kind, e);
  }

  lemma {:induction false} ItemsPass(k: Bracket, items: Items, rest: seq<byte>, kind: Bracket, d: nat)
    requires ItemsOk(k, items) && items.Cons? && d >= 1
    ensures Closing(RenderItems(items) + rest, kind, d) == Closing(rest, kind, d)
    decreases items
  {
    hide Closing, JsonOk, ChsOk, Render, RenderKey, RenderText;
    var more := if items.rest.Nil? then [] else [COMMA] + RenderItems(items.rest);
    assert RenderItems(items) + rest
        == items.pre + (RenderKey(items.key) + (Render(items.v) + (items.post + (more + rest))));
    DullPasses(items.pre, RenderKey(items.key) + (Render(items.v) + (items.post + (more + rest))), kind, d);
    KeyPasses(items.key, Render(items.v) + (items.post + (more + rest)), kind, d);
    ValuePasses(items.v, items.post + (more + rest), kind, d);
    DullPasses(items.post, more + rest, kind, d);
    if items.rest.Nil? {
      assert more + rest == rest;
    } else {
      assert more + rest == [COMMA] + (RenderItems(items.rest) + rest);
      DullPasses([COMMA], RenderItems(items.rest) + rest, kind, d);
      ItemsPass(k, items.rest, rest, kind, d);
    }
  }

  lemma KeyPasses(key: Option<Key>, rest: seq<byte>, kind: Bracket, d: nat)
    requires key.Some? ==> ChsOk(key.value.chs) && Blank(key.value.before) && Blank(key.value.after)
    ensures Closing(RenderKey(key) + rest, kind, d) == Closing(rest, kind, d)
  {
    hide Closing, ChsOk, RenderText;
    if key.None? {
      assert RenderKey(key) + rest == rest;
    } else {
      var gap := key.value.before + [COLON] + key.value.after;
      assert RenderKey(key) + rest == RenderText(key.value.chs) + (gap + rest);
      TextPasses(key.value.chs, gap + rest, kind, d);
      DullPasses(gap, rest, kind, d);
    }
  }

  // ---------------------------------------------------------------------
  // Exact spans.
  // ---------------------------------------------------------------------

  function TagOf(j: Json): (r: nat) {
    match j
    case Text(_) => 0
    case Number(_) => 1
    case Literal(_) => 4
    case Container(kind, _, _) => if kind.Square? then 2 else 3
  }

  /** What may stand behind a value in an array. */
  predicate Follows(rest: seq<byte>) {
    rest != [] && rest[0] in {0x20, 0x09, 0x0a, 0x0d, 0x2c, 0x5d, 0x7d}
  }

  lemma {:induction false} NumberRunExact(text: seq<byte>, rest: seq<byte>)
    requires (forall k :: 0 <= k < |text| ==> InNumber(text[k])) && Follows(rest)
    ensures NumberRun(text + rest) == |text|
  {
    if text == [] {
      assert text + rest == rest;
    } else {
      assert (text + rest)[1..] == text[1..] + rest;
      NumberRunExact(text[1..], rest);
    }
  }

  lemma {:induction false} LiteralRunPast(text: seq<byte>, rest: seq<byte>)
    requires forall k :: 0 <= k < |text| ==> !EndsLiteral(text[k])
    ensures LiteralRun(text + rest) == |text| + LiteralRun(rest)
  {
    if text == [] {
      assert text + rest == rest;
    } else {
      assert (text + rest)[1..] == text[1..] + rest;
      LiteralRunPast(text[1..], rest);
    }
  }

  lemma ValueCases(t: seq<byte>)
    requires t != []
    ensures t[0] == QUOTE ==> Value(t) == (var u := AtQuote(t[1..]); if u == [] then None else Some((0, |u| - 1)))
    ensures t[0] == 0x2d || IsDigit(t[0]) ==> Value(t) == Some((1, |t| - NumberRun(t)))
    ensures t[0] == 0x5b ==> Value(t) == (var r := Closing(t, Square, 0); if r.None? then None else Some((2, r.value)))
    ensures t[0] == 0x7b ==> Value(t) == (var r := Closing(t, Curly, 0); if r.None? then None else Some((3, r.value)))
    ensures t[0] in {0x74, 0x66, 0x6e} && LiteralRun(t) > 0 ==> Value(t) == Some((4, |t| - LiteralRun(t)))
  {
    hide AtQuote, NumberRun, LiteralRun, Closing;
  }

  lemma TextExact(chs: seq<Ch>, rest: seq<byte>)
    requires ChsOk(chs)
    ensures RenderText(chs) != [] && RenderText(chs)[0] == QUOTE && Value(RenderText(chs) + rest) == Some((0, |rest|))
  {
    hide ChsOk, Value, AtQuote, RenderText;
    TextFirst(chs);
    TextEnds(chs, rest);
    ValueCases(RenderText(chs) + rest);
  }

  lemma NumberExact(text: seq<byte>, rest: seq<byte>)
    requires NumberOk(text) && Follows(rest)
    ensures text != [] && (text[0] == 0x2d || IsDigit(text[0])) && Value(text + rest) == Some((1, |rest|))
  {
    hide NumberOk, Value, NumberRun, Follows;
    NumberShape(text);
    NumberRunExact(text, rest);
    ValueCases(text + rest);
  }

  lemma LiteralExact(text: seq<byte>, rest: seq<byte>)
    requires LiteralOk(text)
    ensures text != [] && text[0] in {0x74, 0x66, 0x6e} && Value(text + rest) == Some((4, |rest| - LiteralRun(rest)))
  {
    hide LiteralOk, Value, LiteralRun, EndsLiteral;
    LiteralShape(text);
    LiteralRunPast(text, rest);
    ValueCases(text + rest);
  }

  lemma ContainerExact(k: Bracket, gap: seq<byte>, items: Items, rest: seq<byte>)
    requires Blank(gap) && ItemsOk(k, items)
    ensures var r := Render(Container(k, gap, items));
            r != [] && r[0] == OpenOf(k) && Value(r + rest) == Some((if k.Square? then 2 else 3, |rest|))
  {
    hide ItemsOk, RenderItems, Closing, Value, Blank;
    var body := if items.Nil? then gap else RenderItems(items);
    var tail := [CloseOf(k)] + rest;
    var r := Render(Container(k, gap, items));
    assert r + rest == [OpenOf(k)] + (body + tail);
    OpenPasses(OpenOf(k), body + tail, k, 0);
    if items.Nil? {
      BlankDull(gap);
      DullPasses(gap, tail, k, 1);
    } else {
      ItemsPass(k, items, tail, k, 1);
    }
    ClosePasses(CloseOf(k), rest, k, 1);
    ValueCases(r + rest);
  }

  /** One value is scanned to its end; only a literal also takes the blanks behind it. */
  lemma ValueExact(j: Json, rest: seq<byte>)
    requires JsonOk(j) && Follows(rest)
    ensures Value(Render(j) + rest) == Some((TagOf(j), |rest| - (if j.Literal? then LiteralRun(rest) else 0)))
    ensures rest[0] in {0x2c, 0x5d, 0x7d} ==> Value(Render(j) + rest) == Some((TagOf(j), |rest|))
    ensures Render(j) != [] && !IsWs(Render(j)[0]) && !EndsLiteral(Render(j)[0])
  {
    hide ChsOk, NumberOk, LiteralOk, RenderText, ItemsOk, RenderItems, LiteralRun, Follows, Value, Blank;
    match j
    case Text(chs) => TextExact(chs, rest);
    case Number(text) => NumberExact(text, rest);
    case Literal(text) =>
      LiteralExact(text, rest);
      LiteralRunEnds(rest);
    case Container(k, gap, items) => ContainerExact(k, gap, items, rest);
  }

  lemma BlankDull(w: seq<byte>)
    requires Blank(w)
    ensures AllDull(w)
  {
  }

  lemma TextFirst(chs: seq<Ch>)
    ensures RenderText(chs) != [] && RenderText(chs)[0] == QUOTE
  {
  }

  lemma {:induction false} WsRunExact(w: seq<byte>, rest: seq<byte>)
    requires Blank(w) && (rest == [] || !IsWs(rest[0]))
    ensures WsRun(w + rest) == |w|
  {
    if w == [] {
      assert w + rest == rest;
    } else {
      assert (w + rest)[1..] == w[1..] + rest;
      WsRunExact(w[1..], rest);
    }
  }

  /** The tokens an array's elements should get, the first of them standing at `i`. */
  function Spans(items: Items, i: nat): (r: seq<Tok>) {
    match items
    case Nil => []
    case Cons(pre, _, v, post, rest) =>
      var a := i + |pre|;
      var b := a + |Render(v)|;
      [Tok(TagOf(v), a, if v.Literal? then b + |post| else b)] + Spans(rest, b + |post| + 1)
  }

  /** Blanks before an element make no difference. */
  lemma ElementsSkip(s: seq<byte>, i: nat)
    requires i <= |s|
    ensures Elements(s, i) == Elements(s, i + WsRun(s[i..]))
  {
    hide Elements, AtElement, WsRun;
    var n := i + WsRun(s[i..]);
    WsRunTwice(s[i..]);
    assert s[i..][WsRun(s[i..])..] == s[n..];
    Unfold(s, i);
    Unfold(s, n);
  }

  lemma {:induction false} WsRunTwice(t: seq<byte>)
    ensures WsRun(t[WsRun(t)..]) == 0
    ensures WsRun(t) < |t| ==> !IsWs(t[WsRun(t)])
  {
    if t != [] && IsWs(t[0]) {
      WsRunTwice(t[1..]);
      assert t[WsRun(t)..] == t[1..][WsRun(t[1..])..];
    }
  }

  lemma Slice(s: seq<byte>, i: nat, a: seq<byte>, b: seq<byte>)
    requires i <= |s| && s[i..] == a + b
    ensures i + |a| <= |s| && s[i..i + |a|] == a && s[i + |a|..] == b
  {
    assert s[i + |a|..] == s[i..][|a|..];
    assert s[i..i + |a|] == s[i..][..|a|];
  }

  lemma SliceOne(s: seq<byte>, i: nat, c: byte, b: seq<byte>)
    requires i <= |s| && s[i..] == [c] + b
    ensures i < |s| && s[i] == c && s[i + 1..] == b
  {
    assert s[i] == s[i..][0];
    assert s[i + 1..] == s[i..][1..];
  }

  /** Behind blanks stands what is not blank. */
  lemma BehindBlanks(s: seq<byte>, i: nat, pre: seq<byte>, x: seq<byte>)
    requires i <= |s| && s[i..] == pre + x && Blank(pre) && x != [] && !IsWs(x[0])
    ensures i + |pre| < |s| && WsRun(s[i..]) == |pre| && s[i + |pre|..] == x && s[i + |pre|] == x[0]
  {
    hide Blank, IsWs;
    WsRunExact(pre, x);
    Slice(s, i, pre, x);
    assert s[i + |pre|] == s[i + |pre|..][0];
  }

  /** A value at `p`, the blanks `post` behind it, and what follows them. */
  lemma ValueAt(s: seq<byte>, p: nat, v: Json, w: seq<byte>, post: seq<byte>, follow: seq<byte>, after: seq<byte>)
    requires p <= |s| && s[p..] == w + after && w == Render(v) && after == post + follow
    requires Blank(post) && JsonOk(v) && follow != [] && (follow[0] == COMMA || follow[0] == 0x5d)
    ensures var q := p + |w| + |post|;
            var b := if v.Literal? then q else p + |w|;
            && p < |s| && s[p] == w[0] && b <= q < |s| && s[q..] == follow && s[q] == follow[0]
            && Value(s[p..]) == Some((TagOf(v), |s| - b))
  {
    hide JsonOk, Render, Value, WsRun, LiteralRun, Follows, Blank, IsWs, EndsLiteral, TagOf;
    FollowsBlanks(post, follow);
    ValueExact(v, after);
    Slice(s, p, w, after);
    Slice(s, p + |w|, post, follow);
    BlanksInLiteral(post);
    LiteralRunPast(post, follow);
    NotSquare(follow[0]);
    LiteralRunNone(follow);
    assert s[p] == s[p..][0];
    assert s[p + |w| + |post|] == s[p + |w| + |post|..][0];
  }

  /** Behind the token, literal or not, only blanks are left before what follows. */
  lemma BlanksBehind(s: seq<byte>, e: nat, post: seq<byte>, follow: seq<byte>)
    requires e <= |s| && s[e..] == post + follow && Blank(post) && follow != [] && !IsWs(follow[0])
    ensures WsRun(s[e..]) == |post| && e + |post| <= |s| && WsRun(s[e + |post|..]) == 0
  {
    hide WsRun, Blank, IsWs;
    BehindBlanks(s, e, post, follow);
    NoBlanks();
    BehindBlanks(s, e + |post|, [], follow);
  }

  /** Everything the loop sees of one element. */
  lemma OneElement(s: seq<byte>, i: nat, pre: seq<byte>, v: Json, w: seq<byte>, post: seq<byte>, follow: seq<byte>,
                   after: seq<byte>)
    requires i <= |s| && s[i..] == pre + (w + after) && w == Render(v) && after == post + follow
    requires Blank(pre) && Blank(post) && JsonOk(v) && follow != [] && (follow[0] == COMMA || follow[0] == 0x5d)
    ensures var p := i + |pre|;
            var q := p + |w| + |post|;
            var b := if v.Literal? then q else p + |w|;
            && b <= q < |s| && s[q..] == follow && s[q] == follow[0] && p == i + WsRun(s[i..]) && s[p] != 0x5d
            && Value(s[p..]) == Some((TagOf(v), |s| - b)) && q == b + WsRun(s[b..])
  {
    hide JsonOk, Render, Value, WsRun, Blank, IsWs, EndsLiteral, TagOf;
    RenderStart(v);
    NotSquare(w[0]);
    NotSquare(follow[0]);
    Slice(s, i, pre, w + after);
    var p := i + |pre|;
    ValueAt(s, p, v, w, post, follow, after);
    BehindBlanks(s, i, pre, w + after);
    Slice(s, p, w, after);
    BlanksBehind(s, p + |w|, post, follow);
  }

  lemma RenderStart(v: Json)
    requires JsonOk(v)
    ensures Render(v) != [] && !IsWs(Render(v)[0]) && !EndsLiteral(Render(v)[0])
  {
    hide JsonOk, Render, Value, IsWs;
    ValueExact(v, [COMMA]);
  }

  lemma NoBlanks()
    ensures Blank([]) && forall t: seq<byte> :: [] + t == t
  {
  }

  lemma BlanksInLiteral(w: seq<byte>)
    requires Blank(w)
    ensures forall k :: 0 <= k < |w| ==> !EndsLiteral(w[k])
  {
  }

  lemma NotSquare(c: byte)
    ensures !EndsLiteral(c) ==> c != 0x5d
    ensures c == COMMA || c == 0x5d ==> EndsLiteral(c) && !IsWs(c)
  {
  }

  lemma FollowsBlanks(post: seq<byte>, follow: seq<byte>)
    requires Blank(post) && follow != [] && (follow[0] == COMMA || follow[0] == 0x5d)
    ensures Follows(post + follow)
  {
  }

  lemma LiteralRunEnds(t: seq<byte>)
    ensures t != [] && t[0] in {0x2c, 0x5d, 0x7d} ==> LiteralRun(t) == 0
  {
  }

  lemma LiteralRunNone(t: seq<byte>)
    requires t != [] && EndsLiteral(t[0])
    ensures LiteralRun(t) == 0
  {
  }

  lemma RenderFirst(items: Items)
    requires items.Cons? && items.key.None?
    ensures RenderItems(items)
         == items.pre + (Render(items.v)
                         + (items.post + (if items.rest.Nil? then [] else [COMMA] + RenderItems(items.rest))))
  {
    hide Render, RenderItems;
    var more := if items.rest.Nil? then [] else [COMMA] + RenderItems(items.rest);
    RenderCons(items);
    Chain(items.pre, Render(items.v), items.post, more);
  }

  lemma RenderCons(items: Items)
    requires items.Cons?
    ensures RenderItems(items) == items.pre + RenderKey(items.key) + Render(items.v) + items.post
                                  + (if items.rest.Nil? then [] else [COMMA] + RenderItems(items.rest))
  {
    hide Render, RenderKey;
  }

  lemma Chain(a: seq<byte>, b: seq<byte>, c: seq<byte>, d: seq<byte>)
    ensures a + [] + b + c + d == a + (b + (c + d))
  {
    assert a + [] == a;
  }

  lemma Assoc(a: seq<byte>, b: seq<byte>, c: seq<byte>, d: seq<byte>, e: seq<byte>)
    ensures a + (b + (c + d)) + e == a + (b + (c + (d + e)))
  {
  }

  lemma ItemParts(items: Items)
    requires ItemsOk(Square, items) && items.Cons?
    ensures Blank(items.pre) && Blank(items.post) && JsonOk(items.v) && ItemsOk(Square, items.rest) && items.key.None?
  {
    hide JsonOk, Blank;
  }

  /** The first element of a list and what stands behind it. */
  lemma FirstElement(s: seq<byte>, i: nat, items: Items, close: seq<byte>, w: seq<byte>)
    requires i <= |s| && items.Cons? && ItemsOk(Square, items) && s[i..] == RenderItems(items) + close
    requires w == Render(items.v) && close != [] && (close[0] == COMMA || close[0] == 0x5d)
    ensures var p := i + |items.pre|;
            var q := p + |w| + |items.post|;
            var b := if items.v.Literal? then q else p + |w|;
            && b <= q < |s| && p == i + WsRun(s[i..]) && s[p] != 0x5d
            && Value(s[p..]) == Some((TagOf(items.v), |s| - b)) && q == b + WsRun(s[b..])
            && (items.rest.Nil? ==> s[q..] == close && s[q] == close[0])
            && (items.rest.Cons? ==> s[q] == COMMA && s[q + 1..] == RenderItems(items.rest) + close)
  {
    hide JsonOk, ItemsOk, Render, RenderItems, Value, WsRun, Blank, TagOf;
    ItemParts(items);
    var more := if items.rest.Nil? then [] else [COMMA] + RenderItems(items.rest);
    var follow := more + close;
    RenderFirst(items);
    Assoc(items.pre, w, items.post, more, close);
    OneElement(s, i, items.pre, items.v, w, items.post, follow, items.post + follow);
    if items.rest.Cons? {
      Assoc2(COMMA, RenderItems(items.rest), close);
      SliceOne(s, i + |items.pre| + |w| + |items.post|, COMMA, RenderItems(items.rest) + close);
    }
  }

  lemma {:induction false} ElementsExact(s: seq<byte>, i: nat, items: Items, tail: seq<byte>)
    requires i <= |s| && items.Cons? && ItemsOk(Square, items) && s[i..] == RenderItems(items) + ([0x5d] + tail)
    ensures Elements(s, i) == Some(Spans(items, i))
    decreases items
  {
    hide Elements, JsonOk, ItemsOk, Render, RenderItems, Value, Spans, WsRun, Joined, Blank, TagOf;
    ItemParts(items);
    var v := items.v;
    var w := Render(v);
    FirstElement(s, i, items, [0x5d] + tail, w);
    var p := i + |items.pre|;
    var q := p + |w| + |items.post|;
    var b := if v.Literal? then q else p + |w|;
    SpansOf(items, i, p, w, q);
    if items.rest.Cons? {
      ElementsExact(s, q + 1, items.rest, tail);
      ItemsFirst(s, q + 1, items.rest, [0x5d] + tail);
      ElementsMore(s, i, p, TagOf(v), b, q, Spans(items.rest, q + 1));
    } else {
      assert items.rest == Nil;
      SpansNil(q + 1);
      ElementsLast(s, i, p, TagOf(v), b, q);
      assert [Tok(TagOf(v), p, b)] + [] == [Tok(TagOf(v), p, b)];
    }
  }

  lemma Assoc2(c: byte, a: seq<byte>, b: seq<byte>)
    ensures [c] + a + b == [c] + (a + b)
  {
  }

  lemma SpansNil(i: nat)
    ensures Spans(Nil, i) == []
  {
  }

  lemma SpansOf(items: Items, i: nat, p: nat, w: seq<byte>, q: nat)
    requires items.Cons? && p == i + |items.pre| && w == Render(items.v) && q == p + |w| + |items.post|
    ensures Spans(items, i)
            == [Tok(TagOf(items.v), p, if items.v.Literal? then q else p + |w|)] + Spans(items.rest, q + 1)
  {
    hide Render, TagOf;
  }

  /** An element that ends at `b` and whose follower stands at `q`: the array ends there. */
  lemma ElementsLast(s: seq<byte>, i: nat, p: nat, tag: nat, b: nat, q: nat)
    requires i <= p < |s| && p == i + WsRun(s[i..]) && s[p] != 0x5d && b <= |s|
    requires Value(s[p..]) == Some((tag, |s| - b)) && q == b + WsRun(s[b..]) && q < |s| && s[q] == 0x5d
    ensures Elements(s, i) == Some([Tok(tag, p, b)])
  {
    hide Value, WsRun, Elements;
    Unfold(s, i);
  }

  /** The same, but more elements come behind it. */
  lemma ElementsMore(s: seq<byte>, i: nat, p: nat, tag: nat, b: nat, q: nat, rest: seq<Tok>)
    requires i <= p < |s| && p == i + WsRun(s[i..]) && s[p] != 0x5d && b <= |s|
    requires Value(s[p..]) == Some((tag, |s| - b)) && q == b + WsRun(s[b..]) && q < |s| && s[q] == COMMA
    requires Elements(s, q + 1) == Some(rest)
    requires q + 1 + WsRun(s[q + 1..]) < |s| && s[q + 1 + WsRun(s[q + 1..])] != 0x5d
    ensures Elements(s, i) == Some([Tok(tag, p, b)] + rest)
  {
    hide Value, WsRun, Elements, AtElement, Joined;
    ElementsSkip(s, q + 1);
    ElementsStep(s, i, []);
    JoinedNothing(Elements(s, i));
    JoinedTurn([], [Tok(tag, p, b)], Some(rest));
    assert [] + [Tok(tag, p, b)] == [Tok(tag, p, b)];
  }

  /** The next element does not start with a bracket that closes the array. */
  lemma ItemsFirst(s: seq<byte>, i: nat, items: Items, after: seq<byte>)
    requires i <= |s| && items.Cons? && ItemsOk(Square, items) && s[i..] == RenderItems(items) + after && Follows(after)
    ensures var n := i + WsRun(s[i..]);
            n < |s| && s[n] != 0x5d
  {
    hide JsonOk, Render, RenderItems, Value, WsRun;
    var more := if items.rest.Nil? then [] else [COMMA] + RenderItems(items.rest);
    RenderFirst(items);
    Assoc(items.pre, Render(items.v), items.post, more, after);
    ValueExact(items.v, [COMMA]);
    var x := Render(items.v) + (items.post + (more + after));
    assert x[0] == Render(items.v)[0];
    BehindBlanks(s, i, items.pre, x);
  }

  /** Every JSON array, nested to any depth, blanks anywhere, whatever bytes follow: exactly one token an
      element, in order, with its tag and span. */
  lemma ArrayExact(lead: seq<byte>, gap: seq<byte>, items: Items, tail: seq<byte>)
    requires Blank(lead) && JsonOk(Container(Square, gap, items))
    ensures ArrayOf(lead + Render(Container(Square, gap, items)) + tail) == Some(Spans(items, |lead| + 1))
  {
    hide RenderItems, ItemsOk, Elements, Spans, Blank, WsRun, IsWs, ArrayOf, Render;
    var body := if items.Nil? then gap else RenderItems(items);
    var close := [0x5d] + tail;
    var s := lead + Render(Container(Square, gap, items)) + tail;
    ArrayText(gap, items, lead, tail);
    ArrayHead(s, lead, body + close);
    var i := |lead| + 1;
    if items.Cons? {
      ElementsExact(s, i, items, tail);
    } else {
      NotBlank(0x5d);
      BehindBlanks(s, i, gap, close);
      ElementsNone(s, i);
      SpansNil(i);
    }
  }

  /** A comma behind the last element, blanks or none behind it, and nothing is found. */
  lemma {:induction false} TrailingComma(s: seq<byte>, i: nat, items: Items, blank: seq<byte>, close: seq<byte>)
    requires i <= |s| && items.Cons? && ItemsOk(Square, items) && Blank(blank) && close != [] && close[0] == 0x5d
    requires s[i..] == RenderItems(items) + ([COMMA] + (blank + close))
    ensures Elements(s, i).None?
    decreases items
  {
    hide *;
    var v, w := items.v, Render(items.v);
    FirstElement(s, i, items, [COMMA] + (blank + close), w);
    var p := i + |items.pre|;
    var q := p + |w| + |items.post|;
    if items.rest.Cons? {
      ItemParts(items);
      TrailingComma(s, q + 1, items.rest, blank, close);
    } else {
      ClosesNext(s, q, blank, close);
    }
    ElementsBroken(s, i, p, TagOf(v), if v.Literal? then q else p + |w|, q);
  }

  lemma ClosesNext(s: seq<byte>, q: nat, blank: seq<byte>, close: seq<byte>)
    requires q <= |s| && s[q..] == [COMMA] + (blank + close) && Blank(blank) && close != [] && close[0] == 0x5d
    ensures q < |s| && s[q] == COMMA
    ensures var n := q + 1 + WsRun(s[q + 1..]);
            n < |s| && s[n] == 0x5d
  {
    hide *;
    SliceOne(s, q, COMMA, blank + close);
    NotBlank(close[0]);
    BehindBlanks(s, q + 1, blank, close);
  }

  /** An element with a comma behind it, and then a closing bracket or something no elements are found in. */
  lemma ElementsBroken(s: seq<byte>, i: nat, p: nat, tag: nat, b: nat, q: nat)
    requires i <= p < |s| && p == i + WsRun(s[i..]) && s[p] != 0x5d && b <= |s|
    requires Value(s[p..]) == Some((tag, |s| - b)) && q == b + WsRun(s[b..]) && q < |s| && s[q] == COMMA
    requires var n := q + 1 + WsRun(s[q + 1..]);
             Elements(s, q + 1).None? || (n < |s| && s[n] == 0x5d)
    ensures Elements(s, i).None?
  {
    hide Value, WsRun, Elements, AtElement, Joined;
    ElementsSkip(s, q + 1);
    ElementsStep(s, i, []);
    JoinedNothing(Elements(s, i));
    JoinedTurn([], [Tok(tag, p, b)], None);
    assert [] + [Tok(tag, p, b)] == [Tok(tag, p, b)];
  }

  /** An array with a comma behind its last element is refused. */
  lemma ArrayNoTrailing(lead: seq<byte>, items: Items, blank: seq<byte>, tail: seq<byte>)
    requires Blank(lead) && items.Cons? && ItemsOk(Square, items) && Blank(blank)
    ensures ArrayOf(lead + ([0x5b] + (RenderItems(items) + ([0x2c] + (blank + ([0x5d] + tail)))))).None?
  {
    hide RenderItems, ItemsOk, Elements, Blank, WsRun, IsWs, ArrayOf;
    var x := RenderItems(items) + ([0x2c] + (blank + ([0x5d] + tail)));
    var s := lead + ([0x5b] + x);
    ArrayHead(s, lead, x);
    TrailingComma(s, |lead| + 1, items, blank, [0x5d] + tail);
  }

  lemma ArrayText(gap: seq<byte>, items: Items, lead: seq<byte>, tail: seq<byte>)
    ensures lead + Render(Container(Square, gap, items)) + tail
         == lead + ([0x5b] + ((if items.Nil? then gap else RenderItems(items)) + ([0x5d] + tail)))
  {
    hide RenderItems;
    var body := if items.Nil? then gap else RenderItems(items);
    assert Render(Container(Square, gap, items)) == [0x5b] + body + [0x5d];
  }

  lemma ArrayHead(s: seq<byte>, lead: seq<byte>, x: seq<byte>)
    requires s == lead + ([0x5b] + x) && Blank(lead)
    ensures |lead| + 1 <= |s| && s[|lead| + 1..] == x && ArrayOf(s) == Elements(s, |lead| + 1)
  {
    hide Elements, Blank, WsRun, IsWs;
    assert s[0..] == s;
    NotBlank(0x5b);
    BehindBlanks(s, 0, lead, [0x5b] + x);
    SliceOne(s, |lead|, 0x5b, x);
  }

  lemma NotBlank(c: byte)
    ensures c == 0x5b || c == 0x5d ==> !IsWs(c)
  {
  }

  lemma ElementsNone(s: seq<byte>, i: nat)
    requires i <= |s| && i + WsRun(s[i..]) < |s| && s[i + WsRun(s[i..])] == 0x5d
    ensures Elements(s, i) == Some([])
  {
    hide Value, WsRun, Elements;
    Unfold(s, i);
  }

  function Count(items: Items): (r: nat) {
    if items.Nil? then 0 else 1 + Count(items.rest)
  }

  function Nth(items: Items, k: nat): (r: Items)
    requires k < Count(items)
    ensures r.Cons?
  {
    if k == 0 then items else Nth(items.rest, k - 1)
  }

  /** The `k`-th span cuts the `k`-th element's own text out of the source, tagged with its kind, exactly
      when that element is no literal with blanks behind it: such a literal's span takes the blanks along. */
  lemma {:induction false} SpanText(s: seq<byte>, i: nat, items: Items, after: seq<byte>, k: nat)
    requires i <= |s| && s[i..] == RenderItems(items) + after && ItemsOk(Square, items) && k < Count(items)
    ensures k < |Spans(items, i)| == Count(items)
    ensures var t, e := Spans(items, i)[k], Nth(items, k);
            && t.tag == TagOf(e.v) && t.a < t.b <= |s|
            && s[t.a..t.b] == Render(e.v) + (if e.v.Literal? then e.post else [])
            && (s[t.a..t.b] == Render(e.v) <==> !(e.v.Literal? && e.post != []))
    decreases items
  {
    hide JsonOk, ItemsOk, Render, RenderItems, Spans, Blank, TagOf, IsWs, EndsLiteral;
    ItemParts(items);
    var w := Render(items.v);
    var more := if items.rest.Nil? then [] else [COMMA] + RenderItems(items.rest);
    var follow := more + after;
    RenderFirst(items);
    Assoc(items.pre, w, items.post, more, after);
    var p := i + |items.pre|;
    var q := p + |w| + |items.post|;
    SpansOf(items, i, p, w, q);
    SpansCount(items.rest, q + 1);
    FirstSpan(s, i, items.pre, w, items.post, follow);
    if k == 0 {
      RenderStart(items.v);
    } else {
      Assoc2(COMMA, RenderItems(items.rest), after);
      SliceOne(s, q, COMMA, RenderItems(items.rest) + after);
      SpanText(s, q + 1, items.rest, after, k - 1);
    }
  }

  lemma FirstSpan(s: seq<byte>, i: nat, pre: seq<byte>, w: seq<byte>, post: seq<byte>, follow: seq<byte>)
    requires i <= |s| && s[i..] == pre + (w + (post + follow))
    ensures var p := i + |pre|;
            var q := p + |w| + |post|;
            q <= |s| && s[p..p + |w|] == w && s[p..q] == w + post && s[q..] == follow
    ensures w + post == w <==> post == []
    ensures w + [] == w
  {
    Slice(s, i, pre, w + (post + follow));
    Slice(s, i + |pre|, w, post + follow);
    Slice(s, i + |pre| + |w|, post, follow);
    TwoSlices(s, i + |pre|, w, post);
  }

  lemma TwoSlices(s: seq<byte>, p: nat, a: seq<byte>, b: seq<byte>)
    requires p + |a| + |b| <= |s| && s[p..p + |a|] == a && s[p + |a|..p + |a| + |b|] == b
    ensures s[p..p + |a| + |b|] == a + b
    ensures a + b == a <==> b == []
    ensures a + [] == a
  {
    assert |a + b| == |a| + |b|;
  }

  lemma {:induction false} SpansCount(items: Items, i: nat)
    ensures |Spans(items, i)| == Count(items)
    decreases items
  {
    hide Render, TagOf;
    if items.Cons? {
      SpansCount(items.rest, i + |items.pre| + |Render(items.v)| + |items.post| + 1);
    }
  }

  /** `[true ]`: the blank behind the literal becomes part of its span. */
  lemma BlankJoinsLiteral()
    ensures var text: seq<byte> := [0x5b] + ([0x74, 0x72, 0x75, 0x65] + [0x20]) + [0x5d];
            ArrayOf(text) == Some([Tok(4, 1, 6)]) && text[1..6] == [0x74, 0x72, 0x75, 0x65] + [0x20]
  {
    var word: seq<byte>, blank: seq<byte> := [0x74, 0x72, 0x75, 0x65], [0x20];
    var text: seq<byte> := [0x5b] + (word + blank) + [0x5d];
    var items := Cons([], None, Literal(word), blank, Nil);
    assert Blank(blank) && Blank([]) && LiteralOk(word);
    OneLiteral(word, blank);
    hide ArrayOf, Render, RenderItems, Spans, ItemsOk, Blank;
    ArrayExact([], [], items, []);
    assert [] + text + [] == text;
    assert text[1..6] == word + blank;
  }

  lemma OneLiteral(word: seq<byte>, blank: seq<byte>)
    requires Blank(blank) && LiteralOk(word)
    ensures var items := Cons([], None, Literal(word), blank, Nil);
            && JsonOk(Container(Square, [], items))
            && Render(Container(Square, [], items)) == [0x5b] + (word + blank) + [0x5d]
            && Spans(items, 1) == [Tok(4, 1, 1 + |word| + |blank|)]
  {
    hide Blank, LiteralOk;
    assert Blank([]) by { NothingBlank(); }
    var items := Cons([], None, Literal(word), blank, Nil);
    assert Render(Literal(word)) == word;
    assert RenderItems(items) == word + blank;
    assert Render(Container(Square, [], items)) == [0x5b] + (word + blank) + [0x5d];
    assert JsonOk(Literal(word)) && ItemsOk(Square, Nil);
    assert ItemsOk(Square, items);
    assert Spans(items, 1) == [Tok(4, 1, 1 + |word| + |blank|)] + Spans(Nil, 1 + |word| + |blank| + 1);
  }

  lemma NothingBlank()
    ensures Blank([])
  {
  }

  /** Scanning an array yields its elements, one by one and nothing else. */
  lemma ArrayElement(lead: seq<byte>, gap: seq<byte>, items: Items, tail: seq<byte>, k: nat)
    requires Blank(lead) && JsonOk(Container(Square, gap, items)) && k < Count(items)
    ensures var s := lead + Render(Container(Square, gap, items)) + tail;
            && ArrayOf(s).Some? && |ArrayOf(s).value| == Count(items)
            && var t, e := ArrayOf(s).value[k], Nth(items, k);
               && t.tag == (match e.v
                            case Text(_) => 0
                            case Number(_) => 1
                            case Container(Square, _, _) => 2
                            case Container(Curly, _, _) => 3
                            case Literal(_) => 4)
               && t.a < t.b <= |s|
               && (s[t.a..t.b] == Render(e.v) <==> !(e.v.Literal? && e.post != []))
  {
    hide RenderItems, ItemsOk, Elements, Spans, Blank, WsRun, IsWs, ArrayOf, Render;
    var s := lead + Render(Container(Square, gap, items)) + tail;
    ArrayExact(lead, gap, items, tail);
    ArrayText(gap, items, lead, tail);
    var close := [0x5d] + tail;
    ArrayHead(s, lead, RenderItems(items) + close);
    SpanText(s, |lead| + 1, items, close, k);
  }

  // ---------------------------------------------------------------------
  // Any bytes at all.
  // ---------------------------------------------------------------------

  ghost predicate InOrder(toks: seq<Tok>, lo: nat, n: nat) {
    && (forall k :: 0 <= k < |toks| ==> lo <= toks[k].a < toks[k].b <= n)
    && (forall j, k :: 0 <= j < k < |toks| ==> toks[j].b < toks[k].a)
  }

  /** On arbitrary bytes the tokens found are non-empty, inside the source and in order. */
  lemma {:induction false} ElementsInOrder(s: seq<byte>, i: nat)
    requires i <= |s| && Elements(s, i).Some?
    ensures InOrder(Elements(s, i).value, i, |s|)
    decreases |s| - i
  {
    hide Value, WsRun, Elements;
    Unfold(s, i);
    var p := i + WsRun(s[i..]);
    if s[p] != 0x5d {
      var v := Value(s[p..]).value;
      var b := |s| - v.1;
      var q := b + WsRun(s[b..]);
      if s[q] == COMMA {
        ElementsInOrder(s, q + 1 + WsRun(s[q + 1..]));
      }
    }
  }
}
