/** The import and export names of a WebAssembly module, as src/sinkfilter.rs reads them. Names are bytes. */
module WasmNames {
  import opened Bytes

  const MAX_ENTRIES: nat := 4096
  const WORD: nat := 0x1_0000_0000_0000_0000

  // ---------------------------------------------------------------------
  // Reading, on the bytes still ahead: a value, if there is one, and the bytes consumed.
  // ---------------------------------------------------------------------

  /** LEB128 from its `k`-th byte on; the tenth byte has one bit left to give. */
  function ReadLeb(t: seq<byte>, k: nat): (r: (Option<nat>, nat))
    ensures r.1 <= |t| && (r.0.Some? ==> r.1 > 0)
    decreases |t|
  {
    if t == [] then (None, 0)
    else
      var x := if k < 9 then t[0] % 128 else t[0] % 2;
      if t[0] < 128 then (Some(x), 1)
      else if k >= 9 then (None, 1)
      else
        var rest := ReadLeb(t[1..], k + 1);
        (if rest.0.None? then None else Some(x + 128 * rest.0.value), 1 + rest.1)
  }

  /** A name: its length, then that many bytes; when they are not there only the length is consumed. */
  function ReadName(t: seq<byte>): (r: (Option<seq<byte>>, nat))
    ensures r.1 <= |t|
  {
    var n := ReadLeb(t, 0);
    if n.0.None? || n.1 + n.0.value > |t| then (None, n.1)
    else (Some(t[n.1..n.1 + n.0.value]), n.1 + n.0.value)
  }

  function SkipByte(t: seq<byte>): (n: nat)
    ensures n <= |t|
  {
    if t == [] then 0 else 1
  }

  function SkipLimits(t: seq<byte>): (n: nat)
    ensures n <= |t|
  {
    if t == [] then 0
    else
      var low := ReadLeb(t[1..], 0);
      if low.0.None? || t[0] % 2 == 0 then 1 + low.1
      else 1 + low.1 + ReadLeb(t[1 + low.1..], 0).1
  }

  /** The description of an import of kind `kind`. */
  function SkipDesc(kind: byte, t: seq<byte>): (n: nat)
    ensures n <= |t|
  {
    if kind == 0 then ReadLeb(t, 0).1
    else if kind == 1 then SkipByte(t) + SkipLimits(t[SkipByte(t)..])
    else if kind == 2 then SkipLimits(t)
    else if kind == 3 then SkipByte(t) + SkipByte(t[SkipByte(t)..])
    else 0
  }

  /** One turn of an entry loop: it ends without a name, ends with one, or goes on `len` bytes later. */
  datatype Entry = Stop | Last(name: seq<byte>) | More(name: seq<byte>, len: nat)

  function ImportEntry(t: seq<byte>): (e: Entry)
    ensures e.More? ==> e.len <= |t|
  {
    var a := ReadName(t).1;
    var f := ReadName(t[a..]);
    var c := a + f.1;
    if f.0.None? then Stop
    else if c == |t| then Last(f.0.value)
    else More(f.0.value, c + 1 + SkipDesc(t[c], t[c + 1..]))
  }

  function ExportEntry(t: seq<byte>): (e: Entry)
    ensures e.More? ==> e.len <= |t|
  {
    var f := ReadName(t);
    if f.0.None? then Stop
    else
      var c := f.1 + SkipByte(t[f.1..]);
      More(f.0.value, c + ReadLeb(t[c..], 0).1)
  }

  /** The names of at most `k` entries. */
  function ReadEntries(imports: bool, t: seq<byte>, k: nat): (r: seq<seq<byte>>)
    decreases k
  {
    if k == 0 || t == [] then []
    else match if imports then ImportEntry(t) else ExportEntry(t)
      case Stop => []
      case Last(name) => [name]
      case More(name, len) => [name] + ReadEntries(imports, t[len..], k - 1)
  }

  function Min(a: nat, b: nat): (r: nat) {
    if a < b then a else b
  }

  /** The names of one section. */
  function EntriesIn(imports: bool, sec: seq<byte>): (r: seq<seq<byte>>) {
    var n := ReadLeb(sec, 0);
    if n.0.None? then [] else ReadEntries(imports, sec[n.1..], Min(n.0.value, MAX_ENTRIES))
  }

  datatype Names = Names(imports: seq<seq<byte>>, exports: seq<seq<byte>>)

  function Add(a: Names, b: Names): (r: Names) {
    Names(a.imports + b.imports, a.exports + b.exports)
  }

  function NamesIn(id: byte, sec: seq<byte>): (r: Names) {
    if id == 2 then Names(EntriesIn(true, sec), [])
    else if id == 7 then Names([], EntriesIn(false, sec))
    else Names([], [])
  }

  /** The sections, up to the first that does not fit. */
  function ReadSections(t: seq<byte>): (r: Names)
    decreases |t|
  {
    if t == [] then Names([], [])
    else
      var n := ReadLeb(t[1..], 0);
      var a := 1 + n.1;
      if n.0.None? || a + n.0.value > |t| then Names([], [])
      else Add(NamesIn(t[0], t[a..a + n.0.value]), ReadSections(t[a + n.0.value..]))
  }

  function ReadModule(b: seq<byte>): (r: Names) {
    if |b| < 8 || b[..4] != [0x00, 0x61, 0x73, 0x6d] then Names([], []) else ReadSections(b[8..])
  }

  // ---------------------------------------------------------------------
  // The reader.
  // ---------------------------------------------------------------------

  function Pow128(k: nat): (r: nat) {
    if k == 0 then 1 else 128 * Pow128(k - 1)
  }

  lemma Powers(k: nat)
    requires k <= 9
    ensures 1 <= Pow128(k) && (k < 9 ==> Pow128(k) <= 0x100_0000_0000_0000)
    ensures k == 9 ==> Pow128(k) == 0x8000_0000_0000_0000
  {
    assert Pow128(1) == 128 && Pow128(2) == 128 * 128 && Pow128(3) == 0x20_0000 && Pow128(4) == 0x1000_0000;
    assert Pow128(5) == 0x8_0000_0000 && Pow128(6) == 0x400_0000_0000 && Pow128(7) == 0x2_0000_0000_0000;
    assert Pow128(8) == 0x100_0000_0000_0000 && Pow128(9) == 0x8000_0000_0000_0000;
  }

  /** Shifting the low seven bits into a 64-bit word. */
  lemma Shifted(x: nat, k: nat)
    requires x < 128 && k <= 9
    ensures x * Pow128(k) % WORD == (if k < 9 then x else x % 2) * Pow128(k)
  {
    Powers(k);
    if k < 9 {
      Product(x, Pow128(k));
    } else {
      assert x == 2 * (x / 2) + x % 2;
      assert x * 0x8000_0000_0000_0000 == (x / 2) * WORD + (x % 2) * 0x8000_0000_0000_0000;
    }
  }

  lemma Product(x: nat, y: nat)
    requires x < 128 && y <= 0x100_0000_0000_0000
    ensures x * y < WORD
  {
    assert x * y <= 127 * y;
  }

  lemma Horner(r: nat, p: nat, x: nat, v: nat)
    ensures r + p * (x + 128 * v) == (r + p * x) + 128 * p * v
  {
  }

  class WasmReader {
    const b: seq<byte>
    var p: nat

    ghost predicate Valid()
      reads this
    {
      p <= |b|
    }

    constructor (b: seq<byte>, p: nat)
      requires p <= |b|
      ensures Valid() && this.b == b && this.p == p
    {
      this.b, this.p := b, p;
    }

    method U8() returns (v: Option<byte>)
      requires Valid()
      modifies this`p
      ensures Valid() && p == old(p) + SkipByte(b[old(p)..])
      ensures v == if old(p) < |b| then Some(b[old(p)]) else None
    {
      if p >= |b| { return None; }
      v := Some(b[p]);
      p := p + 1;
    }

    method Leb() returns (v: Option<nat>)
      requires Valid()
      modifies this`p
      ensures Valid() && p == old(p) + ReadLeb(b[old(p)..], 0).1 && v == ReadLeb(b[old(p)..], 0).0
    {
      var r: nat, k: nat, unit: nat := 0, 0, 1;
      ghost var goal := ReadLeb(b[p..], 0);
      while true
        invariant Valid() && k <= 9 && unit == Pow128(k) && old(p) <= p
        invariant LebSoFar(r, unit, ReadLeb(b[p..], k).0) == goal.0
        invariant p + ReadLeb(b[p..], k).1 == old(p) + goal.1
        decreases 10 - k
      {
        hide Pow128;
        LebStep(b, p, k);
        if p >= |b| { return None; }
        var c := b[p];
        p := p + 1;
        Shifted(c % 128, k);
        LebTurn(r, unit, b, p - 1, k);
        r := r + c % 128 * unit % WORD;
        if c < 128 { return Some(r); }
        if k == 9 { return None; }
        PowerNext(k);
        k, unit := k + 1, 128 * unit;
      }
    }

    method Bytes(n: nat) returns (s: Option<seq<byte>>)
      requires Valid()
      modifies this`p
      ensures Valid()
      ensures if old(p) + n <= |b| then s == Some(b[old(p)..old(p) + n]) && p == old(p) + n else s.None? && p == old(p)
    {
      if p + n > |b| { return None; }
      s := Some(b[p..p + n]);
      p := p + n;
    }

    method Name() returns (s: Option<seq<byte>>)
      requires Valid()
      modifies this`p
      ensures Valid() && p == old(p) + ReadName(b[old(p)..]).1 && s == ReadName(b[old(p)..]).0
    {
      hide ReadLeb;
      ghost var t := b[p..];
      var n := Leb();
      if n.None? { return None; }
      s := Bytes(n.value);
      assert s.Some? ==> t[ReadLeb(t, 0).1..ReadLeb(t, 0).1 + n.value] == s.value;
    }

    method Limits()
      requires Valid()
      modifies this`p
      ensures Valid() && p == old(p) + SkipLimits(b[old(p)..])
    {
      hide ReadLeb;
      ghost var t := b[p..];
      var flags := U8();
      if flags.None? { return; }
      assert t[1..] == b[p..];
      var low := Leb();
      if low.None? { return; }
      assert t[1 + ReadLeb(t[1..], 0).1..] == b[p..];
      if flags.value % 2 != 0 {
        var high := Leb();
      }
    }

    method Desc(kind: byte)
      requires Valid()
      modifies this`p
      ensures Valid() && p == old(p) + SkipDesc(kind, b[old(p)..])
    {
      hide ReadLeb, SkipLimits;
      ghost var t := b[p..];
      match kind
      case 0 => var i := Leb();
      case 1 =>
        var reftype := U8();
        assert t[SkipByte(t)..] == b[p..];
        Limits();
      case 2 => Limits();
      case 3 =>
        var valtype := U8();
        assert t[SkipByte(t)..] == b[p..];
        var mutability := U8();
      case _ =>
    }

    /** One import entry; a module name that cannot be read is passed over. */
    method ReadImport() returns (e: Entry)
      requires Valid()
      modifies this`p
      ensures Valid() && e == ImportEntry(b[old(p)..])
      ensures e.More? ==> p == old(p) + e.len
    {
      hide ReadName, SkipDesc;
      var start := p;
      var mod := Name();
      Drop(b, start, p - start);
      var field := Name();
      if field.None? { return Stop; }
      Drop(b, start, p - start);
      ghost var c := p - start;
      var kind := U8();
      if kind.None? { return Last(field.value); }
      Drop(b, start, c + 1);
      Desc(kind.value);
      e := More(field.value, p - start);
    }

    method ReadExport() returns (e: Entry)
      requires Valid()
      modifies this`p
      ensures Valid() && e == ExportEntry(b[old(p)..])
      ensures e.More? ==> p == old(p) + e.len
    {
      hide ReadName, ReadLeb;
      var start := p;
      var name := Name();
      if name.None? { return Stop; }
      Drop(b, start, p - start);
      var kind := U8();
      Drop(b, start, p - start);
      var idx := Leb();
      e := More(name.value, p - start);
    }
  }

  /** The value of a LEB128 number that has `r` behind it and weighs its next byte with `unit`. */
  function LebSoFar(r: nat, unit: nat, rest: Option<nat>): (res: Option<nat>) {
    if rest.None? then None else Some(r + unit * rest.value)
  }

  lemma PowerNext(k: nat)
    ensures Pow128(k + 1) == 128 * Pow128(k)
  {
  }

  /** One byte of a LEB128 number. */
  lemma LebStep(b: seq<byte>, p: nat, k: nat)
    requires p <= |b| && k <= 9
    ensures p == |b| ==> ReadLeb(b[p..], k) == (None, 0)
    ensures p < |b| ==>
              var x := if k < 9 then b[p] % 128 else b[p] % 2;
              if b[p] < 128 then ReadLeb(b[p..], k) == (Some(x), 1)
              else if k == 9 then ReadLeb(b[p..], k) == (None, 1)
              else var rest := ReadLeb(b[p + 1..], k + 1);
                   ReadLeb(b[p..], k) == (if rest.0.None? then None else Some(x + 128 * rest.0.value), 1 + rest.1)
  {
    if p < |b| {
      assert b[p..][1..] == b[p + 1..];
    }
  }

  lemma LebTurn(r: nat, unit: nat, b: seq<byte>, p: nat, k: nat)
    requires p < |b| && k <= 9
    ensures var x := if k < 9 then b[p] % 128 else b[p] % 2;
            && (b[p] < 128 ==> LebSoFar(r, unit, ReadLeb(b[p..], k).0) == Some(r + x * unit))
            && (b[p] >= 128 && k < 9 ==> LebSoFar(r, unit, ReadLeb(b[p..], k).0)
                                         == LebSoFar(r + x * unit, 128 * unit, ReadLeb(b[p + 1..], k + 1).0))
  {
    LebStep(b, p, k);
    hide ReadLeb;
    var x := if k < 9 then b[p] % 128 else b[p] % 2;
    if b[p] >= 128 && k < 9 && ReadLeb(b[p + 1..], k + 1).0.Some? {
      Horner(r, unit, x, ReadLeb(b[p + 1..], k + 1).0.value);
    }
  }

  /** The entry loop over one section. */
  method EntryNames(imports: bool, sec: seq<byte>) returns (names: seq<seq<byte>>)
    ensures names == EntriesIn(imports, sec)
  {
    hide ReadLeb, ImportEntry, ExportEntry, ReadEntries;
    names := [];
    var s := new WasmReader(sec, 0);
    assert sec[0..] == sec;
    var count := s.Leb();
    if count.None? { return; }
    var left := Min(count.value, MAX_ENTRIES);
    ghost var goal := EntriesIn(imports, sec);
    assert [] + goal == goal;
    while left > 0
      invariant s.Valid() && s.b == sec
      invariant names + ReadEntries(imports, sec[s.p..], left) == goal
      decreases left
    {
      EntryStep(imports, names, sec, s.p, left);
      if s.p >= |sec| { return; }
      var e;
      if imports { e := s.ReadImport(); } else { e := s.ReadExport(); }
      if e.Stop? { return; }
      names := names + [e.name];
      if e.Last? { return; }
      left := left - 1;
    }
    EntryStep(imports, names, sec, s.p, 0);
  }

  /** One turn of the entry loop, standing at `p` with `k` entries to go. */
  lemma {:induction false} EntryStep(imports: bool, names: seq<seq<byte>>, sec: seq<byte>, p: nat, k: nat)
    requires p <= |sec|
    ensures k == 0 || p == |sec| ==> names + ReadEntries(imports, sec[p..], k) == names
    ensures k > 0 && p < |sec| ==>
              match if imports then ImportEntry(sec[p..]) else ExportEntry(sec[p..])
              case Stop => names + ReadEntries(imports, sec[p..], k) == names
              case Last(name) => names + ReadEntries(imports, sec[p..], k) == names + [name]
              case More(name, len) =>
                names + ReadEntries(imports, sec[p..], k)
                == names + [name] + ReadEntries(imports, sec[p + len..], k - 1)
  {
    hide ImportEntry, ExportEntry;
    assert names + [] == names;
    if k > 0 && p < |sec| {
      var e := if imports then ImportEntry(sec[p..]) else ExportEntry(sec[p..]);
      if e.More? {
        Drop(sec, p, e.len);
        var rest := ReadEntries(imports, sec[p + e.len..], k - 1);
        assert names + ([e.name] + rest) == names + [e.name] + rest;
      }
    }
  }

  lemma Drop(s: seq<byte>, i: nat, j: nat)
    requires i + j <= |s|
    ensures s[i..][j..] == s[i + j..] && (i < |s| ==> s[i..][0] == s[i])
  {
  }

  /** `wasm_imports_exports`. */
  method ImportsExports(b: seq<byte>) returns (imports: seq<seq<byte>>, exports: seq<seq<byte>>)
    ensures Names(imports, exports) == ReadModule(b)
  {
    hide ReadLeb, EntriesIn, ReadSections;
    imports, exports := [], [];
    if |b| < 8 || b[..4] != [0x00, 0x61, 0x73, 0x6d] { return; }
    var r := new WasmReader(b, 8);
    ghost var goal := ReadSections(b[8..]);
    AddNothing(goal);
    while r.p < |b|
      invariant r.Valid() && r.b == b
      invariant Add(Names(imports, exports), ReadSections(b[r.p..])) == goal
      decreases |b| - r.p
    {
      ghost var p := r.p;
      SectionStep(Names(imports, exports), b, r.p);
      var id := r.U8();
      if id.None? { break; }
      var len := r.Leb();
      if len.None? || r.p + len.value > |b| { return; }
      var sec := b[r.p..r.p + len.value];
      if id.value == 2 {
        var more := EntryNames(true, sec);
        imports := imports + more;
      } else if id.value == 7 {
        var more := EntryNames(false, sec);
        exports := exports + more;
      }
      AddNothingRight(Names(imports, exports));
      r.p := r.p + len.value;
    }
    SectionStep(Names(imports, exports), b, r.p);
  }

  lemma AddNothing(n: Names)
    ensures Add(Names([], []), n) == n
  {
    assert [] + n.imports == n.imports && [] + n.exports == n.exports;
  }

  lemma AddNothingRight(n: Names)
    ensures Add(n, Names([], [])) == n
    ensures n.imports + [] == n.imports && n.exports + [] == n.exports
  {
  }

  lemma {:induction false} SectionStep(got: Names, b: seq<byte>, p: nat)
    requires p <= |b|
    ensures p == |b| ==> Add(got, ReadSections(b[p..])) == got
    ensures p < |b| ==>
              var n := ReadLeb(b[p + 1..], 0);
              var a := p + 1 + n.1;
              if n.0.None? || a + n.0.value > |b| then Add(got, ReadSections(b[p..])) == got
              else Add(got, ReadSections(b[p..]))
                   == Add(Add(got, NamesIn(b[p], b[a..a + n.0.value])), ReadSections(b[a + n.0.value..]))
  {
    hide ReadLeb, NamesIn, Add;
    AddNothingRight(got);
    if p < |b| {
      var t := b[p..];
      Drop(b, p, 1);
      var n := ReadLeb(t[1..], 0);
      var a := 1 + n.1;
      if n.0.Some? && a + n.0.value <= |t| {
        Drop(b, p, a + n.0.value);
        assert t[a..a + n.0.value] == b[p + a..p + a + n.0.value];
        AddAssoc(got, NamesIn(t[0], t[a..a + n.0.value]), ReadSections(t[a + n.0.value..]));
      }
    }
  }

  lemma AddAssoc(a: Names, b: Names, c: Names)
    ensures Add(a, Add(b, c)) == Add(Add(a, b), c)
  {
    assert a.imports + (b.imports + c.imports) == (a.imports + b.imports) + c.imports;
    assert a.exports + (b.exports + c.exports) == (a.exports + b.exports) + c.exports;
  }

  // ---------------------------------------------------------------------
  // The binary format (WebAssembly Core Specification, sections 5.2.2, 5.5.2, 5.5.5 and 5.5.10).
  // ---------------------------------------------------------------------

  /** An unsigned LEB128 integer, trailing padding allowed: continuation bits on all bytes but the last,
      at most ten bytes and no bit beyond the 64th. */
  predicate LebOk(lb: seq<byte>) {
    && 1 <= |lb| <= 10 && lb[|lb| - 1] < 128 && (|lb| == 10 ==> lb[9] < 2)
    && forall k :: 0 <= k < |lb| - 1 ==> lb[k] >= 128
  }

  function LebValue(lb: seq<byte>): (r: nat) {
    if lb == [] then 0 else lb[0] % 128 + 128 * LebValue(lb[1..])
  }

  datatype Limits = Limits(flags: byte, low: seq<byte>, high: seq<byte>)

  datatype Desc = Func(index: seq<byte>) | Table(reftype: byte, limits: Limits) | Memory(limits: Limits)
                | Global(valtype: byte, mutability: byte)

  /** One entry of an import or export section; integers are given by their encodings. */
  datatype Item =
    | Import(modLen: seq<byte>, mod: seq<byte>, nameLen: seq<byte>, name: seq<byte>, desc: Desc)
    | Export(nameLen: seq<byte>, name: seq<byte>, kind: byte, index: seq<byte>)

  datatype Section =
    | Entries(imports: bool, size: seq<byte>, count: seq<byte>, items: seq<Item>)
    | Other(id: byte, size: seq<byte>, body: seq<byte>)

  predicate Encodes(lb: seq<byte>, n: nat) {
    LebOk(lb) && LebValue(lb) == n
  }

  predicate LimitsOk(l: Limits) {
    LebOk(l.low) && if l.flags % 2 == 1 then LebOk(l.high) else l.high == []
  }

  predicate DescOk(d: Desc) {
    match d
    case Func(index) => LebOk(index)
    case Table(_, limits) => LimitsOk(limits)
    case Memory(limits) => LimitsOk(limits)
    case Global(_, _) => true
  }

  predicate ItemOk(imports: bool, e: Item) {
    match e
    case Import(modLen, mod, nameLen, name, desc) =>
      imports && Encodes(modLen, |mod|) && Encodes(nameLen, |name|) && DescOk(desc)
    case Export(nameLen, name, kind, index) => !imports && Encodes(nameLen, |name|) && LebOk(index)
  }

  function RenderLimits(l: Limits): (r: seq<byte>) {
    [l.flags] + l.low + l.high
  }

  function RenderDesc(d: Desc): (r: seq<byte>) {
    match d
    case Func(index) => [0] + index
    case Table(reftype, limits) => [1, reftype] + RenderLimits(limits)
    case Memory(limits) => [2] + RenderLimits(limits)
    case Global(valtype, mutability) => [3, valtype, mutability]
  }

  function RenderItem(e: Item): (r: seq<byte>) {
    match e
    case Import(modLen, mod, nameLen, name, desc) => modLen + mod + (nameLen + name + RenderDesc(desc))
    case Export(nameLen, name, kind, index) => nameLen + name + ([kind] + index)
  }

  function RenderItems(items: seq<Item>): (r: seq<byte>) {
    if items == [] then [] else RenderItem(items[0]) + RenderItems(items[1..])
  }

  function BodyOf(sec: Section): (r: seq<byte>) {
    match sec
    case Entries(_, _, count, items) => count + RenderItems(items)
    case Other(_, _, body) => body
  }

  function IdOf(sec: Section): (r: byte) {
    match sec
    case Entries(imports, _, _, _) => if imports then 2 else 7
    case Other(id, _, _) => id
  }

  predicate SectionOk(sec: Section) {
    && Encodes(sec.size, |BodyOf(sec)|)
    && match sec
       case Entries(imports, _, count, items) =>
         Encodes(count, |items|) && forall k :: 0 <= k < |items| ==> ItemOk(imports, items[k])
       case Other(id, _, _) => id != 2 && id != 7
  }

  function RenderSections(secs: seq<Section>): (r: seq<byte>) {
    if secs == [] then [] else [IdOf(secs[0])] + secs[0].size + BodyOf(secs[0]) + RenderSections(secs[1..])
  }

  /** The names of the first `k` entries. */
  function NamesOf(items: seq<Item>, k: nat): (names: seq<seq<byte>>)
    ensures |names| == Min(|items|, k) && forall i :: 0 <= i < |names| ==> names[i] == items[i].name
  {
    if items == [] || k == 0 then [] else [items[0].name] + NamesOf(items[1..], k - 1)
  }

  /** What a reader should find: the names of each section, in order. */
  function AllNames(secs: seq<Section>): (r: Names) {
    if secs == [] then Names([], [])
    else
      var first := match secs[0]
        case Entries(imports, _, _, items) =>
          if imports then Names(NamesOf(items, MAX_ENTRIES), []) else Names([], NamesOf(items, MAX_ENTRIES))
        case Other(_, _, _) => Names([], []);
      Add(first, AllNames(secs[1..]))
  }

  // ---------------------------------------------------------------------
  // Reading inverts encoding.
  // ---------------------------------------------------------------------

  lemma {:induction false} LebFrom(lb: seq<byte>, rest: seq<byte>, k: nat)
    requires 1 <= |lb| && |lb| + k <= 10 && lb[|lb| - 1] < 128 && (|lb| + k == 10 ==> lb[|lb| - 1] < 2)
    requires forall i :: 0 <= i < |lb| - 1 ==> lb[i] >= 128
    ensures ReadLeb(lb + rest, k) == (Some(LebValue(lb)), |lb|)
    decreases |lb|
  {
    var t := lb + rest;
    assert t[0] == lb[0] && t[1..] == lb[1..] + rest;
    if |lb| > 1 {
      LebFrom(lb[1..], rest, k + 1);
    } else {
      assert LebValue(lb[1..]) == 0;
    }
  }

  lemma LebReads(lb: seq<byte>, rest: seq<byte>)
    requires LebOk(lb)
    ensures ReadLeb(lb + rest, 0) == (Some(LebValue(lb)), |lb|) && (lb + rest)[|lb|..] == rest
  {
    LebFrom(lb, rest, 0);
    hide ReadLeb, LebValue;
  }

  lemma NameReads(lb: seq<byte>, s: seq<byte>, rest: seq<byte>)
    requires Encodes(lb, |s|)
    ensures ReadName(lb + s + rest) == (Some(s), |lb + s|) && (lb + s + rest)[|lb + s|..] == rest
  {
    hide ReadLeb, LebOk, LebValue;
    LebReads(lb, s + rest);
    assert lb + s + rest == lb + (s + rest);
    assert (lb + s + rest)[|lb|..|lb| + |s|] == s;
  }

  lemma LimitsRead(l: Limits, rest: seq<byte>)
    requires LimitsOk(l)
    ensures SkipLimits(RenderLimits(l) + rest) == |RenderLimits(l)|
  {
    hide ReadLeb, LebOk, LebValue;
    var t := RenderLimits(l) + rest;
    assert t[1..] == l.low + (l.high + rest);
    LebReads(l.low, l.high + rest);
    Drop(t, 1, |l.low|);
    if l.flags % 2 == 1 {
      LebReads(l.high, rest);
    }
  }

  lemma DescRead(d: Desc, rest: seq<byte>)
    requires DescOk(d)
    ensures var t := RenderDesc(d) + rest;
            t != [] && 1 + SkipDesc(t[0], t[1..]) == |RenderDesc(d)|
  {
    hide ReadLeb, LebOk, LebValue, SkipLimits, RenderLimits, LimitsOk;
    var t := RenderDesc(d) + rest;
    match d
    case Func(index) =>
      assert t[1..] == index + rest;
      LebReads(index, rest);
    case Table(reftype, limits) =>
      assert t[1..] == [reftype] + (RenderLimits(limits) + rest);
      assert t[1..][1..] == RenderLimits(limits) + rest;
      LimitsRead(limits, rest);
    case Memory(limits) =>
      assert t[1..] == RenderLimits(limits) + rest;
      LimitsRead(limits, rest);
    case Global(valtype, mutability) =>
  }

  lemma ImportReads(e: Item, rest: seq<byte>)
    requires e.Import? && ItemOk(true, e)
    ensures ImportEntry(RenderItem(e) + rest) == More(e.name, |RenderItem(e)|)
  {
    hide ReadName, SkipDesc, Encodes, DescOk, RenderDesc;
    var d := RenderDesc(e.desc);
    var u := e.nameLen + e.name + (d + rest);
    var t := RenderItem(e) + rest;
    ImportText(e.modLen + e.mod, e.nameLen + e.name, d, rest);
    NameReads(e.modLen, e.mod, u);
    NameReads(e.nameLen, e.name, d + rest);
    DescRead(e.desc, rest);
    var a := |e.modLen + e.mod|;
    var c := a + |e.nameLen + e.name|;
    assert t[a..] == u;
    Drop(t, a, |e.nameLen + e.name|);
    assert t[c..] == d + rest;
    Drop(t, c, 1);
    assert t[c] == t[c..][0];
  }

  lemma ImportText(a: seq<byte>, b: seq<byte>, c: seq<byte>, d: seq<byte>)
    ensures a + (b + c) + d == a + (b + (c + d))
  {
  }

  lemma ExportReads(e: Item, rest: seq<byte>)
    requires e.Export? && ItemOk(false, e)
    ensures ExportEntry(RenderItem(e) + rest) == More(e.name, |RenderItem(e)|)
  {
    hide ReadName, ReadLeb, Encodes, LebOk, LebValue;
    var t := RenderItem(e) + rest;
    var u := [e.kind] + (e.index + rest);
    ImportText(e.nameLen + e.name, [e.kind], e.index, rest);
    NameReads(e.nameLen, e.name, u);
    LebReads(e.index, rest);
    var a := |e.nameLen + e.name|;
    assert t[a..] == u && u[1..] == e.index + rest;
    Drop(t, a, 1);
  }

  lemma {:induction false} EntriesRead(imports: bool, items: seq<Item>, k: nat)
    requires forall i :: 0 <= i < |items| ==> ItemOk(imports, items[i])
    ensures ReadEntries(imports, RenderItems(items), k) == NamesOf(items, k)
    decreases |items|
  {
    hide ItemOk, ImportEntry, ExportEntry, RenderItem;
    if items != [] && k > 0 {
      var e, rest := items[0], RenderItems(items[1..]);
      assert ItemOk(imports, e);
      ItemReads(imports, e, rest);
      assert (RenderItem(e) + rest)[|RenderItem(e)|..] == rest;
      EntriesRead(imports, items[1..], k - 1);
    }
  }

  lemma ItemReads(imports: bool, e: Item, rest: seq<byte>)
    requires ItemOk(imports, e)
    ensures RenderItem(e) != []
    ensures (if imports then ImportEntry(RenderItem(e) + rest) else ExportEntry(RenderItem(e) + rest))
         == More(e.name, |RenderItem(e)|)
  {
    hide ImportEntry, ExportEntry, LebValue;
    if e.Import? { ImportReads(e, rest); } else { ExportReads(e, rest); }
  }

  lemma SectionReads(sec: Section)
    requires SectionOk(sec)
    ensures NamesIn(IdOf(sec), BodyOf(sec)) == AllNames([sec])
  {
    hide ReadLeb, LebValue, LebOk, ItemOk, ReadEntries, RenderItems, NamesOf;
    match sec
    case Entries(imports, _, count, items) =>
      LebReads(count, RenderItems(items));
      EntriesRead(imports, items, Min(|items|, MAX_ENTRIES));
      CutAt(items, MAX_ENTRIES);
      AddNothingRight(AllNames([sec]));
      assert [sec][1..] == [];
      AddNone(NamesIn(IdOf(sec), BodyOf(sec)));
    case Other(_, _, _) =>
      assert [sec][1..] == [];
      AddNone(Names([], []));
  }

  lemma CutAt(items: seq<Item>, k: nat)
    ensures NamesOf(items, Min(|items|, k)) == NamesOf(items, k)
  {
  }

  lemma AddNone(n: Names)
    ensures Add(n, Names([], [])) == n
  {
    assert n.imports + [] == n.imports && n.exports + [] == n.exports;
  }

  lemma {:induction false} SectionsRead(secs: seq<Section>)
    requires forall k :: 0 <= k < |secs| ==> SectionOk(secs[k])
    ensures ReadSections(RenderSections(secs)) == AllNames(secs)
    decreases |secs|
  {
    hide ReadLeb, LebValue, LebOk, NamesIn, BodyOf, NamesOf, Add;
    if secs == [] {
    } else {
      var sec, rest := secs[0], RenderSections(secs[1..]);
      assert SectionOk(sec);
      SectionReads(sec);
      SectionText(IdOf(sec), sec.size, BodyOf(sec), rest);
      SectionsRead(secs[1..]);
      AllNamesFirst(secs);
    }
  }

  lemma AllNamesFirst(secs: seq<Section>)
    requires secs != []
    ensures AllNames(secs) == Add(AllNames([secs[0]]), AllNames(secs[1..]))
  {
    hide NamesOf, Add;
    assert [secs[0]][1..] == [];
    var first := match secs[0]
      case Entries(imports, _, _, items) =>
        if imports then Names(NamesOf(items, MAX_ENTRIES), []) else Names([], NamesOf(items, MAX_ENTRIES))
      case Other(_, _, _) => Names([], []);
    AddNone(first);
  }

  lemma SectionText(id: byte, size: seq<byte>, body: seq<byte>, rest: seq<byte>)
    requires Encodes(size, |body|)
    ensures var t := [id] + size + body + rest;
            var a := 1 + |size|;
            && ReadLeb(t[1..], 0) == (Some(|body|), |size|) && t[0] == id
            && a + |body| <= |t| && t[a..a + |body|] == body && t[a + |body|..] == rest
  {
    hide ReadLeb, LebValue, LebOk;
    LebReads(size, body + rest);
    var t := [id] + size + body + rest;
    assert t[1..] == size + (body + rest);
  }

  /** Any module: exactly its import field names and export names, in order, up to 4096 an import or
      export section, whatever the other sections hold and however its integers are padded. */
  lemma ModuleNames(version: seq<byte>, secs: seq<Section>)
    requires |version| == 4 && forall k :: 0 <= k < |secs| ==> SectionOk(secs[k])
    ensures ReadModule([0x00, 0x61, 0x73, 0x6d] + version + RenderSections(secs)) == AllNames(secs)
  {
    hide RenderSections, ReadSections, AllNames, SectionOk;
    var b := [0x00, 0x61, 0x73, 0x6d] + version + RenderSections(secs);
    SectionsRead(secs);
    assert b[..4] == [0x00, 0x61, 0x73, 0x6d] && b[8..] == RenderSections(secs);
  }
}
