/**
 The Wasm generator of the deployer tests: unsigned LEB128 and a module with N functions of 32767
 locals each. The reference is a decoder that follows the binary format of the WebAssembly Core
 Specification (sections 5.2.2 for integers, 5.5.2 for sections).
 */
module WasmEmitter {
  import opened Bytes
  import opened Prelude

  const U32_LIMIT := 0x1_0000_0000

  // ---------------------------------------------------------------- LEB128

  function Leb(n: nat): seq<byte> {
    if n < 128 then [n] else [n % 128 + 128] + Leb(n / 128)
  }

  method Leb128(value: nat) returns (out: seq<byte>)
    requires value < U32_LIMIT
    ensures out == Leb(value)
  {
    out := [];
    var n: nat := value;
    while true
      invariant n < U32_LIMIT && out + Leb(n) == Leb(value)
      decreases n
    {
      ghost var done, left := out, Leb(n);
      var low := n % 128;              // n & 0x7F
      n := n / 128;                    // n >>= 7
      if n != 0 {
        out := out + [low + 128];      // byte |= 0x80
        assert left == [low + 128] + Leb(n);
        assert out + Leb(n) == done + left;
      } else {
        out := out + [low];
        assert left == [low];
        break;
      }
    }
  }

  function Pow2(bits: nat): (p: nat)
    ensures p >= 1
  {
    if bits == 0 then 1 else 2 * Pow2(bits - 1)
  }

  datatype Parsed<+T> = Parsed(value: T, rest: seq<byte>)

  // uN of section 5.2.2: the value and what follows it.
  function ParseUnsigned(s: seq<byte>, bits: nat): Option<Parsed<nat>> {
    if s == [] then None
    else if s[0] < 128 then
      if bits >= 7 || s[0] < Pow2(bits) then Some(Parsed(s[0], s[1..])) else None
    else if bits <= 7 then None
    else
      var high := ParseUnsigned(s[1..], bits - 7);
      if high.None? then None else Some(Parsed(128 * high.value.value + s[0] - 128, high.value.rest))
  }

  lemma Pow2By7(bits: nat)
    requires bits >= 7
    ensures Pow2(bits) == 128 * Pow2(bits - 7)
  {
    assert Pow2(bits) == 2 * Pow2(bits - 1);
    assert Pow2(bits - 1) == 2 * Pow2(bits - 2);
    assert Pow2(bits - 2) == 2 * Pow2(bits - 3);
    assert Pow2(bits - 3) == 2 * Pow2(bits - 4);
    assert Pow2(bits - 4) == 2 * Pow2(bits - 5);
    assert Pow2(bits - 5) == 2 * Pow2(bits - 6);
    assert Pow2(bits - 6) == 2 * Pow2(bits - 7);
  }

  lemma {:induction false} SmallPow2(bits: nat)
    requires bits <= 7
    ensures Pow2(bits) <= 128
    decreases 7 - bits
  {
    if bits < 7 {
      SmallPow2(bits + 1);
    } else {
      Pow2By7(bits);
    }
  }

  /** Decoding what was encoded gives the number and leaves the bytes behind it alone. */
  lemma {:induction false} LebRoundTrip(n: nat, bits: nat, rest: seq<byte>)
    requires n < Pow2(bits)
    ensures ParseUnsigned(Leb(n) + rest, bits) == Some(Parsed(n, rest))
    decreases n
  {
    var s := Leb(n) + rest;
    if n < 128 {
      assert s[1..] == rest;
    } else {
      if bits <= 7 { SmallPow2(bits); }
      Pow2By7(bits);
      LebRoundTrip(n / 128, bits - 7, rest);
      assert s[1..] == Leb(n / 128) + rest;
    }
  }

  /** No encoding that decodes to `n` is shorter, and the shortest one is this one. */
  lemma {:induction false} LebIsMinimal(s: seq<byte>, bits: nat)
    requires ParseUnsigned(s, bits).Some?
    ensures var p := ParseUnsigned(s, bits).value;
            && |p.rest| < |s| && s == s[..|s| - |p.rest|] + p.rest
            && |s| - |p.rest| >= |Leb(p.value)|
            && (|s| - |p.rest| == |Leb(p.value)| ==> s[..|s| - |p.rest|] == Leb(p.value))
    decreases |s|
  {
    if s[0] < 128 {
    } else {
      LebIsMinimal(s[1..], bits - 7);
      var p, high := ParseUnsigned(s, bits).value, ParseUnsigned(s[1..], bits - 7).value;
      var used := s[..|s| - |p.rest|];
      assert used == [s[0]] + s[1..][..|s[1..]| - |p.rest|];
      if high.value == 0 {
        assert |Leb(p.value)| == 1;
      } else {
        assert p.value / 128 == high.value && p.value % 128 == s[0] - 128;
      }
    }
  }

  // A truncated encoding does not decode.
  lemma {:induction false} LebPrefixFails(n: nat, k: nat, bits: nat)
    requires k < |Leb(n)|
    ensures ParseUnsigned(Leb(n)[..k], bits).None?
    decreases n
  {
    if k > 0 && n >= 128 && bits > 7 {
      LebPrefixFails(n / 128, k - 1, bits - 7);
      assert Leb(n)[..k][1..] == Leb(n / 128)[..k - 1];
    }
  }

  lemma {:induction false} LebLength(n: nat, k: nat)
    ensures |Leb(n)| >= 1
    ensures n < Pow2(7 * k) && k >= 1 ==> |Leb(n)| <= k
    ensures Pow2(7 * k) <= n ==> |Leb(n)| > k
    decreases n
  {
    if n >= 128 && k >= 1 {
      Pow2By7(7 * k);
      LebLength(n / 128, k - 1);
    } else if k >= 1 {
      Pow2By7(7 * k);
    }
  }

  // ---------------------------------------------------------------- the emitter

  // Magic and version; the type section with the one type () -> (); the export of function 0 as "main".
  const PREAMBLE: seq<byte> := [0x00, 0x61, 0x73, 0x6d, 0x01, 0x00, 0x00, 0x00]
  const TYPE_SECTION: seq<byte> := [0x01, 0x04, 0x01, 0x60, 0x00, 0x00]
  const EXPORT_SECTION: seq<byte> := [0x07, 0x08, 0x01, 0x04, 0x6d, 0x61, 0x69, 0x6e, 0x00, 0x00]

  // size 6, one local declaration, 32767 times, i64, end
  const BODY: seq<byte> := [0x06, 0x01, 0xff, 0xff, 0x01, 0x7e, 0x0b]

  function Zeros(n: nat): (s: seq<byte>)
    ensures |s| == n
  {
    if n == 0 then [] else Zeros(n - 1) + [0]
  }

  function Bodies(n: nat): (s: seq<byte>)
    ensures |s| == 7 * n
  {
    if n == 0 then [] else Bodies(n - 1) + BODY
  }

  // `as u32`
  function Truncated(n: nat): nat { n % U32_LIMIT }

  // A section: its id, a size field and the content.
  function Framed(id: byte, size: nat, content: seq<byte>): seq<byte> {
    [id] + (Leb(size) + content)
  }

  function FunctionSection(n: nat): seq<byte> {
    Framed(0x03, Truncated(|Leb(n)| + n), Leb(n) + Zeros(n))
  }

  function CodeSection(n: nat): seq<byte> {
    Framed(0x0a, Truncated(|Leb(n)| + 7 * n), Leb(n) + Bodies(n))
  }

  function ModuleBytes(n: nat): seq<byte> {
    PREAMBLE + (TYPE_SECTION + (FunctionSection(n) + (EXPORT_SECTION + CodeSection(n))))
  }

  lemma Flat(a: seq<byte>, b: seq<byte>, c: seq<byte>, d: seq<byte>, e: seq<byte>)
    ensures a + b + c + d + e == a + (b + (c + (d + e)))
  {}

  // The loop that gives every function type 0.
  method PushTypeIndices(start: seq<byte>, numFuncs: nat) returns (wasm: seq<byte>)
    ensures wasm == start + Zeros(numFuncs)
  {
    wasm := start;
    for i := 0 to numFuncs
      invariant wasm == start + Zeros(i)
    {
      assert start + Zeros(i) + [0x00] == start + (Zeros(i) + [0x00]);
      wasm := wasm + [0x00];
    }
  }

  // The loop that writes the function bodies.
  method PushBodies(start: seq<byte>, numFuncs: nat) returns (wasm: seq<byte>)
    ensures wasm == start + Bodies(numFuncs)
  {
    wasm := start;
    for i := 0 to numFuncs
      invariant wasm == start + Bodies(i)
    {
      assert start + Bodies(i) + BODY == start + (Bodies(i) + BODY);
      wasm := wasm + BODY;
    }
  }

  /** `build_max_locals_module`. */
  method BuildMaxLocalsModule(numFuncs: nat) returns (wasm: seq<byte>)
    requires numFuncs < U32_LIMIT
    ensures wasm == ModuleBytes(numFuncs)
  {
    var numFuncsLeb := Leb128(numFuncs);
    var funcSectionSize := |numFuncsLeb| + numFuncs;
    var funcSectionSizeLeb := Leb128(Truncated(funcSectionSize));
    var codeSectionSize := |numFuncsLeb| + numFuncs * 7;
    var codeSectionSizeLeb := Leb128(Truncated(codeSectionSize));

    var begun := PREAMBLE + TYPE_SECTION;
    wasm := PushTypeIndices(begun + [0x03] + funcSectionSizeLeb + numFuncsLeb, numFuncs);
    Flat(begun, [0x03], funcSectionSizeLeb, numFuncsLeb, Zeros(numFuncs));
    assert wasm == begun + FunctionSection(numFuncs);

    var exported := wasm + EXPORT_SECTION;
    wasm := PushBodies(exported + [0x0a] + codeSectionSizeLeb + numFuncsLeb, numFuncs);
    Flat(exported, [0x0a], codeSectionSizeLeb, numFuncsLeb, Bodies(numFuncs));
    assert wasm == exported + CodeSection(numFuncs);
    Flat(PREAMBLE, TYPE_SECTION, FunctionSection(numFuncs), EXPORT_SECTION, CodeSection(numFuncs));
  }

  // ---------------------------------------------------------------- a decoder

  datatype Section = Section(id: nat, content: seq<byte>)

  /** The section walker of section 5.5.2: id, size, that many bytes, until the input is used up. */
  function Sections(s: seq<byte>): Option<seq<Section>>
    decreases |s|
  {
    if s == [] then Some([])
    else
      var size := ParseUnsigned(s[1..], 32);
      if size.None? then None
      else
        var rest := size.value.rest;
        LebIsMinimal(s[1..], 32);
        if size.value.value > |rest| then None
        else
          var more := Sections(rest[size.value.value..]);
          if more.None? then None
          else Some([Section(s[0], rest[..size.value.value])] + more.value)
  }

  datatype Export = Export(name: seq<byte>, kind: nat, index: nat)

  datatype Locals = Locals(count: nat, valtype: byte)

  datatype Body = Body(locals: seq<Locals>, code: seq<byte>)

  datatype FuncType = FuncType(params: seq<byte>, results: seq<byte>)

  // `others` are the sections behind the code section, undecoded.
  datatype Wasm = Wasm(types: seq<FuncType>, functions: seq<nat>, exports: seq<Export>, bodies: seq<Body>,
                       others: seq<Section>)

  // A vector of u32 that uses up its input.
  function Indices(s: seq<byte>, count: nat): Option<seq<nat>>
    decreases count
  {
    if count == 0 then (if s == [] then Some([]) else None)
    else
      var first := ParseUnsigned(s, 32);
      if first.None? then None
      else
        var more := Indices(first.value.rest, count - 1);
        if more.None? then None else Some([first.value.value] + more.value)
  }

  function LocalsOf(s: seq<byte>, count: nat): Option<Parsed<seq<Locals>>>
    decreases count
  {
    if count == 0 then Some(Parsed([], s))
    else
      var n := ParseUnsigned(s, 32);
      if n.None? || n.value.rest == [] then None
      else
        var more := LocalsOf(n.value.rest[1..], count - 1);
        if more.None? then None
        else Some(Parsed([Locals(n.value.value, n.value.rest[0])] + more.value.value, more.value.rest))
  }

  // A function body: local declarations, then instructions closed by `end`.
  function BodyOf(s: seq<byte>): Option<Body> {
    var count := ParseUnsigned(s, 32);
    if count.None? then None
    else
      var locals := LocalsOf(count.value.rest, count.value.value);
      if locals.None? || locals.value.rest == [] || locals.value.rest[|locals.value.rest| - 1] != 0x0b then None
      else Some(Body(locals.value.value, locals.value.rest))
  }

  // A vector of sized bodies that uses up its input.
  function BodiesOf(s: seq<byte>, count: nat): Option<seq<Body>>
    decreases count
  {
    if count == 0 then (if s == [] then Some([]) else None)
    else
      var size := ParseUnsigned(s, 32);
      if size.None? || size.value.value > |size.value.rest| then None
      else
        var body := BodyOf(size.value.rest[..size.value.value]);
        var more := BodiesOf(size.value.rest[size.value.value..], count - 1);
        if body.None? || more.None? then None else Some([body.value] + more.value)
  }

  function FunctionContent(s: seq<byte>): Option<seq<nat>> {
    var count := ParseUnsigned(s, 32);
    if count.None? then None else Indices(count.value.rest, count.value.value)
  }

  function CodeContent(s: seq<byte>): Option<seq<Body>> {
    var count := ParseUnsigned(s, 32);
    if count.None? then None else BodiesOf(count.value.rest, count.value.value)
  }

  // A vector of bytes: a name, or the parameter or result types of a function type.
  function ByteVector(s: seq<byte>): Option<Parsed<seq<byte>>> {
    var count := ParseUnsigned(s, 32);
    if count.None? || count.value.value > |count.value.rest| then None
    else Some(Parsed(count.value.rest[..count.value.value], count.value.rest[count.value.value..]))
  }

  // A vector of function types that uses up its input.
  function TypesOf(s: seq<byte>, count: nat): Option<seq<FuncType>>
    decreases count
  {
    if count == 0 then (if s == [] then Some([]) else None)
    else if s == [] || s[0] != 0x60 then None
    else
      var params := ByteVector(s[1..]);
      if params.None? then None
      else
        var results := ByteVector(params.value.rest);
        if results.None? then None
        else
          var more := TypesOf(results.value.rest, count - 1);
          if more.None? then None else Some([FuncType(params.value.value, results.value.value)] + more.value)
  }

  // A vector of exports that uses up its input.
  function ExportsOf(s: seq<byte>, count: nat): Option<seq<Export>>
    decreases count
  {
    if count == 0 then (if s == [] then Some([]) else None)
    else
      var name := ByteVector(s);
      if name.None? || name.value.rest == [] then None
      else
        var index := ParseUnsigned(name.value.rest[1..], 32);
        if index.None? then None
        else
          var more := ExportsOf(index.value.rest, count - 1);
          if more.None? then None
          else Some([Export(name.value.value, name.value.rest[0], index.value.value)] + more.value)
  }

  function ExportContent(s: seq<byte>): Option<seq<Export>> {
    var count := ParseUnsigned(s, 32);
    if count.None? then None else ExportsOf(count.value.rest, count.value.value)
  }

  function TypeContent(s: seq<byte>): Option<seq<FuncType>> {
    var count := ParseUnsigned(s, 32);
    if count.None? then None else TypesOf(count.value.rest, count.value.value)
  }

  // The magic number, a zero byte and "asm", then version 1 as a little-endian u32 (section 5.5).
  predicate Headed(s: seq<byte>) {
    |s| >= 8 && s[0] == 0 && s[1..4] == [0x61, 0x73, 0x6d] && FromLe(s[4..8]) == 1
  }

  function Decode(s: seq<byte>): Option<Wasm> {
    if !Headed(s) then None
    else
      var sections := Sections(s[8..]);
      if sections.None? then None else DecodeSections(sections.value)
  }

  function DecodeSections(ss: seq<Section>): Option<Wasm> {
    if |ss| < 4 || ss[0].id != 1 || ss[1].id != 3 || ss[2].id != 7 || ss[3].id != 10 then None
    else Assembled(TypeContent(ss[0].content), FunctionContent(ss[1].content), ExportContent(ss[2].content),
                   CodeContent(ss[3].content), ss[4..])
  }

  function Assembled(types: Option<seq<FuncType>>, functions: Option<seq<nat>>, exports: Option<seq<Export>>,
                     bodies: Option<seq<Body>>, others: seq<Section>): Option<Wasm> {
    if types.None? || functions.None? || exports.None? || bodies.None? then None
    else Some(Wasm(types.value, functions.value, exports.value, bodies.value, others))
  }

  // ---------------------------------------------------------------- the decoder undoes the emitter

  const MAIN: seq<byte> := [0x6d, 0x61, 0x69, 0x6e]

  const FULL_BODY := Body([Locals(32767, 0x7e)], [0x0b])

  function FullBodies(n: nat): seq<Body> { seq(n, _ => FULL_BODY) }

  // What the module is supposed to contain.
  function Intended(n: nat): Wasm {
    Wasm([FuncType([], [])], seq(n, _ => 0), [Export(MAIN, 0, 0)], FullBodies(n), [])
  }

  lemma U32Bits()
    ensures Pow2(32) == U32_LIMIT
  {
    Pow2By7(32);
    Pow2By7(25);
    Pow2By7(18);
    Pow2By7(11);
    assert Pow2(4) == 16;
  }

  function Consed(section: Section, more: Option<seq<Section>>): Option<seq<Section>> {
    if more.None? then None else Some([section] + more.value)
  }

  // The walker on a section whose size field is right.
  lemma WalkSection(id: byte, size: nat, content: seq<byte>, rest: seq<byte>)
    requires size == |content| < U32_LIMIT
    ensures Sections(Framed(id, size, content) + rest) == Consed(Section(id, content), Sections(rest))
  {
    var s := Framed(id, size, content) + rest;
    U32Bits();
    LebRoundTrip(size, 32, content + rest);
    assert s[1..] == Leb(size) + (content + rest);
    assert (content + rest)[..size] == content && (content + rest)[size..] == rest;
  }

  lemma {:induction false} ZerosParse(n: nat)
    ensures Indices(Zeros(n), n) == Some(seq(n, _ => 0))
  {
    if n > 0 {
      ZerosParse(n - 1);
      ZerosFromFront(n);
      var s := Zeros(n);
      assert ParseUnsigned(s, 32) == Some(Parsed(0, Zeros(n - 1)));
      Copies(0, n - 1);
    } else {
      assert seq(n, _ => 0) == [];
    }
  }

  lemma {:induction false} ZerosFromFront(n: nat)
    requires n > 0
    ensures Zeros(n) == [0] + Zeros(n - 1)
  {
    if n == 1 {
    } else {
      ZerosFromFront(n - 1);
    }
  }

  lemma {:induction false} BodiesFromFront(n: nat)
    requires n > 0
    ensures Bodies(n) == BODY + Bodies(n - 1)
  {
    if n == 1 {
    } else {
      BodiesFromFront(n - 1);
    }
  }

  lemma MaxLocals(rest: seq<byte>)
    ensures ParseUnsigned([0xff, 0xff, 0x01] + rest, 32) == Some(Parsed(32767, rest))
  {
    U32Bits();
    assert Leb(32767) == [0xff, 0xff, 0x01] by {
      assert Leb(32767) == [0xff] + Leb(255);
      assert Leb(255) == [0xff] + Leb(1);
    }
    LebRoundTrip(32767, 32, rest);
  }

  lemma SmallNumber(b: byte, rest: seq<byte>)
    requires b < 128
    ensures ParseUnsigned([b] + rest, 32) == Some(Parsed(b, rest))
  {
    assert ([b] + rest)[1..] == rest;
  }

  lemma BodyContent()
    ensures BodyOf(BODY[1..]) == Some(FULL_BODY)
  {
    var decls: seq<byte> := [0xff, 0xff, 0x01] + [0x7e, 0x0b];
    assert BODY[1..] == [0x01] + decls;
    SmallNumber(0x01, decls);
    MaxLocals([0x7e, 0x0b]);
    var tail: seq<byte> := [0x7e, 0x0b];
    assert tail[1..] == [0x0b];
    var none: seq<Locals> := [];
    assert [Locals(32767, 0x7e)] + none == [Locals(32767, 0x7e)];
    assert LocalsOf(decls, 1) == Some(Parsed([Locals(32767, 0x7e)] + none, [0x0b]));
  }

  lemma OneBody(rest: seq<byte>)
    ensures ParseUnsigned(BODY + rest, 32) == Some(Parsed(6, BODY[1..] + rest))
  {
    assert BODY + rest == [0x06] + (BODY[1..] + rest);
    SmallNumber(0x06, BODY[1..] + rest);
  }

  lemma Copies<T>(x: T, n: nat)
    ensures [x] + seq(n, _ => x) == seq(n + 1, _ => x)
  {}

  lemma OneMoreBody(s: seq<byte>, rest: seq<byte>, n: nat)
    requires n > 0 && s == BODY + rest && BodiesOf(rest, n - 1) == Some(FullBodies(n - 1))
    ensures BodiesOf(s, n) == Some(FullBodies(n))
  {
    OneBody(rest);
    BodyContent();
    var after := BODY[1..] + rest;
    assert after[..6] == BODY[1..] && after[6..] == rest;
    Copies(FULL_BODY, n - 1);
  }

  lemma {:induction false} BodiesParse(n: nat)
    ensures BodiesOf(Bodies(n), n) == Some(FullBodies(n))
  {
    if n == 0 {
      assert FullBodies(n) == [];
    } else {
      BodiesFromFront(n);
      BodiesParse(n - 1);
      OneMoreBody(Bodies(n), Bodies(n - 1), n);
    }
  }

  lemma ContentsParse(n: nat)
    requires n < U32_LIMIT
    ensures FunctionContent(Leb(n) + Zeros(n)) == Some(Intended(n).functions)
    ensures CodeContent(Leb(n) + Bodies(n)) == Some(Intended(n).bodies)
  {
    U32Bits();
    LebRoundTrip(n, 32, Zeros(n));
    LebRoundTrip(n, 32, Bodies(n));
    ZerosParse(n);
    BodiesParse(n);
  }

  // The sections the generator writes when both sizes fit.
  function Written(n: nat): seq<Section> {
    [Section(1, TYPE_SECTION[2..]), Section(3, Leb(n) + Zeros(n)),
     Section(7, EXPORT_SECTION[2..]), Section(10, Leb(n) + Bodies(n))]
  }

  lemma FixedSection(section: seq<byte>, rest: seq<byte>)
    requires section == TYPE_SECTION || section == EXPORT_SECTION
    ensures Sections(section + rest) == Consed(Section(section[0], section[2..]), Sections(rest))
  {
    var content := section[2..];
    assert Leb(|content|) == [section[1]];
    assert section == Framed(section[0], |content|, content);
    WalkSection(section[0], |content|, content, rest);
  }

  lemma FittingSize(size: nat)
    requires size < U32_LIMIT
    ensures Truncated(size) == size
  {}

  lemma FunctionWalk(n: nat, rest: seq<byte>)
    requires |Leb(n)| + n < U32_LIMIT
    ensures Sections(FunctionSection(n) + rest) == Consed(Section(3, Leb(n) + Zeros(n)), Sections(rest))
  {
    FittingSize(|Leb(n)| + n);
    WalkSection(3, Truncated(|Leb(n)| + n), Leb(n) + Zeros(n), rest);
  }

  lemma CodeWalk(n: nat, rest: seq<byte>)
    requires |Leb(n)| + 7 * n < U32_LIMIT
    ensures Sections(CodeSection(n) + rest) == Consed(Section(10, Leb(n) + Bodies(n)), Sections(rest))
  {
    FittingSize(|Leb(n)| + 7 * n);
    WalkSection(10, Truncated(|Leb(n)| + 7 * n), Leb(n) + Bodies(n), rest);
  }

  // Walking the four sections of a module, given how the last one goes.
  lemma WalkModule(n: nat, code: seq<byte>)
    requires |Leb(n)| + n < U32_LIMIT
    ensures Sections(TYPE_SECTION + (FunctionSection(n) + (EXPORT_SECTION + code)))
         == Consed(Section(1, TYPE_SECTION[2..]), Consed(Section(3, Leb(n) + Zeros(n)),
              Consed(Section(7, EXPORT_SECTION[2..]), Sections(code))))
  {
    FixedSection(EXPORT_SECTION, code);
    FunctionWalk(n, EXPORT_SECTION + code);
    FixedSection(TYPE_SECTION, FunctionSection(n) + (EXPORT_SECTION + code));
  }

  lemma NothingAfter(s: seq<byte>)
    ensures s + [] == s && Sections([]) == Some([])
  {}

  lemma FourSections(a: Section, b: Section, c: Section, d: Section)
    ensures Consed(a, Consed(b, Consed(c, Consed(d, Some([]))))) == Some([a, b, c, d])
  {
    assert [a] + ([b] + ([c] + ([d] + []))) == [a, b, c, d];
  }

  lemma SectionsFit(n: nat)
    requires |Leb(n)| + 7 * n < U32_LIMIT
    ensures Sections(TYPE_SECTION + (FunctionSection(n) + (EXPORT_SECTION + CodeSection(n)))) == Some(Written(n))
  {
    CodeWalk(n, []);
    NothingAfter(CodeSection(n));
    WalkModule(n, CodeSection(n));
    FourSections(Section(1, TYPE_SECTION[2..]), Section(3, Leb(n) + Zeros(n)),
                 Section(7, EXPORT_SECTION[2..]), Section(10, Leb(n) + Bodies(n)));
  }

  // A byte vector in front of `rest`.
  lemma VectorThen(v: seq<byte>, rest: seq<byte>)
    requires |v| < 128
    ensures ByteVector([|v|] + (v + rest)) == Some(Parsed(v, rest))
  {
    SmallNumber(|v|, v + rest);
    assert (v + rest)[..|v|] == v && (v + rest)[|v|..] == rest;
  }

  lemma OneType()
    ensures TypesOf([0x60, 0x00, 0x00], 1) == Some([FuncType([], [])])
  {
    var s: seq<byte>, t: seq<byte> := [0x00, 0x00], [0x00];
    assert [0x60, 0x00, 0x00][1..] == s == [0] + ([] + t);
    VectorThen([], t);
    assert t == [0] + ([] + []);
    VectorThen([], []);
    var none: seq<FuncType> := [];
    assert [FuncType([], [])] + none == [FuncType([], [])];
  }

  lemma TypeContents()
    ensures TypeContent(TYPE_SECTION[2..]) == Some([FuncType([], [])])
  {
    var one: seq<byte> := [0x60, 0x00, 0x00];
    assert TYPE_SECTION[2..] == [0x01] + one;
    SmallNumber(0x01, one);
    OneType();
  }

  lemma OneExport()
    ensures ExportsOf([0x04] + (MAIN + [0x00, 0x00]), 1) == Some([Export(MAIN, 0, 0)])
  {
    var tail: seq<byte> := [0x00, 0x00];
    VectorThen(MAIN, tail);
    assert tail[1..] == [0x00] + [];
    SmallNumber(0x00, []);
    var none: seq<Export> := [];
    assert [Export(MAIN, 0, 0)] + none == [Export(MAIN, 0, 0)];
  }

  lemma ExportContents()
    ensures ExportContent(EXPORT_SECTION[2..]) == Some([Export(MAIN, 0, 0)])
  {
    var one: seq<byte> := [0x04] + (MAIN + [0x00, 0x00]);
    assert EXPORT_SECTION[2..] == [0x01] + one;
    SmallNumber(0x01, one);
    OneExport();
  }

  lemma FirstByte(b: byte, rest: seq<byte>)
    ensures FromLe([b] + rest) == b + 256 * FromLe(rest)
  {
    assert ([b] + rest)[1..] == rest;
  }

  lemma VersionOne()
    ensures FromLe([1] + ([0] + ([0] + ([0] + [])))) == 1
  {
    FirstByte(0, []);
    FirstByte(0, [0] + []);
    FirstByte(0, [0] + ([0] + []));
    FirstByte(1, [0] + ([0] + ([0] + [])));
  }

  lemma PreambleIsAHead(s: seq<byte>)
    ensures Headed(PREAMBLE + s)
  {
    assert (PREAMBLE + s)[1..4] == [0x61, 0x73, 0x6d];
    assert (PREAMBLE + s)[4..8] == [1] + ([0] + ([0] + ([0] + [])));
    VersionOne();
  }

  lemma DecodeBody(s: seq<byte>)
    ensures Decode(PREAMBLE + s) == if Sections(s).None? then None else DecodeSections(Sections(s).value)
  {
    assert (PREAMBLE + s)[..8] == PREAMBLE && (PREAMBLE + s)[8..] == s;
    PreambleIsAHead(s);
  }

  lemma DecodeFour(ss: seq<Section>, w: Wasm)
    requires |ss| == 4 && ss[0].id == 1 && ss[1].id == 3 && ss[2].id == 7 && ss[3].id == 10
    requires TypeContent(ss[0].content) == Some(w.types) && FunctionContent(ss[1].content) == Some(w.functions)
    requires ExportContent(ss[2].content) == Some(w.exports) && CodeContent(ss[3].content) == Some(w.bodies)
    requires w.others == []
    ensures DecodeSections(ss) == Some(w)
  {
    assert ss[4..] == [];
  }

  lemma DecodeWritten(n: nat)
    requires n < U32_LIMIT
    ensures DecodeSections(Written(n)) == Some(Intended(n))
  {
    TypeContents();
    ExportContents();
    ContentsParse(n);
    DecodeFour(Written(n), Intended(n));
  }

  lemma FittingModule(n: nat)
    requires |Leb(n)| + 7 * n < U32_LIMIT
    ensures Decode(ModuleBytes(n)) == Some(Intended(n))
  {
    DecodeBody(TYPE_SECTION + (FunctionSection(n) + (EXPORT_SECTION + CodeSection(n))));
    SectionsFit(n);
    DecodeWritten(n);
  }

  // A section whose size field is smaller than what was written leaves bytes behind.
  lemma ShortSection(id: byte, size: nat, content: seq<byte>)
    requires size < |content| && size < U32_LIMIT
    ensures var ss := Sections(Framed(id, size, content));
            ss.Some? ==> |ss.value| >= 2 && ss.value[0] == Section(id, content[..size])
  {
    var s := Framed(id, size, content);
    U32Bits();
    LebRoundTrip(size, 32, content);
    assert s[1..] == Leb(size) + content;
    assert content[size..] != [];
  }

  // Function bodies that are cut off do not decode.
  lemma {:induction false} BodiesCutOff(n: nat, k: nat)
    requires k < 7 * n
    ensures BodiesOf(Bodies(n)[..k], n).None?
  {
    BodiesFromFront(n);
    if k >= 7 {
      var rest := Bodies(n - 1)[..k - 7];
      BodiesCutOff(n - 1, k - 7);
      assert Bodies(n)[..k] == BODY + rest;
      OneBody(rest);
      assert (BODY[1..] + rest)[6..] == rest;
    } else if k >= 1 {
      var rest := BODY[1..k];
      assert Bodies(n)[..k] == [0x06] + rest;
      SmallNumber(0x06, rest);
    }
  }

  lemma CodeCutOff(n: nat, size: nat)
    requires n < U32_LIMIT && size < |Leb(n)| + 7 * n
    ensures CodeContent((Leb(n) + Bodies(n))[..size]).None?
  {
    if size < |Leb(n)| {
      LebPrefixFails(n, size, 32);
      assert (Leb(n) + Bodies(n))[..size] == Leb(n)[..size];
    } else {
      var k := size - |Leb(n)|;
      assert (Leb(n) + Bodies(n))[..size] == Leb(n) + Bodies(n)[..k];
      U32Bits();
      LebRoundTrip(n, 32, Bodies(n)[..k]);
      BodiesCutOff(n, k);
    }
  }

  // The content of a code section whose size field wrapped around is cut off.
  lemma CutOffCode(n: nat)
    requires n < U32_LIMIT <= |Leb(n)| + 7 * n
    ensures var ss := Sections(CodeSection(n));
            ss.Some? ==> ss.value != [] && CodeContent(ss.value[0].content).None?
  {
    var size := Truncated(|Leb(n)| + 7 * n);
    ShortSection(10, size, Leb(n) + Bodies(n));
    CodeCutOff(n, size);
  }

  lemma FourthIsFirst(a: Section, b: Section, c: Section, more: Option<seq<Section>>)
    ensures var r := Consed(a, Consed(b, Consed(c, more)));
            r.Some? ==>
              && more.Some? && |r.value| == 3 + |more.value|
              && (more.value != [] ==> r.value[3] == more.value[0])
  {}

  lemma BrokenCodeSection(n: nat)
    requires |Leb(n)| + n < U32_LIMIT <= |Leb(n)| + 7 * n
    ensures Decode(ModuleBytes(n)).None?
  {
    CutOffCode(n);
    WalkModule(n, CodeSection(n));
    FourthIsFirst(Section(1, TYPE_SECTION[2..]), Section(3, Leb(n) + Zeros(n)), Section(7, EXPORT_SECTION[2..]),
                  Sections(CodeSection(n)));
    DecodeBody(TYPE_SECTION + (FunctionSection(n) + (EXPORT_SECTION + CodeSection(n))));
  }

  // The count of a function section whose size field wrapped around is cut off.
  lemma CutOffFunctions(n: nat, rest: seq<byte>)
    requires n < U32_LIMIT <= |Leb(n)| + n
    ensures var ss := Sections(FunctionSection(n) + rest);
            ss.Some? ==> ss.value != [] && FunctionContent(ss.value[0].content).None?
  {
    var size, content := Truncated(|Leb(n)| + n), Leb(n) + Zeros(n);
    FiveBytes();
    LebLength(n, 5);
    assert size < |Leb(n)|;
    assert FunctionSection(n) + rest == Framed(0x03, size, content + rest);
    ShortSection(0x03, size, content + rest);
    assert (content + rest)[..size] == Leb(n)[..size];
    LebPrefixFails(n, size, 32);
  }

  lemma BrokenFunctionSection(n: nat)
    requires n < U32_LIMIT <= |Leb(n)| + n
    ensures Decode(ModuleBytes(n)).None?
  {
    var tail := FunctionSection(n) + (EXPORT_SECTION + CodeSection(n));
    CutOffFunctions(n, EXPORT_SECTION + CodeSection(n));
    FixedSection(TYPE_SECTION, tail);
    DecodeBody(TYPE_SECTION + tail);
  }

  lemma FiveBytes()
    ensures Pow2(35) == 8 * U32_LIMIT
  {
    U32Bits();
    assert Pow2(35) == 2 * Pow2(34) && Pow2(34) == 2 * Pow2(33) && Pow2(33) == 2 * Pow2(32);
  }

  /**
   For every u32 count the decoder reads the module back, all sections and all bodies, exactly when
   the size of the code section fits in a u32; otherwise the module does not decode at all.
   */
  lemma ModuleDecodesIffSizesFit(n: nat)
    requires n < U32_LIMIT
    ensures Decode(ModuleBytes(n)) == if |Leb(n)| + 7 * n < U32_LIMIT then Some(Intended(n)) else None
  {
    if |Leb(n)| + 7 * n < U32_LIMIT {
      FittingModule(n);
    } else if |Leb(n)| + n < U32_LIMIT {
      BrokenCodeSection(n);
    } else {
      BrokenFunctionSection(n);
    }
  }

  // What validation (section 3.4 of the same specification) asks of the indices.
  predicate WellFormed(w: Wasm) {
    && |w.functions| == |w.bodies|
    && (forall i :: 0 <= i < |w.functions| ==> w.functions[i] < |w.types|)
    && (forall i :: 0 <= i < |w.exports| ==> w.exports[i].kind == 0 && w.exports[i].index < |w.functions|)
  }

  lemma IntendedIsWellFormed(n: nat)
    ensures WellFormed(Intended(n)) <==> n >= 1
  {
    var w := Intended(n);
    assert w.exports[0] == Export(MAIN, 0, 0);
  }

  /**
   The module is one that can be used, with every index in range, exactly when there is a function for
   the export to name and the size of the code section fits in a u32.
   */
  lemma ModuleIsUsableIff(n: nat)
    requires n < U32_LIMIT
    ensures var m := Decode(ModuleBytes(n));
            (m.Some? && WellFormed(m.value)) <==> n >= 1 && |Leb(n)| + 7 * n < U32_LIMIT
  {
    ModuleDecodesIffSizesFit(n);
    IntendedIsWellFormed(n);
  }

  /** With no functions the module decodes, but exports a function that it does not have. */
  lemma EmptyModuleExportsNothing()
    ensures var m := Decode(ModuleBytes(0));
            m.Some? && m.value.functions == [] && m.value.exports == [Export(MAIN, 0, 0)] && !WellFormed(m.value)
  {
    ModuleDecodesIffSizesFit(0);
    IntendedIsWellFormed(0);
  }
}
