/** The colour glyph container and hexadecimal code points
    (patches/rio-vt/src/ansi/glyph_protocol.rs). */
module GlyphContainer {
  import opened Basics

  type Bytes = seq<Byte>

  const MAX_COLR_GLYPHS: nat := 1024
  const U16: nat := 0x1_0000

  datatype Container = Container(glyphs: seq<Bytes>, colr: Bytes, cpal: Bytes)

  // ---------------------------------------------------------------- the documented encoding

  /** A big-endian 16-bit number. */
  function Big(n: nat): Bytes
    requires n < U16
  {
    [n / 256, n % 256]
  }

  function Block(b: Bytes): Bytes
    requires |b| < U16
  {
    Big(|b|) + b
  }

  predicate Fits(glyphs: seq<Bytes>) { forall i :: 0 <= i < |glyphs| ==> |glyphs[i]| < U16 }

  function Blocks(glyphs: seq<Bytes>): Bytes
    requires Fits(glyphs)
  {
    if glyphs == [] then [] else Block(glyphs[0]) + Blocks(glyphs[1..])
  }

  predicate Encodable(c: Container) {
    && 1 <= |c.glyphs| <= MAX_COLR_GLYPHS && Fits(c.glyphs)
    && 1 <= |c.colr| < U16 && |c.cpal| < U16
  }

  function Encode(c: Container): Bytes
    requires Encodable(c)
  {
    Big(|c.glyphs|) + (Blocks(c.glyphs) + (Block(c.colr) + Block(c.cpal)))
  }

  // ---------------------------------------------------------------- reading it back

  datatype Read<+T> = Read(value: T, rest: Bytes)

  function Number(s: Bytes): Option<Read<nat>> {
    if |s| < 2 then None
    else
      var hi: nat, lo: nat := s[0], s[1];
      var n := hi * 256 + lo;
      Some(Read(n, s[2..]))
  }

  function Take(s: Bytes, n: nat): Option<Read<Bytes>> {
    if |s| < n then None else Some(Read(s[..n], s[n..]))
  }

  function ReadBlock(s: Bytes): Option<Read<Bytes>> {
    var n := Number(s);
    if n.None? then None else Take(n.value.rest, n.value.value)
  }

  function ReadBlocks(n: nat, s: Bytes): Option<Read<seq<Bytes>>> {
    if n == 0 then Some(Read([], s))
    else
      var first := ReadBlock(s);
      if first.None? then None
      else
        var others := ReadBlocks(n - 1, first.value.rest);
        if others.None? then None else Some(Read([first.value.value] + others.value.value, others.value.rest))
  }

  function ReadTables(glyphs: seq<Bytes>, s: Bytes): Option<Container> {
    var colr := ReadBlock(s);
    if colr.None? || colr.value.value == [] then None
    else
      var cpal := ReadBlock(colr.value.rest);
      if cpal.None? || cpal.value.rest != [] then None
      else Some(Container(glyphs, colr.value.value, cpal.value.value))
  }

  function Parse(data: Bytes): Option<Container> {
    var n := Number(data);
    if n.None? || n.value.value == 0 || n.value.value > MAX_COLR_GLYPHS then None
    else
      var glyphs := ReadBlocks(n.value.value, n.value.rest);
      if glyphs.None? then None else ReadTables(glyphs.value.value, glyphs.value.rest)
  }

  // ---------------------------------------------------------------- the object

  class Cursor {
    const data: Bytes
    var pos: nat

    constructor (data: Bytes)
      ensures this.data == data && pos == 0
    {
      this.data, pos := data, 0;
    }

    method Remaining() returns (n: nat)
      ensures n == SatSub(|data|, pos)
    {
      n := SatSub(|data|, pos);
    }

    method U16Be() returns (r: Option<nat>)
      requires pos <= |data|
      modifies this`pos
      ensures pos <= |data| && r.Some? == Number(data[old(pos)..]).Some?
      ensures r.Some? ==> Number(data[old(pos)..]) == Some(Read(r.value, data[pos..]))
      ensures r.Some? <==> old(pos) + 2 <= |data|
      ensures r.Some? ==> r.value / 256 == data[old(pos)] && r.value % 256 == data[old(pos) + 1] && pos == old(pos) + 2
      ensures r.None? ==> pos == old(pos)
    {
      if pos + 2 > |data| {
        return None;
      }
      var hi: nat, lo: nat := data[pos], data[pos + 1];
      pos := pos + 2;
      return Some(hi * 256 + lo);
    }

    method Slice(n: nat) returns (r: Option<Bytes>)
      requires pos <= |data|
      modifies this`pos
      ensures pos <= |data| && r.Some? == Take(data[old(pos)..], n).Some?
      ensures r.Some? ==> Take(data[old(pos)..], n) == Some(Read(r.value, data[pos..]))
      ensures r.Some? <==> old(pos) + n <= |data|
      ensures r.Some? ==> r.value == data[old(pos)..old(pos) + n] && pos == old(pos) + n
      ensures r.None? ==> pos == old(pos)
    {
      if pos + n > |data| {
        return None;
      }
      var s := data[pos..pos + n];
      assert data[pos..][..n] == s && data[pos..][n..] == data[pos + n..];
      pos := pos + n;
      return Some(s);
    }

    /** A length and as many bytes. */
    method TakeBlock() returns (r: Option<Bytes>)
      requires pos <= |data|
      modifies this`pos
      ensures pos <= |data| && r.Some? == ReadBlock(data[old(pos)..]).Some?
      ensures r.Some? ==> ReadBlock(data[old(pos)..]) == Some(Read(r.value, data[pos..]))
    {
      hide Number, Take;
      var n := U16Be();
      if n.None? {
        return None;
      }
      r := Slice(n.value);
    }
  }

  /** The rest of a list of blocks whose first ones were read. */
  function Prepend(read: seq<Bytes>, others: Option<Read<seq<Bytes>>>): Option<Read<seq<Bytes>>> {
    if others.None? then None else Some(Read(read + others.value.value, others.value.rest))
  }

  method ParseColrContainer(data: Bytes) returns (r: Option<Container>)
    ensures r == Parse(data)
  {
    hide Number, ReadBlock, ReadBlocks, Prepend;
    var cur := new Cursor(data);
    assert data[0..] == data;
    var n := cur.U16Be();
    if n.None? || n.value == 0 || n.value > MAX_COLR_GLYPHS {
      return None;
    }
    ghost var all := ReadBlocks(n.value, data[cur.pos..]);
    PrependNothing(all);
    var glyphs: seq<Bytes> := [];
    for i := 0 to n.value
      invariant cur.data == data && cur.pos <= |data|
      invariant Prepend(glyphs, ReadBlocks(n.value - i, data[cur.pos..])) == all
    {
      BlocksStep(n.value - i, data[cur.pos..], glyphs);
      var glyf := cur.TakeBlock();
      if glyf.None? {
        return None;
      }
      glyphs := glyphs + [glyf.value];
    }
    NoBlocks(glyphs, data[cur.pos..]);
    var colr := cur.TakeBlock();
    if colr.None? || |colr.value| == 0 {
      return None;
    }
    var cpal := cur.TakeBlock();
    if cpal.None? {
      return None;
    }
    var left := cur.Remaining();
    if left != 0 {
      return None;
    }
    return Some(Container(glyphs, colr.value, cpal.value));
  }

  lemma PrependNothing(all: Option<Read<seq<Bytes>>>)
    ensures Prepend([], all) == all
  {
    if all.Some? { assert [] + all.value.value == all.value.value; }
  }

  lemma NoBlocks(glyphs: seq<Bytes>, s: Bytes)
    ensures Prepend(glyphs, ReadBlocks(0, s)) == Some(Read(glyphs, s))
  {
    assert glyphs + [] == glyphs;
  }

  lemma BlocksStep(n: nat, s: Bytes, glyphs: seq<Bytes>)
    requires n > 0
    ensures var first := ReadBlock(s);
            Prepend(glyphs, ReadBlocks(n, s))
            == if first.None? then None else Prepend(glyphs + [first.value.value], ReadBlocks(n - 1, first.value.rest))
  {
    hide ReadBlock;
    var first := ReadBlock(s);
    if first.Some? {
      var others := ReadBlocks(n - 1, first.value.rest);
      if others.Some? {
        assert glyphs + ([first.value.value] + others.value.value) == glyphs + [first.value.value] + others.value.value;
      }
    }
  }

  // ---------------------------------------------------------------- mutual inverses

  lemma NumberOfBig(n: nat, rest: Bytes)
    requires n < U16
    ensures Number(Big(n) + rest) == Some(Read(n, rest))
  {
    assert (Big(n) + rest)[2..] == rest;
  }

  lemma BigOfNumber(s: Bytes)
    requires Number(s).Some?
    ensures var r := Number(s).value;
            r.value < U16 && Big(r.value) + r.rest == s
  {
    var hi: nat, lo: nat := s[0], s[1];
    var n := hi * 256 + lo;
    assert n / 256 == s[0] && n % 256 == s[1];
    assert s == [s[0], s[1]] + s[2..];
  }

  lemma ReadOfBlock(b: Bytes, rest: Bytes)
    requires |b| < U16
    ensures ReadBlock(Block(b) + rest) == Some(Read(b, rest))
  {
    hide Number, Big;
    assert Block(b) + rest == Big(|b|) + (b + rest);
    NumberOfBig(|b|, b + rest);
    assert (b + rest)[..|b|] == b && (b + rest)[|b|..] == rest;
  }

  lemma BlockOfRead(s: Bytes)
    requires ReadBlock(s).Some?
    ensures var r := ReadBlock(s).value;
            |r.value| < U16 && Block(r.value) + r.rest == s
  {
    hide Number, Big;
    BigOfNumber(s);
    var n := Number(s).value;
    assert n.rest[..n.value] + n.rest[n.value..] == n.rest;
    assert Big(n.value) + (n.rest[..n.value] + n.rest[n.value..]) == Big(n.value) + n.rest[..n.value] + n.rest[n.value..];
  }

  lemma {:induction false} ReadOfBlocks(glyphs: seq<Bytes>, rest: Bytes)
    requires Fits(glyphs)
    ensures ReadBlocks(|glyphs|, Blocks(glyphs) + rest) == Some(Read(glyphs, rest))
    decreases |glyphs|
  {
    hide ReadBlock, Block;
    if glyphs == [] {
      assert [] + rest == rest;
    } else {
      assert Blocks(glyphs) + rest == Block(glyphs[0]) + (Blocks(glyphs[1..]) + rest);
      ReadOfBlock(glyphs[0], Blocks(glyphs[1..]) + rest);
      ReadOfBlocks(glyphs[1..], rest);
      assert [glyphs[0]] + glyphs[1..] == glyphs;
    }
  }

  lemma {:induction false} BlocksOfRead(n: nat, s: Bytes)
    requires ReadBlocks(n, s).Some?
    ensures var r := ReadBlocks(n, s).value;
            |r.value| == n && Fits(r.value) && Blocks(r.value) + r.rest == s
  {
    hide ReadBlock, Block;
    if n == 0 {
      assert [] + s == s;
    } else {
      var first := ReadBlock(s).value;
      BlockOfRead(s);
      BlocksOfRead(n - 1, first.rest);
      var others := ReadBlocks(n - 1, first.rest).value;
      assert ([first.value] + others.value)[1..] == others.value;
      assert Block(first.value) + (Blocks(others.value) + others.rest)
          == Block(first.value) + Blocks(others.value) + others.rest;
    }
  }

  /** Parsing an encoded container returns it. */
  lemma ParseEncoded(c: Container)
    requires Encodable(c)
    ensures Parse(Encode(c)) == Some(c)
  {
    hide Number, ReadBlock, ReadBlocks, Big, Block, Blocks;
    NumberOfBig(|c.glyphs|, Blocks(c.glyphs) + (Block(c.colr) + Block(c.cpal)));
    ReadOfBlocks(c.glyphs, Block(c.colr) + Block(c.cpal));
    ReadOfBlock(c.colr, Block(c.cpal));
    assert Block(c.cpal) + [] == Block(c.cpal);
    ReadOfBlock(c.cpal, []);
  }

  /** Any accepted byte string is the encoding of what was returned, down to its last byte. */
  lemma EncodeParsed(data: Bytes)
    requires Parse(data).Some?
    ensures Encodable(Parse(data).value) && Encode(Parse(data).value) == data
  {
    hide Number, ReadBlock, ReadBlocks, Big, Block, Blocks;
    BigOfNumber(data);
    var n := Number(data).value;
    BlocksOfRead(n.value, n.rest);
    var glyphs := ReadBlocks(n.value, n.rest).value;
    BlockOfRead(glyphs.rest);
    var colr := ReadBlock(glyphs.rest).value;
    BlockOfRead(colr.rest);
    var cpal := ReadBlock(colr.rest).value;
    assert Block(cpal.value) + [] == Block(cpal.value);
  }

  lemma EncodableIs()
    ensures forall c :: Encodable(c) <==> 1 <= |c.glyphs| <= 1024 && 1 <= |c.colr| <= 0xFFFF && |c.cpal| <= 0xFFFF
                                          && forall i :: 0 <= i < |c.glyphs| ==> |c.glyphs[i]| <= 0xFFFF
  {
  }

  /** So a byte string is accepted exactly when it encodes a container, and it encodes one only. */
  lemma AcceptedIff(data: Bytes)
    ensures Parse(data).Some? <==> exists c :: Encodable(c) && Encode(c) == data
    ensures forall c, d :: Encodable(c) && Encodable(d) && Encode(c) == data && Encode(d) == data ==> c == d
    ensures forall c :: Encodable(c) <==> 1 <= |c.glyphs| <= 1024 && 1 <= |c.colr| <= 0xFFFF && |c.cpal| <= 0xFFFF
                                          && forall i :: 0 <= i < |c.glyphs| ==> |c.glyphs[i]| <= 0xFFFF
  {
    EncodableIs();
    hide Parse, Encode, Encodable;
    if Parse(data).Some? { EncodeParsed(data); }
    forall c | Encodable(c) && Encode(c) == data ensures Parse(data) == Some(c) { ParseEncoded(c); }
  }

  /** The bytes of a container with one glyph: the number of glyphs, the glyph behind its length,
      then the two tables behind theirs, every number with its high byte first. */
  lemma OneGlyphLayout(glyph: Bytes, colr: Bytes, cpal: Bytes)
    requires |glyph| < U16 && 0 < |colr| < U16 && |cpal| < U16
    ensures Encode(Container([glyph], colr, cpal))
         == [0, 1]
            + [|glyph| / 256, |glyph| % 256] + glyph
            + [|colr| / 256, |colr| % 256] + colr
            + [|cpal| / 256, |cpal| % 256] + cpal
  {
    assert [glyph][1..] == [];
    assert Blocks([glyph]) == Block(glyph) + Blocks([]);
  }

  /** More glyphs lie one behind the other, in order. */
  lemma {:induction false} BlocksConcat(a: seq<Bytes>, b: seq<Bytes>)
    requires Fits(a) && Fits(b)
    ensures Fits(a + b) && Blocks(a + b) == Blocks(a) + Blocks(b)
    decreases |a|
  {
    hide Block;
    if a == [] {
      assert a + b == b;
    } else {
      BlocksConcat(a[1..], b);
      assert (a + b)[1..] == a[1..] + b;
    }
  }

  // ---------------------------------------------------------------- code points in hexadecimal

  predicate Space(b: Byte) { b == 0x20 || b == 0x09 || b == 0x0A || b == 0x0D }

  function TrimLeft(s: Bytes): Bytes { if s != [] && Space(s[0]) then TrimLeft(s[1..]) else s }

  function TrimRight(s: Bytes): Bytes { if s != [] && Space(s[|s| - 1]) then TrimRight(s[..|s| - 1]) else s }

  function Trim(s: Bytes): Bytes { TrimRight(TrimLeft(s)) }

  method TrimBytes(data: Bytes) returns (r: Bytes)
    ensures r == Trim(data)
  {
    var start, end := 0, |data|;
    assert data[0..] == data;
    while start < end && Space(data[start])
      invariant start <= end == |data|
      invariant TrimLeft(data[start..]) == TrimLeft(data)
    {
      assert data[start..][1..] == data[start + 1..];
      start := start + 1;
    }
    assert data[start..end] == data[start..] == TrimLeft(data);
    while end > start && Space(data[end - 1])
      invariant start <= end <= |data|
      invariant TrimRight(data[start..end]) == Trim(data)
    {
      assert data[start..end][..end - start - 1] == data[start..end - 1];
      end := end - 1;
    }
    return data[start..end];
  }

  function Digit(b: Byte): Option<nat> {
    if 0x30 <= b <= 0x39 then Some(b - 0x30)
    else if 0x61 <= b <= 0x66 then Some(b - 0x61 + 10)
    else if 0x41 <= b <= 0x46 then Some(b - 0x41 + 10)
    else None
  }

  /** The number a string of hexadecimal digits writes. */
  function Value(s: Bytes): Option<nat> {
    if s == [] then Some(0)
    else
      var high, low := Value(s[..|s| - 1]), Digit(s[|s| - 1]);
      if high.Some? && low.Some? then Some(high.value * 16 + low.value) else None
  }

  predicate IsScalar(cp: nat) { cp <= 0x10FFFF && !(0xD800 <= cp <= 0xDFFF) }

  function HexCp(raw: Bytes): Option<nat> {
    var s := Trim(raw);
    if s == [] || |s| > 6 then None
    else
      var v := Value(s);
      if v.Some? && IsScalar(v.value) then v else None
  }

  method ParseHexCp(raw: Bytes) returns (r: Option<nat>)
    ensures r == HexCp(raw)
  {
    var s := TrimBytes(raw);
    if s == [] || |s| > 6 {
      return None;
    }
    var out: nat := 0;
    for i := 0 to |s|
      invariant Value(s[..i]) == Some(out)
    {
      assert s[..i + 1][..i] == s[..i];
      var d := Digit(s[i]);
      if d.None? {
        NoValue(s, i);
        return None;
      }
      out := out * 16 + d.value;
    }
    assert s[..|s|] == s;
    if out > 0x10FFFF || 0xD800 <= out <= 0xDFFF {
      return None;
    }
    return Some(out);
  }

  lemma {:induction false} NoValue(s: Bytes, i: nat)
    requires i < |s| && Digit(s[i]).None?
    ensures Value(s).None?
    decreases |s|
  {
    if i == |s| - 1 {
    } else {
      NoValue(s[..|s| - 1], i);
    }
  }

  function HexDigit(d: nat): Byte
    requires d < 16
  {
    if d < 10 then 0x30 + d else 0x61 + d - 10
  }

  /** Lowercase, without leading zeros. */
  function Print(n: nat): Bytes {
    if n < 16 then [HexDigit(n)] else Print(n / 16) + [HexDigit(n % 16)]
  }

  lemma {:induction false} ValueOfPrint(n: nat)
    ensures Value(Print(n)) == Some(n)
    ensures forall i :: 0 <= i < |Print(n)| ==> !Space(Print(n)[i])
    ensures |Print(n)| > 0
  {
    if n < 16 {
      assert [HexDigit(n)][..0] == [];
    } else {
      ValueOfPrint(n / 16);
      assert Print(n)[..|Print(n)| - 1] == Print(n / 16);
    }
  }

  function Power16(k: nat): nat { if k == 0 then 1 else 16 * Power16(k - 1) }

  lemma {:induction false} PrintLength(n: nat, k: nat)
    requires k > 0 && n < Power16(k)
    ensures |Print(n)| <= k
    decreases k
  {
    if n < 16 {
    } else {
      PrintLength(n / 16, k - 1);
    }
  }

  lemma TrimPlain(s: Bytes)
    requires forall i :: 0 <= i < |s| ==> !Space(s[i])
    ensures Trim(s) == s
  {
  }

  /** Parsing inverts printing on every Unicode scalar, and rejects what is printed of any other
      number. */
  lemma HexRoundTrip(cp: nat)
    requires cp < Power16(6)
    ensures HexCp(Print(cp)) == if IsScalar(cp) then Some(cp) else None
  {
    hide Space, Value, Print, Trim;
    ValueOfPrint(cp);
    PrintLength(cp, 6);
    TrimPlain(Print(cp));
  }

  // ---------------------------------------------------------------- how else a code point may be written

  /** The other case of a letter. */
  function Upper(b: Byte): Byte { if 0x61 <= b <= 0x7A then b - 0x20 else b }

  function UpperAll(s: Bytes): Bytes { seq(|s|, i requires 0 <= i < |s| => Upper(s[i])) }

  lemma {:induction false} UpperValue(s: Bytes)
    ensures Value(UpperAll(s)) == Value(s)
  {
    if s == [] {
    } else {
      UpperValue(s[..|s| - 1]);
      assert UpperAll(s)[..|s| - 1] == UpperAll(s[..|s| - 1]);
    }
  }

  lemma {:induction false} UpperTrimLeft(s: Bytes)
    ensures TrimLeft(UpperAll(s)) == UpperAll(TrimLeft(s))
  {
    if s != [] && Space(s[0]) {
      UpperTrimLeft(s[1..]);
      assert UpperAll(s)[1..] == UpperAll(s[1..]);
    } else {
      assert s == [] || UpperAll(s)[0] == Upper(s[0]);
    }
  }

  lemma {:induction false} UpperTrimRight(s: Bytes)
    ensures TrimRight(UpperAll(s)) == UpperAll(TrimRight(s))
  {
    if s != [] && Space(s[|s| - 1]) {
      UpperTrimRight(s[..|s| - 1]);
      assert UpperAll(s)[..|s| - 1] == UpperAll(s[..|s| - 1]);
    } else {
      assert s == [] || UpperAll(s)[|s| - 1] == Upper(s[|s| - 1]);
    }
  }

  /** Capital digits mean the same as small ones. */
  lemma CaseIgnored(s: Bytes)
    ensures HexCp(UpperAll(s)) == HexCp(s)
  {
    hide TrimLeft, TrimRight, Value;
    UpperTrimLeft(s);
    UpperTrimRight(TrimLeft(s));
    UpperValue(Trim(s));
  }

  lemma {:induction false} TrimLeftPads(pad: Bytes, s: Bytes)
    requires forall i :: 0 <= i < |pad| ==> pad[i] in {0x20, 0x09, 0x0A, 0x0D}
    ensures TrimLeft(pad + s) == TrimLeft(s)
    decreases |pad|
  {
    if pad == [] {
      assert pad + s == s;
    } else {
      TrimLeftPads(pad[1..], s);
      assert (pad + s)[1..] == pad[1..] + s;
    }
  }

  lemma {:induction false} TrimRightPads(s: Bytes, pad: Bytes)
    requires forall i :: 0 <= i < |pad| ==> pad[i] in {0x20, 0x09, 0x0A, 0x0D}
    ensures TrimRight(s + pad) == TrimRight(s)
    decreases |pad|
  {
    if pad == [] {
      assert s + pad == s;
    } else {
      TrimRightPads(s, pad[..|pad| - 1]);
      assert (s + pad)[..|s + pad| - 1] == s + pad[..|pad| - 1];
    }
  }

  /** Blanks, tabs and line ends around the digits do not matter; anywhere else they make the whole
      unreadable, as does anything that is not a digit. */
  lemma BlanksIgnored(before: Bytes, digits: Bytes, after: Bytes)
    requires forall i :: 0 <= i < |before| ==> before[i] in {0x20, 0x09, 0x0A, 0x0D}
    requires forall i :: 0 <= i < |after| ==> after[i] in {0x20, 0x09, 0x0A, 0x0D}
    requires digits != [] && digits[0] !in {0x20, 0x09, 0x0A, 0x0D} && digits[|digits| - 1] !in {0x20, 0x09, 0x0A, 0x0D}
    ensures HexCp(before + digits + after) == HexCp(digits)
    ensures (exists i :: 0 <= i < |digits|
               && !(0x30 <= digits[i] <= 0x39) && !(0x41 <= digits[i] <= 0x46) && !(0x61 <= digits[i] <= 0x66)) ==>
              HexCp(digits) == None
    ensures |digits| > 6 ==> HexCp(digits) == None
  {
    assert before + digits + after == before + (digits + after);
    TrimLeftPads(before, digits + after);
    assert (digits + after)[0] == digits[0];
    assert TrimLeft(digits + after) == digits + after;
    TrimRightPads(digits, after);
    assert Trim(digits) == digits;
    if i :| 0 <= i < |digits|
            && !(0x30 <= digits[i] <= 0x39) && !(0x41 <= digits[i] <= 0x46) && !(0x61 <= digits[i] <= 0x66)
    {
      NoValue(digits, i);
    }
  }

  /** Nor do leading zeros, up to six digits in all. */
  lemma LeadingZero(s: Bytes)
    requires s != [] && |s| < 6 && forall i :: 0 <= i < |s| ==> !Space(s[i])
    ensures HexCp([0x30] + s) == HexCp(s)
  {
    hide Trim, Value;
    TrimPlain(s);
    TrimPlain([0x30] + s);
    ZeroValue(s);
  }

  lemma {:induction false} ZeroValue(s: Bytes)
    ensures Value([0x30] + s) == Value(s)
  {
    var padded := [0x30] + s;
    if s == [] {
      assert padded[..0] == [];
    } else {
      ZeroValue(s[..|s| - 1]);
      assert padded[..|s|] == [0x30] + s[..|s| - 1];
    }
  }
}
