/** UTF-8 as section 4 of RFC 3629 defines it, and how a byte stream is cut into whole
    characters. */
module Utf8 {
  import opened Basics

  type Bytes = seq<Byte>

  // ---------------------------------------------------------------- the grammar

  predicate Tail(b: Byte) { 0x80 <= b <= 0xBF }

  predicate In(b: Byte, lo: int, hi: int) { lo <= b <= hi }

  /** The length a first byte announces; 0 when no character starts so. */
  function CharLen(b: Byte): nat {
    if b <= 0x7F then 1
    else if In(b, 0xC2, 0xDF) then 2
    else if In(b, 0xE0, 0xEF) then 3
    else if In(b, 0xF0, 0xF4) then 4
    else 0
  }

  /** The second byte is narrowed after E0, ED, F0 and F4: no long forms, no surrogates and
      nothing past U+10FFFF. */
  predicate Second(first: Byte, b: Byte) {
    if first == 0xE0 then In(b, 0xA0, 0xBF)
    else if first == 0xED then In(b, 0x80, 0x9F)
    else if first == 0xF0 then In(b, 0x90, 0xBF)
    else if first == 0xF4 then In(b, 0x80, 0x8F)
    else Tail(b)
  }

  predicate IsChar(c: Bytes) {
    && |c| > 0 && |c| == CharLen(c[0])
    && (|c| > 1 ==> Second(c[0], c[1]))
    && forall i :: 1 <= i < |c| ==> Tail(c[i])
  }

  /** The length of the character that `s` starts with, or 0. */
  function FirstChar(s: Bytes): (n: nat)
    ensures n <= 4 && n <= |s|
  {
    if s == [] then 0
    else
      var n := CharLen(s[0]);
      if n <= |s| && IsChar(s[..n]) then n else 0
  }

  /** How far `s` is made of whole characters. */
  function ValidUpTo(s: Bytes): (n: nat)
    ensures n <= |s|
  {
    var n := FirstChar(s);
    if n == 0 then 0 else n + ValidUpTo(s[n..])
  }

  predicate Valid(s: Bytes) { ValidUpTo(s) == |s| }

  function Concat(parts: seq<Bytes>): Bytes {
    if parts == [] then [] else parts[0] + Concat(parts[1..])
  }

  /** Well formed means: a sequence of characters of the grammar, one after the other. */
  ghost predicate IsText(s: Bytes) {
    exists chars: seq<Bytes> :: (forall i :: 0 <= i < |chars| ==> IsChar(chars[i])) && Concat(chars) == s
  }

  // ---------------------------------------------------------------- valid means well formed

  lemma FirstOf(c: Bytes, rest: Bytes)
    requires IsChar(c)
    ensures FirstChar(c + rest) == |c| && (c + rest)[|c|..] == rest
  {
    assert (c + rest)[..|c|] == c;
  }

  lemma {:induction false} CharsAreValid(chars: seq<Bytes>)
    requires forall i :: 0 <= i < |chars| ==> IsChar(chars[i])
    ensures Valid(Concat(chars))
  {
    if chars == [] {
      assert FirstChar([]) == 0;
    } else {
      hide IsChar, FirstChar;
      CharsAreValid(chars[1..]);
      FirstOf(chars[0], Concat(chars[1..]));
      NonEmptyChar(chars[0]);
    }
  }

  lemma NonEmptyChar(c: Bytes)
    requires IsChar(c)
    ensures 1 <= |c| <= 4
  {
  }

  lemma {:induction false} ValidSplits(s: Bytes) returns (chars: seq<Bytes>)
    requires Valid(s)
    ensures forall i :: 0 <= i < |chars| ==> IsChar(chars[i])
    ensures Concat(chars) == s
    decreases |s|
  {
    if s == [] {
      chars := [];
    } else {
      hide IsChar;
      var n := FirstChar(s);
      assert n > 0 && IsChar(s[..n]);
      var rest := ValidSplits(s[n..]);
      chars := [s[..n]] + rest;
      assert chars[1..] == rest;
      assert s[..n] + s[n..] == s;
    }
  }

  lemma ValidIffText(s: Bytes)
    ensures Valid(s) <==> IsText(s)
  {
    if Valid(s) {
      var chars := ValidSplits(s);
      assert (forall i :: 0 <= i < |chars| ==> IsChar(chars[i])) && Concat(chars) == s;
    }
    if IsText(s) {
      var chars: seq<Bytes> :| (forall i :: 0 <= i < |chars| ==> IsChar(chars[i])) && Concat(chars) == s;
      CharsAreValid(chars);
    }
  }

  // ---------------------------------------------------------------- characters are code points

  predicate Scalar(cp: nat) { cp <= 0x10FFFF && !(0xD800 <= cp <= 0xDFFF) }

  /** The byte that carries the lowest six bits of a number. */
  function Low(n: nat): Byte { 0x80 + n % 64 }

  /** The table of section 3 of RFC 3629: six bits in every byte but the first. */
  function EncodeChar(cp: nat): (c: Bytes)
    requires Scalar(cp)
    ensures 1 <= |c| <= 4
  {
    if cp < 0x80 then [cp]
    else if cp < 0x800 then [0xC0 + cp / 64, Low(cp)]
    else if cp < 0x1_0000 then [0xE0 + cp / 64 / 64, Low(cp / 64), Low(cp)]
    else [0xF0 + cp / 64 / 64 / 64, Low(cp / 64 / 64), Low(cp / 64), Low(cp)]
  }

  /** One more byte of a code point. */
  function Shift(high: int, b: Byte): int { high * 64 + (b - 0x80) }

  /** What the bytes of a character spell. */
  function CodePoint(c: Bytes): int
    requires 1 <= |c| <= 4
  {
    var first: int := c[0];
    if |c| == 1 then first
    else if |c| == 2 then Shift(first - 0xC0, c[1])
    else if |c| == 3 then Shift(Shift(first - 0xE0, c[1]), c[2])
    else Shift(Shift(Shift(first - 0xF0, c[1]), c[2]), c[3])
  }

  lemma ShiftIs(high: nat, b: Byte)
    requires Tail(b)
    ensures Shift(high, b) >= 0 && Shift(high, b) / 64 == high && Low(Shift(high, b)) == b
  {
  }

  lemma LowIs(n: nat)
    ensures Tail(Low(n)) && Shift(n / 64, Low(n)) == n
  {
  }

  lemma EncodedIsChar(cp: nat)
    requires Scalar(cp)
    ensures IsChar(EncodeChar(cp)) && CodePoint(EncodeChar(cp)) == cp
  {
    LowIs(cp);
    LowIs(cp / 64);
    LowIs(cp / 64 / 64);
    EncodedFits(cp);
    hide Low, Shift;
  }

  lemma EncodedFits(cp: nat)
    requires Scalar(cp)
    ensures |EncodeChar(cp)| == CharLen(EncodeChar(cp)[0])
    ensures |EncodeChar(cp)| > 1 ==> Second(EncodeChar(cp)[0], EncodeChar(cp)[1])
  {
  }

  lemma CharIsEncoded(c: Bytes)
    requires IsChar(c)
    ensures CodePoint(c) >= 0 && Scalar(CodePoint(c)) && EncodeChar(CodePoint(c)) == c
  {
    if |c| == 2 {
      TwoBytes(c);
    } else if |c| == 3 {
      ThreeBytes(c);
    } else if |c| == 4 {
      FourBytes(c);
    }
  }

  lemma TwoBytes(c: Bytes)
    requires IsChar(c) && |c| == 2
    ensures CodePoint(c) >= 0 && Scalar(CodePoint(c)) && EncodeChar(CodePoint(c)) == c
  {
    ShiftIs(c[0] as int - 0xC0, c[1]);
  }

  lemma ThreeBytes(c: Bytes)
    requires IsChar(c) && |c| == 3
    ensures CodePoint(c) >= 0 && Scalar(CodePoint(c)) && EncodeChar(CodePoint(c)) == c
  {
    var first: int := c[0];
    var high := Shift(first - 0xE0, c[1]);
    ShiftIs(first - 0xE0, c[1]);
    assert 0x20 <= high < 0x400 && !(0x360 <= high <= 0x37F);
    ShiftIs(high, c[2]);
    hide Shift, Low, IsChar;
    EncodeThree(Shift(high, c[2]), high, first - 0xE0);
    assert c == [c[0], c[1], c[2]];
  }

  lemma EncodeThree(cp: nat, high: nat, top: nat)
    requires cp / 64 == high && high / 64 == top && 0x20 <= high < 0x400 && !(0x360 <= high <= 0x37F)
    ensures Scalar(cp) && EncodeChar(cp) == [0xE0 + top, Low(high), Low(cp)]
  {
    hide Low;
  }

  lemma FourBytes(c: Bytes)
    requires IsChar(c) && |c| == 4
    ensures CodePoint(c) >= 0 && Scalar(CodePoint(c)) && EncodeChar(CodePoint(c)) == c
  {
    var first: int := c[0];
    var top := Shift(first - 0xF0, c[1]);
    ShiftIs(first - 0xF0, c[1]);
    assert 0x10 <= top <= 0x10F;
    ShiftIs(top, c[2]);
    ShiftIs(Shift(top, c[2]), c[3]);
    hide Shift, Low, IsChar;
    var high := Shift(top, c[2]);
    EncodeFour(Shift(high, c[3]), high, top, first - 0xF0);
    assert c == [c[0], c[1], c[2], c[3]];
  }

  lemma EncodeFour(cp: nat, high: nat, top: nat, first: nat)
    requires cp / 64 == high && high / 64 == top && top / 64 == first && 0x10 <= top <= 0x10F
    ensures Scalar(cp) && EncodeChar(cp) == [0xF0 + first, Low(top), Low(high), Low(cp)]
  {
    hide Low;
    assert 0x400 <= high <= 0x43FF;
  }

  /** The grammar's characters are exactly the encodings of the Unicode scalars, each once. */
  lemma CharIffScalar(c: Bytes)
    ensures IsChar(c) <==> exists cp: nat :: Scalar(cp) && EncodeChar(cp) == c
    ensures forall cp: nat, other: nat :: Scalar(cp) && Scalar(other) && EncodeChar(cp) == c && EncodeChar(other) == c ==> cp == other
  {
    hide IsChar, EncodeChar, CodePoint, Scalar;
    if IsChar(c) { CharIsEncoded(c); }
    forall cp: nat | Scalar(cp) && EncodeChar(cp) == c ensures IsChar(c) && CodePoint(c) == cp { EncodedIsChar(cp); }
  }

  // ---------------------------------------------------------------- cutting a stream

  lemma {:induction false} ValidConcat(a: Bytes, b: Bytes)
    requires Valid(a) && Valid(b)
    ensures Valid(a + b)
    decreases |a|
  {
    if a == [] {
      assert a + b == b;
    } else {
      hide IsChar;
      var n := FirstChar(a);
      assert n > 0;
      ValidConcat(a[n..], b);
      LongerFirst(a, b);
      assert (a + b)[n..] == a[n..] + b;
    }
  }

  lemma LongerFirst(a: Bytes, b: Bytes)
    requires FirstChar(a) > 0
    ensures FirstChar(a + b) == FirstChar(a)
  {
    hide IsChar;
    var n := FirstChar(a);
    assert (a + b)[..n] == a[..n];
  }

  /** The beginning of a character that has not arrived yet; nothing at all counts. */
  ghost predicate Unfinished(s: Bytes) {
    exists c: Bytes :: IsChar(c) && |s| < |c| && s <= c
  }

  lemma UnfinishedShort(s: Bytes)
    requires Unfinished(s)
    ensures |s| <= 3 && FirstChar(s) == 0 && (Valid(s) ==> s == [])
  {
    var c: Bytes :| IsChar(c) && |s| < |c| && s <= c;
    if s != [] { assert s[0] == c[0]; }
  }

  lemma ValidTail(s: Bytes)
    requires Valid(s) && s != []
    ensures 0 < FirstChar(s) && Valid(s[FirstChar(s)..])
  {
    hide FirstChar;
  }

  lemma PrefixValid(s: Bytes, k: nat)
    requires FirstChar(s) > 0 && FirstChar(s) + k <= |s| && Valid(s[FirstChar(s)..][..k])
    ensures Valid(s[..FirstChar(s) + k])
  {
    hide IsChar;
    var n := FirstChar(s);
    var t := s[..n + k];
    assert t[..n] == s[..n] && t[n..] == s[n..][..k];
    assert FirstChar(t) == n;
  }

  lemma ValidUpToStep(s: Bytes)
    requires FirstChar(s) > 0
    ensures ValidUpTo(s) == FirstChar(s) + ValidUpTo(s[FirstChar(s)..])
    ensures s[ValidUpTo(s)..] == s[FirstChar(s)..][ValidUpTo(s[FirstChar(s)..])..]
  {
    hide FirstChar;
  }

  /** However a valid stream is cut, what is left of the first part is an unfinished character,
      and the rest of the stream completes it. */
  lemma {:induction false} CutAnywhere(s: Bytes, later: Bytes)
    requires Valid(s + later)
    ensures var good := ValidUpTo(s);
            Valid(s[..good]) && Unfinished(s[good..]) && Valid(s[good..] + later)
    decreases |s|
  {
    if s == [] {
      assert IsChar([0]) && s + later == later;
      assert s[0..] <= [0];
    } else {
      hide FirstChar, ValidUpTo, Unfinished;
      ValidTail(s + later);
      var n := FirstChar(s + later);
      if n <= |s| {
        SameFirst(s, later);
        DropOfConcat(s, later, n);
        CutAnywhere(s[n..], later);
        ValidUpToStep(s);
        PrefixValid(s, ValidUpTo(s[n..]));
      } else {
        NotYet(s, later);
        NothingValid(s);
        assert s[0..] == s && s[..0] == [];
      }
    }
  }

  lemma DropOfConcat(a: Bytes, b: Bytes, i: nat)
    requires i <= |a|
    ensures (a + b)[i..] == a[i..] + b
  {
  }

  lemma NothingValid(s: Bytes)
    requires FirstChar(s) == 0
    ensures ValidUpTo(s) == 0 && Valid([])
  {
  }

  lemma SameFirst(s: Bytes, later: Bytes)
    requires 0 < FirstChar(s + later) <= |s|
    ensures var n := FirstChar(s + later);
            FirstChar(s) == n && FirstChar(s[..n]) == n
  {
    hide IsChar;
    var n := FirstChar(s + later);
    assert (s + later)[..n] == s[..n] && s[..n][..n] == s[..n];
  }

  lemma NotYet(s: Bytes, later: Bytes)
    requires s != [] && FirstChar(s + later) > |s|
    ensures FirstChar(s) == 0 && Unfinished(s)
  {
    var c := (s + later)[..FirstChar(s + later)];
    assert IsChar(c) && s <= c;
  }

  // ---------------------------------------------------------------- character boundaries

  predicate Boundary(s: Bytes, i: nat) { i == 0 || i == |s| || (i < |s| && !Tail(s[i])) }

  /** Cutting valid text at a boundary leaves valid text on both sides. */
  lemma {:induction false} BoundaryCuts(s: Bytes, i: nat)
    requires Valid(s) && i <= |s| && Boundary(s, i)
    ensures Valid(s[i..]) && Valid(s[..i])
    decreases |s|
  {
    if i == 0 {
      assert s[0..] == s && s[..0] == [];
    } else {
      hide FirstChar, ValidUpTo, Boundary;
      ValidTail(s);
      var n := FirstChar(s);
      InsideIsTail(s, i);
      BoundaryCuts(s[n..], i - n);
      DropTwice(s, n, i);
      PrefixValid(s, i - n);
    }
  }

  lemma DropTwice(s: Bytes, n: nat, i: nat)
    requires n <= i <= |s|
    ensures s[n..][i - n..] == s[i..] && s[n..][..i - n] == s[n..i]
  {
  }

  lemma InsideIsTail(s: Bytes, i: nat)
    requires FirstChar(s) > 0 && 0 < i <= |s| && Boundary(s, i)
    ensures FirstChar(s) <= i && i - FirstChar(s) <= |s[FirstChar(s)..]| && Boundary(s[FirstChar(s)..], i - FirstChar(s))
  {
    var n := FirstChar(s);
    forall j | 1 <= j < n ensures Tail(s[j]) { assert Tail(s[..n][j]); }
  }

  lemma {:induction false} BoundaryIsNear(s: Bytes, i: nat)
    requires Valid(s) && i <= |s|
    ensures exists j :: i <= j <= i + 3 && j <= |s| && Boundary(s, j)
    decreases |s|
  {
    if i == 0 || i == |s| {
      assert Boundary(s, i);
    } else {
      var n := FirstChar(s);
      assert n > 0;
      if i < n {
        StartsAgain(s);
        assert Boundary(s, n);
      } else {
        BoundaryIsNear(s[n..], i - n);
        var j :| i - n <= j <= i - n + 3 && j <= |s[n..]| && Boundary(s[n..], j);
        if j == 0 { StartsAgain(s); }
        assert Boundary(s, n + j);
      }
    }
  }

  lemma StartsAgain(s: Bytes)
    requires Valid(s) && s != []
    ensures Boundary(s, FirstChar(s))
  {
    ValidTail(s);
    var n := FirstChar(s);
    if n < |s| {
      ValidTail(s[n..]);
      assert !Tail(s[n..][0]);
    }
  }
}
