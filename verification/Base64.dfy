/** Base 64 as defined in section 4 of RFC 4648, and the encoder and decoder of src/Base64.cc. */
module Base64Codes {

  type byte = bv8

  const PAD: byte := 0x3d

  /** The alphabet of RFC 4648: A-Z, a-z, 0-9, + and /, as ASCII codes. */
  function Symbol(k: byte): byte
    requires k < 64
  {
    if k < 26 then 0x41 + k
    else if k < 52 then 0x61 + (k - 26)
    else if k < 62 then 0x30 + (k - 52)
    else if k == 62 then 0x2b else 0x2f
  }

  /** The alphabet is the upper case letters, the lower case letters and the digits, in order, and plus and slash. */
  lemma SymbolsIncrease(k: byte)
    requires k < 63
    ensures k != 25 && k != 51 && k < 61 ==> Symbol(k + 1) == Symbol(k) + 1
    ensures Symbol(0) as char == 'A' && Symbol(26) as char == 'a' && Symbol(52) as char == '0'
    ensures Symbol(25) as char == 'Z' && Symbol(51) as char == 'z' && Symbol(61) as char == '9'
    ensures Symbol(62) as char == '+' && Symbol(63) as char == '/' && PAD as char == '='
  {
  }

  /** The position of a character in the alphabet, or 64 when it is not there. */
  function Index(c: byte): byte {
    if 0x41 <= c <= 0x5a then c - 0x41
    else if 0x61 <= c <= 0x7a then c - 0x61 + 26
    else if 0x30 <= c <= 0x39 then c - 0x30 + 52
    else if c == 0x2b then 62 else if c == 0x2f then 63 else 64
  }

  /** Letters, digits, plus and slash. */
  predicate IsBase64(c: byte) {
    0x30 <= c <= 0x39 || 0x41 <= c <= 0x5a || 0x61 <= c <= 0x7a || c == 0x2b || c == 0x2f
  }

  lemma IndexOfSymbol(k: byte)
    requires k < 64
    ensures Index(Symbol(k)) == k && IsBase64(Symbol(k)) && Symbol(k) != PAD
  {
  }

  lemma SymbolOfIndex(c: byte)
    ensures IsBase64(c) <==> Index(c) < 64
    ensures IsBase64(c) ==> Symbol(Index(c)) == c
  {
  }

  // -------- the standard --------

  /** Three bytes side by side as one group of 24 bits. */
  function Group(a: byte, b: byte, c: byte): bv24 {
    ((a as bv24) << 16) | ((b as bv24) << 8) | (c as bv24)
  }

  /** One of the four sextets of a group, from the most significant one on. */
  function Sextet(g: bv24, k: nat): (r: byte)
    requires k < 4
    ensures r < 64
  {
    if k == 0 then ((g >> 18) & 63) as byte
    else if k == 1 then ((g >> 12) & 63) as byte
    else if k == 2 then ((g >> 6) & 63) as byte
    else (g & 63) as byte
  }

  /** The first n symbols of a group. */
  function Symbols(g: bv24, n: nat): (r: seq<byte>)
    requires n <= 4
    ensures |r| == n && forall k :: 0 <= k < n ==> r[k] == Symbol(Sextet(g, k))
  {
    seq(n, k requires 0 <= k < n => Symbol(Sextet(g, k)))
  }

  /** Section 4 of RFC 4648: groups of 24 bits from the left, the last one filled with zero bits and padding. */
  function Rfc4648(s: seq<byte>): seq<byte> {
    if s == [] then []
    else if |s| == 1 then Symbols(Group(s[0], 0, 0), 2) + [PAD, PAD]
    else if |s| == 2 then Symbols(Group(s[0], s[1], 0), 3) + [PAD]
    else Symbols(Group(s[0], s[1], s[2]), 4) + Rfc4648(s[3..])
  }

  lemma {:induction false} EncodedLength(s: seq<byte>)
    ensures |Rfc4648(s)| == 4 * ((|s| + 2) / 3)
  {
    if |s| >= 3 {
      EncodedLength(s[3..]);
    }
  }

  // -------- the encoder --------

  /** The four sextets as the encoder computes them. */
  function Packed(a: byte, b: byte, c: byte): (byte, byte, byte, byte) {
    (Packed0(a), Packed1(a, b), Packed2(b, c), Packed3(c))
  }

  function Packed0(a: byte): byte {
    (a & 0xfc) >> 2
  }

  function Packed1(a: byte, b: byte): byte {
    ((a & 0x03) << 4) + ((b & 0xf0) >> 4)
  }

  function Packed2(b: byte, c: byte): byte {
    ((b & 0x0f) << 2) + ((c & 0xc0) >> 6)
  }

  function Packed3(c: byte): byte {
    c & 0x3f
  }

  lemma PackedIsSextets(a: byte, b: byte, c: byte)
    ensures
      var g, p := Group(a, b, c), Packed(a, b, c);
      p.0 == Sextet(g, 0) && p.1 == Sextet(g, 1) && p.2 == Sextet(g, 2) && p.3 == Sextet(g, 3)
  {
  }

  method Pack(charArray3: array<byte>, charArray4: array<byte>)
    requires charArray3.Length == 3 && charArray4.Length == 4 && charArray3 != charArray4
    modifies charArray4
    ensures forall k :: 0 <= k < 4 ==> charArray4[k] == Sextet(Group(charArray3[0], charArray3[1], charArray3[2]), k)
  {
    hide Group, Sextet, Packed0, Packed1, Packed2, Packed3;
    PackedIsSextets(charArray3[0], charArray3[1], charArray3[2]);
    charArray4[0] := Packed0(charArray3[0]);
    charArray4[1] := Packed1(charArray3[0], charArray3[1]);
    charArray4[2] := Packed2(charArray3[1], charArray3[2]);
    charArray4[3] := Packed3(charArray3[2]);
  }

  /** Appends the first n symbols of the four. */
  method Emit(charArray4: array<byte>, n: nat, ghost g: bv24, result: seq<byte>) returns (r: seq<byte>)
    requires charArray4.Length == 4 && n <= 4
    requires forall k :: 0 <= k < 4 ==> charArray4[k] == Sextet(g, k)
    ensures r == result + Symbols(g, n)
  {
    hide Sextet, Symbol;
    r := result;
    for j := 0 to n
      invariant r == result + Symbols(g, j)
    {
      r := r + [Symbol(charArray4[j])];
    }
  }

  lemma RfcStep(s: seq<byte>)
    requires |s| >= 3
    ensures Rfc4648(s) == Symbols(Group(s[0], s[1], s[2]), 4) + Rfc4648(s[3..])
  {
  }

  lemma RfcEnd(s: seq<byte>)
    requires |s| < 3
    ensures s == [] ==> Rfc4648(s) == []
    ensures |s| == 1 ==> Rfc4648(s) == Symbols(Group(s[0], 0, 0), 2) + [PAD, PAD]
    ensures |s| == 2 ==> Rfc4648(s) == Symbols(Group(s[0], s[1], 0), 3) + [PAD]
  {
  }

  method EncodeGroup(ghost rest: seq<byte>, charArray3: array<byte>, charArray4: array<byte>, result: seq<byte>)
    returns (r: seq<byte>)
    requires |rest| >= 3 && charArray3.Length == 3 && charArray4.Length == 4 && charArray3 != charArray4
    requires forall k :: 0 <= k < 3 ==> charArray3[k] == rest[k]
    modifies charArray4
    ensures r == result + Symbols(Group(rest[0], rest[1], rest[2]), 4)
  {
    hide Group, Sextet, Symbol, Rfc4648;
    Pack(charArray3, charArray4);
    r := Emit(charArray4, 4, Group(rest[0], rest[1], rest[2]), result);
  }

  /** Appends the encoding to what is already in the result. */
  method Encode(bytes: seq<byte>, result: seq<byte>) returns (r: seq<byte>)
    ensures r == result + Rfc4648(bytes)
  {
    hide Rfc4648, Group, Sextet, Symbol;
    r := result;
    var i := 0;
    var charArray3, charArray4 := new byte[3], new byte[4];
    var next := 0;
    while next < |bytes|
      invariant i <= next <= |bytes| && i < 3
      invariant forall k :: 0 <= k < i ==> charArray3[k] == bytes[next - i + k]
      invariant r + Rfc4648(bytes[next - i..]) == result + Rfc4648(bytes)
    {
      charArray3[i] := bytes[next];
      i, next := i + 1, next + 1;
      if i == 3 {
        ghost var rest := bytes[next - 3..];
        RfcStep(rest);
        assert rest[3..] == bytes[next..];
        r := EncodeGroup(rest, charArray3, charArray4, r);
        i := 0;
      }
    }
    r := EncodeTail(bytes[next - i..], i, charArray3, charArray4, r);
  }

  /** The last one or two bytes, filled up with zeros and padding. */
  method EncodeTail(ghost rest: seq<byte>, i: nat, charArray3: array<byte>, charArray4: array<byte>, result: seq<byte>)
    returns (r: seq<byte>)
    requires i < 3 && charArray3.Length == 3 && charArray4.Length == 4 && charArray3 != charArray4
    requires |rest| == i && forall k :: 0 <= k < i ==> charArray3[k] == rest[k]
    modifies charArray3, charArray4
    ensures r == result + Rfc4648(rest)
  {
    hide Rfc4648, Group, Sextet, Symbol;
    r := result;
    RfcEnd(rest);
    if i > 0 {
      for j := i to 3
        invariant forall k :: 0 <= k < i ==> charArray3[k] == rest[k]
        invariant forall k :: i <= k < j ==> charArray3[k] == 0
      {
        charArray3[j] := 0;
      }
      Pack(charArray3, charArray4);
      ghost var g := Group(charArray3[0], charArray3[1], charArray3[2]);
      r := Emit(charArray4, i + 1, g, r);
      ghost var body := r;
      var n := i;
      while n < 3
        invariant i <= n <= 3 && r == body + [PAD, PAD][..n - i]
      {
        r := r + [PAD];
        n := n + 1;
      }
    }
  }

  // -------- the decoder --------

  /** The three bytes as the decoder computes them from four positions in the alphabet. */
  function Unpacked(a: byte, b: byte, c: byte, d: byte): (r: seq<byte>)
    ensures |r| == 3
  {
    [(a << 2) + ((b & 0x30) >> 4), ((b & 0xf) << 4) + ((c & 0x3c) >> 2), ((c & 0x3) << 6) + d]
  }

  lemma UnpackedSextets(a: byte, b: byte, c: byte)
    ensures
      var g := Group(a, b, c);
      Unpacked(Sextet(g, 0), Sextet(g, 1), Sextet(g, 2), Sextet(g, 3)) == [a, b, c]
  {
    var p := Packed(a, b, c);
    PackedIsSextets(a, b, c);
    UnpackedPacked(a, b, c);
  }

  lemma UnpackedPacked(a: byte, b: byte, c: byte)
    ensures var p := Packed(a, b, c); Unpacked(p.0, p.1, p.2, p.3) == [a, b, c]
  {
  }

  /** With two symbols the first byte, and with three the first two, do not depend on the positions that are missing. */
  lemma UnpackedTail(a: byte, b: byte, c: byte, d: byte, c': byte, d': byte)
    ensures Unpacked(a, b, c, d)[0] == Unpacked(a, b, c', d')[0]
    ensures Unpacked(a, b, c, d)[1] == Unpacked(a, b, c, d')[1]
  {
  }

  /** The number of characters of the alphabet in front, up to n. */
  function Lead(s: seq<byte>, n: nat): (r: nat)
    ensures r <= n && r <= |s| && forall k :: 0 <= k < r ==> IsBase64(s[k])
    ensures r < n && r < |s| ==> !IsBase64(s[r])
  {
    if n == 0 || s == [] || !IsBase64(s[0]) then 0
    else
      var r := Lead(s[1..], n - 1);
      assert forall k :: 0 < k <= r ==> s[k] == s[1..][k - 1];
      r + 1
  }

  /** What a text decodes to: groups of four, then what two or three characters before the end or another one give. */
  function Decoded(s: seq<byte>): seq<byte> {
    var n := Lead(s, 4);
    if n == 4 then Unpacked(Index(s[0]), Index(s[1]), Index(s[2]), Index(s[3])) + Decoded(s[4..])
    else if n == 3 then Unpacked(Index(s[0]), Index(s[1]), Index(s[2]), 64)[..2]
    else if n == 2 then Unpacked(Index(s[0]), Index(s[1]), 64, 64)[..1]
    else []
  }

  lemma LeadOfSymbols(g: bv24, n: nat, rest: seq<byte>)
    requires 2 <= n <= 4 && (n < 4 ==> rest != [] && rest[0] == PAD)
    ensures Lead(Symbols(g, n) + rest, 4) == n
  {
    var s := Symbols(g, n) + rest;
    forall k | 0 <= k < n ensures IsBase64(s[k]) {
      IndexOfSymbol(Sextet(g, k));
    }
    assert n < 4 ==> s[n] == PAD;
  }

  lemma IndexAt(g: bv24, n: nat, rest: seq<byte>, k: nat)
    requires k < n <= 4
    ensures Index((Symbols(g, n) + rest)[k]) == Sextet(g, k)
  {
    IndexOfSymbol(Sextet(g, k));
  }

  /** What a group of symbols decodes to, the last one being followed by padding. */
  lemma DecodedSymbols(a: byte, b: byte, c: byte, n: nat, rest: seq<byte>)
    requires 2 <= n <= 4 && (n < 4 ==> rest != [] && rest[0] == PAD)
    ensures
      Decoded(Symbols(Group(a, b, c), n) + rest) == if n == 4 then [a, b, c] + Decoded(rest) else [a, b, c][..n - 1]
  {
    var g := Group(a, b, c);
    var s := Symbols(g, n) + rest;
    UnpackedSextets(a, b, c);
    LeadOfSymbols(g, n, rest);
    forall k: nat | k < n ensures Index(s[k]) == Sextet(g, k) {
      IndexAt(g, n, rest, k);
    }
    UnpackedTail(Sextet(g, 0), Sextet(g, 1), Sextet(g, 2), Sextet(g, 3), 64, 64);
    UnpackedTail(Sextet(g, 0), Sextet(g, 1), Sextet(g, 2), Sextet(g, 3), Sextet(g, 2), 64);
    hide Group, Sextet, Symbols, Unpacked, Symbol, Index;
    assert n == 4 ==> s[4..] == rest;
  }

  /** Decoding what was encoded gives the bytes back, with both kinds of padding and without. */
  lemma {:induction false} DecodeOfEncode(s: seq<byte>)
    ensures Decoded(Rfc4648(s)) == s
  {
    hide Decoded, Group, Rfc4648, Symbols;
    if |s| >= 3 {
      DecodeOfEncode(s[3..]);
      RfcStep(s);
      DecodedSymbols(s[0], s[1], s[2], 4, Rfc4648(s[3..]));
      assert s == [s[0], s[1], s[2]] + s[3..];
    } else {
      RfcEnd(s);
      DecodedNothing();
      if |s| == 2 {
        DecodedSymbols(s[0], s[1], 0, 3, [PAD]);
      } else if |s| == 1 {
        DecodedSymbols(s[0], 0, 0, 2, [PAD, PAD]);
      }
    }
  }

  lemma DecodedNothing()
    ensures Decoded([]) == []
  {
  }

  // -------- which texts are encodings --------

  /** Groups of four symbols; a last one may be short, and is then padded and has zeros in the bits it leaves over. */
  predicate Canonical(s: seq<byte>) {
    s == [] ||
    (|s| >= 4 &&
      if Lead(s, 4) == 4 then Canonical(s[4..])
      else
        && |s| == 4 && s[3] == PAD
        && if Lead(s, 4) == 3 then Index(s[2]) & 3 == 0
           else Lead(s, 4) == 2 && s[2] == PAD && Index(s[1]) & 15 == 0)
  }

  lemma CanonicalNothing()
    ensures Canonical([])
  {
  }

  lemma CanonicalStep(s: seq<byte>)
    requires |s| >= 4 && Lead(s, 4) == 4
    ensures Canonical(s) <==> Canonical(s[4..])
  {
  }

  lemma CanonicalEnd(s: seq<byte>)
    requires s != [] && Lead(s, 4) < 4
    ensures Canonical(s) <==>
      && |s| == 4 && s[3] == PAD
      && ((Lead(s, 4) == 3 && Index(s[2]) & 3 == 0) || (Lead(s, 4) == 2 && s[2] == PAD && Index(s[1]) & 15 == 0))
  {
  }

  /** Bits that a short group does not fill are zero. */
  lemma BitsLeftOver(a: byte, b: byte)
    ensures Sextet(Group(a, b, 0), 2) & 3 == 0
    ensures Sextet(Group(a, 0, 0), 1) & 15 == 0
  {
  }

  lemma {:induction false} RfcIsCanonical(s: seq<byte>)
    ensures Canonical(Rfc4648(s))
  {
    hide Canonical, Group, Sextet, Symbols, Rfc4648, Lead, Index, Symbol;
    if |s| >= 3 {
      RfcStep(s);
      RfcIsCanonical(s[3..]);
      var g := Group(s[0], s[1], s[2]);
      var t := Symbols(g, 4) + Rfc4648(s[3..]);
      LeadOfSymbols(g, 4, Rfc4648(s[3..]));
      CanonicalStep(t);
      assert t[4..] == Rfc4648(s[3..]);
    } else if s == [] {
      RfcEnd(s);
      CanonicalNothing();
    } else {
      RfcEnd(s);
      var b := if |s| == 2 then s[1] else 0;
      var g, n, pads := Group(s[0], b, 0), |s| + 1, if |s| == 2 then [PAD] else [PAD, PAD];
      LeadOfSymbols(g, n, pads);
      IndexAt(g, n, pads, n - 1);
      BitsLeftOver(s[0], b);
      CanonicalEnd(Symbols(g, n) + pads);
    }
  }

  lemma FirstSextet(a: byte, b: byte)
    requires a < 64 && b < 64
    ensures (((a << 2) + ((b & 0x30) >> 4)) & 0xfc) >> 2 == a
  {
  }

  lemma SecondSextet(a: byte, b: byte, c: byte)
    requires a < 64 && b < 64
    ensures ((((a << 2) + ((b & 0x30) >> 4)) & 0x03) << 4) + (((((b & 0xf) << 4) + ((c & 0x3c) >> 2)) & 0xf0) >> 4) == b
    ensures b & 15 == 0 ==> (((a << 2) + ((b & 0x30) >> 4)) & 0x03) << 4 == b
  {
  }

  lemma ThirdSextet(b: byte, c: byte, d: byte)
    requires c < 64 && d < 64
    ensures ((((b & 0xf) << 4) + ((c & 0x3c) >> 2)) & 0x0f) << 2 == c & 0x3c
    ensures (((c & 0x3) << 6) + d) & 0xc0 == (c & 0x3) << 6
    ensures (c & 0x3c) + (((c & 0x3) << 6) >> 6) == c
    ensures c & 3 == 0 ==> c & 0x3c == c
  {
  }

  lemma FourthSextet(c: byte, d: byte)
    requires d < 64
    ensures (((c & 0x3) << 6) + d) & 0x3f == d
  {
  }

  lemma NoBits(a: byte)
    ensures (0 as byte & 0xf0) >> 4 == 0 && (0 as byte & 0xc0) >> 6 == 0 && a + 0 == a
  {
  }

  /** Packing undoes unpacking; with two or three symbols it does when the bits left over are zero. */
  lemma SextetsOfUnpacked(a: byte, b: byte, c: byte, d: byte)
    requires a < 64 && b < 64 && c < 64 && d < 64
    ensures var u := Unpacked(a, b, c, d); Packed(u[0], u[1], u[2]) == (a, b, c, d)
  {
    FirstSextet(a, b);
    SecondSextet(a, b, c);
    ThirdSextet(b, c, d);
    FourthSextet(c, d);
  }

  lemma ThreeSextets(a: byte, b: byte, c: byte)
    requires a < 64 && b < 64 && c < 64 && c & 3 == 0
    ensures var u := Unpacked(a, b, c, 64); var p := Packed(u[0], u[1], 0); p.0 == a && p.1 == b && p.2 == c
  {
    FirstSextet(a, b);
    SecondSextet(a, b, c);
    ThirdSextet(b, c, 0);
    NoBits(c);
  }

  lemma TwoSextets(a: byte, b: byte)
    requires a < 64 && b < 64 && b & 15 == 0
    ensures var u := Unpacked(a, b, 64, 64); var p := Packed(u[0], 0, 0); p.0 == a && p.1 == b
  {
    FirstSextet(a, b);
    SecondSextet(a, b, 64);
    NoBits(b);
  }

  /** Symbols of sextets that are the positions of the given characters are those characters. */
  lemma SymbolsAre(g: bv24, s: seq<byte>, n: nat)
    requires n <= 4 && n <= |s| && forall k :: 0 <= k < n ==> IsBase64(s[k]) && Sextet(g, k) == Index(s[k])
    ensures Symbols(g, n) == s[..n]
  {
    hide Sextet, Index, Symbol;
    forall k | 0 <= k < n ensures Symbols(g, n)[k] == s[k] {
      SymbolOfIndex(s[k]);
    }
  }

  lemma GroupOfDecoded(s: seq<byte>)
    requires |s| >= 4 && Lead(s, 4) == 4
    ensures
      var u := Unpacked(Index(s[0]), Index(s[1]), Index(s[2]), Index(s[3]));
      Symbols(Group(u[0], u[1], u[2]), 4) == s[..4]
  {
    hide Index, Unpacked, Packed, Sextet, Group, Symbols, IsBase64;
    var u := Unpacked(Index(s[0]), Index(s[1]), Index(s[2]), Index(s[3]));
    forall k | 0 <= k < 4 ensures Index(s[k]) < 64 {
      SymbolOfIndex(s[k]);
    }
    SextetsOfUnpacked(Index(s[0]), Index(s[1]), Index(s[2]), Index(s[3]));
    PackedIsSextets(u[0], u[1], u[2]);
    SymbolsAre(Group(u[0], u[1], u[2]), s, 4);
  }

  lemma EndOfDecoded(s: seq<byte>)
    requires s != [] && Canonical(s) && Lead(s, 4) < 4
    ensures Rfc4648(Decoded(s)) == s
  {
    hide Canonical, Decoded, Rfc4648, Index, Unpacked, Packed, Sextet, Group, Symbols, IsBase64;
    var n := Lead(s, 4);
    CanonicalEnd(s);
    DecodedEnd(s, n);
    RfcEnd(Decoded(s));
    var c := if n == 3 then Index(s[2]) else 64;
    var u := Unpacked(Index(s[0]), Index(s[1]), c, 64);
    forall k | 0 <= k < n ensures Index(s[k]) < 64 {
      SymbolOfIndex(s[k]);
    }
    var b := if n == 3 then u[1] else 0;
    if n == 3 {
      ThreeSextets(Index(s[0]), Index(s[1]), c);
    } else {
      TwoSextets(Index(s[0]), Index(s[1]));
    }
    PackedIsSextets(u[0], b, 0);
    SymbolsAre(Group(u[0], b, 0), s, n);
    assert s == s[..n] + s[n..];
  }

  lemma {:induction false} CanonicalIsEncoding(s: seq<byte>)
    requires Canonical(s)
    ensures Rfc4648(Decoded(s)) == s
  {
    hide Canonical, Decoded, Rfc4648, Index, Unpacked, Group, Symbols, Lead;
    if s == [] {
      DecodedNothing();
      RfcEnd([]);
    } else if Lead(s, 4) == 4 {
      CanonicalStep(s);
      CanonicalIsEncoding(s[4..]);
      DecodedStep(s);
      var u := Unpacked(Index(s[0]), Index(s[1]), Index(s[2]), Index(s[3]));
      var r := u + Decoded(s[4..]);
      assert r[3..] == Decoded(s[4..]);
      RfcStep(r);
      GroupOfDecoded(s);
      assert s == s[..4] + s[4..];
    } else {
      EndOfDecoded(s);
    }
  }

  /** Encoding what was decoded gives the text back exactly when the text is canonical: only such texts are encodings. */
  lemma EncodeOfDecode(s: seq<byte>)
    ensures Rfc4648(Decoded(s)) == s <==> Canonical(s)
  {
    hide Canonical, Decoded, Rfc4648;
    RfcIsCanonical(Decoded(s));
    if Canonical(s) {
      CanonicalIsEncoding(s);
    }
  }

  /** Replaces the characters by their positions in the alphabet and computes the three bytes. */
  method Unpack(charArray4: array<byte>, charArray3: array<byte>)
    requires charArray3.Length == 3 && charArray4.Length == 4 && charArray3 != charArray4
    modifies charArray3, charArray4
    ensures charArray3[..] ==
      old(Unpacked(Index(charArray4[0]), Index(charArray4[1]), Index(charArray4[2]), Index(charArray4[3])))
  {
    hide Index;
    for i := 0 to 4
      invariant forall k :: 0 <= k < 4 ==>
        charArray4[k] == if k < i then Index(old(charArray4[k])) else old(charArray4[k])
    {
      charArray4[i] := Index(charArray4[i]);
    }
    charArray3[0] := (charArray4[0] << 2) + ((charArray4[1] & 0x30) >> 4);
    charArray3[1] := ((charArray4[1] & 0xf) << 4) + ((charArray4[2] & 0x3c) >> 2);
    charArray3[2] := ((charArray4[2] & 0x3) << 6) + charArray4[3];
  }

  lemma LeadIs(s: seq<byte>, start: nat, n: nat)
    requires n <= 4 && start + n <= |s| && forall k :: start <= k < start + n ==> IsBase64(s[k])
    requires n == 4 || start + n == |s| || !IsBase64(s[start + n])
    ensures Lead(s[start..], 4) == n
  {
    var r := Lead(s[start..], 4);
    assert forall k :: 0 <= k < |s| - start ==> s[start..][k] == s[start + k];
  }

  lemma DecodedStep(s: seq<byte>)
    requires Lead(s, 4) == 4
    ensures Decoded(s) == Unpacked(Index(s[0]), Index(s[1]), Index(s[2]), Index(s[3])) + Decoded(s[4..])
  {
  }

  lemma DecodedEnd(s: seq<byte>, n: nat)
    requires Lead(s, 4) == n < 4
    ensures n < 2 ==> Decoded(s) == []
    ensures n == 2 ==> Decoded(s) == Unpacked(Index(s[0]), Index(s[1]), 64, 64)[..1]
    ensures n == 3 ==> Decoded(s) == Unpacked(Index(s[0]), Index(s[1]), Index(s[2]), 64)[..2]
  {
  }

  method DecodeGroup(ghost s: seq<byte>, ghost start: nat, charArray4: array<byte>, charArray3: array<byte>,
                     ret: seq<byte>)
    returns (r: seq<byte>)
    requires charArray3.Length == 3 && charArray4.Length == 4 && charArray3 != charArray4
    requires start + 4 <= |s| && forall k :: start <= k < start + 4 ==> IsBase64(s[k])
    requires forall k :: 0 <= k < 4 ==> charArray4[k] == s[start + k]
    modifies charArray3, charArray4
    ensures r + Decoded(s[start + 4..]) == ret + Decoded(s[start..])
  {
    hide Decoded, Index, Unpacked, IsBase64;
    LeadIs(s, start, 4);
    DecodedStep(s[start..]);
    assert s[start..][4..] == s[start + 4..];
    Unpack(charArray4, charArray3);
    r := ret + charArray3[..];
  }

  /** The guard of the decoder's loop. */
  predicate GoesOn(s: seq<byte>, next: nat) {
    next < |s| && s[next] != PAD && IsBase64(s[next])
  }

  lemma GoesOnIs(s: seq<byte>, next: nat)
    ensures GoesOn(s, next) <==> next < |s| && IsBase64(s[next])
  {
  }

  method Decode(encoded: seq<byte>) returns (ret: seq<byte>)
    ensures ret == Decoded(encoded)
  {
    hide Decoded, Index, Unpacked, IsBase64, Lead, GoesOn;
    var i, next := 0, 0;
    ghost var start := 0;
    var charArray4, charArray3 := new byte[4], new byte[3];
    ret := [];
    assert encoded[0..] == encoded;
    while GoesOn(encoded, next)
      invariant start + i == next <= |encoded| && i < 4
      invariant forall k :: start <= k < next ==> IsBase64(encoded[k])
      invariant forall k :: 0 <= k < i ==> charArray4[k] == encoded[start + k]
      invariant ret + Decoded(encoded[start..]) == Decoded(encoded)
      decreases |encoded| - next
    {
      GoesOnIs(encoded, next);
      charArray4[i] := encoded[next];
      i, next := i + 1, next + 1;
      if i == 4 {
        ret := DecodeGroup(encoded, start, charArray4, charArray3, ret);
        i := 0;
        start := next;
      }
    }
    GoesOnIs(encoded, next);
    LeadIs(encoded, start, i);
    ret := DecodeTail(encoded[start..], i, charArray4, charArray3, ret);
  }

  /** One byte from two characters and two from three, with the missing ones taken as not in the alphabet. */
  method DecodeTail(ghost rest: seq<byte>, i: nat, charArray4: array<byte>, charArray3: array<byte>, ret: seq<byte>)
    returns (r: seq<byte>)
    requires i < 4 && charArray3.Length == 3 && charArray4.Length == 4 && charArray3 != charArray4
    requires Lead(rest, 4) == i && forall k :: 0 <= k < i ==> charArray4[k] == rest[k]
    modifies charArray3, charArray4
    ensures r == ret + Decoded(rest)
  {
    r := ret;
    DecodedEnd(rest, i);
    hide Decoded, Unpacked;
    if i > 0 {
      for j := i to 4
        invariant forall k :: 0 <= k < i ==> charArray4[k] == rest[k]
        invariant forall k :: i <= k < j ==> charArray4[k] == 0
      {
        charArray4[j] := 0;
      }
      assert Index(0) == 64;
      hide Index;
      Unpack(charArray4, charArray3);
      for j := 0 to i - 1
        invariant r == ret + charArray3[..j]
      {
        r := r + [charArray3[j]];
      }
    }
  }
}
