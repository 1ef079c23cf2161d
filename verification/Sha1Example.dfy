/** A worked example: the digest of the three bytes of "abc", with the words and the variables of every round. */
module Sha1Example {
  import opened Sha1Spec

  const ABC: seq<Byte> := [0x61, 0x62, 0x63]

  lemma OneBlock()
    ensures Padded(ABC) == ABC + [0x80] + Zeros(52) + [0, 0, 0, 0, 0, 0, 0, 24]
    ensures |Padded(ABC)| == 64
  {
    LastBytes();
    hide Bytes64, Zeros;
  }

  lemma LastBytes()
    ensures Bytes64(24) == [0, 0, 0, 0, 0, 0, 0, 24]
  {
    NoByte(24 / 0x100_0000_0000_0000);
    NoByte(24 / 0x1_0000_0000_0000);
    NoByte(24 / 0x100_0000_0000);
    NoByte(24 / 0x1_0000_0000);
    NoByte(24 / 0x100_0000);
    NoByte(24 / 0x1_0000);
    NoByte(24 / 0x100);
  }

  lemma NoByte(n: nat)
    requires n == 0
    ensures (n % 0x100) as Byte == 0
  {
  }

  predicate IsWord(t: nat, w: Word) {
    |Padded(ABC)| == 64 && Schedule(Padded(ABC), t) == w
  }

  predicate AreVariables(t: nat, h: Hash) {
    |Padded(ABC)| == 64 && Rounds(INITIAL, Padded(ABC), t) == h
  }

  lemma FirstWord(t: nat, w: Word)
    requires t < 16 && w == if t == 0 then 0x61626380 else if t == 15 then 0x18 else 0
    ensures IsWord(t, w)
  {
    hide Padded;
    OneBlock();
    var block := Padded(ABC);
    var b0, b1, b2, b3 := block[4*t], block[4*t+1], block[4*t+2], block[4*t+3];
    assert Schedule(block, t) == BigEndian(b0, b1, b2, b3);
    hide Schedule;
    if t == 0 {
      assert b0 == 0x61 && b1 == 0x62 && b2 == 0x63 && b3 == 0x80;
    } else if t == 15 {
      assert b0 == 0 && b1 == 0 && b2 == 0 && b3 == 24;
    } else {
      assert b0 == 0 && b1 == 0 && b2 == 0 && b3 == 0;
    }
  }

  lemma Expand(t: nat, w3: Word, w8: Word, w14: Word, w16: Word, w: Word)
    requires 16 <= t && IsWord(t - 3, w3) && IsWord(t - 8, w8) && IsWord(t - 14, w14) && IsWord(t - 16, w16)
    requires Rotl(Xor4(w3, w8, w14, w16), 1) == w
    ensures IsWord(t, w)
  {
    hide Padded, Rotl, Xor4;
  }

  lemma Follow(t: nat, h: Hash, w: Word, a: Word)
    requires AreVariables(t, h) && IsWord(t, w)
    requires Mix(Rotl(h.a, 5), F(t, h.b, h.c, h.d), h.e, K(t), w) == a
    ensures AreVariables(t + 1, Hash(a, h.a, Rotl(h.b, 30), h.c, h.d))
  {
    hide Padded, Schedule, Mix, Rotl, F, K;
  }

  lemma Rounds0()
    ensures IsWord(4, 0x00000000) && IsWord(5, 0x00000000) && IsWord(6, 0x00000000) && IsWord(7, 0x00000000)
    ensures IsWord(8, 0x00000000) && IsWord(9, 0x00000000) && IsWord(10, 0x00000000) && IsWord(11, 0x00000000)
    ensures IsWord(12, 0x00000000) && IsWord(13, 0x00000000) && IsWord(14, 0x00000000) && IsWord(15, 0x00000018)
    ensures IsWord(16, 0xC2C4C700) && IsWord(17, 0x00000000) && IsWord(18, 0x00000030) && IsWord(19, 0x85898E01)
    ensures AreVariables(20, Hash(0xFD9E1D7D, 0xDC64901D, 0x20AA99CA, 0xD3A49608, 0xC82F758B))
  {
    hide IsWord, AreVariables;
    Start();
    FirstWord(0, 0x61626380);
    FirstWord(1, 0x00000000);
    FirstWord(2, 0x00000000);
    FirstWord(3, 0x00000000);
    FirstWord(4, 0x00000000);
    FirstWord(5, 0x00000000);
    FirstWord(6, 0x00000000);
    FirstWord(7, 0x00000000);
    FirstWord(8, 0x00000000);
    FirstWord(9, 0x00000000);
    FirstWord(10, 0x00000000);
    FirstWord(11, 0x00000000);
    FirstWord(12, 0x00000000);
    FirstWord(13, 0x00000000);
    FirstWord(14, 0x00000000);
    FirstWord(15, 0x00000018);
    Expand(16, 0x00000000, 0x00000000, 0x00000000, 0x61626380, 0xC2C4C700);
    Expand(17, 0x00000000, 0x00000000, 0x00000000, 0x00000000, 0x00000000);
    Expand(18, 0x00000018, 0x00000000, 0x00000000, 0x00000000, 0x00000030);
    Expand(19, 0xC2C4C700, 0x00000000, 0x00000000, 0x00000000, 0x85898E01);
    Follow(0, Hash(0x67452301, 0xEFCDAB89, 0x98BADCFE, 0x10325476, 0xC3D2E1F0), 0x61626380, 0x0116FC33);
    Follow(1, Hash(0x0116FC33, 0x67452301, 0x7BF36AE2, 0x98BADCFE, 0x10325476), 0x00000000, 0x8990536D);
    Follow(2, Hash(0x8990536D, 0x0116FC33, 0x59D148C0, 0x7BF36AE2, 0x98BADCFE), 0x00000000, 0xA1390F08);
    Follow(3, Hash(0xA1390F08, 0x8990536D, 0xC045BF0C, 0x59D148C0, 0x7BF36AE2), 0x00000000, 0xCDD8E11B);
    Follow(4, Hash(0xCDD8E11B, 0xA1390F08, 0x626414DB, 0xC045BF0C, 0x59D148C0), 0x00000000, 0xCFD499DE);
    Follow(5, Hash(0xCFD499DE, 0xCDD8E11B, 0x284E43C2, 0x626414DB, 0xC045BF0C), 0x00000000, 0x3FC7CA40);
    Follow(6, Hash(0x3FC7CA40, 0xCFD499DE, 0xF3763846, 0x284E43C2, 0x626414DB), 0x00000000, 0x993E30C1);
    Follow(7, Hash(0x993E30C1, 0x3FC7CA40, 0xB3F52677, 0xF3763846, 0x284E43C2), 0x00000000, 0x9E8C07D4);
    Follow(8, Hash(0x9E8C07D4, 0x993E30C1, 0x0FF1F290, 0xB3F52677, 0xF3763846), 0x00000000, 0x4B6AE328);
    Follow(9, Hash(0x4B6AE328, 0x9E8C07D4, 0x664F8C30, 0x0FF1F290, 0xB3F52677), 0x00000000, 0x8351F929);
    Follow(10, Hash(0x8351F929, 0x4B6AE328, 0x27A301F5, 0x664F8C30, 0x0FF1F290), 0x00000000, 0xFBDA9E89);
    Follow(11, Hash(0xFBDA9E89, 0x8351F929, 0x12DAB8CA, 0x27A301F5, 0x664F8C30), 0x00000000, 0x63188FE4);
    Follow(12, Hash(0x63188FE4, 0xFBDA9E89, 0x60D47E4A, 0x12DAB8CA, 0x27A301F5), 0x00000000, 0x4607B664);
    Follow(13, Hash(0x4607B664, 0x63188FE4, 0x7EF6A7A2, 0x60D47E4A, 0x12DAB8CA), 0x00000000, 0x9128F695);
    Follow(14, Hash(0x9128F695, 0x4607B664, 0x18C623F9, 0x7EF6A7A2, 0x60D47E4A), 0x00000000, 0x196BEE77);
    Follow(15, Hash(0x196BEE77, 0x9128F695, 0x1181ED99, 0x18C623F9, 0x7EF6A7A2), 0x00000018, 0x20BDD62F);
    Follow(16, Hash(0x20BDD62F, 0x196BEE77, 0x644A3DA5, 0x1181ED99, 0x18C623F9), 0xC2C4C700, 0x4E925823);
    Follow(17, Hash(0x4E925823, 0x20BDD62F, 0xC65AFB9D, 0x644A3DA5, 0x1181ED99), 0x00000000, 0x82AA6728);
    Follow(18, Hash(0x82AA6728, 0x4E925823, 0xC82F758B, 0xC65AFB9D, 0x644A3DA5), 0x00000030, 0xDC64901D);
    Follow(19, Hash(0xDC64901D, 0x82AA6728, 0xD3A49608, 0xC82F758B, 0xC65AFB9D), 0x85898E01, 0xFD9E1D7D);
  }

  lemma Rounds20()
    ensures IsWord(24, 0x85898EC1) && IsWord(25, 0x16263806) && IsWord(26, 0x00000000) && IsWord(27, 0x00000180)
    ensures IsWord(28, 0x2C4C700C) && IsWord(29, 0x000000F0) && IsWord(30, 0x93AFB507) && IsWord(31, 0x5898E048)
    ensures IsWord(32, 0x8E9A9202) && IsWord(33, 0x00000600) && IsWord(34, 0xB131C0F0) && IsWord(35, 0x16263BC6)
    ensures IsWord(36, 0x4EBED41E) && IsWord(37, 0x626380A1) && IsWord(38, 0x16263806) && IsWord(39, 0x000018C0)
    ensures AreVariables(40, Hash(0x32DE1CBA, 0x4C986405, 0xF718E5CF, 0x03D447F6, 0xF72EEC32))
  {
    hide IsWord, AreVariables;
    Rounds0();
    Expand(20, 0x00000000, 0x00000000, 0x00000000, 0x00000000, 0x00000000);
    Expand(21, 0x00000030, 0x00000000, 0x00000000, 0x00000000, 0x00000060);
    Expand(22, 0x85898E01, 0x00000000, 0x00000000, 0x00000000, 0x0B131C03);
    Expand(23, 0x00000000, 0x00000018, 0x00000000, 0x00000000, 0x00000030);
    Expand(24, 0x00000060, 0xC2C4C700, 0x00000000, 0x00000000, 0x85898EC1);
    Expand(25, 0x0B131C03, 0x00000000, 0x00000000, 0x00000000, 0x16263806);
    Expand(26, 0x00000030, 0x00000030, 0x00000000, 0x00000000, 0x00000000);
    Expand(27, 0x85898EC1, 0x85898E01, 0x00000000, 0x00000000, 0x00000180);
    Expand(28, 0x16263806, 0x00000000, 0x00000000, 0x00000000, 0x2C4C700C);
    Expand(29, 0x00000000, 0x00000060, 0x00000018, 0x00000000, 0x000000F0);
    Expand(30, 0x00000180, 0x0B131C03, 0xC2C4C700, 0x00000000, 0x93AFB507);
    Expand(31, 0x2C4C700C, 0x00000030, 0x00000000, 0x00000018, 0x5898E048);
    Expand(32, 0x000000F0, 0x85898EC1, 0x00000030, 0xC2C4C700, 0x8E9A9202);
    Expand(33, 0x93AFB507, 0x16263806, 0x85898E01, 0x00000000, 0x00000600);
    Expand(34, 0x5898E048, 0x00000000, 0x00000000, 0x00000030, 0xB131C0F0);
    Expand(35, 0x8E9A9202, 0x00000180, 0x00000060, 0x85898E01, 0x16263BC6);
    Expand(36, 0x00000600, 0x2C4C700C, 0x0B131C03, 0x00000000, 0x4EBED41E);
    Expand(37, 0xB131C0F0, 0x000000F0, 0x00000030, 0x00000060, 0x626380A1);
    Expand(38, 0x16263BC6, 0x93AFB507, 0x85898EC1, 0x0B131C03, 0x16263806);
    Expand(39, 0x4EBED41E, 0x5898E048, 0x16263806, 0x00000030, 0x000018C0);
    Follow(20, Hash(0xFD9E1D7D, 0xDC64901D, 0x20AA99CA, 0xD3A49608, 0xC82F758B), 0x00000000, 0x1A37B0CA);
    Follow(21, Hash(0x1A37B0CA, 0xFD9E1D7D, 0x77192407, 0x20AA99CA, 0xD3A49608), 0x00000060, 0x33A23BFC);
    Follow(22, Hash(0x33A23BFC, 0x1A37B0CA, 0x7F67875F, 0x77192407, 0x20AA99CA), 0x0B131C03, 0x21283486);
    Follow(23, Hash(0x21283486, 0x33A23BFC, 0x868DEC32, 0x7F67875F, 0x77192407), 0x00000030, 0xD541F12D);
    Follow(24, Hash(0xD541F12D, 0x21283486, 0x0CE88EFF, 0x868DEC32, 0x7F67875F), 0x85898EC1, 0xC7567DC6);
    Follow(25, Hash(0xC7567DC6, 0xD541F12D, 0x884A0D21, 0x0CE88EFF, 0x868DEC32), 0x16263806, 0x48413BA4);
    Follow(26, Hash(0x48413BA4, 0xC7567DC6, 0x75507C4B, 0x884A0D21, 0x0CE88EFF), 0x00000000, 0xBE35FBD5);
    Follow(27, Hash(0xBE35FBD5, 0x48413BA4, 0xB1D59F71, 0x75507C4B, 0x884A0D21), 0x00000180, 0x4AA84D97);
    Follow(28, Hash(0x4AA84D97, 0xBE35FBD5, 0x12104EE9, 0xB1D59F71, 0x75507C4B), 0x2C4C700C, 0x8370B52E);
    Follow(29, Hash(0x8370B52E, 0x4AA84D97, 0x6F8D7EF5, 0x12104EE9, 0xB1D59F71), 0x000000F0, 0xC5FBAF5D);
    Follow(30, Hash(0xC5FBAF5D, 0x8370B52E, 0xD2AA1365, 0x6F8D7EF5, 0x12104EE9), 0x93AFB507, 0x1267B407);
    Follow(31, Hash(0x1267B407, 0xC5FBAF5D, 0xA0DC2D4B, 0xD2AA1365, 0x6F8D7EF5), 0x5898E048, 0x3B845D33);
    Follow(32, Hash(0x3B845D33, 0x1267B407, 0x717EEBD7, 0xA0DC2D4B, 0xD2AA1365), 0x8E9A9202, 0x046FAA0A);
    Follow(33, Hash(0x046FAA0A, 0x3B845D33, 0xC499ED01, 0x717EEBD7, 0xA0DC2D4B), 0x00000600, 0x2C0EBC11);
    Follow(34, Hash(0x2C0EBC11, 0x046FAA0A, 0xCEE1174C, 0xC499ED01, 0x717EEBD7), 0xB131C0F0, 0x21796AD4);
    Follow(35, Hash(0x21796AD4, 0x2C0EBC11, 0x811BEA82, 0xCEE1174C, 0xC499ED01), 0x16263BC6, 0xDCBBB0CB);
    Follow(36, Hash(0xDCBBB0CB, 0x21796AD4, 0x4B03AF04, 0x811BEA82, 0xCEE1174C), 0x4EBED41E, 0x0F511FD8);
    Follow(37, Hash(0x0F511FD8, 0xDCBBB0CB, 0x085E5AB5, 0x4B03AF04, 0x811BEA82), 0x626380A1, 0xDC63973F);
    Follow(38, Hash(0xDC63973F, 0x0F511FD8, 0xF72EEC32, 0x085E5AB5, 0x4B03AF04), 0x16263806, 0x4C986405);
    Follow(39, Hash(0x4C986405, 0xDC63973F, 0x03D447F6, 0xF72EEC32, 0x085E5AB5), 0x000018C0, 0x32DE1CBA);
  }

  lemma Rounds40()
    ensures IsWord(44, 0xE2BA3C2B) && IsWord(45, 0x000060C0) && IsWord(46, 0x053A37CD) && IsWord(47, 0x74458547)
    ensures IsWord(48, 0xDA9415ED) && IsWord(49, 0x26380A16) && IsWord(50, 0x626383A1) && IsWord(51, 0x4EBF54DE)
    ensures IsWord(52, 0x3835B44B) && IsWord(53, 0x0000F600) && IsWord(54, 0x1E84C7A3) && IsWord(55, 0x98E04D98)
    ensures IsWord(56, 0x651D16A0) && IsWord(57, 0x62658CA1) && IsWord(58, 0x458544D6) && IsWord(59, 0x44584CB7)
    ensures AreVariables(60, Hash(0x3F52DE5A, 0x09D785FD, 0x3498BFD4, 0xF211824F, 0xD79915AB))
  {
    hide IsWord, AreVariables;
    Rounds20();
    Expand(40, 0x626380A1, 0x8E9A9202, 0x00000000, 0x85898EC1, 0xD2E138C4);
    Expand(41, 0x16263806, 0x00000600, 0x00000180, 0x16263806, 0x00000F00);
    Expand(42, 0x000018C0, 0xB131C0F0, 0x2C4C700C, 0x00000000, 0x3AFB5079);
    Expand(43, 0xD2E138C4, 0x16263BC6, 0x000000F0, 0x00000180, 0x898E04E5);
    Expand(44, 0x00000F00, 0x4EBED41E, 0x93AFB507, 0x2C4C700C, 0xE2BA3C2B);
    Expand(45, 0x3AFB5079, 0x626380A1, 0x5898E048, 0x000000F0, 0x000060C0);
    Expand(46, 0x898E04E5, 0x16263806, 0x8E9A9202, 0x93AFB507, 0x053A37CD);
    Expand(47, 0xE2BA3C2B, 0x000018C0, 0x00000600, 0x5898E048, 0x74458547);
    Expand(48, 0x000060C0, 0xD2E138C4, 0xB131C0F0, 0x8E9A9202, 0xDA9415ED);
    Expand(49, 0x053A37CD, 0x00000F00, 0x16263BC6, 0x00000600, 0x26380A16);
    Expand(50, 0x74458547, 0x3AFB5079, 0x4EBED41E, 0xB131C0F0, 0x626383A1);
    Expand(51, 0xDA9415ED, 0x898E04E5, 0x626380A1, 0x16263BC6, 0x4EBF54DE);
    Expand(52, 0x26380A16, 0xE2BA3C2B, 0x16263806, 0x4EBED41E, 0x3835B44B);
    Expand(53, 0x626383A1, 0x000060C0, 0x000018C0, 0x626380A1, 0x0000F600);
    Expand(54, 0x4EBF54DE, 0x053A37CD, 0xD2E138C4, 0x16263806, 0x1E84C7A3);
    Expand(55, 0x3835B44B, 0x74458547, 0x00000F00, 0x000018C0, 0x98E04D98);
    Expand(56, 0x0000F600, 0xDA9415ED, 0x3AFB5079, 0xD2E138C4, 0x651D16A0);
    Expand(57, 0x1E84C7A3, 0x26380A16, 0x898E04E5, 0x00000F00, 0x62658CA1);
    Expand(58, 0x98E04D98, 0x626383A1, 0xE2BA3C2B, 0x3AFB5079, 0x458544D6);
    Expand(59, 0x651D16A0, 0x4EBF54DE, 0x000060C0, 0x898E04E5, 0x44584CB7);
    Follow(40, Hash(0x32DE1CBA, 0x4C986405, 0xF718E5CF, 0x03D447F6, 0xF72EEC32), 0xD2E138C4, 0xFC87DEDF);
    Follow(41, Hash(0xFC87DEDF, 0x32DE1CBA, 0x53261901, 0xF718E5CF, 0x03D447F6), 0x00000F00, 0x970A0D5C);
    Follow(42, Hash(0x970A0D5C, 0xFC87DEDF, 0x8CB7872E, 0x53261901, 0xF718E5CF), 0x3AFB5079, 0x7F193DC5);
    Follow(43, Hash(0x7F193DC5, 0x970A0D5C, 0xFF21F7B7, 0x8CB7872E, 0x53261901), 0x898E04E5, 0xEE1B1AAF);
    Follow(44, Hash(0xEE1B1AAF, 0x7F193DC5, 0x25C28357, 0xFF21F7B7, 0x8CB7872E), 0xE2BA3C2B, 0x40F28E09);
    Follow(45, Hash(0x40F28E09, 0xEE1B1AAF, 0x5FC64F71, 0x25C28357, 0xFF21F7B7), 0x000060C0, 0x1C51E1F2);
    Follow(46, Hash(0x1C51E1F2, 0x40F28E09, 0xFB86C6AB, 0x5FC64F71, 0x25C28357), 0x053A37CD, 0xA01B846C);
    Follow(47, Hash(0xA01B846C, 0x1C51E1F2, 0x503CA382, 0xFB86C6AB, 0x5FC64F71), 0x74458547, 0xBEAD02CA);
    Follow(48, Hash(0xBEAD02CA, 0xA01B846C, 0x8714787C, 0x503CA382, 0xFB86C6AB), 0xDA9415ED, 0xBAF39337);
    Follow(49, Hash(0xBAF39337, 0xBEAD02CA, 0x2806E11B, 0x8714787C, 0x503CA382), 0x26380A16, 0x120731C5);
    Follow(50, Hash(0x120731C5, 0xBAF39337, 0xAFAB40B2, 0x2806E11B, 0x8714787C), 0x626383A1, 0x641DB2CE);
    Follow(51, Hash(0x641DB2CE, 0x120731C5, 0xEEBCE4CD, 0xAFAB40B2, 0x2806E11B), 0x4EBF54DE, 0x3847AD66);
    Follow(52, Hash(0x3847AD66, 0x641DB2CE, 0x4481CC71, 0xEEBCE4CD, 0xAFAB40B2), 0x3835B44B, 0xE490436D);
    Follow(53, Hash(0xE490436D, 0x3847AD66, 0x99076CB3, 0x4481CC71, 0xEEBCE4CD), 0x0000F600, 0x27E9F1D8);
    Follow(54, Hash(0x27E9F1D8, 0xE490436D, 0x8E11EB59, 0x99076CB3, 0x4481CC71), 0x1E84C7A3, 0x7B71F76D);
    Follow(55, Hash(0x7B71F76D, 0x27E9F1D8, 0x792410DB, 0x8E11EB59, 0x99076CB3), 0x98E04D98, 0x5E6456AF);
    Follow(56, Hash(0x5E6456AF, 0x7B71F76D, 0x09FA7C76, 0x792410DB, 0x8E11EB59), 0x651D16A0, 0xC846093F);
    Follow(57, Hash(0xC846093F, 0x5E6456AF, 0x5EDC7DDB, 0x09FA7C76, 0x792410DB), 0x62658CA1, 0xD262FF50);
    Follow(58, Hash(0xD262FF50, 0xC846093F, 0xD79915AB, 0x5EDC7DDB, 0x09FA7C76), 0x458544D6, 0x09D785FD);
    Follow(59, Hash(0x09D785FD, 0xD262FF50, 0xF211824F, 0xD79915AB, 0x5EDC7DDB), 0x44584CB7, 0x3F52DE5A);
  }

  lemma Rounds60()
    ensures IsWord(64, 0x7CD45C9D) && IsWord(65, 0x000F0000) && IsWord(66, 0xFB50753A) && IsWord(67, 0xEC6765E8)
    ensures IsWord(68, 0xBA3C2BE2) && IsWord(69, 0x0060C000) && IsWord(70, 0x3A37CD05) && IsWord(71, 0x458546F4)
    ensures IsWord(72, 0xB8599DD6) && IsWord(73, 0x380A1A26) && IsWord(74, 0x01E02203) && IsWord(75, 0xE7CC3456)
    ensures IsWord(76, 0xE6E60B69) && IsWord(77, 0x00F60A00) && IsWord(78, 0x5795EF4F) && IsWord(79, 0x822E0879)
    ensures AreVariables(80, Hash(0x42541B35, 0x5738D5E1, 0x21834873, 0x681E6DF6, 0xD8FDF6AD))
  {
    hide IsWord, AreVariables;
    Rounds40();
    Expand(60, 0x62658CA1, 0x3835B44B, 0x053A37CD, 0xE2BA3C2B, 0x7BA06619);
    Expand(61, 0x458544D6, 0x0000F600, 0x74458547, 0x000060C0, 0x6380AEA2);
    Expand(62, 0x44584CB7, 0x1E84C7A3, 0xDA9415ED, 0x053A37CD, 0x0AE55269);
    Expand(63, 0x7BA06619, 0x98E04D98, 0x26380A16, 0x74458547, 0x627B49A1);
    Expand(64, 0x6380AEA2, 0x651D16A0, 0x626383A1, 0xDA9415ED, 0x7CD45C9D);
    Expand(65, 0x0AE55269, 0x62658CA1, 0x4EBF54DE, 0x26380A16, 0x000F0000);
    Expand(66, 0x627B49A1, 0x458544D6, 0x3835B44B, 0x626383A1, 0xFB50753A);
    Expand(67, 0x7CD45C9D, 0x44584CB7, 0x0000F600, 0x4EBF54DE, 0xEC6765E8);
    Expand(68, 0x000F0000, 0x7BA06619, 0x1E84C7A3, 0x3835B44B, 0xBA3C2BE2);
    Expand(69, 0xFB50753A, 0x6380AEA2, 0x98E04D98, 0x0000F600, 0x0060C000);
    Expand(70, 0xEC6765E8, 0x0AE55269, 0x651D16A0, 0x1E84C7A3, 0x3A37CD05);
    Expand(71, 0xBA3C2BE2, 0x627B49A1, 0x62658CA1, 0x98E04D98, 0x458546F4);
    Expand(72, 0x0060C000, 0x7CD45C9D, 0x458544D6, 0x651D16A0, 0xB8599DD6);
    Expand(73, 0x3A37CD05, 0x000F0000, 0x44584CB7, 0x62658CA1, 0x380A1A26);
    Expand(74, 0x458546F4, 0xFB50753A, 0x7BA06619, 0x458544D6, 0x01E02203);
    Expand(75, 0xB8599DD6, 0xEC6765E8, 0x6380AEA2, 0x44584CB7, 0xE7CC3456);
    Expand(76, 0x380A1A26, 0xBA3C2BE2, 0x0AE55269, 0x7BA06619, 0xE6E60B69);
    Expand(77, 0x01E02203, 0x0060C000, 0x627B49A1, 0x6380AEA2, 0x00F60A00);
    Expand(78, 0xE7CC3456, 0x3A37CD05, 0x7CD45C9D, 0x0AE55269, 0x5795EF4F);
    Expand(79, 0xE6E60B69, 0x458546F4, 0x000F0000, 0x627B49A1, 0x822E0879);
    Follow(60, Hash(0x3F52DE5A, 0x09D785FD, 0x3498BFD4, 0xF211824F, 0xD79915AB), 0x7BA06619, 0xD756C147);
    Follow(61, Hash(0xD756C147, 0x3F52DE5A, 0x4275E17F, 0x3498BFD4, 0xF211824F), 0x6380AEA2, 0x548C9CB2);
    Follow(62, Hash(0x548C9CB2, 0xD756C147, 0x8FD4B796, 0x4275E17F, 0x3498BFD4), 0x0AE55269, 0xB66C020B);
    Follow(63, Hash(0xB66C020B, 0x548C9CB2, 0xF5D5B051, 0x8FD4B796, 0x4275E17F), 0x627B49A1, 0x6B61C9E1);
    Follow(64, Hash(0x6B61C9E1, 0xB66C020B, 0x9523272C, 0xF5D5B051, 0x8FD4B796), 0x7CD45C9D, 0x19DFA7AC);
    Follow(65, Hash(0x19DFA7AC, 0x6B61C9E1, 0xED9B0082, 0x9523272C, 0xF5D5B051), 0x000F0000, 0x101655F9);
    Follow(66, Hash(0x101655F9, 0x19DFA7AC, 0x5AD87278, 0xED9B0082, 0x9523272C), 0xFB50753A, 0x0C3DF2B4);
    Follow(67, Hash(0x0C3DF2B4, 0x101655F9, 0x0677E9EB, 0x5AD87278, 0xED9B0082), 0xEC6765E8, 0x78DD4D2B);
    Follow(68, Hash(0x78DD4D2B, 0x0C3DF2B4, 0x4405957E, 0x0677E9EB, 0x5AD87278), 0xBA3C2BE2, 0x497093C0);
    Follow(69, Hash(0x497093C0, 0x78DD4D2B, 0x030F7CAD, 0x4405957E, 0x0677E9EB), 0x0060C000, 0x3F2588C2);
    Follow(70, Hash(0x3F2588C2, 0x497093C0, 0xDE37534A, 0x030F7CAD, 0x4405957E), 0x3A37CD05, 0xC199F8C7);
    Follow(71, Hash(0xC199F8C7, 0x3F2588C2, 0x125C24F0, 0xDE37534A, 0x030F7CAD), 0x458546F4, 0x39859DE7);
    Follow(72, Hash(0x39859DE7, 0xC199F8C7, 0x8FC96230, 0x125C24F0, 0xDE37534A), 0xB8599DD6, 0xEDB42DE4);
    Follow(73, Hash(0xEDB42DE4, 0x39859DE7, 0xF0667E31, 0x8FC96230, 0x125C24F0), 0x380A1A26, 0x11793F6F);
    Follow(74, Hash(0x11793F6F, 0xEDB42DE4, 0xCE616779, 0xF0667E31, 0x8FC96230), 0x01E02203, 0x5EE76897);
    Follow(75, Hash(0x5EE76897, 0x11793F6F, 0x3B6D0B79, 0xCE616779, 0xF0667E31), 0xE7CC3456, 0x63F7DAB7);
    Follow(76, Hash(0x63F7DAB7, 0x5EE76897, 0xC45E4FDB, 0x3B6D0B79, 0xCE616779), 0xE6E60B69, 0xA079B7D9);
    Follow(77, Hash(0xA079B7D9, 0x63F7DAB7, 0xD7B9DA25, 0xC45E4FDB, 0x3B6D0B79), 0x00F60A00, 0x860D21CC);
    Follow(78, Hash(0x860D21CC, 0xA079B7D9, 0xD8FDF6AD, 0xD7B9DA25, 0xC45E4FDB), 0x5795EF4F, 0x5738D5E1);
    Follow(79, Hash(0x5738D5E1, 0x860D21CC, 0x681E6DF6, 0xD8FDF6AD, 0xD7B9DA25), 0x822E0879, 0x42541B35);
  }

  lemma Start()
    ensures AreVariables(0, INITIAL)
  {
    OneBlock();
  }

  lemma LastVariables()
    ensures INITIAL.Plus(Hash(0x42541B35, 0x5738D5E1, 0x21834873, 0x681E6DF6, 0xD8FDF6AD))
         == Hash(0xA9993E36, 0x4706816A, 0xBA3E2571, 0x7850C26C, 0x9CD0D89D)
  {
  }

  lemma DigestOfAbc()
    ensures Digest(ABC) == Hash(0xA9993E36, 0x4706816A, 0xBA3E2571, 0x7850C26C, 0x9CD0D89D)
  {
    hide Padded, Rounds, Hash.Plus;
    Rounds60();
    LastVariables();
    var block := Padded(ABC);
    assert block[..0] == [] && block[0..] == block;
    assert Blocks(INITIAL, block) == Compress(INITIAL, block);
  }
}
