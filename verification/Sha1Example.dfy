/** A known answer, the published SHA-1 digest of "abc", word by word and round by round. It fixes every constant and
    rotation of the standard's functions. */
module Sha1Example {
  import opened Bytes
  import opened BlockFold
  import opened Sha1Standard

  /** "abc", padded. */
  const ABC: seq<Byte> := [0x61, 0x62, 0x63, 0x80] + Zeros(59) + [24]

  lemma Padded()
    ensures |ABC| == 64 && Pad([0x61, 0x62, 0x63]) == ABC
  {
    assert ZeroCount(3) == 52 && BitCount(3) == 24;
    LengthOctets();
    assert Be64(24) == Zeros(7) + [24];
    assert Zeros(52) + (Zeros(7) + [24]) == Zeros(59) + [24];
  }

  lemma LengthOctets()
    ensures Digit(24, 0) == 24 && forall k :: 1 <= k < 8 ==> Digit(24, k) == 0
  {
    ZeroDigits(0); ZeroDigits(1); ZeroDigits(2); ZeroDigits(3); ZeroDigits(4); ZeroDigits(5); ZeroDigits(6);
  }

  lemma {:induction false} ZeroDigits(k: nat)
    ensures Digit(0, k) == 0
  {
    if k > 0 { ZeroDigits(k - 1); }
  }

  lemma Words0()
    ensures |ABC| == 64 && Schedule(ABC, 0) == 0x61626380 && Schedule(ABC, 15) == 0x00000018
    ensures forall t :: 1 <= t < 15 ==> Schedule(ABC, t) == 0
  {
    Padded();
    assert Pack(0x61, 0x62, 0x63, 0x80) == 0x61626380 && Pack(0, 0, 0, 24) == 0x18 && Pack(0, 0, 0, 0) == 0;
    forall t | 1 <= t < 15 ensures BigEndianWord(ABC, t) == 0 {
      assert ABC[4 * t] == 0 && ABC[4 * t + 1] == 0 && ABC[4 * t + 2] == 0 && ABC[4 * t + 3] == 0;
    }
  }

  lemma NextWord(t: nat, w3: bv32, w8: bv32, w14: bv32, w16: bv32)
    requires |ABC| == 64 && t >= 16
    requires Schedule(ABC, t - 3) == w3 && Schedule(ABC, t - 8) == w8 && Schedule(ABC, t - 14) == w14 && Schedule(ABC, t - 16) == w16
    ensures Schedule(ABC, t) == Expand(w3, w8, w14, w16)
  {}

  lemma NextRound(n: nat, r: Regs, w: bv32)
    requires |ABC| == 64 && Rounds(INIT, ABC, n) == r && Schedule(ABC, n) == w
    ensures Rounds(INIT, ABC, n + 1) == Round(r, n, w)
  {}

  lemma Words16()
    ensures |ABC| == 64
    ensures Schedule(ABC, 16) == 0xC2C4C700 && Schedule(ABC, 17) == 0x00000000 && Schedule(ABC, 18) == 0x00000030 && Schedule(ABC, 19) == 0x85898E01
    ensures Schedule(ABC, 20) == 0x00000000 && Schedule(ABC, 21) == 0x00000060 && Schedule(ABC, 22) == 0x0B131C03 && Schedule(ABC, 23) == 0x00000030
  {
    hide Schedule;
    Words0();
    NextWord(16, 0x00000000, 0x00000000, 0x00000000, 0x61626380);
    NextWord(17, 0x00000000, 0x00000000, 0x00000000, 0x00000000);
    NextWord(18, 0x00000018, 0x00000000, 0x00000000, 0x00000000);
    NextWord(19, 0xC2C4C700, 0x00000000, 0x00000000, 0x00000000);
    NextWord(20, 0x00000000, 0x00000000, 0x00000000, 0x00000000);
    NextWord(21, 0x00000030, 0x00000000, 0x00000000, 0x00000000);
    NextWord(22, 0x85898E01, 0x00000000, 0x00000000, 0x00000000);
    NextWord(23, 0x00000000, 0x00000018, 0x00000000, 0x00000000);
  }

  lemma Words24()
    ensures |ABC| == 64
    ensures Schedule(ABC, 24) == 0x85898EC1 && Schedule(ABC, 25) == 0x16263806 && Schedule(ABC, 26) == 0x00000000 && Schedule(ABC, 27) == 0x00000180
    ensures Schedule(ABC, 28) == 0x2C4C700C && Schedule(ABC, 29) == 0x000000F0 && Schedule(ABC, 30) == 0x93AFB507 && Schedule(ABC, 31) == 0x5898E048
  {
    hide Schedule;
    Words0(); Words16();
    NextWord(24, 0x00000060, 0xC2C4C700, 0x00000000, 0x00000000);
    NextWord(25, 0x0B131C03, 0x00000000, 0x00000000, 0x00000000);
    NextWord(26, 0x00000030, 0x00000030, 0x00000000, 0x00000000);
    NextWord(27, 0x85898EC1, 0x85898E01, 0x00000000, 0x00000000);
    NextWord(28, 0x16263806, 0x00000000, 0x00000000, 0x00000000);
    NextWord(29, 0x00000000, 0x00000060, 0x00000018, 0x00000000);
    NextWord(30, 0x00000180, 0x0B131C03, 0xC2C4C700, 0x00000000);
    NextWord(31, 0x2C4C700C, 0x00000030, 0x00000000, 0x00000018);
  }

  lemma Words32()
    ensures |ABC| == 64
    ensures Schedule(ABC, 32) == 0x8E9A9202 && Schedule(ABC, 33) == 0x00000600 && Schedule(ABC, 34) == 0xB131C0F0 && Schedule(ABC, 35) == 0x16263BC6
    ensures Schedule(ABC, 36) == 0x4EBED41E && Schedule(ABC, 37) == 0x626380A1 && Schedule(ABC, 38) == 0x16263806 && Schedule(ABC, 39) == 0x000018C0
  {
    hide Schedule;
    Words16(); Words24();
    NextWord(32, 0x000000F0, 0x85898EC1, 0x00000030, 0xC2C4C700);
    NextWord(33, 0x93AFB507, 0x16263806, 0x85898E01, 0x00000000);
    NextWord(34, 0x5898E048, 0x00000000, 0x00000000, 0x00000030);
    NextWord(35, 0x8E9A9202, 0x00000180, 0x00000060, 0x85898E01);
    NextWord(36, 0x00000600, 0x2C4C700C, 0x0B131C03, 0x00000000);
    NextWord(37, 0xB131C0F0, 0x000000F0, 0x00000030, 0x00000060);
    NextWord(38, 0x16263BC6, 0x93AFB507, 0x85898EC1, 0x0B131C03);
    NextWord(39, 0x4EBED41E, 0x5898E048, 0x16263806, 0x00000030);
  }

  lemma Words40()
    ensures |ABC| == 64
    ensures Schedule(ABC, 40) == 0xD2E138C4 && Schedule(ABC, 41) == 0x00000F00 && Schedule(ABC, 42) == 0x3AFB5079 && Schedule(ABC, 43) == 0x898E04E5
    ensures Schedule(ABC, 44) == 0xE2BA3C2B && Schedule(ABC, 45) == 0x000060C0 && Schedule(ABC, 46) == 0x053A37CD && Schedule(ABC, 47) == 0x74458547
  {
    hide Schedule;
    Words24(); Words32();
    NextWord(40, 0x626380A1, 0x8E9A9202, 0x00000000, 0x85898EC1);
    NextWord(41, 0x16263806, 0x00000600, 0x00000180, 0x16263806);
    NextWord(42, 0x000018C0, 0xB131C0F0, 0x2C4C700C, 0x00000000);
    NextWord(43, 0xD2E138C4, 0x16263BC6, 0x000000F0, 0x00000180);
    NextWord(44, 0x00000F00, 0x4EBED41E, 0x93AFB507, 0x2C4C700C);
    NextWord(45, 0x3AFB5079, 0x626380A1, 0x5898E048, 0x000000F0);
    NextWord(46, 0x898E04E5, 0x16263806, 0x8E9A9202, 0x93AFB507);
    NextWord(47, 0xE2BA3C2B, 0x000018C0, 0x00000600, 0x5898E048);
  }

  lemma Words48()
    ensures |ABC| == 64
    ensures Schedule(ABC, 48) == 0xDA9415ED && Schedule(ABC, 49) == 0x26380A16 && Schedule(ABC, 50) == 0x626383A1 && Schedule(ABC, 51) == 0x4EBF54DE
    ensures Schedule(ABC, 52) == 0x3835B44B && Schedule(ABC, 53) == 0x0000F600 && Schedule(ABC, 54) == 0x1E84C7A3 && Schedule(ABC, 55) == 0x98E04D98
  {
    hide Schedule;
    Words32(); Words40();
    NextWord(48, 0x000060C0, 0xD2E138C4, 0xB131C0F0, 0x8E9A9202);
    NextWord(49, 0x053A37CD, 0x00000F00, 0x16263BC6, 0x00000600);
    NextWord(50, 0x74458547, 0x3AFB5079, 0x4EBED41E, 0xB131C0F0);
    NextWord(51, 0xDA9415ED, 0x898E04E5, 0x626380A1, 0x16263BC6);
    NextWord(52, 0x26380A16, 0xE2BA3C2B, 0x16263806, 0x4EBED41E);
    NextWord(53, 0x626383A1, 0x000060C0, 0x000018C0, 0x626380A1);
    NextWord(54, 0x4EBF54DE, 0x053A37CD, 0xD2E138C4, 0x16263806);
    NextWord(55, 0x3835B44B, 0x74458547, 0x00000F00, 0x000018C0);
  }

  lemma Words56()
    ensures |ABC| == 64
    ensures Schedule(ABC, 56) == 0x651D16A0 && Schedule(ABC, 57) == 0x62658CA1 && Schedule(ABC, 58) == 0x458544D6 && Schedule(ABC, 59) == 0x44584CB7
    ensures Schedule(ABC, 60) == 0x7BA06619 && Schedule(ABC, 61) == 0x6380AEA2 && Schedule(ABC, 62) == 0x0AE55269 && Schedule(ABC, 63) == 0x627B49A1
  {
    hide Schedule;
    Words40(); Words48();
    NextWord(56, 0x0000F600, 0xDA9415ED, 0x3AFB5079, 0xD2E138C4);
    NextWord(57, 0x1E84C7A3, 0x26380A16, 0x898E04E5, 0x00000F00);
    NextWord(58, 0x98E04D98, 0x626383A1, 0xE2BA3C2B, 0x3AFB5079);
    NextWord(59, 0x651D16A0, 0x4EBF54DE, 0x000060C0, 0x898E04E5);
    NextWord(60, 0x62658CA1, 0x3835B44B, 0x053A37CD, 0xE2BA3C2B);
    NextWord(61, 0x458544D6, 0x0000F600, 0x74458547, 0x000060C0);
    NextWord(62, 0x44584CB7, 0x1E84C7A3, 0xDA9415ED, 0x053A37CD);
    NextWord(63, 0x7BA06619, 0x98E04D98, 0x26380A16, 0x74458547);
  }

  lemma Words64()
    ensures |ABC| == 64
    ensures Schedule(ABC, 64) == 0x7CD45C9D && Schedule(ABC, 65) == 0x000F0000 && Schedule(ABC, 66) == 0xFB50753A && Schedule(ABC, 67) == 0xEC6765E8
    ensures Schedule(ABC, 68) == 0xBA3C2BE2 && Schedule(ABC, 69) == 0x0060C000 && Schedule(ABC, 70) == 0x3A37CD05 && Schedule(ABC, 71) == 0x458546F4
  {
    hide Schedule;
    Words48(); Words56();
    NextWord(64, 0x6380AEA2, 0x651D16A0, 0x626383A1, 0xDA9415ED);
    NextWord(65, 0x0AE55269, 0x62658CA1, 0x4EBF54DE, 0x26380A16);
    NextWord(66, 0x627B49A1, 0x458544D6, 0x3835B44B, 0x626383A1);
    NextWord(67, 0x7CD45C9D, 0x44584CB7, 0x0000F600, 0x4EBF54DE);
    NextWord(68, 0x000F0000, 0x7BA06619, 0x1E84C7A3, 0x3835B44B);
    NextWord(69, 0xFB50753A, 0x6380AEA2, 0x98E04D98, 0x0000F600);
    NextWord(70, 0xEC6765E8, 0x0AE55269, 0x651D16A0, 0x1E84C7A3);
    NextWord(71, 0xBA3C2BE2, 0x627B49A1, 0x62658CA1, 0x98E04D98);
  }

  lemma Words72()
    ensures |ABC| == 64
    ensures Schedule(ABC, 72) == 0xB8599DD6 && Schedule(ABC, 73) == 0x380A1A26 && Schedule(ABC, 74) == 0x01E02203 && Schedule(ABC, 75) == 0xE7CC3456
    ensures Schedule(ABC, 76) == 0xE6E60B69 && Schedule(ABC, 77) == 0x00F60A00 && Schedule(ABC, 78) == 0x5795EF4F && Schedule(ABC, 79) == 0x822E0879
  {
    hide Schedule;
    Words56(); Words64();
    NextWord(72, 0x0060C000, 0x7CD45C9D, 0x458544D6, 0x651D16A0);
    NextWord(73, 0x3A37CD05, 0x000F0000, 0x44584CB7, 0x62658CA1);
    NextWord(74, 0x458546F4, 0xFB50753A, 0x7BA06619, 0x458544D6);
    NextWord(75, 0xB8599DD6, 0xEC6765E8, 0x6380AEA2, 0x44584CB7);
    NextWord(76, 0x380A1A26, 0xBA3C2BE2, 0x0AE55269, 0x7BA06619);
    NextWord(77, 0x01E02203, 0x0060C000, 0x627B49A1, 0x6380AEA2);
    NextWord(78, 0xE7CC3456, 0x3A37CD05, 0x7CD45C9D, 0x0AE55269);
    NextWord(79, 0xE6E60B69, 0x458546F4, 0x000F0000, 0x627B49A1);
  }

  /** Rounds 0 to 9. */
  lemma Rounds0()
    ensures |ABC| == 64 && Rounds(INIT, ABC, 10) == Regs(0x8351F929, 0x4B6AE328, 0x27A301F5, 0x664F8C30, 0x0FF1F290)
  {
    hide Schedule, Rounds;
    NoRounds(); Words0();
    NextRound(0, Regs(0x67452301, 0xEFCDAB89, 0x98BADCFE, 0x10325476, 0xC3D2E1F0), 0x61626380);
    NextRound(1, Regs(0x0116FC33, 0x67452301, 0x7BF36AE2, 0x98BADCFE, 0x10325476), 0x00000000);
    NextRound(2, Regs(0x8990536D, 0x0116FC33, 0x59D148C0, 0x7BF36AE2, 0x98BADCFE), 0x00000000);
    NextRound(3, Regs(0xA1390F08, 0x8990536D, 0xC045BF0C, 0x59D148C0, 0x7BF36AE2), 0x00000000);
    NextRound(4, Regs(0xCDD8E11B, 0xA1390F08, 0x626414DB, 0xC045BF0C, 0x59D148C0), 0x00000000);
    NextRound(5, Regs(0xCFD499DE, 0xCDD8E11B, 0x284E43C2, 0x626414DB, 0xC045BF0C), 0x00000000);
    NextRound(6, Regs(0x3FC7CA40, 0xCFD499DE, 0xF3763846, 0x284E43C2, 0x626414DB), 0x00000000);
    NextRound(7, Regs(0x993E30C1, 0x3FC7CA40, 0xB3F52677, 0xF3763846, 0x284E43C2), 0x00000000);
    NextRound(8, Regs(0x9E8C07D4, 0x993E30C1, 0x0FF1F290, 0xB3F52677, 0xF3763846), 0x00000000);
    NextRound(9, Regs(0x4B6AE328, 0x9E8C07D4, 0x664F8C30, 0x0FF1F290, 0xB3F52677), 0x00000000);
  }

  /** Rounds 10 to 19. */
  lemma Rounds10()
    ensures |ABC| == 64 && Rounds(INIT, ABC, 20) == Regs(0xFD9E1D7D, 0xDC64901D, 0x20AA99CA, 0xD3A49608, 0xC82F758B)
  {
    hide Schedule, Rounds;
    Rounds0(); Words0(); Words16();
    NextRound(10, Regs(0x8351F929, 0x4B6AE328, 0x27A301F5, 0x664F8C30, 0x0FF1F290), 0x00000000);
    NextRound(11, Regs(0xFBDA9E89, 0x8351F929, 0x12DAB8CA, 0x27A301F5, 0x664F8C30), 0x00000000);
    NextRound(12, Regs(0x63188FE4, 0xFBDA9E89, 0x60D47E4A, 0x12DAB8CA, 0x27A301F5), 0x00000000);
    NextRound(13, Regs(0x4607B664, 0x63188FE4, 0x7EF6A7A2, 0x60D47E4A, 0x12DAB8CA), 0x00000000);
    NextRound(14, Regs(0x9128F695, 0x4607B664, 0x18C623F9, 0x7EF6A7A2, 0x60D47E4A), 0x00000000);
    NextRound(15, Regs(0x196BEE77, 0x9128F695, 0x1181ED99, 0x18C623F9, 0x7EF6A7A2), 0x00000018);
    NextRound(16, Regs(0x20BDD62F, 0x196BEE77, 0x644A3DA5, 0x1181ED99, 0x18C623F9), 0xC2C4C700);
    NextRound(17, Regs(0x4E925823, 0x20BDD62F, 0xC65AFB9D, 0x644A3DA5, 0x1181ED99), 0x00000000);
    NextRound(18, Regs(0x82AA6728, 0x4E925823, 0xC82F758B, 0xC65AFB9D, 0x644A3DA5), 0x00000030);
    NextRound(19, Regs(0xDC64901D, 0x82AA6728, 0xD3A49608, 0xC82F758B, 0xC65AFB9D), 0x85898E01);
  }

  /** Rounds 20 to 29. */
  lemma Rounds20()
    ensures |ABC| == 64 && Rounds(INIT, ABC, 30) == Regs(0xC5FBAF5D, 0x8370B52E, 0xD2AA1365, 0x6F8D7EF5, 0x12104EE9)
  {
    hide Schedule, Rounds;
    Rounds10(); Words16(); Words24();
    NextRound(20, Regs(0xFD9E1D7D, 0xDC64901D, 0x20AA99CA, 0xD3A49608, 0xC82F758B), 0x00000000);
    NextRound(21, Regs(0x1A37B0CA, 0xFD9E1D7D, 0x77192407, 0x20AA99CA, 0xD3A49608), 0x00000060);
    NextRound(22, Regs(0x33A23BFC, 0x1A37B0CA, 0x7F67875F, 0x77192407, 0x20AA99CA), 0x0B131C03);
    NextRound(23, Regs(0x21283486, 0x33A23BFC, 0x868DEC32, 0x7F67875F, 0x77192407), 0x00000030);
    NextRound(24, Regs(0xD541F12D, 0x21283486, 0x0CE88EFF, 0x868DEC32, 0x7F67875F), 0x85898EC1);
    NextRound(25, Regs(0xC7567DC6, 0xD541F12D, 0x884A0D21, 0x0CE88EFF, 0x868DEC32), 0x16263806);
    NextRound(26, Regs(0x48413BA4, 0xC7567DC6, 0x75507C4B, 0x884A0D21, 0x0CE88EFF), 0x00000000);
    NextRound(27, Regs(0xBE35FBD5, 0x48413BA4, 0xB1D59F71, 0x75507C4B, 0x884A0D21), 0x00000180);
    NextRound(28, Regs(0x4AA84D97, 0xBE35FBD5, 0x12104EE9, 0xB1D59F71, 0x75507C4B), 0x2C4C700C);
    NextRound(29, Regs(0x8370B52E, 0x4AA84D97, 0x6F8D7EF5, 0x12104EE9, 0xB1D59F71), 0x000000F0);
  }

  /** Rounds 30 to 39. */
  lemma Rounds30()
    ensures |ABC| == 64 && Rounds(INIT, ABC, 40) == Regs(0x32DE1CBA, 0x4C986405, 0xF718E5CF, 0x03D447F6, 0xF72EEC32)
  {
    hide Schedule, Rounds;
    Rounds20(); Words24(); Words32();
    NextRound(30, Regs(0xC5FBAF5D, 0x8370B52E, 0xD2AA1365, 0x6F8D7EF5, 0x12104EE9), 0x93AFB507);
    NextRound(31, Regs(0x1267B407, 0xC5FBAF5D, 0xA0DC2D4B, 0xD2AA1365, 0x6F8D7EF5), 0x5898E048);
    NextRound(32, Regs(0x3B845D33, 0x1267B407, 0x717EEBD7, 0xA0DC2D4B, 0xD2AA1365), 0x8E9A9202);
    NextRound(33, Regs(0x046FAA0A, 0x3B845D33, 0xC499ED01, 0x717EEBD7, 0xA0DC2D4B), 0x00000600);
    NextRound(34, Regs(0x2C0EBC11, 0x046FAA0A, 0xCEE1174C, 0xC499ED01, 0x717EEBD7), 0xB131C0F0);
    NextRound(35, Regs(0x21796AD4, 0x2C0EBC11, 0x811BEA82, 0xCEE1174C, 0xC499ED01), 0x16263BC6);
    NextRound(36, Regs(0xDCBBB0CB, 0x21796AD4, 0x4B03AF04, 0x811BEA82, 0xCEE1174C), 0x4EBED41E);
    NextRound(37, Regs(0x0F511FD8, 0xDCBBB0CB, 0x085E5AB5, 0x4B03AF04, 0x811BEA82), 0x626380A1);
    NextRound(38, Regs(0xDC63973F, 0x0F511FD8, 0xF72EEC32, 0x085E5AB5, 0x4B03AF04), 0x16263806);
    NextRound(39, Regs(0x4C986405, 0xDC63973F, 0x03D447F6, 0xF72EEC32, 0x085E5AB5), 0x000018C0);
  }

  /** Rounds 40 to 49. */
  lemma Rounds40()
    ensures |ABC| == 64 && Rounds(INIT, ABC, 50) == Regs(0x120731C5, 0xBAF39337, 0xAFAB40B2, 0x2806E11B, 0x8714787C)
  {
    hide Schedule, Rounds;
    Rounds30(); Words40(); Words48();
    NextRound(40, Regs(0x32DE1CBA, 0x4C986405, 0xF718E5CF, 0x03D447F6, 0xF72EEC32), 0xD2E138C4);
    NextRound(41, Regs(0xFC87DEDF, 0x32DE1CBA, 0x53261901, 0xF718E5CF, 0x03D447F6), 0x00000F00);
    NextRound(42, Regs(0x970A0D5C, 0xFC87DEDF, 0x8CB7872E, 0x53261901, 0xF718E5CF), 0x3AFB5079);
    NextRound(43, Regs(0x7F193DC5, 0x970A0D5C, 0xFF21F7B7, 0x8CB7872E, 0x53261901), 0x898E04E5);
    NextRound(44, Regs(0xEE1B1AAF, 0x7F193DC5, 0x25C28357, 0xFF21F7B7, 0x8CB7872E), 0xE2BA3C2B);
    NextRound(45, Regs(0x40F28E09, 0xEE1B1AAF, 0x5FC64F71, 0x25C28357, 0xFF21F7B7), 0x000060C0);
    NextRound(46, Regs(0x1C51E1F2, 0x40F28E09, 0xFB86C6AB, 0x5FC64F71, 0x25C28357), 0x053A37CD);
    NextRound(47, Regs(0xA01B846C, 0x1C51E1F2, 0x503CA382, 0xFB86C6AB, 0x5FC64F71), 0x74458547);
    NextRound(48, Regs(0xBEAD02CA, 0xA01B846C, 0x8714787C, 0x503CA382, 0xFB86C6AB), 0xDA9415ED);
    NextRound(49, Regs(0xBAF39337, 0xBEAD02CA, 0x2806E11B, 0x8714787C, 0x503CA382), 0x26380A16);
  }

  /** Rounds 50 to 59. */
  lemma Rounds50()
    ensures |ABC| == 64 && Rounds(INIT, ABC, 60) == Regs(0x3F52DE5A, 0x09D785FD, 0x3498BFD4, 0xF211824F, 0xD79915AB)
  {
    hide Schedule, Rounds;
    Rounds40(); Words48(); Words56();
    NextRound(50, Regs(0x120731C5, 0xBAF39337, 0xAFAB40B2, 0x2806E11B, 0x8714787C), 0x626383A1);
    NextRound(51, Regs(0x641DB2CE, 0x120731C5, 0xEEBCE4CD, 0xAFAB40B2, 0x2806E11B), 0x4EBF54DE);
    NextRound(52, Regs(0x3847AD66, 0x641DB2CE, 0x4481CC71, 0xEEBCE4CD, 0xAFAB40B2), 0x3835B44B);
    NextRound(53, Regs(0xE490436D, 0x3847AD66, 0x99076CB3, 0x4481CC71, 0xEEBCE4CD), 0x0000F600);
    NextRound(54, Regs(0x27E9F1D8, 0xE490436D, 0x8E11EB59, 0x99076CB3, 0x4481CC71), 0x1E84C7A3);
    NextRound(55, Regs(0x7B71F76D, 0x27E9F1D8, 0x792410DB, 0x8E11EB59, 0x99076CB3), 0x98E04D98);
    NextRound(56, Regs(0x5E6456AF, 0x7B71F76D, 0x09FA7C76, 0x792410DB, 0x8E11EB59), 0x651D16A0);
    NextRound(57, Regs(0xC846093F, 0x5E6456AF, 0x5EDC7DDB, 0x09FA7C76, 0x792410DB), 0x62658CA1);
    NextRound(58, Regs(0xD262FF50, 0xC846093F, 0xD79915AB, 0x5EDC7DDB, 0x09FA7C76), 0x458544D6);
    NextRound(59, Regs(0x09D785FD, 0xD262FF50, 0xF211824F, 0xD79915AB, 0x5EDC7DDB), 0x44584CB7);
  }

  /** Rounds 60 to 69. */
  lemma Rounds60()
    ensures |ABC| == 64 && Rounds(INIT, ABC, 70) == Regs(0x3F2588C2, 0x497093C0, 0xDE37534A, 0x030F7CAD, 0x4405957E)
  {
    hide Schedule, Rounds;
    Rounds50(); Words56(); Words64();
    NextRound(60, Regs(0x3F52DE5A, 0x09D785FD, 0x3498BFD4, 0xF211824F, 0xD79915AB), 0x7BA06619);
    NextRound(61, Regs(0xD756C147, 0x3F52DE5A, 0x4275E17F, 0x3498BFD4, 0xF211824F), 0x6380AEA2);
    NextRound(62, Regs(0x548C9CB2, 0xD756C147, 0x8FD4B796, 0x4275E17F, 0x3498BFD4), 0x0AE55269);
    NextRound(63, Regs(0xB66C020B, 0x548C9CB2, 0xF5D5B051, 0x8FD4B796, 0x4275E17F), 0x627B49A1);
    NextRound(64, Regs(0x6B61C9E1, 0xB66C020B, 0x9523272C, 0xF5D5B051, 0x8FD4B796), 0x7CD45C9D);
    NextRound(65, Regs(0x19DFA7AC, 0x6B61C9E1, 0xED9B0082, 0x9523272C, 0xF5D5B051), 0x000F0000);
    NextRound(66, Regs(0x101655F9, 0x19DFA7AC, 0x5AD87278, 0xED9B0082, 0x9523272C), 0xFB50753A);
    NextRound(67, Regs(0x0C3DF2B4, 0x101655F9, 0x0677E9EB, 0x5AD87278, 0xED9B0082), 0xEC6765E8);
    NextRound(68, Regs(0x78DD4D2B, 0x0C3DF2B4, 0x4405957E, 0x0677E9EB, 0x5AD87278), 0xBA3C2BE2);
    NextRound(69, Regs(0x497093C0, 0x78DD4D2B, 0x030F7CAD, 0x4405957E, 0x0677E9EB), 0x0060C000);
  }

  /** Rounds 70 to 79. */
  lemma Rounds70()
    ensures |ABC| == 64 && Rounds(INIT, ABC, 80) == Regs(0x42541B35, 0x5738D5E1, 0x21834873, 0x681E6DF6, 0xD8FDF6AD)
  {
    hide Schedule, Rounds;
    Rounds60(); Words64(); Words72();
    NextRound(70, Regs(0x3F2588C2, 0x497093C0, 0xDE37534A, 0x030F7CAD, 0x4405957E), 0x3A37CD05);
    NextRound(71, Regs(0xC199F8C7, 0x3F2588C2, 0x125C24F0, 0xDE37534A, 0x030F7CAD), 0x458546F4);
    NextRound(72, Regs(0x39859DE7, 0xC199F8C7, 0x8FC96230, 0x125C24F0, 0xDE37534A), 0xB8599DD6);
    NextRound(73, Regs(0xEDB42DE4, 0x39859DE7, 0xF0667E31, 0x8FC96230, 0x125C24F0), 0x380A1A26);
    NextRound(74, Regs(0x11793F6F, 0xEDB42DE4, 0xCE616779, 0xF0667E31, 0x8FC96230), 0x01E02203);
    NextRound(75, Regs(0x5EE76897, 0x11793F6F, 0x3B6D0B79, 0xCE616779, 0xF0667E31), 0xE7CC3456);
    NextRound(76, Regs(0x63F7DAB7, 0x5EE76897, 0xC45E4FDB, 0x3B6D0B79, 0xCE616779), 0xE6E60B69);
    NextRound(77, Regs(0xA079B7D9, 0x63F7DAB7, 0xD7B9DA25, 0xC45E4FDB, 0x3B6D0B79), 0x00F60A00);
    NextRound(78, Regs(0x860D21CC, 0xA079B7D9, 0xD8FDF6AD, 0xD7B9DA25, 0xC45E4FDB), 0x5795EF4F);
    NextRound(79, Regs(0x5738D5E1, 0x860D21CC, 0x681E6DF6, 0xD8FDF6AD, 0xD7B9DA25), 0x822E0879);
  }

  lemma NoRounds()
    ensures |ABC| == 64 && Rounds(INIT, ABC, 0) == Regs(0x67452301, 0xEFCDAB89, 0x98BADCFE, 0x10325476, 0xC3D2E1F0)
  {
    Padded();
  }

  /** SHA-1("abc") == a9993e36 4706816a ba3e2571 7850c26c 9cd0d89d. */
  lemma DigestOfAbc()
    ensures Hash([0x61, 0x62, 0x63]) == [
      0xA9, 0x99, 0x3E, 0x36, 0x47, 0x06, 0x81, 0x6A, 0xBA, 0x3E,
      0x25, 0x71, 0x78, 0x50, 0xC2, 0x6C, 0x9C, 0xD0, 0xD8, 0x9D]
  {
    hide Rounds, Schedule, Round;
    Padded();
    Rounds70();
    OneBlock();
    assert Compress(INIT, ABC) == Regs(0xA9993E36, 0x4706816A, 0xBA3E2571, 0x7850C26C, 0x9CD0D89D);
    DigestWords();
  }

  lemma OneBlock()
    ensures |ABC| == 64 && HashBlocks(ABC) == Compress(INIT, ABC)
  {
    hide Compress;
    Padded();
    FoldSnoc(Compress, INIT, [], ABC);
    assert [] + ABC == ABC;
  }

  lemma DigestWords()
    ensures Digest(Regs(0xA9993E36, 0x4706816A, 0xBA3E2571, 0x7850C26C, 0x9CD0D89D)) == [
      0xA9, 0x99, 0x3E, 0x36, 0x47, 0x06, 0x81, 0x6A, 0xBA, 0x3E,
      0x25, 0x71, 0x78, 0x50, 0xC2, 0x6C, 0x9C, 0xD0, 0xD8, 0x9D]
  {}
}
