/**
 A known answer, worked out step by step: the MD5 state of "127.0.0.1:399991", the string that gives the
 second group of points of the address 127.0.0.1:39999. By RFC 1321 its digest is
 884777c5 1379d600 35a7d20b c57080a9, so the second word is below 2^24 and the program's digest has only
 fifteen bytes: the ring reads past its end.
 */
module Md5KnownAnswer {
  import opened Bytes
  import opened Md5
  import ConsistentHash

  /** The sixteen words of the padded string. */
  function SampleWords(): (w: seq<Word>)
    ensures |w| == 16
  {
    [0x2E373231, 0x2E302E30, 0x39333A31, 0x31393939, 0x80, 0x0, 0x0, 0x0,
     0x0, 0x0, 0x0, 0x0, 0x0, 0x0, 0x80, 0x0]
  }

  lemma Sums(p: int, q: int, r: int, s: int)
    ensures (((p + q) % TWO_32 + r) % TWO_32 + s) % TWO_32 == (p + q + r + s) % TWO_32
  {
  }

  /** One step of the plain loop, its intermediate values given. */
  lemma Go(i: nat, r: Regs, aux: Word, sum: Word, rotated: Word)
    requires i < 64 && |T| == 64 && Plain(INITIAL, SampleWords(), i) == r
    requires Aux(i, r.b, r.c, r.d) == aux
    requires (aux + r.a + SampleWords()[X(i)] + T[i]) % TWO_32 == sum
    requires Rotate(sum, S(i)) == rotated
    ensures Plain(INITIAL, SampleWords(), i + 1) == Regs(r.d, Add(r.b, rotated), r.b, r.c)
  {
    hide Aux, Rotate, S, X, SampleWords;
    Sums(aux, r.a, SampleWords()[X(i)], T[i]);
    PlainNext(INITIAL, SampleWords(), i);
  }

  lemma PlainNext(r: Regs, x: seq<Word>, i: nat)
    requires |x| == 16 && i < 64
    ensures Plain(r, x, i + 1) == PlainStep(Plain(r, x, i), x, i)
  {
    hide PlainStep;
  }

  // four steps at a time: the values of the bitwise functions, then the registers

  lemma Bits4()
    ensures F(0xEFCDAB89, 0x98BADCFE, 0x10325476) == 0x98BADCFE && Rotate(0x5A1D6A8, 7) == 0xD0EB5402
    ensures F(0xC0B8FF8B, 0xEFCDAB89, 0x98BADCFE) == 0xD88AABFD && Rotate(0xFFB4E5F9, 12) == 0x4E5F9FFB
    ensures F(0xF189F86, 0xC0B8FF8B, 0xEFCDAB89) == 0xE0DDBF8B && Rotate(0xD6EC4795, 17) == 0x8F2BADD8
    ensures F(0x9E444D5E, 0xF189F86, 0xC0B8FF8B) == 0x4EB8BF87 && Rotate(0x317D7337, 22) == 0xCDCC5F5C
  {
  }

  lemma After4()
    ensures Plain(INITIAL, SampleWords(), 4) == Regs(0xC0B8FF8B, 0x6C10ACBA, 0x9E444D5E, 0xF189F86)
  {
    hide Plain, F, G, H, I, Rotate;
    Bits4();
    PlainStart(INITIAL, SampleWords());
    Go(0, Regs(0x67452301, 0xEFCDAB89, 0x98BADCFE, 0x10325476), 0x98BADCFE, 0x5A1D6A8, 0xD0EB5402);
    Go(1, Regs(0x10325476, 0xC0B8FF8B, 0xEFCDAB89, 0x98BADCFE), 0xD88AABFD, 0xFFB4E5F9, 0x4E5F9FFB);
    Go(2, Regs(0x98BADCFE, 0xF189F86, 0xC0B8FF8B, 0xEFCDAB89), 0xE0DDBF8B, 0xD6EC4795, 0x8F2BADD8);
    Go(3, Regs(0xEFCDAB89, 0x9E444D5E, 0xF189F86, 0xC0B8FF8B), 0x4EB8BF87, 0x317D7337, 0xCDCC5F5C);
  }

  lemma Bits8()
    ensures F(0x6C10ACBA, 0x9E444D5E, 0xF189F86) == 0xF081F1E && Rotate(0xC53D2ED8, 7) == 0x9E976C62
    ensures F(0xAA8191C, 0x6C10ACBA, 0x9E444D5E) == 0x9C444C5A && Rotate(0xF2E4B20A, 12) == 0x4B20AF2E
    ensures F(0x55C8C84A, 0xAA8191C, 0x6C10ACBA) == 0x28982CB8 && Rotate(0x6F0CC029, 17) == 0x8052DE19
    ensures F(0xD61BA663, 0x55C8C84A, 0xAA8191C) == 0x5CA8995E && Rotate(0xC5FFDB19, 22) == 0xC6717FF6
  {
  }

  lemma After8()
    ensures Plain(INITIAL, SampleWords(), 8) == Regs(0xAA8191C, 0x9C8D2659, 0xD61BA663, 0x55C8C84A)
  {
    hide Plain, F, G, H, I, Rotate;
    Bits8();
    After4();
    Go(4, Regs(0xC0B8FF8B, 0x6C10ACBA, 0x9E444D5E, 0xF189F86), 0xF081F1E, 0xC53D2ED8, 0x9E976C62);
    Go(5, Regs(0xF189F86, 0xAA8191C, 0x6C10ACBA, 0x9E444D5E), 0x9C444C5A, 0xF2E4B20A, 0x4B20AF2E);
    Go(6, Regs(0x9E444D5E, 0x55C8C84A, 0xAA8191C, 0x6C10ACBA), 0x28982CB8, 0x6F0CC029, 0x8052DE19);
    Go(7, Regs(0x6C10ACBA, 0xD61BA663, 0x55C8C84A, 0xAA8191C), 0x5CA8995E, 0xC5FFDB19, 0xC6717FF6);
  }

  lemma Bits12()
    ensures F(0x9C8D2659, 0xD61BA663, 0x55C8C84A) == 0xD549EE43 && Rotate(0x4972A037, 7) == 0xB9501BA4
    ensures F(0x55DD41FD, 0x9C8D2659, 0xD61BA663) == 0x968FA65B && Rotate(0x779D6654, 12) == 0xD6654779
    ensures F(0x2C428976, 0x55DD41FD, 0x9C8D2659) == 0x94CD277D && Rotate(0x6AE82991, 17) == 0x5322D5D0
    ensures F(0x7F655F46, 0x2C428976, 0x55DD41FD) == 0x2CD809FF && Rotate(0x52C20816, 22) == 0x594B082
  {
  }

  lemma After12()
    ensures Plain(INITIAL, SampleWords(), 12) == Regs(0x55DD41FD, 0x84FA0FC8, 0x7F655F46, 0x2C428976)
  {
    hide Plain, F, G, H, I, Rotate;
    Bits12();
    After8();
    Go(8, Regs(0xAA8191C, 0x9C8D2659, 0xD61BA663, 0x55C8C84A), 0xD549EE43, 0x4972A037, 0xB9501BA4);
    Go(9, Regs(0x55C8C84A, 0x55DD41FD, 0x9C8D2659, 0xD61BA663), 0x968FA65B, 0x779D6654, 0xD6654779);
    Go(10, Regs(0xD61BA663, 0x2C428976, 0x55DD41FD, 0x9C8D2659), 0x94CD277D, 0x6AE82991, 0x5322D5D0);
    Go(11, Regs(0x9C8D2659, 0x7F655F46, 0x2C428976, 0x55DD41FD), 0x2CD809FF, 0x52C20816, 0x594B082);
  }

  lemma Bits16()
    ensures F(0x84FA0FC8, 0x7F655F46, 0x2C428976) == 0x2C608F76 && Rotate(0xEDCDE295, 7) == 0xE6F14AF6
    ensures F(0x6BEB5ABE, 0x84FA0FC8, 0x7F655F46) == 0x14EE0FC8 && Rotate(0x3EC90AD1, 12) == 0x90AD13EC
    ensures F(0xFC986EAA, 0x6BEB5ABE, 0x84FA0FC8) == 0x68EA4BEA && Rotate(0x8EC8EF3E, 17) == 0xDE7D1D91
    ensures F(0xDB158C3B, 0xFC986EAA, 0x6BEB5ABE) == 0xF8FA5EAE && Rotate(0xC7A87697, 22) == 0xA5F1EA1D
  {
  }

  lemma After16()
    ensures Plain(INITIAL, SampleWords(), 16) == Regs(0x6BEB5ABE, 0x81077658, 0xDB158C3B, 0xFC986EAA)
  {
    hide Plain, F, G, H, I, Rotate;
    Bits16();
    After12();
    Go(12, Regs(0x55DD41FD, 0x84FA0FC8, 0x7F655F46, 0x2C428976), 0x2C608F76, 0xEDCDE295, 0xE6F14AF6);
    Go(13, Regs(0x2C428976, 0x6BEB5ABE, 0x84FA0FC8, 0x7F655F46), 0x14EE0FC8, 0x3EC90AD1, 0x90AD13EC);
    Go(14, Regs(0x7F655F46, 0xFC986EAA, 0x6BEB5ABE, 0x84FA0FC8), 0x68EA4BEA, 0x8EC8EF3E, 0xDE7D1D91);
    Go(15, Regs(0x84FA0FC8, 0xDB158C3B, 0xFC986EAA, 0x6BEB5ABE), 0xF8FA5EAE, 0xC7A87697, 0xA5F1EA1D);
  }

  lemma Bits20()
    ensures G(0x81077658, 0xDB158C3B, 0xFC986EAA) == 0x8305E619 && Rotate(0x133F9469, 5) == 0x67F28D22
    ensures G(0xE8FA037A, 0x81077658, 0xDB158C3B) == 0xC812727A && Rotate(0x84EB9464, 9) == 0xD728C909
    ensures G(0xC022CC83, 0xE8FA037A, 0x81077658) == 0xE8FA4522 && Rotate(0xEA6E2BAE, 14) == 0x8AEBBA9B
    ensures G(0x4B0E871E, 0xC022CC83, 0xE8FA037A) == 0x480ACF9B && Rotate(0xE1003FCE, 20) == 0xFCEE1003
  {
  }

  lemma After20()
    ensures Plain(INITIAL, SampleWords(), 20) == Regs(0xE8FA037A, 0x47FC9721, 0x4B0E871E, 0xC022CC83)
  {
    hide Plain, F, G, H, I, Rotate;
    Bits20();
    After16();
    Go(16, Regs(0x6BEB5ABE, 0x81077658, 0xDB158C3B, 0xFC986EAA), 0x8305E619, 0x133F9469, 0x67F28D22);
    Go(17, Regs(0xFC986EAA, 0xE8FA037A, 0x81077658, 0xDB158C3B), 0xC812727A, 0x84EB9464, 0xD728C909);
    Go(18, Regs(0xDB158C3B, 0xC022CC83, 0xE8FA037A, 0x81077658), 0xE8FA4522, 0xEA6E2BAE, 0x8AEBBA9B);
    Go(19, Regs(0x81077658, 0x4B0E871E, 0xC022CC83, 0xE8FA037A), 0x480ACF9B, 0xE1003FCE, 0xFCEE1003);
  }

  lemma Bits24()
    ensures G(0x47FC9721, 0x4B0E871E, 0xC022CC83) == 0x4B2C871D && Rotate(0xA559AF4, 5) == 0x4AB35E81
    ensures G(0x92AFF5A2, 0x47FC9721, 0x4B0E871E) == 0x6FE9523 && Rotate(0xC96575F9, 9) == 0xCAEBF392
    ensures G(0x5D9BE934, 0x92AFF5A2, 0x47FC9721) == 0xD59BE1A2 && Rotate(0xF94C4F41, 14) == 0x13D07E53
    ensures G(0x716C6787, 0x5D9BE934, 0x92AFF5A2) == 0x5D3C6D96 && Rotate(0x8D0D00FF, 20) == 0xFF8D0D0
  {
  }

  lemma After24()
    ensures Plain(INITIAL, SampleWords(), 24) == Regs(0x92AFF5A2, 0x81653857, 0x716C6787, 0x5D9BE934)
  {
    hide Plain, F, G, H, I, Rotate;
    Bits24();
    After20();
    Go(20, Regs(0xE8FA037A, 0x47FC9721, 0x4B0E871E, 0xC022CC83), 0x4B2C871D, 0xA559AF4, 0x4AB35E81);
    Go(21, Regs(0xC022CC83, 0x92AFF5A2, 0x47FC9721, 0x4B0E871E), 0x6FE9523, 0xC96575F9, 0xCAEBF392);
    Go(22, Regs(0x4B0E871E, 0x5D9BE934, 0x92AFF5A2, 0x47FC9721), 0xD59BE1A2, 0xF94C4F41, 0x13D07E53);
    Go(23, Regs(0x47FC9721, 0x716C6787, 0x5D9BE934, 0x92AFF5A2), 0x5D3C6D96, 0x8D0D00FF, 0xFF8D0D0);
  }

  lemma Bits28()
    ensures G(0x81653857, 0x716C6787, 0x5D9BE934) == 0x21652E97 && Rotate(0xD5F6F21F, 5) == 0xBEDE43FA
    ensures G(0x40437C51, 0x81653857, 0x716C6787) == 0xC0417C51 && Rotate(0xE1146DDB, 9) == 0x28DBB7C2
    ensures G(0x691F3413, 0x40437C51, 0x81653857) == 0x41077413 && Rotate(0xD882225A, 14) == 0x8896B620
    ensures G(0xF1B5EA33, 0x691F3413, 0x40437C51) == 0x691D6813 && Rotate(0x2FDCB557, 20) == 0x5572FDCB
  {
  }

  lemma After28()
    ensures Plain(INITIAL, SampleWords(), 28) == Regs(0x40437C51, 0x4728E7FE, 0xF1B5EA33, 0x691F3413)
  {
    hide Plain, F, G, H, I, Rotate;
    Bits28();
    After24();
    Go(24, Regs(0x92AFF5A2, 0x81653857, 0x716C6787, 0x5D9BE934), 0x21652E97, 0xD5F6F21F, 0xBEDE43FA);
    Go(25, Regs(0x5D9BE934, 0x40437C51, 0x81653857, 0x716C6787), 0xC0417C51, 0xE1146DDB, 0x28DBB7C2);
    Go(26, Regs(0x716C6787, 0x691F3413, 0x40437C51, 0x81653857), 0x41077413, 0xD882225A, 0x8896B620);
    Go(27, Regs(0x81653857, 0xF1B5EA33, 0x691F3413, 0x40437C51), 0x691D6813, 0x2FDCB557, 0x5572FDCB);
  }

  lemma Bits32()
    ensures G(0x4728E7FE, 0xF1B5EA33, 0x691F3413) == 0xD1A8EE32 && Rotate(0xBBD05388, 5) == 0x7A0A7117
    ensures G(0xC1335915, 0x4728E7FE, 0xF1B5EA33) == 0xC7394DDD && Rotate(0x667B6019, 9) == 0xF6C032CC
    ensures G(0xB7F38BE1, 0xC1335915, 0x4728E7FE) == 0x87339BE1 && Rotate(0xE05888ED, 14) == 0x223B7816
    ensures G(0xDA2F03F7, 0xB7F38BE1, 0xC1335915) == 0xF6E383F5 && Rotate(0xCB36B87D, 20) == 0x87DCB36B
  {
  }

  lemma After32()
    ensures Plain(INITIAL, SampleWords(), 32) == Regs(0xC1335915, 0x620BB762, 0xDA2F03F7, 0xB7F38BE1)
  {
    hide Plain, F, G, H, I, Rotate;
    Bits32();
    After28();
    Go(28, Regs(0x40437C51, 0x4728E7FE, 0xF1B5EA33, 0x691F3413), 0xD1A8EE32, 0xBBD05388, 0x7A0A7117);
    Go(29, Regs(0x691F3413, 0xC1335915, 0x4728E7FE, 0xF1B5EA33), 0xC7394DDD, 0x667B6019, 0xF6C032CC);
    Go(30, Regs(0xF1B5EA33, 0xB7F38BE1, 0xC1335915, 0x4728E7FE), 0x87339BE1, 0xE05888ED, 0x223B7816);
    Go(31, Regs(0x4728E7FE, 0xDA2F03F7, 0xB7F38BE1, 0xC1335915), 0xF6E383F5, 0xCB36B87D, 0x87DCB36B);
  }

  lemma Bits36()
    ensures H(0x620BB762, 0xDA2F03F7, 0xB7F38BE1) == 0xFD73F74 && Rotate(0xD104D1CB, 4) == 0x104D1CBD
    ensures H(0x7258D41F, 0x620BB762, 0xDA2F03F7) == 0xCA7C608A && Rotate(0x9E1E2EC, 11) == 0xF17604F
    ensures H(0x8170346E, 0x7258D41F, 0x620BB762) == 0x91235713 && Rotate(0xD8EFBC2C, 16) == 0xBC2CD8EF
    ensures H(0x3D9D0D5D, 0x8170346E, 0x7258D41F) == 0xCEB5ED2C && Rotate(0x2EA6DD1A, 23) == 0x8D17536E
  {
  }

  lemma After36()
    ensures Plain(INITIAL, SampleWords(), 36) == Regs(0x7258D41F, 0xCAB460CB, 0x3D9D0D5D, 0x8170346E)
  {
    hide Plain, F, G, H, I, Rotate;
    Bits36();
    After32();
    Go(32, Regs(0xC1335915, 0x620BB762, 0xDA2F03F7, 0xB7F38BE1), 0xFD73F74, 0xD104D1CB, 0x104D1CBD);
    Go(33, Regs(0xB7F38BE1, 0x7258D41F, 0x620BB762, 0xDA2F03F7), 0xCA7C608A, 0x9E1E2EC, 0xF17604F);
    Go(34, Regs(0xDA2F03F7, 0x8170346E, 0x7258D41F, 0x620BB762), 0x91235713, 0xD8EFBC2C, 0xBC2CD8EF);
    Go(35, Regs(0x620BB762, 0x3D9D0D5D, 0x8170346E, 0x7258D41F), 0xCEB5ED2C, 0x2EA6DD1A, 0x8D17536E);
  }

  lemma Bits40()
    ensures H(0xCAB460CB, 0x3D9D0D5D, 0x8170346E) == 0x765959F8 && Rotate(0xBBA1468B, 4) == 0xBA1468BB
    ensures H(0x84C8C986, 0xCAB460CB, 0x3D9D0D5D) == 0x73E1A410 && Rotate(0x4130A8A7, 11) == 0x85453A09
    ensures H(0xA0E038F, 0x84C8C986, 0xCAB460CB) == 0x4472AAC2 && Rotate(0x78CB037F, 16) == 0x37F78CB
    ensures H(0xD8D7C5A, 0xA0E038F, 0x84C8C986) == 0x834BB653 && Rotate(0xCBFD38E, 23) == 0xC7065FE9
  {
  }

  lemma After40()
    ensures Plain(INITIAL, SampleWords(), 40) == Regs(0x84C8C986, 0xD493DC43, 0xD8D7C5A, 0xA0E038F)
  {
    hide Plain, F, G, H, I, Rotate;
    Bits40();
    After36();
    Go(36, Regs(0x7258D41F, 0xCAB460CB, 0x3D9D0D5D, 0x8170346E), 0x765959F8, 0xBBA1468B, 0xBA1468BB);
    Go(37, Regs(0x8170346E, 0x84C8C986, 0xCAB460CB, 0x3D9D0D5D), 0x73E1A410, 0x4130A8A7, 0x85453A09);
    Go(38, Regs(0x3D9D0D5D, 0xA0E038F, 0x84C8C986, 0xCAB460CB), 0x4472AAC2, 0x78CB037F, 0x37F78CB);
    Go(39, Regs(0xCAB460CB, 0xD8D7C5A, 0xA0E038F, 0x84C8C986), 0x834BB653, 0xCBFD38E, 0xC7065FE9);
  }

  lemma Bits44()
    ensures H(0xD493DC43, 0xD8D7C5A, 0xA0E038F) == 0xD310A396 && Rotate(0x8074EBE2, 4) == 0x74EBE28
    ensures H(0xDBE29A6B, 0xD493DC43, 0xD8D7C5A) == 0x2FC3A72 && Rotate(0x25E2982C, 11) == 0x14C1612F
    ensures H(0xF0A3FB9A, 0xDBE29A6B, 0xD493DC43) == 0xFFD2BDB2 && Rotate(0x1388A3CA, 16) == 0xA3CA1388
    ensures H(0x946E0F22, 0xF0A3FB9A, 0xDBE29A6B) == 0xBF2F6ED3 && Rotate(0x984B681B, 23) == 0xDCC25B4
  {
  }

  lemma After44()
    ensures Plain(INITIAL, SampleWords(), 44) == Regs(0xDBE29A6B, 0xA23A34D6, 0x946E0F22, 0xF0A3FB9A)
  {
    hide Plain, F, G, H, I, Rotate;
    Bits44();
    After40();
    Go(40, Regs(0x84C8C986, 0xD493DC43, 0xD8D7C5A, 0xA0E038F), 0xD310A396, 0x8074EBE2, 0x74EBE28);
    Go(41, Regs(0xA0E038F, 0xDBE29A6B, 0xD493DC43, 0xD8D7C5A), 0x2FC3A72, 0x25E2982C, 0x14C1612F);
    Go(42, Regs(0xD8D7C5A, 0xF0A3FB9A, 0xDBE29A6B, 0xD493DC43), 0xFFD2BDB2, 0x1388A3CA, 0xA3CA1388);
    Go(43, Regs(0xD493DC43, 0x946E0F22, 0xF0A3FB9A, 0xDBE29A6B), 0xBF2F6ED3, 0x984B681B, 0xDCC25B4);
  }

  lemma Bits48()
    ensures H(0xA23A34D6, 0x946E0F22, 0xF0A3FB9A) == 0xC6F7C06E && Rotate(0x7CAF2B12, 4) == 0xCAF2B127
    ensures H(0x6D2CE5FD, 0xA23A34D6, 0x946E0F22) == 0x5B78DE09 && Rotate(0x32F87388, 11) == 0xC39C4197
    ensures H(0x30C92794, 0x6D2CE5FD, 0xA23A34D6) == 0xFFDFF6BF && Rotate(0xB3F082D9, 16) == 0x82D9B3F0
    ensures H(0xB3A2DB84, 0x30C92794, 0x6D2CE5FD) == 0xEE4719ED && Rotate(0x8E60DF59, 23) == 0xACC7306F
  {
  }

  lemma After48()
    ensures Plain(INITIAL, SampleWords(), 48) == Regs(0x6D2CE5FD, 0x606A0BF3, 0xB3A2DB84, 0x30C92794)
  {
    hide Plain, F, G, H, I, Rotate;
    Bits48();
    After44();
    Go(44, Regs(0xDBE29A6B, 0xA23A34D6, 0x946E0F22, 0xF0A3FB9A), 0xC6F7C06E, 0x7CAF2B12, 0xCAF2B127);
    Go(45, Regs(0xF0A3FB9A, 0x6D2CE5FD, 0xA23A34D6, 0x946E0F22), 0x5B78DE09, 0x32F87388, 0xC39C4197);
    Go(46, Regs(0x946E0F22, 0x30C92794, 0x6D2CE5FD, 0xA23A34D6), 0xFFDFF6BF, 0xB3F082D9, 0x82D9B3F0);
    Go(47, Regs(0xA23A34D6, 0xB3A2DB84, 0x30C92794, 0x6D2CE5FD), 0xEE4719ED, 0x8E60DF59, 0xACC7306F);
  }

  lemma Bits52()
    ensures I(0x606A0BF3, 0xB3A2DB84, 0x30C92794) == 0x5CDC007F && Rotate(0xEC693AF1, 6) == 0x1A4EBC7B
    ensures I(0x7AB8C86E, 0x606A0BF3, 0xB3A2DB84) == 0x1E97E78C && Rotate(0x928C0EB7, 10) == 0x303ADE4A
    ensures I(0xAAF3A6B8, 0x7AB8C86E, 0x606A0BF3) == 0xC54F3ED2 && Rotate(0x24863E7D, 15) == 0x1F3E9243
    ensures I(0xCA3238FB, 0xAAF3A6B8, 0x7AB8C86E) == 0x65849943 && Rotate(0xC282456F, 21) == 0xADF85048
  {
  }

  lemma After52()
    ensures Plain(INITIAL, SampleWords(), 52) == Regs(0x7AB8C86E, 0x782A8943, 0xCA3238FB, 0xAAF3A6B8)
  {
    hide Plain, F, G, H, I, Rotate;
    Bits52();
    After48();
    Go(48, Regs(0x6D2CE5FD, 0x606A0BF3, 0xB3A2DB84, 0x30C92794), 0x5CDC007F, 0xEC693AF1, 0x1A4EBC7B);
    Go(49, Regs(0x30C92794, 0x7AB8C86E, 0x606A0BF3, 0xB3A2DB84), 0x1E97E78C, 0x928C0EB7, 0x303ADE4A);
    Go(50, Regs(0xB3A2DB84, 0xAAF3A6B8, 0x7AB8C86E, 0x606A0BF3), 0xC54F3ED2, 0x24863E7D, 0x1F3E9243);
    Go(51, Regs(0x606A0BF3, 0xCA3238FB, 0xAAF3A6B8, 0x7AB8C86E), 0x65849943, 0xC282456F, 0xADF85048);
  }

  lemma Bits56()
    ensures I(0x782A8943, 0xCA3238FB, 0xAAF3A6B8) == 0xB71CE1BC && Rotate(0x973103ED, 6) == 0xCC40FB65
    ensures I(0x446B84A8, 0x782A8943, 0xCA3238FB) == 0xDC54EEF && Rotate(0x78FEFB72, 10) == 0xFBEDC9E3
    ensures I(0x40594E8B, 0x446B84A8, 0x782A8943) == 0x83B6FA17 && Rotate(0x4DD9278F, 15) == 0x93C7A6EC
    ensures I(0xD420F577, 0x40594E8B, 0x446B84A8) == 0xBFEDB1FC && Rotate(0xEBCCC740, 21) == 0xE81D7998
  {
  }

  lemma After56()
    ensures Plain(INITIAL, SampleWords(), 56) == Regs(0x446B84A8, 0xBC3E6F0F, 0xD420F577, 0x40594E8B)
  {
    hide Plain, F, G, H, I, Rotate;
    Bits56();
    After52();
    Go(52, Regs(0x7AB8C86E, 0x782A8943, 0xCA3238FB, 0xAAF3A6B8), 0xB71CE1BC, 0x973103ED, 0xCC40FB65);
    Go(53, Regs(0xAAF3A6B8, 0x446B84A8, 0x782A8943, 0xCA3238FB), 0xDC54EEF, 0x78FEFB72, 0xFBEDC9E3);
    Go(54, Regs(0xCA3238FB, 0x40594E8B, 0x446B84A8, 0x782A8943), 0x83B6FA17, 0x4DD9278F, 0x93C7A6EC);
    Go(55, Regs(0x782A8943, 0xD420F577, 0x40594E8B, 0x446B84A8), 0xBFEDB1FC, 0xEBCCC740, 0xE81D7998);
  }

  lemma Bits60()
    ensures I(0xBC3E6F0F, 0xD420F577, 0x40594E8B) == 0x6B9E0A08 && Rotate(0x1FB20CFF, 6) == 0xEC833FC7
    ensures I(0xA8C1AED6, 0xBC3E6F0F, 0xD420F577) == 0x17E1C1D1 && Rotate(0x5667F73C, 10) == 0x9FDCF159
    ensures I(0x489EA02F, 0xA8C1AED6, 0xBC3E6F0F) == 0xE31E1E29 && Rotate(0x5A4056B4, 15) == 0x2B5A2D20
    ensures I(0x73F8CD4F, 0x489EA02F, 0xA8C1AED6) == 0x3F607D40 && Rotate(0x49A6FDF0, 21) == 0xBE0934DF
  {
  }

  lemma After60()
    ensures Plain(INITIAL, SampleWords(), 60) == Regs(0xA8C1AED6, 0x3202022E, 0x73F8CD4F, 0x489EA02F)
  {
    hide Plain, F, G, H, I, Rotate;
    Bits60();
    After56();
    Go(56, Regs(0x446B84A8, 0xBC3E6F0F, 0xD420F577, 0x40594E8B), 0x6B9E0A08, 0x1FB20CFF, 0xEC833FC7);
    Go(57, Regs(0x40594E8B, 0xA8C1AED6, 0xBC3E6F0F, 0xD420F577), 0x17E1C1D1, 0x5667F73C, 0x9FDCF159);
    Go(58, Regs(0xD420F577, 0x489EA02F, 0xA8C1AED6, 0xBC3E6F0F), 0xE31E1E29, 0x5A4056B4, 0x2B5A2D20);
    Go(59, Regs(0xBC3E6F0F, 0x73F8CD4F, 0x489EA02F, 0xA8C1AED6), 0x3F607D40, 0x49A6FDF0, 0xBE0934DF);
  }

  lemma Bits64()
    ensures I(0x3202022E, 0x73F8CD4F, 0x489EA02F) == 0xC49B92B1 && Rotate(0x64B0C089, 6) == 0x2C302259
    ensures I(0x5E322487, 0x3202022E, 0x73F8CD4F) == 0xEC353499 && Rotate(0xF20EC6FD, 10) == 0x3B1BF7C8
    ensures I(0x994E1C4F, 0x5E322487, 0x3202022E) == 0x83CDD958 && Rotate(0x5BD1B393, 15) == 0xD9C9ADE8
    ensures I(0x7317CA37, 0x994E1C4F, 0x5E322487) == 0x6A91C730 && Rotate(0x881A9CEF, 21) == 0x9DF10353
  {
  }

  lemma After64()
    ensures Plain(INITIAL, SampleWords(), 64) == Regs(0x5E322487, 0x1108CD8A, 0x7317CA37, 0x994E1C4F)
  {
    hide Plain, F, G, H, I, Rotate;
    Bits64();
    After60();
    Go(60, Regs(0xA8C1AED6, 0x3202022E, 0x73F8CD4F, 0x489EA02F), 0xC49B92B1, 0x64B0C089, 0x2C302259);
    Go(61, Regs(0x489EA02F, 0x5E322487, 0x3202022E, 0x73F8CD4F), 0xEC353499, 0xF20EC6FD, 0x3B1BF7C8);
    Go(62, Regs(0x73F8CD4F, 0x994E1C4F, 0x5E322487, 0x3202022E), 0x83CDD958, 0x5BD1B393, 0xD9C9ADE8);
    Go(63, Regs(0x3202022E, 0x7317CA37, 0x994E1C4F, 0x5E322487), 0x6A91C730, 0x881A9CEF, 0x9DF10353);
  }

  /** "127.0.0.1:39999" */
  const SAMPLE_ADDRESS: seq<byte> := [49, 50, 55, 46, 48, 46, 48, 46, 49, 58, 51, 57, 57, 57, 57]

  lemma SamplePadded()
    ensures var p := Padded(SAMPLE_ADDRESS + [49]);
            && |p| == 64
            && p[..16] == SAMPLE_ADDRESS + [49] && p[16] == 0x80
            && (forall i :: 17 <= i < 56 ==> p[i] == 0)
            && p[56] == 128 && forall i :: 57 <= i < 64 ==> p[i] == 0
  {
    assert LengthBytes(128) == [128, 0, 0, 0, 0, 0, 0, 0];
  }

  lemma SampleWordsAre()
    ensures |Padded(SAMPLE_ADDRESS + [49])| == 64 && Words(Padded(SAMPLE_ADDRESS + [49])) == SampleWords()
  {
    SamplePadded();
    hide Padded;
    var p := Padded(SAMPLE_ADDRESS + [49]);
    var s := p[..16];
    assert forall i :: 0 <= i < 16 ==> p[i] == s[i];
  }

  /** The known answer. */
  lemma SampleState()
    ensures StateOf(SAMPLE_ADDRESS + [49]) == Regs(0xC5774788, 0xD67913, 0xBD2A735, 0xA98070C5)
  {
    SampleWordsAre();
    After64();
    hide Words, Plain, Padded, SampleWords;
    var p := Padded(SAMPLE_ADDRESS + [49]);
    assert FirstBlock(p) == p && OtherBlocks(p) == [];
    assert Chain(Block(INITIAL, SampleWords()), []) == Block(INITIAL, SampleWords());
  }

  lemma FourBytes(b0: byte, b1: byte, b2: byte, b3: byte)
    requires b3 != 0
    ensures Trimmed(b0 as int + 256 * (b1 as int + 256 * (b2 as int + 256 * b3 as int))) == [b0, b1, b2, b3]
  {
    assert Trimmed(b3 as int) == [b3] + Trimmed(0);
    assert Trimmed(b2 as int + 256 * b3 as int) == [b2] + Trimmed(b3 as int);
    assert Trimmed(b1 as int + 256 * (b2 as int + 256 * b3 as int)) == [b1] + Trimmed(b2 as int + 256 * b3 as int);
  }

  lemma ThreeBytes(b0: byte, b1: byte, b2: byte)
    requires b2 != 0
    ensures Trimmed(b0 as int + 256 * (b1 as int + 256 * b2 as int)) == [b0, b1, b2]
  {
    assert Trimmed(b2 as int) == [b2] + Trimmed(0);
    assert Trimmed(b1 as int + 256 * b2 as int) == [b1] + Trimmed(b2 as int);
  }

  /** The digest the program makes of it: that of the RFC without the zero byte at the end of the second word. */
  lemma SampleDigest()
    ensures Md5Of(SAMPLE_ADDRESS + [49])
         == [0x88, 0x47, 0x77, 0xC5] + [0x13, 0x79, 0xD6] + [0x35, 0xA7, 0xD2, 0x0B] + [0xC5, 0x70, 0x80, 0xA9]
  {
    SampleState();
    hide Padded, Chain, Trimmed;
    FourBytes(0x88, 0x47, 0x77, 0xC5);
    ThreeBytes(0x13, 0x79, 0xD6);
    FourBytes(0x35, 0xA7, 0xD2, 0x0B);
    FourBytes(0xC5, 0x70, 0x80, 0xA9);
  }

  /** So the ring of this address, with at least two groups, is built from a digest shorter than what is read. */
  lemma RingReadsPastDigest(groups: nat)
    requires groups >= 2
    ensures |Md5Of(SAMPLE_ADDRESS + [49])| < 16
    ensures !ConsistentHash.FullDigests(Md5Of, groups, [SAMPLE_ADDRESS])
  {
    hide Md5Of;
    SampleDigest();
    assert ConsistentHash.Decimal(1) == [49];
    assert SAMPLE_ADDRESS in [SAMPLE_ADDRESS];
    assert !ConsistentHash.FullFor(Md5Of, groups, SAMPLE_ADDRESS);
  }
}
