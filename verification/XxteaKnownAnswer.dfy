/**
 A published test vector of Corrected Block TEA: the key 0102040810204080fffefcf8f0e0c080
 takes eight zero bytes to d1e78be2c746728a. It fixes the mixing, the key schedule, DELTA
 and the number of rounds. For every four rounds one lemma evaluates the mixing, one the
 numbers, and one puts them together.
 */
module XxteaKnownAnswer {
  import opened Wrappers
  import opened Bytes
  import opened Xxtea

  const K0: bv32 := 0x08040201
  const K1: bv32 := 0x80402010
  const K2: bv32 := 0xf8fcfeff
  const K3: bv32 := 0x80c0e0f0
  const KEY: Key := [Num(K0), Num(K1), Num(K2), Num(K3)]

  lemma BitsOfNum(b: bv32)
    ensures Bits(Num(b)) == b
  {
  }

  /** The words of the key used in a pass over two words. */
  function KeyWord(p: nat, e: nat): bv32 {
    if p == 0 then (if e == 0 then K0 else if e == 1 then K1 else if e == 2 then K2 else K3)
    else if e == 0 then K1 else if e == 1 then K0 else if e == 2 then K3 else K2
  }

  lemma KeyWordIs(p: nat, sum: Word)
    requires p < 2
    ensures KEY[KeyIndex(p, sum)] == Num(KeyWord(p, sum / 4 % 4))
  {
    hide Num;
  }

  /** What a word becomes, with every neighbour the word x. */
  lemma Turn(s: bv32, p: nat, x: bv32, m: bv32)
    requires p < 2 && MixBits(KeyWord(p, Num(s) / 4 % 4), x, x, s) == m
    ensures Mix(KEY, Num(x), Num(x), Num(s), p) == Num(m)
  {
    KeyWordIs(p, Num(s));
    hide Num, Bits, MixBits, KeyIndex, KeyWord;
    BitsOfNum(s);
    BitsOfNum(x);
    BitsOfNum(KeyWord(p, Num(s) / 4 % 4));
  }

  lemma TwoWords(mix: Mixer, sum: Word, a: Word, b: Word, a': Word, b': Word)
    requires a' == (a + mix(b, b, sum, 0)) % WORD && b' == (b + mix(a', a', sum, 1)) % WORD
    ensures EncTo(mix, sum, [a, b], 2) == [a', b']
  {
    var d := [a, b];
    assert EncTo(mix, sum, d, 0) == d;
    assert EncTo(mix, sum, d, 1) == [a', b];
  }

  /** A round on two words, given what is added to each. */
  lemma Round(r: nat, s: bv32, a: bv32, b: bv32, m: bv32, a': bv32, m': bv32, b': bv32)
    requires r > 0 && Num(s) == SumAt(r) && EncRounds(Mx(KEY), [0, 0], r - 1) == [Num(a), Num(b)]
    requires MixBits(KeyWord(0, Num(s) / 4 % 4), b, b, s) == m && Num(a') == (Num(a) + Num(m)) % WORD
    requires MixBits(KeyWord(1, Num(s) / 4 % 4), a', a', s) == m' && Num(b') == (Num(b) + Num(m')) % WORD
    ensures EncRounds(Mx(KEY), [0, 0], r) == [Num(a'), Num(b')]
  {
    hide Num, MixBits, KeyWord, SumAt, Mix, EncTo;
    Turn(s, 0, b, m);
    Turn(s, 1, a', m');
    TwoWords(Mx(KEY), Num(s), Num(a), Num(b), Num(a'), Num(b'));
  }

  lemma Mixed4()
    ensures MixBits(KeyWord(0, 2), 0x00000000, 0x00000000, 0x9e3779b9) == 0x973478b8
    ensures MixBits(KeyWord(1, 2), 0x973478b8, 0x973478b8, 0x9e3779b9) == 0x9afedcf5
    ensures MixBits(KeyWord(0, 0), 0x9afedcf5, 0x9afedcf5, 0x3c6ef372) == 0x1255947a
    ensures MixBits(KeyWord(1, 0), 0xa98a0d32, 0xa98a0d32, 0x3c6ef372) == 0x8f5adc45
    ensures MixBits(KeyWord(0, 2), 0x2a59b93a, 0x2a59b93a, 0xdaa66d2b) == 0x8aa1d67e
    ensures MixBits(KeyWord(1, 2), 0x342be3b0, 0x342be3b0, 0xdaa66d2b) == 0xb6328888
    ensures MixBits(KeyWord(0, 1), 0xe08c41c2, 0xe08c41c2, 0x78dde6e4) == 0x6314f1e6
    ensures MixBits(KeyWord(1, 1), 0x9740d596, 0x9740d596, 0x78dde6e4) == 0x4e7c9fcf
  {
  }

  lemma Numbers4()
    ensures Num(0x00000000) == 0x00000000 && Num(0x1255947a) == 0x1255947a && Num(0x2a59b93a) == 0x2a59b93a
    ensures Num(0x2f08e191) == 0x2f08e191 && Num(0x342be3b0) == 0x342be3b0 && Num(0x3c6ef372) == 0x3c6ef372
    ensures Num(0x4e7c9fcf) == 0x4e7c9fcf && Num(0x6314f1e6) == 0x6314f1e6 && Num(0x78dde6e4) == 0x78dde6e4
    ensures Num(0x8aa1d67e) == 0x8aa1d67e && Num(0x8f5adc45) == 0x8f5adc45 && Num(0x973478b8) == 0x973478b8
    ensures Num(0x9740d596) == 0x9740d596 && Num(0x9afedcf5) == 0x9afedcf5 && Num(0x9e3779b9) == 0x9e3779b9
    ensures Num(0xa98a0d32) == 0xa98a0d32 && Num(0xb6328888) == 0xb6328888 && Num(0xdaa66d2b) == 0xdaa66d2b
    ensures Num(0xe08c41c2) == 0xe08c41c2
  {
  }

  lemma Rounds4()
    ensures EncRounds(Mx(KEY), [0, 0], 4) == [Num(0x9740d596), Num(0x2f08e191)]
  {
    hide Num, MixBits, KeyWord, EncTo;
    Mixed4();
    Numbers4();
    Round(1, 0x9e3779b9, 0x00000000, 0x00000000, 0x973478b8, 0x973478b8, 0x9afedcf5, 0x9afedcf5);
    Round(2, 0x3c6ef372, 0x973478b8, 0x9afedcf5, 0x1255947a, 0xa98a0d32, 0x8f5adc45, 0x2a59b93a);
    Round(3, 0xdaa66d2b, 0xa98a0d32, 0x2a59b93a, 0x8aa1d67e, 0x342be3b0, 0xb6328888, 0xe08c41c2);
    Round(4, 0x78dde6e4, 0x342be3b0, 0xe08c41c2, 0x6314f1e6, 0x9740d596, 0x4e7c9fcf, 0x2f08e191);
  }

  lemma Mixed8()
    ensures MixBits(KeyWord(0, 3), 0x2f08e191, 0x2f08e191, 0x1715609d) == 0x552f4407
    ensures MixBits(KeyWord(1, 3), 0xec70199d, 0xec70199d, 0x1715609d) == 0x9ec1e1f9
    ensures MixBits(KeyWord(0, 1), 0xcdcac38a, 0xcdcac38a, 0xb54cda56) == 0x304a4473
    ensures MixBits(KeyWord(1, 1), 0x1cba5e10, 0x1cba5e10, 0xb54cda56) == 0x848bb525
    ensures MixBits(KeyWord(0, 3), 0x525678af, 0x525678af, 0x5384540f) == 0xae9053a1
    ensures MixBits(KeyWord(1, 3), 0xcb4ab1b1, 0xcb4ab1b1, 0x5384540f) == 0x15b7d563
    ensures MixBits(KeyWord(0, 2), 0x680e4e12, 0x680e4e12, 0xf1bbcdc8) == 0x1bf647dd
    ensures MixBits(KeyWord(1, 2), 0xe740f98e, 0xe740f98e, 0xf1bbcdc8) == 0x7d5a2401
  {
  }

  lemma Numbers8()
    ensures Num(0x15b7d563) == 0x15b7d563 && Num(0x1715609d) == 0x1715609d && Num(0x1bf647dd) == 0x1bf647dd
    ensures Num(0x1cba5e10) == 0x1cba5e10 && Num(0x2f08e191) == 0x2f08e191 && Num(0x304a4473) == 0x304a4473
    ensures Num(0x525678af) == 0x525678af && Num(0x5384540f) == 0x5384540f && Num(0x552f4407) == 0x552f4407
    ensures Num(0x680e4e12) == 0x680e4e12 && Num(0x7d5a2401) == 0x7d5a2401 && Num(0x848bb525) == 0x848bb525
    ensures Num(0x9740d596) == 0x9740d596 && Num(0x9ec1e1f9) == 0x9ec1e1f9 && Num(0xae9053a1) == 0xae9053a1
    ensures Num(0xb54cda56) == 0xb54cda56 && Num(0xcb4ab1b1) == 0xcb4ab1b1 && Num(0xcdcac38a) == 0xcdcac38a
    ensures Num(0xe5687213) == 0xe5687213 && Num(0xe740f98e) == 0xe740f98e && Num(0xec70199d) == 0xec70199d
    ensures Num(0xf1bbcdc8) == 0xf1bbcdc8
  {
  }

  lemma Rounds8()
    ensures EncRounds(Mx(KEY), [0, 0], 8) == [Num(0xe740f98e), Num(0xe5687213)]
  {
    hide Num, MixBits, KeyWord, EncTo;
    Rounds4();
    Mixed8();
    Numbers8();
    Round(5, 0x1715609d, 0x9740d596, 0x2f08e191, 0x552f4407, 0xec70199d, 0x9ec1e1f9, 0xcdcac38a);
    Round(6, 0xb54cda56, 0xec70199d, 0xcdcac38a, 0x304a4473, 0x1cba5e10, 0x848bb525, 0x525678af);
    Round(7, 0x5384540f, 0x1cba5e10, 0x525678af, 0xae9053a1, 0xcb4ab1b1, 0x15b7d563, 0x680e4e12);
    Round(8, 0xf1bbcdc8, 0xcb4ab1b1, 0x680e4e12, 0x1bf647dd, 0xe740f98e, 0x7d5a2401, 0xe5687213);
  }

  lemma Mixed12()
    ensures MixBits(KeyWord(0, 0), 0xe5687213, 0xe5687213, 0x8ff34781) == 0x84b31eea
    ensures MixBits(KeyWord(1, 0), 0x6bf41878, 0x6bf41878, 0x8ff34781) == 0x91755dd3
    ensures MixBits(KeyWord(0, 2), 0x76ddcfe6, 0x76ddcfe6, 0x2e2ac13a) == 0xdcd12676
    ensures MixBits(KeyWord(1, 2), 0x48c53eee, 0x48c53eee, 0x2e2ac13a) == 0x886bc67e
    ensures MixBits(KeyWord(0, 0), 0xff499664, 0xff499664, 0xcc623af3) == 0xcc352953
    ensures MixBits(KeyWord(1, 0), 0x14fa6841, 0x14fa6841, 0xcc623af3) == 0xcddaa05d
    ensures MixBits(KeyWord(0, 3), 0xcd2436c1, 0xcd2436c1, 0x6a99b4ac) == 0x0b43bde4
    ensures MixBits(KeyWord(1, 3), 0x203e2625, 0x203e2625, 0x6a99b4ac) == 0xaab57b5a
  {
  }

  lemma Numbers12()
    ensures Num(0x0b43bde4) == 0x0b43bde4 && Num(0x14fa6841) == 0x14fa6841 && Num(0x203e2625) == 0x203e2625
    ensures Num(0x2e2ac13a) == 0x2e2ac13a && Num(0x48c53eee) == 0x48c53eee && Num(0x6a99b4ac) == 0x6a99b4ac
    ensures Num(0x6bf41878) == 0x6bf41878 && Num(0x76ddcfe6) == 0x76ddcfe6 && Num(0x77d9b21b) == 0x77d9b21b
    ensures Num(0x84b31eea) == 0x84b31eea && Num(0x886bc67e) == 0x886bc67e && Num(0x8ff34781) == 0x8ff34781
    ensures Num(0x91755dd3) == 0x91755dd3 && Num(0xaab57b5a) == 0xaab57b5a && Num(0xcc352953) == 0xcc352953
    ensures Num(0xcc623af3) == 0xcc623af3 && Num(0xcd2436c1) == 0xcd2436c1 && Num(0xcddaa05d) == 0xcddaa05d
    ensures Num(0xdcd12676) == 0xdcd12676 && Num(0xe5687213) == 0xe5687213 && Num(0xe740f98e) == 0xe740f98e
    ensures Num(0xff499664) == 0xff499664
  {
  }

  lemma Rounds12()
    ensures EncRounds(Mx(KEY), [0, 0], 12) == [Num(0x203e2625), Num(0x77d9b21b)]
  {
    hide Num, MixBits, KeyWord, EncTo;
    Rounds8();
    Mixed12();
    Numbers12();
    Round(9, 0x8ff34781, 0xe740f98e, 0xe5687213, 0x84b31eea, 0x6bf41878, 0x91755dd3, 0x76ddcfe6);
    Round(10, 0x2e2ac13a, 0x6bf41878, 0x76ddcfe6, 0xdcd12676, 0x48c53eee, 0x886bc67e, 0xff499664);
    Round(11, 0xcc623af3, 0x48c53eee, 0xff499664, 0xcc352953, 0x14fa6841, 0xcddaa05d, 0xcd2436c1);
    Round(12, 0x6a99b4ac, 0x14fa6841, 0xcd2436c1, 0x0b43bde4, 0x203e2625, 0xaab57b5a, 0x77d9b21b);
  }

  lemma Mixed16()
    ensures MixBits(KeyWord(0, 1), 0x77d9b21b, 0x77d9b21b, 0x08d12e65) == 0x269a3366
    ensures MixBits(KeyWord(1, 1), 0x46d8598b, 0x46d8598b, 0x08d12e65) == 0xe253eb19
    ensures MixBits(KeyWord(0, 3), 0x5a2d9d34, 0x5a2d9d34, 0xa708a81e) == 0xcc11cbf1
    ensures MixBits(KeyWord(1, 3), 0x12ea257c, 0x12ea257c, 0xa708a81e) == 0xe7c7b0af
    ensures MixBits(KeyWord(0, 1), 0x41f54de3, 0x41f54de3, 0x454021d7) == 0xdb2fcf48
    ensures MixBits(KeyWord(1, 1), 0xee19f4c4, 0xee19f4c4, 0x454021d7) == 0x2a044456
    ensures MixBits(KeyWord(0, 0), 0x6bf99239, 0x6bf99239, 0xe3779b90) == 0xb3140fad
    ensures MixBits(KeyWord(1, 0), 0xa12e0471, 0xa12e0471, 0xe3779b90) == 0xebb12dc7
  {
  }

  lemma Numbers16()
    ensures Num(0x08d12e65) == 0x08d12e65 && Num(0x12ea257c) == 0x12ea257c && Num(0x203e2625) == 0x203e2625
    ensures Num(0x269a3366) == 0x269a3366 && Num(0x2a044456) == 0x2a044456 && Num(0x41f54de3) == 0x41f54de3
    ensures Num(0x454021d7) == 0x454021d7 && Num(0x46d8598b) == 0x46d8598b && Num(0x57aac000) == 0x57aac000
    ensures Num(0x5a2d9d34) == 0x5a2d9d34 && Num(0x6bf99239) == 0x6bf99239 && Num(0x77d9b21b) == 0x77d9b21b
    ensures Num(0xa12e0471) == 0xa12e0471 && Num(0xa708a81e) == 0xa708a81e && Num(0xb3140fad) == 0xb3140fad
    ensures Num(0xcc11cbf1) == 0xcc11cbf1 && Num(0xdb2fcf48) == 0xdb2fcf48 && Num(0xe253eb19) == 0xe253eb19
    ensures Num(0xe3779b90) == 0xe3779b90 && Num(0xe7c7b0af) == 0xe7c7b0af && Num(0xebb12dc7) == 0xebb12dc7
    ensures Num(0xee19f4c4) == 0xee19f4c4
  {
  }

  lemma Rounds16()
    ensures EncRounds(Mx(KEY), [0, 0], 16) == [Num(0xa12e0471), Num(0x57aac000)]
  {
    hide Num, MixBits, KeyWord, EncTo;
    Rounds12();
    Mixed16();
    Numbers16();
    Round(13, 0x08d12e65, 0x203e2625, 0x77d9b21b, 0x269a3366, 0x46d8598b, 0xe253eb19, 0x5a2d9d34);
    Round(14, 0xa708a81e, 0x46d8598b, 0x5a2d9d34, 0xcc11cbf1, 0x12ea257c, 0xe7c7b0af, 0x41f54de3);
    Round(15, 0x454021d7, 0x12ea257c, 0x41f54de3, 0xdb2fcf48, 0xee19f4c4, 0x2a044456, 0x6bf99239);
    Round(16, 0xe3779b90, 0xee19f4c4, 0x6bf99239, 0xb3140fad, 0xa12e0471, 0xebb12dc7, 0x57aac000);
  }

  lemma Mixed20()
    ensures MixBits(KeyWord(0, 2), 0x57aac000, 0x57aac000, 0x81af1549) == 0x4933ba48
    ensures MixBits(KeyWord(1, 2), 0xea61beb9, 0xea61beb9, 0x81af1549) == 0xbc5dd961
    ensures MixBits(KeyWord(0, 0), 0x14089961, 0x14089961, 0x1fe68f02) == 0xb5701748
    ensures MixBits(KeyWord(1, 0), 0x9fd1d601, 0x9fd1d601, 0x1fe68f02) == 0xf5687e90
    ensures MixBits(KeyWord(0, 2), 0x097117f1, 0x097117f1, 0xbe1e08bb) == 0x13323d31
    ensures MixBits(KeyWord(1, 2), 0xb3041332, 0xb3041332, 0xbe1e08bb) == 0xaf7512dc
    ensures MixBits(KeyWord(0, 1), 0xb8e62acd, 0xb8e62acd, 0x5c558274) == 0x6287b07d
    ensures MixBits(KeyWord(1, 1), 0x158bc3af, 0x158bc3af, 0x5c558274) == 0xd7fe90af
  {
  }

  lemma Numbers20()
    ensures Num(0x097117f1) == 0x097117f1 && Num(0x13323d31) == 0x13323d31 && Num(0x14089961) == 0x14089961
    ensures Num(0x158bc3af) == 0x158bc3af && Num(0x1fe68f02) == 0x1fe68f02 && Num(0x4933ba48) == 0x4933ba48
    ensures Num(0x57aac000) == 0x57aac000 && Num(0x5c558274) == 0x5c558274 && Num(0x6287b07d) == 0x6287b07d
    ensures Num(0x81af1549) == 0x81af1549 && Num(0x90e4bb7c) == 0x90e4bb7c && Num(0x9fd1d601) == 0x9fd1d601
    ensures Num(0xa12e0471) == 0xa12e0471 && Num(0xaf7512dc) == 0xaf7512dc && Num(0xb3041332) == 0xb3041332
    ensures Num(0xb5701748) == 0xb5701748 && Num(0xb8e62acd) == 0xb8e62acd && Num(0xbc5dd961) == 0xbc5dd961
    ensures Num(0xbe1e08bb) == 0xbe1e08bb && Num(0xd7fe90af) == 0xd7fe90af && Num(0xea61beb9) == 0xea61beb9
    ensures Num(0xf5687e90) == 0xf5687e90
  {
  }

  lemma Rounds20()
    ensures EncRounds(Mx(KEY), [0, 0], 20) == [Num(0x158bc3af), Num(0x90e4bb7c)]
  {
    hide Num, MixBits, KeyWord, EncTo;
    Rounds16();
    Mixed20();
    Numbers20();
    Round(17, 0x81af1549, 0xa12e0471, 0x57aac000, 0x4933ba48, 0xea61beb9, 0xbc5dd961, 0x14089961);
    Round(18, 0x1fe68f02, 0xea61beb9, 0x14089961, 0xb5701748, 0x9fd1d601, 0xf5687e90, 0x097117f1);
    Round(19, 0xbe1e08bb, 0x9fd1d601, 0x097117f1, 0x13323d31, 0xb3041332, 0xaf7512dc, 0xb8e62acd);
    Round(20, 0x5c558274, 0xb3041332, 0xb8e62acd, 0x6287b07d, 0x158bc3af, 0xd7fe90af, 0x90e4bb7c);
  }

  lemma Mixed24()
    ensures MixBits(KeyWord(0, 3), 0x90e4bb7c, 0x90e4bb7c, 0xfa8cfc2d) == 0x19e04a07
    ensures MixBits(KeyWord(1, 3), 0x2f6c0db6, 0x2f6c0db6, 0xfa8cfc2d) == 0x0289556f
    ensures MixBits(KeyWord(0, 1), 0x936e10eb, 0x936e10eb, 0x98c475e6) == 0x737769d0
    ensures MixBits(KeyWord(1, 1), 0xa2e37786, 0xa2e37786, 0x98c475e6) == 0x2c0babd3
    ensures MixBits(KeyWord(0, 3), 0xbf79bcbe, 0xbf79bcbe, 0x36fbef9f) == 0x11a994fb
    ensures MixBits(KeyWord(1, 3), 0xb48d0c81, 0xb48d0c81, 0x36fbef9f) == 0xfb39167c
    ensures MixBits(KeyWord(0, 2), 0xbab2d33a, 0xbab2d33a, 0xd5336958) == 0x1a55ac1f
    ensures MixBits(KeyWord(1, 2), 0xcee2b8a0, 0xcee2b8a0, 0xd5336958) == 0x5c01fe11
  {
  }

  lemma Numbers24()
    ensures Num(0x0289556f) == 0x0289556f && Num(0x11a994fb) == 0x11a994fb && Num(0x158bc3af) == 0x158bc3af
    ensures Num(0x16b4d14b) == 0x16b4d14b && Num(0x19e04a07) == 0x19e04a07 && Num(0x1a55ac1f) == 0x1a55ac1f
    ensures Num(0x2c0babd3) == 0x2c0babd3 && Num(0x2f6c0db6) == 0x2f6c0db6 && Num(0x36fbef9f) == 0x36fbef9f
    ensures Num(0x5c01fe11) == 0x5c01fe11 && Num(0x737769d0) == 0x737769d0 && Num(0x90e4bb7c) == 0x90e4bb7c
    ensures Num(0x936e10eb) == 0x936e10eb && Num(0x98c475e6) == 0x98c475e6 && Num(0xa2e37786) == 0xa2e37786
    ensures Num(0xb48d0c81) == 0xb48d0c81 && Num(0xbab2d33a) == 0xbab2d33a && Num(0xbf79bcbe) == 0xbf79bcbe
    ensures Num(0xcee2b8a0) == 0xcee2b8a0 && Num(0xd5336958) == 0xd5336958 && Num(0xfa8cfc2d) == 0xfa8cfc2d
    ensures Num(0xfb39167c) == 0xfb39167c
  {
  }

  lemma Rounds24()
    ensures EncRounds(Mx(KEY), [0, 0], 24) == [Num(0xcee2b8a0), Num(0x16b4d14b)]
  {
    hide Num, MixBits, KeyWord, EncTo;
    Rounds20();
    Mixed24();
    Numbers24();
    Round(21, 0xfa8cfc2d, 0x158bc3af, 0x90e4bb7c, 0x19e04a07, 0x2f6c0db6, 0x0289556f, 0x936e10eb);
    Round(22, 0x98c475e6, 0x2f6c0db6, 0x936e10eb, 0x737769d0, 0xa2e37786, 0x2c0babd3, 0xbf79bcbe);
    Round(23, 0x36fbef9f, 0xa2e37786, 0xbf79bcbe, 0x11a994fb, 0xb48d0c81, 0xfb39167c, 0xbab2d33a);
    Round(24, 0xd5336958, 0xb48d0c81, 0xbab2d33a, 0x1a55ac1f, 0xcee2b8a0, 0x5c01fe11, 0x16b4d14b);
  }

  lemma Mixed28()
    ensures MixBits(KeyWord(0, 0), 0x16b4d14b, 0x16b4d14b, 0x736ae311) == 0x408d779b
    ensures MixBits(KeyWord(1, 0), 0x0f70303b, 0x0f70303b, 0x736ae311) == 0x3fe2a471
    ensures MixBits(KeyWord(0, 2), 0x569775bc, 0x569775bc, 0x11a25cca) == 0x492f966d
    ensures MixBits(KeyWord(1, 2), 0x589fc6a8, 0x589fc6a8, 0x11a25cca) == 0xc237b650
    ensures MixBits(KeyWord(0, 0), 0x18cf2c0c, 0x18cf2c0c, 0xafd9d683) == 0x3407c60d
    ensures MixBits(KeyWord(1, 0), 0x8ca78cb5, 0x8ca78cb5, 0xafd9d683) == 0x22814fac
    ensures MixBits(KeyWord(0, 3), 0x3b507bb8, 0x3b507bb8, 0x4e11503c) == 0xafd8e4f8
    ensures MixBits(KeyWord(1, 3), 0x3c8071ad, 0x3c8071ad, 0x4e11503c) == 0xf4716afd
  {
  }

  lemma Numbers28()
    ensures Num(0x0f70303b) == 0x0f70303b && Num(0x11a25cca) == 0x11a25cca && Num(0x16b4d14b) == 0x16b4d14b
    ensures Num(0x18cf2c0c) == 0x18cf2c0c && Num(0x22814fac) == 0x22814fac && Num(0x2fc1e6b5) == 0x2fc1e6b5
    ensures Num(0x3407c60d) == 0x3407c60d && Num(0x3b507bb8) == 0x3b507bb8 && Num(0x3c8071ad) == 0x3c8071ad
    ensures Num(0x3fe2a471) == 0x3fe2a471 && Num(0x408d779b) == 0x408d779b && Num(0x492f966d) == 0x492f966d
    ensures Num(0x4e11503c) == 0x4e11503c && Num(0x569775bc) == 0x569775bc && Num(0x589fc6a8) == 0x589fc6a8
    ensures Num(0x736ae311) == 0x736ae311 && Num(0x8ca78cb5) == 0x8ca78cb5 && Num(0xafd8e4f8) == 0xafd8e4f8
    ensures Num(0xafd9d683) == 0xafd9d683 && Num(0xc237b650) == 0xc237b650 && Num(0xcee2b8a0) == 0xcee2b8a0
    ensures Num(0xf4716afd) == 0xf4716afd
  {
  }

  lemma Rounds28()
    ensures EncRounds(Mx(KEY), [0, 0], 28) == [Num(0x3c8071ad), Num(0x2fc1e6b5)]
  {
    hide Num, MixBits, KeyWord, EncTo;
    Rounds24();
    Mixed28();
    Numbers28();
    Round(25, 0x736ae311, 0xcee2b8a0, 0x16b4d14b, 0x408d779b, 0x0f70303b, 0x3fe2a471, 0x569775bc);
    Round(26, 0x11a25cca, 0x0f70303b, 0x569775bc, 0x492f966d, 0x589fc6a8, 0xc237b650, 0x18cf2c0c);
    Round(27, 0xafd9d683, 0x589fc6a8, 0x18cf2c0c, 0x3407c60d, 0x8ca78cb5, 0x22814fac, 0x3b507bb8);
    Round(28, 0x4e11503c, 0x8ca78cb5, 0x3b507bb8, 0xafd8e4f8, 0x3c8071ad, 0xf4716afd, 0x2fc1e6b5);
  }

  lemma Mixed32()
    ensures MixBits(KeyWord(0, 1), 0x2fc1e6b5, 0x2fc1e6b5, 0xec48c9f5) == 0xcb551882
    ensures MixBits(KeyWord(1, 1), 0x07d58a2f, 0x07d58a2f, 0xec48c9f5) == 0x666454aa
    ensures MixBits(KeyWord(0, 3), 0x96263b5f, 0x96263b5f, 0x8a8043ae) == 0xff5c1be1
    ensures MixBits(KeyWord(1, 3), 0x0731a610, 0x0731a610, 0x8a8043ae) == 0x1d84559f
    ensures MixBits(KeyWord(0, 1), 0xb3aa90fe, 0xb3aa90fe, 0x28b7bd67) == 0x3714abf9
    ensures MixBits(KeyWord(1, 1), 0x3e465209, 0x3e465209, 0x28b7bd67) == 0x91ad5af3
    ensures MixBits(KeyWord(0, 0), 0x4557ebf1, 0x4557ebf1, 0xc6ef3720) == 0xa44595c8
    ensures MixBits(KeyWord(1, 0), 0xe28be7d1, 0xe28be7d1, 0xc6ef3720) == 0x451a5ad6
  {
  }

  lemma Numbers32()
    ensures Num(0x0731a610) == 0x0731a610 && Num(0x07d58a2f) == 0x07d58a2f && Num(0x1d84559f) == 0x1d84559f
    ensures Num(0x28b7bd67) == 0x28b7bd67 && Num(0x2fc1e6b5) == 0x2fc1e6b5 && Num(0x3714abf9) == 0x3714abf9
    ensures Num(0x3c8071ad) == 0x3c8071ad && Num(0x3e465209) == 0x3e465209 && Num(0x451a5ad6) == 0x451a5ad6
    ensures Num(0x4557ebf1) == 0x4557ebf1 && Num(0x666454aa) == 0x666454aa && Num(0x8a7246c7) == 0x8a7246c7
    ensures Num(0x8a8043ae) == 0x8a8043ae && Num(0x91ad5af3) == 0x91ad5af3 && Num(0x96263b5f) == 0x96263b5f
    ensures Num(0xa44595c8) == 0xa44595c8 && Num(0xb3aa90fe) == 0xb3aa90fe && Num(0xc6ef3720) == 0xc6ef3720
    ensures Num(0xcb551882) == 0xcb551882 && Num(0xe28be7d1) == 0xe28be7d1 && Num(0xec48c9f5) == 0xec48c9f5
    ensures Num(0xff5c1be1) == 0xff5c1be1
  {
  }

  lemma Rounds32()
    ensures EncRounds(Mx(KEY), [0, 0], 32) == [Num(0xe28be7d1), Num(0x8a7246c7)]
  {
    hide Num, MixBits, KeyWord, EncTo;
    Rounds28();
    Mixed32();
    Numbers32();
    Round(29, 0xec48c9f5, 0x3c8071ad, 0x2fc1e6b5, 0xcb551882, 0x07d58a2f, 0x666454aa, 0x96263b5f);
    Round(30, 0x8a8043ae, 0x07d58a2f, 0x96263b5f, 0xff5c1be1, 0x0731a610, 0x1d84559f, 0xb3aa90fe);
    Round(31, 0x28b7bd67, 0x0731a610, 0xb3aa90fe, 0x3714abf9, 0x3e465209, 0x91ad5af3, 0x4557ebf1);
    Round(32, 0xc6ef3720, 0x3e465209, 0x4557ebf1, 0xa44595c8, 0xe28be7d1, 0x451a5ad6, 0x8a7246c7);
  }

  /** Two zero words are encrypted in 32 rounds. */
  lemma KnownAnswer()
    ensures EncWords(Mx(KEY), [0, 0]) == [0xe28be7d1, 0x8a7246c7]
  {
    hide EncRounds;
    Rounds32();
    Numbers32();
  }
}
