/** The test suite of RFC 1321, appendix A.5: the digest of the alphabet, calculated operation by operation. */
module TestSuite {
  import opened Words
  import opened Blocks
  import opened Rfc1321
  import MdContext
  import opened HexWords

  const ALPHABET: seq<uint32> := [0x64636261, 0x68676665, 0x6c6b6a69, 0x706f6e6d, 0x74737271, 0x78777675, 0x00807a79, 0x00000000, 0x00000000, 0x00000000, 0x00000000, 0x00000000, 0x00000000, 0x00000000, 0x000000d0, 0x00000000]

  // W0 to W3 are the initial registers A, D, C and B; operation i makes W(i + 4).

  const W0 := Hex(0x6, 0x7, 0x4, 0x5, 0x2, 0x3, 0x0, 0x1)
  const W1 := Hex(0x1, 0x0, 0x3, 0x2, 0x5, 0x4, 0x7, 0x6)
  const W2 := Hex(0x9, 0x8, 0xb, 0xa, 0xd, 0xc, 0xf, 0xe)
  const W3 := Hex(0xe, 0xf, 0xc, 0xd, 0xa, 0xb, 0x8, 0x9)
  const W4 := Hex(0xd, 0x6, 0xd, 0x1, 0x1, 0x7, 0xa, 0x6)
  const W5 := Hex(0xa, 0xa, 0xb, 0x1, 0xa, 0xa, 0xa, 0xa)
  const W6 := Hex(0x2, 0x2, 0x7, 0xd, 0x8, 0xc, 0xf, 0x1)
  const W7 := Hex(0x4, 0x5, 0x0, 0x3, 0xb, 0x8, 0x1, 0x2)
  const W8 := Hex(0xf, 0xe, 0x1, 0x5, 0xf, 0x7, 0x8, 0x7)
  const W9 := Hex(0xa, 0x8, 0x1, 0x1, 0xb, 0x2, 0x7, 0x8)
  const W10 := Hex(0xb, 0x7, 0x1, 0x1, 0x2, 0x2, 0xf, 0xc)
  const W11 := Hex(0xd, 0xa, 0x9, 0xb, 0xb, 0xb, 0x0, 0xd)
  const W12 := Hex(0xa, 0xe, 0x7, 0x5, 0x2, 0x8, 0x9, 0x9)
  const W13 := Hex(0x2, 0xb, 0xb, 0xe, 0x7, 0x5, 0x7, 0xf)
  const W14 := Hex(0x7, 0xd, 0x4, 0xb, 0xd, 0x8, 0x0, 0xb)
  const W15 := Hex(0x5, 0x6, 0xc, 0xf, 0xa, 0x5, 0xc, 0xb)
  const W16 := Hex(0x1, 0x7, 0x5, 0x4, 0xa, 0x3, 0x1, 0x6)
  const W17 := Hex(0x8, 0x5, 0x5, 0x6, 0x7, 0xd, 0x9, 0x0)
  const W18 := Hex(0x0, 0x0, 0xd, 0xf, 0x7, 0x4, 0xd, 0x5)
  const W19 := Hex(0x6, 0x0, 0x8, 0xd, 0x6, 0xb, 0x7, 0xe)
  const W20 := Hex(0x2, 0xd, 0x8, 0x0, 0x7, 0x1, 0xc, 0xc)
  const W21 := Hex(0x5, 0xd, 0xc, 0xe, 0xe, 0x1, 0x1, 0x9)
  const W22 := Hex(0xe, 0xd, 0xf, 0xe, 0x7, 0xe, 0x4, 0xb)
  const W23 := Hex(0x4, 0xc, 0x2, 0x1, 0x4, 0x5, 0xb, 0x3)
  const W24 := Hex(0x5, 0x7, 0x0, 0xc, 0x4, 0x3, 0xe, 0x0)
  const W25 := Hex(0x9, 0x7, 0x7, 0xe, 0xf, 0xd, 0x2, 0xa)
  const W26 := Hex(0xc, 0x2, 0x8, 0xa, 0xb, 0x4, 0x9, 0xd)
  const W27 := Hex(0xc, 0x9, 0xf, 0x1, 0x6, 0x2, 0xd, 0x4)
  const W28 := Hex(0x2, 0x5, 0xb, 0xf, 0xa, 0xe, 0x3, 0xb)
  const W29 := Hex(0x8, 0x9, 0x9, 0x8, 0x0, 0x1, 0x0, 0x4)
  const W30 := Hex(0xf, 0x8, 0xc, 0x8, 0x3, 0x6, 0x5, 0xf)
  const W31 := Hex(0xe, 0x6, 0xd, 0x3, 0xb, 0x3, 0x9, 0x8)
  const W32 := Hex(0xf, 0x5, 0x4, 0xd, 0x8, 0x7, 0x1, 0x0)
  const W33 := Hex(0x9, 0x2, 0x7, 0xb, 0x7, 0x2, 0xe, 0x2)
  const W34 := Hex(0x2, 0xe, 0x6, 0x9, 0xa, 0xf, 0xc, 0x7)
  const W35 := Hex(0xa, 0xe, 0xb, 0x3, 0x5, 0x7, 0x6, 0x6)
  const W36 := Hex(0xb, 0x4, 0xb, 0xf, 0x6, 0x8, 0x0, 0xe)
  const W37 := Hex(0x4, 0xc, 0x8, 0xf, 0xf, 0xa, 0x8, 0x0)
  const W38 := Hex(0x2, 0x3, 0x6, 0x1, 0xe, 0xd, 0x0, 0xa)
  const W39 := Hex(0x0, 0x6, 0xa, 0x5, 0xe, 0x2, 0x1, 0x1)
  const W40 := Hex(0xb, 0x9, 0xc, 0x0, 0xc, 0x7, 0x3, 0x3)
  const W41 := Hex(0xf, 0x1, 0xe, 0x6, 0xd, 0xc, 0x7, 0xa)
  const W42 := Hex(0x2, 0x3, 0xa, 0x9, 0x4, 0x5, 0x1, 0xb)
  const W43 := Hex(0x8, 0xd, 0x4, 0x1, 0xb, 0xf, 0x9, 0x9)
  const W44 := Hex(0xa, 0x3, 0xe, 0x8, 0x8, 0xe, 0xa, 0xd)
  const W45 := Hex(0x0, 0x2, 0xc, 0x0, 0xb, 0x1, 0x1, 0xc)
  const W46 := Hex(0x6, 0x6, 0xf, 0x6, 0x4, 0x6, 0x8, 0xd)
  const W47 := Hex(0x9, 0x0, 0xa, 0x3, 0x5, 0xa, 0xf, 0x5)
  const W48 := Hex(0xb, 0x5, 0xd, 0x4, 0x1, 0xf, 0x9, 0xc)
  const W49 := Hex(0xa, 0x0, 0x4, 0xb, 0x4, 0x9, 0x0, 0x4)
  const W50 := Hex(0x7, 0x0, 0x3, 0xd, 0x5, 0x4, 0xd, 0x8)
  const W51 := Hex(0x7, 0x1, 0xd, 0x1, 0x0, 0x3, 0x6, 0x7)
  const W52 := Hex(0xf, 0xc, 0x3, 0x2, 0xd, 0xd, 0x6, 0xe)
  const W53 := Hex(0x6, 0x5, 0x4, 0x5, 0x6, 0xb, 0x3, 0x4)
  const W54 := Hex(0xb, 0x3, 0x5, 0x6, 0x0, 0x2, 0xc, 0xb)
  const W55 := Hex(0x3, 0x3, 0xe, 0xd, 0xb, 0x1, 0x9, 0x7)
  const W56 := Hex(0xc, 0x1, 0xe, 0x9, 0x4, 0x2, 0xf, 0x1)
  const W57 := Hex(0xd, 0x9, 0xb, 0xb, 0x9, 0x8, 0x7, 0xc)
  const W58 := Hex(0x2, 0x3, 0xa, 0x6, 0x8, 0x0, 0x4, 0x8)
  const W59 := Hex(0x8, 0x3, 0x8, 0x7, 0x7, 0xd, 0x1, 0xb)
  const W60 := Hex(0x0, 0x0, 0x7, 0x7, 0xc, 0x2, 0x0, 0x8)
  const W61 := Hex(0x8, 0x4, 0x7, 0xf, 0xc, 0x2, 0xe, 0x7)
  const W62 := Hex(0xa, 0x3, 0xe, 0x2, 0x2, 0x4, 0x7, 0xf)
  const W63 := Hex(0x5, 0xe, 0x6, 0xb, 0xc, 0x9, 0x3, 0x0)
  const W64 := Hex(0x7, 0x0, 0x8, 0xe, 0xd, 0x9, 0xc, 0x2)
  const W65 := Hex(0x2, 0xb, 0xa, 0xf, 0x1, 0x3, 0x5, 0x4)
  const W66 := Hex(0xd, 0x3, 0x8, 0xf, 0x1, 0xe, 0x7, 0xf)
  const W67 := Hex(0x1, 0x1, 0x1, 0x6, 0xe, 0x6, 0xd, 0x8)

  lemma Op0() ensures Makes(0, 0x64636261, W0, W3, W2, W1, W4) {
    hide Makes;
    Certify(0, 0x64636261, W0, W3, W2, W1, Hex(0x9, 0x8, 0xb, 0xa, 0xd, 0xc, 0xf, 0xe),
            0xd76aa478, 2, 0x80, 0x2000000, 0x1d, 0x1ce06d8, 1, W4);
  }
  lemma Op1() ensures Makes(1, 0x68676665, W1, W4, W3, W2, W5) {
    hide Makes;
    Certify(1, 0x68676665, W1, W4, W3, W2, Hex(0xc, 0xe, 0xe, 0xb, 0xc, 0xb, 0xd, 0x8),
            0xe8c7b756, 2, 0x1000, 0x100000, 0x304, 0xd3e09, 1, W5);
  }
  lemma Op2() ensures Makes(2, 0x6c6b6a69, W2, W5, W4, W3, W6) {
    hide Makes;
    Certify(2, 0x6c6b6a69, W2, W5, W4, W3, Hex(0xc, 0x7, 0xd, 0xd, 0x0, 0x3, 0xa, 0x3),
            0x242070db, 1, 0x20000, 0x8000, 0x1e247, 0x3be5, 1, W6);
  }
  lemma Op3() ensures Makes(3, 0x706f6e6d, W3, W6, W5, W4, W7) {
    hide Makes;
    Certify(3, 0x706f6e6d, W3, W6, W5, W4, Hex(0xf, 0x6, 0xb, 0x1, 0x9, 0xb, 0xa, 0x6),
            0xc1bdceee, 3, 0x400000, 0x400, 0x62b21, 0x8a, 0, W7);
  }
  lemma Op4() ensures Makes(4, 0x74737271, W4, W7, W6, W5, W8) {
    hide Makes;
    Certify(4, 0x74737271, W4, W7, W6, W5, Hex(0xa, 0xa, 0xb, 0x1, 0x8, 0xa, 0xb, 0x8),
            0xf57c0faf, 2, 0x80, 0x2000000, 0x75, 0x172247e, 0, W8);
  }
  lemma Op5() ensures Makes(5, 0x78777675, W5, W8, W7, W6, W9) {
    hide Makes;
    Certify(5, 0x78777675, W5, W8, W7, W6, Hex(0x4, 0x4, 0x6, 0x9, 0xb, 0x8, 0x7, 0x2),
            0x4787c62a, 1, 0x1000, 0x100000, 0xaf1, 0xa9fbb, 1, W9);
  }
  lemma Op6() ensures Makes(6, 0x807a79, W6, W9, W8, W7, W10) {
    hide Makes;
    Certify(6, 0x807a79, W6, W9, W8, W7, Hex(0xe, 0xd, 0x1, 0x3, 0xb, 0xa, 0x0, 0x2),
            0xa8304613, 1, 0x20000, 0x8000, 0x17084, 0x77f, 0, W10);
  }
  lemma Op7() ensures Makes(7, 0x0, W7, W10, W9, W8, W11) {
    hide Makes;
    Certify(7, 0x0, W7, W10, W9, W8, Hex(0xe, 0x8, 0x1, 0x5, 0xf, 0x7, 0x7, 0xb),
            0xfd469501, 2, 0x400000, 0x400, 0xa9811, 0x8e, 0, W11);
  }
  lemma Op8() ensures Makes(8, 0x0, W8, W11, W10, W9, W12) {
    hide Makes;
    Certify(8, 0x0, W8, W11, W10, W9, Hex(0xb, 0x2, 0x1, 0x1, 0x2, 0x2, 0x7, 0xc),
            0x698098d8, 2, 0x80, 0x2000000, 0xc, 0x1a7b2db, 1, W12);
  }
  lemma Op9() ensures Makes(9, 0x0, W9, W12, W11, W10, W13) {
    hide Makes;
    Certify(9, 0x0, W9, W12, W11, W10, Hex(0x9, 0xb, 0x1, 0x1, 0x2, 0xa, 0x6, 0xd),
            0x8b44f7af, 1, 0x1000, 0x100000, 0xce6, 0x7d494, 1, W13);
  }
  lemma Op10() ensures Makes(10, 0x0, W10, W13, W12, W11, W14) {
    hide Makes;
    Certify(10, 0x0, W10, W13, W12, W11, Hex(0xf, 0xa, 0x3, 0x5, 0xa, 0xa, 0x1, 0x9),
            0xffff5bb1, 2, 0x20000, 0x8000, 0x1628c, 0x28c6, 0, W14);
  }
  lemma Op11() ensures Makes(11, 0x0, W11, W14, W13, W12, W15) {
    hide Makes;
    Certify(11, 0x0, W11, W14, W13, W12, Hex(0xa, 0xb, 0x3, 0xe, 0x7, 0x0, 0x9, 0xb),
            0x895cd7be, 2, 0x400000, 0x400, 0x3cdc0, 0x366, 1, W15);
  }
  lemma Op12() ensures Makes(12, 0x0, W12, W15, W14, W13, W16) {
    hide Makes;
    Certify(12, 0x0, W12, W15, W14, W13, Hex(0x7, 0xd, 0x7, 0xb, 0xd, 0x0, 0x3, 0xf),
            0x6b901122, 1, 0x80, 0x2000000, 0x4b, 0x18109fa, 1, W16);
  }
  lemma Op13() ensures Makes(13, 0x0, W13, W16, W15, W14, W17) {
    hide Makes;
    Certify(13, 0x0, W13, W16, W15, W14, Hex(0x7, 0xe, 0x4, 0xf, 0xf, 0x9, 0x0, 0xb),
            0xfd987193, 1, 0x1000, 0x100000, 0xa7a, 0x6e01d, 0, W17);
  }
  lemma Op14() ensures Makes(14, 0xd0, W14, W17, W16, W15, W18) {
    hide Makes;
    Certify(14, 0xd0, W14, W17, W16, W15, Hex(0x5, 0x7, 0xd, 0xd, 0xa, 0x1, 0x5, 0xb),
            0xa679438e, 1, 0x20000, 0x8000, 0xf745, 0x3dc4, 1, W18);
  }
  lemma Op15() ensures Makes(15, 0x0, W15, W18, W17, W16, W19) {
    hide Makes;
    Certify(15, 0x0, W15, W18, W17, W16, Hex(0x1, 0x7, 0x5, 0x6, 0xf, 0x7, 0x9, 0x2),
            0x49b40821, 0, 0x400000, 0x400, 0x2df6a9, 0x17e, 0, W19);
  }
  lemma Op16() ensures Makes(16, 0x68676665, W16, W19, W18, W17, W20) {
    hide Makes;
    Certify(16, 0x68676665, W16, W19, W18, W17, Hex(0x0, 0x0, 0x8, 0xd, 0x6, 0x9, 0x5, 0x5),
            0xf61e2562, 1, 0x20, 0x8000000, 0xe, 0x6679832, 1, W20);
  }
  lemma Op17() ensures Makes(17, 0x807a79, W17, W20, W19, W18, W21) {
    hide Makes;
    Certify(17, 0x807a79, W17, W20, W19, W18, Hex(0x6, 0x0, 0x8, 0x0, 0x7, 0xb, 0xe, 0xe),
            0xc040b340, 1, 0x200, 0x800000, 0x14d, 0x182737, 0, W21);
  }
  lemma Op18() ensures Makes(18, 0x0, W18, W21, W20, W19, W22) {
    hide Makes;
    Certify(18, 0x0, W18, W21, W20, W19, Hex(0x4, 0xd, 0x8, 0xc, 0x7, 0x1, 0x9, 0x8),
            0x265e5a51, 0, 0x4000, 0x40000, 0x1d32, 0x240be, 0, W22);
  }
  lemma Op19() ensures Makes(19, 0x64636261, W19, W22, W21, W20, W23) {
    hide Makes;
    Certify(19, 0x64636261, W19, W22, W21, W20, Hex(0x7, 0xd, 0xc, 0xe, 0xf, 0x0, 0x5, 0x9),
            0xe9b6c7aa, 2, 0x100000, 0x1000, 0x2c768, 0x5e2, 1, W23);
  }
  lemma Op20() ensures Makes(20, 0x78777675, W20, W23, W22, W21, W24) {
    hide Makes;
    Certify(20, 0x78777675, W20, W23, W22, W21, Hex(0xe, 0xc, 0x3, 0x0, 0x5, 0xf, 0x5, 0x3),
            0xd62f105d, 2, 0x20, 0x8000000, 0xd, 0x5757f1, 0, W24);
  }
  lemma Op21() ensures Makes(21, 0x0, W21, W24, W23, W22, W25) {
    hide Makes;
    Certify(21, 0x0, W21, W24, W23, W22, Hex(0x4, 0x5, 0x0, 0xd, 0x4, 0x3, 0xf, 0x0),
            0x2441453, 0, 0x200, 0x800000, 0x14a, 0x20395c, 0, W25);
  }
  lemma Op22() ensures Makes(22, 0x0, W22, W25, W24, W23, W26) {
    hide Makes;
    Certify(22, 0x0, W22, W25, W24, W23, Hex(0x1, 0x7, 0x2, 0xc, 0x4, 0x7, 0x6, 0x2),
            0xd8a1e681, 1, 0x4000, 0x40000, 0x3773, 0xac2e, 0, W26);
  }
  lemma Op23() ensures Makes(23, 0x74737271, W23, W26, W25, W24, W27) {
    hide Makes;
    Certify(23, 0x74737271, W23, W26, W25, W24, Hex(0xc, 0x2, 0x7, 0xa, 0xb, 0xc, 0x8, 0xa),
            0xe7d3fbc8, 2, 0x100000, 0x1000, 0x6ae37, 0x76, 0, W27);
  }
  lemma Op24() ensures Makes(24, 0x0, W24, W27, W26, W25, W28) {
    hide Makes;
    Certify(24, 0x0, W24, W27, W26, W25, Hex(0xc, 0x1, 0xf, 0x0, 0x6, 0x0, 0x9, 0x5),
            0x21e1cde6, 1, 0x20, 0x8000000, 0x7, 0x2de725b, 1, W28);
  }
  lemma Op25() ensures Makes(25, 0xd0, W25, W28, W27, W26, W29) {
    hide Makes;
    Certify(25, 0xd0, W25, W28, W27, W26, Hex(0x0, 0x9, 0xf, 0xb, 0xe, 0x6, 0x5, 0x9),
            0xc33707d6, 1, 0x200, 0x800000, 0xc9, 0x31ec29, 0, W29);
  }
  lemma Op26() ensures Makes(26, 0x706f6e6d, W26, W29, W28, W27, W30) {
    hide Makes;
    Certify(26, 0x706f6e6d, W26, W29, W28, W27, Hex(0xa, 0xd, 0x9, 0xe, 0x8, 0xc, 0x2, 0xf),
            0xf4d50d87, 2, 0x4000, 0x40000, 0x355b, 0x1bcc0, 0, W30);
  }
  lemma Op27() ensures Makes(27, 0x0, W27, W30, W29, W28, W31) {
    hide Makes;
    Certify(27, 0x0, W27, W30, W29, W28, Hex(0xa, 0x8, 0x8, 0x8, 0x2, 0x7, 0x1, 0xf),
            0x455a14ed, 1, 0x100000, 0x1000, 0xb7d39, 0xee0, 1, W31);
  }
  lemma Op28() ensures Makes(28, 0x0, W28, W31, W30, W29, W32) {
    hide Makes;
    Certify(28, 0x0, W28, W31, W30, W29, Hex(0xf, 0x0, 0xd, 0x0, 0x3, 0x7, 0x5, 0xb),
            0xa9e3e905, 1, 0x20, 0x8000000, 0x18, 0x73ce9b, 0, W32);
  }
  lemma Op29() ensures Makes(29, 0x6c6b6a69, W29, W32, W31, W30, W33) {
    hide Makes;
    Certify(29, 0x6c6b6a69, W29, W32, W31, W30, Hex(0xf, 0x6, 0x5, 0xb, 0x8, 0x7, 0x9, 0x0),
            0xfcefa3f8, 2, 0x200, 0x800000, 0x1d2, 0x4e96f5, 1, W33);
  }
  lemma Op30() ensures Makes(30, 0x0, W30, W33, W32, W31, W34) {
    hide Makes;
    Certify(30, 0x0, W30, W33, W32, W31, Hex(0x9, 0x3, 0x5, 0xf, 0x3, 0x6, 0x8, 0x0),
            0x676f02d9, 1, 0x4000, 0x40000, 0x3ce5, 0x26fb8, 1, W34);
  }
  lemma Op31() ensures Makes(31, 0x0, W31, W34, W33, W32, W35) {
    hide Makes;
    Certify(31, 0x0, W31, W34, W33, W32, Hex(0x2, 0x6, 0x7, 0xb, 0xf, 0x7, 0xe, 0x2),
            0x8d2a4c8a, 1, 0x100000, 0x1000, 0x9a79f, 0x804, 0, W35);
  }
  lemma Op32() ensures Makes(32, 0x78777675, W32, W35, W34, W33, W36) {
    hide Makes;
    Certify(32, 0x78777675, W32, W35, W34, W33, Hex(0x1, 0x2, 0xa, 0x1, 0x8, 0xa, 0x4, 0x3),
            0xfffa3942, 2, 0x10, 0x10000000, 0x8, 0x60c10a, 0, W36);
  }
  lemma Op33() ensures Makes(33, 0x0, W33, W36, W35, W34, W37) {
    hide Makes;
    Certify(33, 0x0, W33, W36, W35, W34, Hex(0x3, 0x4, 0x6, 0x5, 0x9, 0x0, 0xa, 0xf),
            0x8771f681, 1, 0x800, 0x200000, 0x272, 0x12fa12, 1, W37);
  }
  lemma Op34() ensures Makes(34, 0x0, W34, W37, W36, W35, W38) {
    hide Makes;
    Certify(34, 0x0, W34, W37, W36, W35, Hex(0x5, 0x6, 0x8, 0x3, 0xc, 0x5, 0xe, 0x8),
            0x6d9d6122, 0, 0x10000, 0x10000, 0xf28a, 0xd6d1, 1, W38);
  }
  lemma Op35() ensures Makes(35, 0xd0, W35, W38, W37, W36, W39) {
    hide Makes;
    Certify(35, 0xd0, W35, W38, W37, W36, Hex(0xd, 0xb, 0x5, 0x1, 0x7, 0xf, 0x8, 0x4),
            0xfde5380c, 2, 0x800000, 0x200, 0x43f507, 0x1c6, 1, W39);
  }
  lemma Op36() ensures Makes(36, 0x68676665, W36, W39, W38, W37, W40) {
    hide Makes;
    Certify(36, 0x68676665, W36, W39, W38, W37, Hex(0x6, 0x9, 0x4, 0xb, 0xf, 0x5, 0x9, 0xb),
            0xa4beea44, 2, 0x10, 0x10000000, 0x2, 0xb31ae52, 0, W40);
  }
  lemma Op37() ensures Makes(37, 0x74737271, W37, W40, W39, W38, W41) {
    hide Makes;
    Certify(37, 0x74737271, W37, W40, W39, W38, Hex(0x9, 0xc, 0x0, 0x4, 0xc, 0x8, 0x2, 0x8),
            0x4bdecfa9, 1, 0x800, 0x200000, 0x547, 0x704c2, 0, W41);
  }
  lemma Op38() ensures Makes(38, 0x0, W38, W41, W40, W39, W42) {
    hide Makes;
    Certify(38, 0x0, W38, W41, W40, W39, Hex(0x4, 0xe, 0x8, 0x3, 0xf, 0x9, 0x5, 0x8),
            0xf6bb4b60, 1, 0x10000, 0x10000, 0x68a1, 0x31c2, 1, W42);
  }
  lemma Op39() ensures Makes(39, 0x0, W39, W42, W41, W40, W43) {
    hide Makes;
    Certify(39, 0x0, W39, W42, W41, W40, Hex(0x6, 0xb, 0x8, 0xf, 0x5, 0xe, 0x5, 0x2),
            0xbebfbc70, 1, 0x800000, 0x200, 0x187a7e, 0xd3, 0, W43);
  }
  lemma Op40() ensures Makes(40, 0x0, W40, W43, W42, W41, W44) {
    hide Makes;
    Certify(40, 0x0, W40, W43, W42, W41, Hex(0x5, 0xf, 0x0, 0xe, 0x2, 0x6, 0xf, 0x8),
            0x289b7ec6, 1, 0x10, 0x10000000, 0x4, 0x16a6cf1, 0, W44);
  }
  lemma Op41() ensures Makes(41, 0x64636261, W41, W44, W43, W42, W45) {
    hide Makes;
    Certify(41, 0x64636261, W41, W44, W43, W42, Hex(0x0, 0xd, 0x0, 0x0, 0x7, 0x4, 0x2, 0xf),
            0xeaa127fa, 2, 0x800, 0x200000, 0x26f, 0xbdb04, 1, W45);
  }
  lemma Op42() ensures Makes(42, 0x706f6e6d, W42, W45, W44, W43, W46) {
    hide Makes;
    Certify(42, 0x706f6e6d, W42, W45, W44, W43, Hex(0x2, 0xc, 0x6, 0x9, 0x8, 0x0, 0x2, 0x8),
            0xd4ef3085, 1, 0x10000, 0x10000, 0x9571, 0x6435, 0, W46);
  }
  lemma Op43() ensures Makes(43, 0x807a79, W43, W46, W45, W44, W47) {
    hide Makes;
    Certify(43, 0x807a79, W43, W46, W45, W44, Hex(0xc, 0x7, 0xd, 0xe, 0x7, 0x9, 0x3, 0xc),
            0x4881d05, 1, 0x800000, 0x200, 0x2d1468, 0x53, 0, W47);
  }
  lemma Op44() ensures Makes(44, 0x0, W44, W47, W46, W45, W48) {
    hide Makes;
    Certify(44, 0x0, W44, W47, W46, W45, Hex(0xf, 0x4, 0x9, 0x5, 0xa, 0xd, 0x6, 0x4),
            0xd9d4d039, 2, 0x10, 0x10000000, 0x7, 0x2530c4a, 0, W48);
  }
  lemma Op45() ensures Makes(45, 0x0, W45, W48, W47, W46, W49) {
    hide Makes;
    Certify(45, 0x0, W45, W48, W47, W46, Hex(0x4, 0x3, 0x8, 0x1, 0x0, 0x3, 0xe, 0x4),
            0xe6db99e5, 1, 0x800, 0x200000, 0x168, 0x1d4ee5, 1, W49);
  }
  lemma Op46() ensures Makes(46, 0x0, W46, W49, W48, W47, W50) {
    hide Makes;
    Certify(46, 0x0, W46, W49, W48, W47, Hex(0x8, 0x5, 0x3, 0xc, 0x0, 0xc, 0x6, 0xd),
            0x1fa27cf8, 1, 0x10000, 0x10000, 0xbd4, 0xcff2, 1, W50);
  }
  lemma Op47() ensures Makes(47, 0x6c6b6a69, W47, W50, W49, W48, W51) {
    hide Makes;
    Certify(47, 0x6c6b6a69, W47, W50, W49, W48, Hex(0x6, 0x5, 0xa, 0x2, 0x0, 0x2, 0x4, 0x0),
            0xc4ac5665, 2, 0x800000, 0x200, 0x13ae8f, 0x3, 0, W51);
  }
  lemma Op48() ensures Makes(48, 0x64636261, W48, W51, W50, W49, W52) {
    hide Makes;
    Certify(48, 0x64636261, W48, W51, W50, W49, Hex(0x0, 0xf, 0xc, 0x8, 0xe, 0x3, 0x2, 0x7),
            0xf4292244, 2, 0x40, 0x4000000, 0x7, 0x2298768, 0, W52);
  }
  lemma Op49() ensures Makes(49, 0x0, W49, W52, W51, W50, W53) {
    hide Makes;
    Certify(49, 0x0, W49, W52, W51, W50, Hex(0x8, 0xe, 0x2, 0x3, 0xf, 0xc, 0x0, 0x8),
            0x432aff97, 1, 0x400, 0x400000, 0x1c6, 0x1a44a3, 1, W53);
  }
  lemma Op50() ensures Makes(50, 0xd0, W50, W53, W52, W51, W54) {
    hide Makes;
    Certify(50, 0xd0, W50, W53, W52, W51, Hex(0x1, 0x3, 0x5, 0xd, 0x2, 0x2, 0xd, 0x2),
            0xab9423a7, 1, 0x8000, 0x20000, 0x1797, 0x9c21, 0, W54);
  }
  lemma Op51() ensures Makes(51, 0x78777675, W51, W54, W53, W52, W55) {
    hide Makes;
    Certify(51, 0x78777675, W51, W54, W53, W52, Hex(0xd, 0x6, 0x9, 0xa, 0x4, 0x9, 0xe, 0xf),
            0xfc93a039, 2, 0x200000, 0x800, 0x17aecc, 0x404, 1, W55);
  }
  lemma Op52() ensures Makes(52, 0x0, W52, W55, W54, W53, W56) {
    hide Makes;
    Certify(52, 0x0, W52, W55, W54, W53, Hex(0x0, 0x8, 0xa, 0x9, 0xb, 0x7, 0x1, 0x4),
            0x655b59c3, 1, 0x40, 0x4000000, 0x1a, 0x237ee45, 0, W56);
  }
  lemma Op53() ensures Makes(53, 0x706f6e6d, W53, W56, W55, W54, W57) {
    hide Makes;
    Certify(53, 0x706f6e6d, W53, W56, W55, W54, Hex(0xf, 0xe, 0x0, 0x4, 0x4, 0xe, 0x6, 0x2),
            0x8f0ccc92, 2, 0x400, 0x400000, 0x18b, 0x5f495, 0, W57);
  }
  lemma Op54() ensures Makes(54, 0x0, W54, W57, W56, W55, W58) {
    hide Makes;
    Certify(54, 0x0, W54, W57, W56, W55, Hex(0x1, 0xc, 0x5, 0x2, 0x9, 0xc, 0x8, 0xd),
            0xffeff47d, 1, 0x8000, 0x20000, 0x67cc, 0x93d5, 1, W58);
  }
  lemma Op55() ensures Makes(55, 0x68676665, W55, W58, W57, W56, W59) {
    hide Makes;
    Certify(55, 0x68676665, W55, W58, W57, W56, Hex(0xe, 0x6, 0x0, 0xd, 0x2, 0x5, 0x3, 0x2),
            0x85845dd1, 2, 0x200000, 0x800, 0xfcd3, 0x2ff, 0, W59);
  }
  lemma Op56() ensures Makes(56, 0x0, W56, W59, W58, W57, W60) {
    hide Makes;
    Certify(56, 0x0, W56, W59, W58, W57, Hex(0x8, 0x4, 0x6, 0x1, 0xf, 0xf, 0xd, 0x3),
            0x6fa87e4f, 1, 0x40, 0x4000000, 0x2d, 0x1f3c113, 1, W60);
  }
  lemma Op57() ensures Makes(57, 0x0, W57, W60, W59, W58, W61) {
    hide Makes;
    Certify(57, 0x0, W57, W60, W59, W58, Hex(0x5, 0xf, 0xf, 0x8, 0x8, 0x2, 0xa, 0x4),
            0xfe2ce6e0, 2, 0x400, 0x400000, 0xdf, 0x210200, 0, W61);
  }
  lemma Op58() ensures Makes(58, 0x807a79, W58, W61, W60, W59, W62) {
    hide Makes;
    Certify(58, 0x807a79, W58, W61, W60, W59, Hex(0xf, 0xc, 0x0, 0x8, 0x0, 0x0, 0xe, 0xf),
            0xa3014314, 1, 0x8000, 0x20000, 0x6198, 0x3ec4, 0, W62);
  }
  lemma Op59() ensures Makes(59, 0x0, W59, W62, W61, W60, W63) {
    hide Makes;
    Certify(59, 0x0, W59, W62, W61, W60, Hex(0x7, 0xb, 0x9, 0x5, 0xf, 0xf, 0x1, 0x8),
            0x4e0811a1, 1, 0x200000, 0x800, 0x9a4b1, 0x5d4, 1, W63);
  }
  lemma Op60() ensures Makes(60, 0x74737271, W60, W63, W62, W61, W64) {
    hide Makes;
    Certify(60, 0x74737271, W60, W63, W62, W61, Hex(0xd, 0xc, 0x0, 0x9, 0xd, 0x9, 0x4, 0x7),
            0xf7537e82, 2, 0x40, 0x4000000, 0x12, 0x488c42, 0, W64);
  }
  lemma Op61() ensures Makes(61, 0x0, W61, W64, W63, W62, W65) {
    hide Makes;
    Certify(61, 0x0, W61, W64, W63, W62, Hex(0x2, 0x2, 0xf, 0x4, 0x1, 0x2, 0xf, 0x2),
            0xbd3af235, 1, 0x400, 0x400000, 0x192, 0x2ec80e, 1, W65);
  }
  lemma Op62() ensures Makes(62, 0x6c6b6a69, W62, W65, W64, W63, W66) {
    hide Makes;
    Certify(62, 0x6c6b6a69, W62, W65, W64, W63, Hex(0xd, 0xb, 0x3, 0x1, 0xe, 0xe, 0x1, 0xd),
            0x2ad7d2bb, 2, 0x8000, 0x20000, 0xb2b, 0x14fc0, 0, W66);
  }
  lemma Op63() ensures Makes(63, 0x0, W63, W66, W65, W64, W67) {
    hide Makes;
    Certify(63, 0x0, W63, W66, W65, W64, Hex(0xf, 0x4, 0x5, 0x0, 0x2, 0xd, 0x2, 0xb),
            0xeb86d391, 2, 0x200000, 0x800, 0x7c859, 0x1ec, 1, W67);
  }

  lemma Operations0()
    requires Rounds(0, IV, ALPHABET) == State(W0, W3, W2, W1)
    ensures Rounds(8, IV, ALPHABET) == State(W8, W11, W10, W9)
  {
    hide Makes, Rounds, State;
    Op0();
    Operate(0, ALPHABET, W0, W3, W2, W1, W4);
    Op1();
    Operate(1, ALPHABET, W1, W4, W3, W2, W5);
    Op2();
    Operate(2, ALPHABET, W2, W5, W4, W3, W6);
    Op3();
    Operate(3, ALPHABET, W3, W6, W5, W4, W7);
    Op4();
    Operate(4, ALPHABET, W4, W7, W6, W5, W8);
    Op5();
    Operate(5, ALPHABET, W5, W8, W7, W6, W9);
    Op6();
    Operate(6, ALPHABET, W6, W9, W8, W7, W10);
    Op7();
    Operate(7, ALPHABET, W7, W10, W9, W8, W11);
  }

  lemma Operations1()
    requires Rounds(8, IV, ALPHABET) == State(W8, W11, W10, W9)
    ensures Rounds(16, IV, ALPHABET) == State(W16, W19, W18, W17)
  {
    hide Makes, Rounds, State;
    Op8();
    Operate(8, ALPHABET, W8, W11, W10, W9, W12);
    Op9();
    Operate(9, ALPHABET, W9, W12, W11, W10, W13);
    Op10();
    Operate(10, ALPHABET, W10, W13, W12, W11, W14);
    Op11();
    Operate(11, ALPHABET, W11, W14, W13, W12, W15);
    Op12();
    Operate(12, ALPHABET, W12, W15, W14, W13, W16);
    Op13();
    Operate(13, ALPHABET, W13, W16, W15, W14, W17);
    Op14();
    Operate(14, ALPHABET, W14, W17, W16, W15, W18);
    Op15();
    Operate(15, ALPHABET, W15, W18, W17, W16, W19);
  }

  lemma Operations2()
    requires Rounds(16, IV, ALPHABET) == State(W16, W19, W18, W17)
    ensures Rounds(24, IV, ALPHABET) == State(W24, W27, W26, W25)
  {
    hide Makes, Rounds, State;
    Op16();
    Operate(16, ALPHABET, W16, W19, W18, W17, W20);
    Op17();
    Operate(17, ALPHABET, W17, W20, W19, W18, W21);
    Op18();
    Operate(18, ALPHABET, W18, W21, W20, W19, W22);
    Op19();
    Operate(19, ALPHABET, W19, W22, W21, W20, W23);
    Op20();
    Operate(20, ALPHABET, W20, W23, W22, W21, W24);
    Op21();
    Operate(21, ALPHABET, W21, W24, W23, W22, W25);
    Op22();
    Operate(22, ALPHABET, W22, W25, W24, W23, W26);
    Op23();
    Operate(23, ALPHABET, W23, W26, W25, W24, W27);
  }

  lemma Operations3()
    requires Rounds(24, IV, ALPHABET) == State(W24, W27, W26, W25)
    ensures Rounds(32, IV, ALPHABET) == State(W32, W35, W34, W33)
  {
    hide Makes, Rounds, State;
    Op24();
    Operate(24, ALPHABET, W24, W27, W26, W25, W28);
    Op25();
    Operate(25, ALPHABET, W25, W28, W27, W26, W29);
    Op26();
    Operate(26, ALPHABET, W26, W29, W28, W27, W30);
    Op27();
    Operate(27, ALPHABET, W27, W30, W29, W28, W31);
    Op28();
    Operate(28, ALPHABET, W28, W31, W30, W29, W32);
    Op29();
    Operate(29, ALPHABET, W29, W32, W31, W30, W33);
    Op30();
    Operate(30, ALPHABET, W30, W33, W32, W31, W34);
    Op31();
    Operate(31, ALPHABET, W31, W34, W33, W32, W35);
  }

  lemma Operations4()
    requires Rounds(32, IV, ALPHABET) == State(W32, W35, W34, W33)
    ensures Rounds(40, IV, ALPHABET) == State(W40, W43, W42, W41)
  {
    hide Makes, Rounds, State;
    Op32();
    Operate(32, ALPHABET, W32, W35, W34, W33, W36);
    Op33();
    Operate(33, ALPHABET, W33, W36, W35, W34, W37);
    Op34();
    Operate(34, ALPHABET, W34, W37, W36, W35, W38);
    Op35();
    Operate(35, ALPHABET, W35, W38, W37, W36, W39);
    Op36();
    Operate(36, ALPHABET, W36, W39, W38, W37, W40);
    Op37();
    Operate(37, ALPHABET, W37, W40, W39, W38, W41);
    Op38();
    Operate(38, ALPHABET, W38, W41, W40, W39, W42);
    Op39();
    Operate(39, ALPHABET, W39, W42, W41, W40, W43);
  }

  lemma Operations5()
    requires Rounds(40, IV, ALPHABET) == State(W40, W43, W42, W41)
    ensures Rounds(48, IV, ALPHABET) == State(W48, W51, W50, W49)
  {
    hide Makes, Rounds, State;
    Op40();
    Operate(40, ALPHABET, W40, W43, W42, W41, W44);
    Op41();
    Operate(41, ALPHABET, W41, W44, W43, W42, W45);
    Op42();
    Operate(42, ALPHABET, W42, W45, W44, W43, W46);
    Op43();
    Operate(43, ALPHABET, W43, W46, W45, W44, W47);
    Op44();
    Operate(44, ALPHABET, W44, W47, W46, W45, W48);
    Op45();
    Operate(45, ALPHABET, W45, W48, W47, W46, W49);
    Op46();
    Operate(46, ALPHABET, W46, W49, W48, W47, W50);
    Op47();
    Operate(47, ALPHABET, W47, W50, W49, W48, W51);
  }

  lemma Operations6()
    requires Rounds(48, IV, ALPHABET) == State(W48, W51, W50, W49)
    ensures Rounds(56, IV, ALPHABET) == State(W56, W59, W58, W57)
  {
    hide Makes, Rounds, State;
    Op48();
    Operate(48, ALPHABET, W48, W51, W50, W49, W52);
    Op49();
    Operate(49, ALPHABET, W49, W52, W51, W50, W53);
    Op50();
    Operate(50, ALPHABET, W50, W53, W52, W51, W54);
    Op51();
    Operate(51, ALPHABET, W51, W54, W53, W52, W55);
    Op52();
    Operate(52, ALPHABET, W52, W55, W54, W53, W56);
    Op53();
    Operate(53, ALPHABET, W53, W56, W55, W54, W57);
    Op54();
    Operate(54, ALPHABET, W54, W57, W56, W55, W58);
    Op55();
    Operate(55, ALPHABET, W55, W58, W57, W56, W59);
  }

  lemma Operations7()
    requires Rounds(56, IV, ALPHABET) == State(W56, W59, W58, W57)
    ensures Rounds(64, IV, ALPHABET) == State(W64, W67, W66, W65)
  {
    hide Makes, Rounds, State;
    Op56();
    Operate(56, ALPHABET, W56, W59, W58, W57, W60);
    Op57();
    Operate(57, ALPHABET, W57, W60, W59, W58, W61);
    Op58();
    Operate(58, ALPHABET, W58, W61, W60, W59, W62);
    Op59();
    Operate(59, ALPHABET, W59, W62, W61, W60, W63);
    Op60();
    Operate(60, ALPHABET, W60, W63, W62, W61, W64);
    Op61();
    Operate(61, ALPHABET, W61, W64, W63, W62, W65);
    Op62();
    Operate(62, ALPHABET, W62, W65, W64, W63, W66);
    Op63();
    Operate(63, ALPHABET, W63, W66, W65, W64, W67);
  }

  /** The letters a to z. */
  const LETTERS: seq<byte> := [
    0x61, 0x62, 0x63, 0x64, 0x65, 0x66, 0x67, 0x68, 0x69, 0x6a, 0x6b, 0x6c, 0x6d,
    0x6e, 0x6f, 0x70, 0x71, 0x72, 0x73, 0x74, 0x75, 0x76, 0x77, 0x78, 0x79, 0x7a]

  const BLOCK: seq<byte> := LETTERS + [0x80] + Zeros(29) + [0xd0, 0, 0, 0, 0, 0, 0, 0]

  lemma Padded()
    ensures |BLOCK| == 64 && Pad(LETTERS) == BLOCK
  {
    assert |LETTERS| == 26;
    DivModUnique(29, 64, 0, 29);
    LengthBytes();
  }

  lemma LengthBytes()
    ensures LittleEndian(208, 8) == [0xd0, 0, 0, 0, 0, 0, 0, 0]
  {
  }

  /** The first words of the block, the letters and the byte 0x80. */
  lemma LetterWords()
    ensures WordsOf(BLOCK)[..7] == [
      Word(0x61, 0x62, 0x63, 0x64), Word(0x65, 0x66, 0x67, 0x68),
      Word(0x69, 0x6a, 0x6b, 0x6c), Word(0x6d, 0x6e, 0x6f, 0x70),
      Word(0x71, 0x72, 0x73, 0x74), Word(0x75, 0x76, 0x77, 0x78),
      Word(0x79, 0x7a, 0x80, 0x00)]
  {
    hide Word;
    Padded();
    assert BLOCK[..28] == LETTERS + [0x80, 0];
    forall k | 0 <= k < 28 ensures BLOCK[k] == (LETTERS + [0x80, 0])[k] {
      assert BLOCK[..28][k] == BLOCK[k];
    }
  }

  lemma LetterValues()
    ensures Word(0x61, 0x62, 0x63, 0x64) == 0x64636261
    ensures Word(0x65, 0x66, 0x67, 0x68) == 0x68676665
    ensures Word(0x69, 0x6a, 0x6b, 0x6c) == 0x6c6b6a69
    ensures Word(0x6d, 0x6e, 0x6f, 0x70) == 0x706f6e6d
    ensures Word(0x71, 0x72, 0x73, 0x74) == 0x74737271
    ensures Word(0x75, 0x76, 0x77, 0x78) == 0x78777675
    ensures Word(0x79, 0x7a, 0x80, 0x00) == 0x00807a79
  {
  }

  lemma OtherWords()
    ensures WordsOf(BLOCK)[7..] == ALPHABET[7..]
  {
    Padded();
    var x := WordsOf(BLOCK);
    forall i | 7 <= i < 14 ensures x[i] == 0 {
      assert BLOCK[4 * i] == 0 && BLOCK[4 * i + 1] == 0 && BLOCK[4 * i + 2] == 0 && BLOCK[4 * i + 3] == 0;
    }
    assert x[14] == Word(0xd0, 0, 0, 0);
    assert x[15] == Word(0, 0, 0, 0);
  }

  lemma BlockWords()
    ensures WordsOf(BLOCK) == ALPHABET
  {
    Padded();
    LetterWords();
    LetterValues();
    OtherWords();
    hide WordsOf, Word;
    assert WordsOf(BLOCK) == WordsOf(BLOCK)[..7] + WordsOf(BLOCK)[7..];
    assert ALPHABET == ALPHABET[..7] + ALPHABET[7..];
  }

  lemma Initial()
    ensures Rounds(0, IV, ALPHABET) == State(W0, W3, W2, W1)
  {
  }

  lemma Compressed()
    requires |BLOCK| == 64
    ensures Compress(IV, BLOCK) == Registers(0xd7d3fcc3, 0x00e49261, 0x6c49fb7d, 0x3be167ca)
  {
    BlockWords();
    hide Rounds, State;
    Initial();
    Operations0();
    Operations1();
    Operations2();
    Operations3();
    Operations4();
    Operations5();
    Operations6();
    Operations7();
    assert Rounds(64, IV, ALPHABET) == State(W64, W67, W66, W65);
    Last();
  }

  lemma Last()
    ensures State(W64, W67, W66, W65) == Registers(0x708ed9c2, 0x1116e6d8, 0xd38f1e7f, 0x2baf1354)
  {
  }

  lemma Output0() ensures LittleEndian(0xd7d3fcc3, 4) == [0xc3, 0xfc, 0xd3, 0xd7] {}
  lemma Output1() ensures LittleEndian(0x00e49261, 4) == [0x61, 0x92, 0xe4, 0x00] {}
  lemma Output2() ensures LittleEndian(0x6c49fb7d, 4) == [0x7d, 0xfb, 0x49, 0x6c] {}
  lemma Output3() ensures LittleEndian(0x3be167ca, 4) == [0xca, 0x67, 0xe1, 0x3b] {}

  lemma Output()
    ensures RegisterBytes(Registers(0xd7d3fcc3, 0x00e49261, 0x6c49fb7d, 0x3be167ca)) ==
            [0xc3, 0xfc, 0xd3, 0xd7, 0x61, 0x92, 0xe4, 0x00, 0x7d, 0xfb, 0x49, 0x6c, 0xca, 0x67, 0xe1, 0x3b]
  {
    hide LittleEndian, BytesOf;
    Output0();
    Output1();
    Output2();
    Output3();
    FourWords(0xd7d3fcc3, 0x00e49261, 0x6c49fb7d, 0x3be167ca);
  }

  lemma FourWords(a: uint32, b: uint32, c: uint32, d: uint32)
    ensures BytesOf([a, b, c, d]) == LittleEndian(a, 4) + (LittleEndian(b, 4) + (LittleEndian(c, 4) + LittleEndian(d, 4)))
  {
    hide LittleEndian, BytesOf;
    FirstWord(a, [b, c, d]);
    FirstWord(b, [c, d]);
    FirstWord(c, [d]);
    FirstWord(d, []);
    assert [a] + [b, c, d] == [a, b, c, d] && [b] + [c, d] == [b, c, d] && [c] + [d] == [c, d] && [d] + [] == [d];
    assert BytesOf([]) == [] by { NoWords(); }
    assert LittleEndian(d, 4) + [] == LittleEndian(d, 4);
  }

  lemma FirstWord(a: uint32, rest: seq<uint32>)
    ensures BytesOf([a] + rest) == LittleEndian(a, 4) + BytesOf(rest)
  {
    hide LittleEndian;
    assert ([a] + rest)[1..] == rest;
  }

  lemma NoWords()
    ensures BytesOf([]) == []
  {
  }

  /** MD5 ("abcdefghijklmnopqrstuvwxyz") = c3fcd3d76192e4007dfb496cca67e13b. */
  lemma AlphabetDigest()
    ensures Digest(LETTERS) ==
            [0xc3, 0xfc, 0xd3, 0xd7, 0x61, 0x92, 0xe4, 0x00, 0x7d, 0xfb, 0x49, 0x6c, 0xca, 0x67, 0xe1, 0x3b]
  {
    hide Compress, Rounds, RegisterBytes, Pad;
    Padded();
    FoldOne(Compress, IV, BLOCK);
    Compressed();
    Output();
  }

  /** As the string that md5 returns. */
  lemma AlphabetString()
    ensures MdContext.Md5Hex(LETTERS) == [
      99, 51, 102, 99, 100, 51, 100, 55, 54, 49, 57, 50, 101, 52, 48, 48,
      55, 100, 102, 98, 52, 57, 54, 99, 99, 97, 54, 55, 101, 49, 51, 98]
  {
    AlphabetDigest();
    var d := Digest(LETTERS);
    hide Digest, MdContext.Hex;
    MdContext.HexAt(d, 0); MdContext.HexAt(d, 1); MdContext.HexAt(d, 2); MdContext.HexAt(d, 3);
    MdContext.HexAt(d, 4); MdContext.HexAt(d, 5); MdContext.HexAt(d, 6); MdContext.HexAt(d, 7);
    MdContext.HexAt(d, 8); MdContext.HexAt(d, 9); MdContext.HexAt(d, 10); MdContext.HexAt(d, 11);
    MdContext.HexAt(d, 12); MdContext.HexAt(d, 13); MdContext.HexAt(d, 14); MdContext.HexAt(d, 15);
  }
}
