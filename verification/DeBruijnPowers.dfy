/** Powers of the backward step, by repeated squaring, for each code length's modulus.

Every certificate is one congruence of polynomials: the square, or x times the first, is the second
up to the given multiple of the modulus.
 */
module DeBruijnPowers {

  import opened BitStrings
  import opened DeBruijnAlgebra

  // Code length 3

  lemma Certificates3()
    ensures SquareIs(0xB, 0x2, 0x4, 0x0)
    ensures SquareIs(0xB, 0x4, 0x6, 0x2)
    ensures SquareIs(0xB, 0x6, 0x2, 0x2)
  {
  }

  lemma Power8OfLength3(m: bv32, taps: Bits)
    requires |taps| >= 1 && m == 0xB && IsModulus(m, taps)
    ensures Steps(8, 0x2, taps)
  {
    hide *;
    Certificates3();
    StartsWithX(taps);
    Doubled(m, taps, 1, 0x2, 0x4, 0x0);
    Doubled(m, taps, 2, 0x4, 0x6, 0x2);
    Doubled(m, taps, 4, 0x6, 0x2, 0x2);
  }

  // Code length 4

  lemma Certificates4()
    ensures SquareIs(0x13, 0x2, 0x4, 0x0)
    ensures ShiftIs(0x13, 0x4, 0x8, 0x0)
    ensures SquareIs(0x13, 0x4, 0x3, 0x1)
    ensures ShiftIs(0x13, 0x3, 0x6, 0x0)
    ensures SquareIs(0x13, 0x3, 0x5, 0x0)
    ensures SquareIs(0x13, 0x5, 0x2, 0x1)
  {
  }

  lemma Power3OfLength4(m: bv32, taps: Bits)
    requires |taps| >= 1 && m == 0x13 && IsModulus(m, taps)
    ensures Steps(3, 0x8, taps)
  {
    hide *;
    Certificates4();
    StartsWithX(taps);
    Doubled(m, taps, 1, 0x2, 0x4, 0x0);
    OneMore(m, taps, 2, 0x4, 0x8, 0x0);
  }

  lemma Power5OfLength4(m: bv32, taps: Bits)
    requires |taps| >= 1 && m == 0x13 && IsModulus(m, taps)
    ensures Steps(5, 0x6, taps)
  {
    hide *;
    Certificates4();
    StartsWithX(taps);
    Doubled(m, taps, 1, 0x2, 0x4, 0x0);
    Doubled(m, taps, 2, 0x4, 0x3, 0x1);
    OneMore(m, taps, 4, 0x3, 0x6, 0x0);
  }

  lemma Power16OfLength4(m: bv32, taps: Bits)
    requires |taps| >= 1 && m == 0x13 && IsModulus(m, taps)
    ensures Steps(16, 0x2, taps)
  {
    hide *;
    Certificates4();
    StartsWithX(taps);
    Doubled(m, taps, 1, 0x2, 0x4, 0x0);
    Doubled(m, taps, 2, 0x4, 0x3, 0x1);
    Doubled(m, taps, 4, 0x3, 0x5, 0x0);
    Doubled(m, taps, 8, 0x5, 0x2, 0x1);
  }

  // Code length 5

  lemma Certificates5()
    ensures SquareIs(0x37, 0x2, 0x4, 0x0)
    ensures SquareIs(0x37, 0x4, 0x10, 0x0)
    ensures SquareIs(0x37, 0x10, 0xA, 0xE)
    ensures SquareIs(0x37, 0xA, 0x1D, 0x3)
    ensures SquareIs(0x37, 0x1D, 0x2, 0xD)
  {
  }

  lemma Power32OfLength5(m: bv32, taps: Bits)
    requires |taps| >= 1 && m == 0x37 && IsModulus(m, taps)
    ensures Steps(32, 0x2, taps)
  {
    hide *;
    Certificates5();
    StartsWithX(taps);
    Doubled(m, taps, 1, 0x2, 0x4, 0x0);
    Doubled(m, taps, 2, 0x4, 0x10, 0x0);
    Doubled(m, taps, 4, 0x10, 0xA, 0xE);
    Doubled(m, taps, 8, 0xA, 0x1D, 0x3);
    Doubled(m, taps, 16, 0x1D, 0x2, 0xD);
  }

  // Code length 6

  lemma Certificates6A()
    ensures SquareIs(0x67, 0x2, 0x4, 0x0)
    ensures SquareIs(0x67, 0x4, 0x10, 0x0)
    ensures SquareIs(0x67, 0x10, 0x35, 0x7)
    ensures ShiftIs(0x67, 0x35, 0xD, 0x1)
    ensures ShiftIs(0x67, 0x10, 0x20, 0x0)
    ensures SquareIs(0x67, 0x20, 0x1A, 0x1E)
  {
  }

  lemma Certificates6B()
    ensures SquareIs(0x67, 0x1A, 0x16, 0x6)
    ensures ShiftIs(0x67, 0x16, 0x2C, 0x0)
    ensures SquareIs(0x67, 0x35, 0x3E, 0x19)
    ensures SquareIs(0x67, 0x3E, 0x1C, 0x18)
    ensures SquareIs(0x67, 0x1C, 0x2, 0x6)
  {
  }

  lemma Power9OfLength6(m: bv32, taps: Bits)
    requires |taps| >= 1 && m == 0x67 && IsModulus(m, taps)
    ensures Steps(9, 0xD, taps)
  {
    hide *;
    Certificates6A();
    Certificates6B();
    StartsWithX(taps);
    Doubled(m, taps, 1, 0x2, 0x4, 0x0);
    Doubled(m, taps, 2, 0x4, 0x10, 0x0);
    Doubled(m, taps, 4, 0x10, 0x35, 0x7);
    OneMore(m, taps, 8, 0x35, 0xD, 0x1);
  }

  lemma Power21OfLength6(m: bv32, taps: Bits)
    requires |taps| >= 1 && m == 0x67 && IsModulus(m, taps)
    ensures Steps(21, 0x2C, taps)
  {
    hide *;
    Certificates6A();
    Certificates6B();
    StartsWithX(taps);
    Doubled(m, taps, 1, 0x2, 0x4, 0x0);
    Doubled(m, taps, 2, 0x4, 0x10, 0x0);
    OneMore(m, taps, 4, 0x10, 0x20, 0x0);
    Doubled(m, taps, 5, 0x20, 0x1A, 0x1E);
    Doubled(m, taps, 10, 0x1A, 0x16, 0x6);
    OneMore(m, taps, 20, 0x16, 0x2C, 0x0);
  }

  lemma Power64OfLength6(m: bv32, taps: Bits)
    requires |taps| >= 1 && m == 0x67 && IsModulus(m, taps)
    ensures Steps(64, 0x2, taps)
  {
    hide *;
    Certificates6A();
    Certificates6B();
    StartsWithX(taps);
    Doubled(m, taps, 1, 0x2, 0x4, 0x0);
    Doubled(m, taps, 2, 0x4, 0x10, 0x0);
    Doubled(m, taps, 4, 0x10, 0x35, 0x7);
    Doubled(m, taps, 8, 0x35, 0x3E, 0x19);
    Doubled(m, taps, 16, 0x3E, 0x1C, 0x18);
    Doubled(m, taps, 32, 0x1C, 0x2, 0x6);
  }

  // Code length 7

  lemma Certificates7A()
    ensures SquareIs(0xA7, 0x2, 0x4, 0x0)
    ensures SquareIs(0xA7, 0x4, 0x10, 0x0)
    ensures SquareIs(0xA7, 0x10, 0x4E, 0x2)
    ensures SquareIs(0xA7, 0x4E, 0x65, 0x2B)
    ensures SquareIs(0xA7, 0x65, 0x56, 0x21)
    ensures SquareIs(0xA7, 0x56, 0x6B, 0x29)
  {
  }

  lemma Certificates7B()
    ensures SquareIs(0xA7, 0x6B, 0x2, 0x21)
  {
  }

  lemma Power128OfLength7(m: bv32, taps: Bits)
    requires |taps| >= 1 && m == 0xA7 && IsModulus(m, taps)
    ensures Steps(128, 0x2, taps)
  {
    hide *;
    Certificates7A();
    Certificates7B();
    StartsWithX(taps);
    Doubled(m, taps, 1, 0x2, 0x4, 0x0);
    Doubled(m, taps, 2, 0x4, 0x10, 0x0);
    Doubled(m, taps, 4, 0x10, 0x4E, 0x2);
    Doubled(m, taps, 8, 0x4E, 0x65, 0x2B);
    Doubled(m, taps, 16, 0x65, 0x56, 0x21);
    Doubled(m, taps, 32, 0x56, 0x6B, 0x29);
    Doubled(m, taps, 64, 0x6B, 0x2, 0x21);
  }

  // Code length 8

  lemma Certificates8A()
    ensures SquareIs(0x11B, 0x2, 0x4, 0x0)
    ensures ShiftIs(0x11B, 0x4, 0x8, 0x0)
    ensures SquareIs(0x11B, 0x8, 0x40, 0x0)
    ensures SquareIs(0x11B, 0x40, 0xAB, 0x11)
    ensures SquareIs(0x11B, 0xAB, 0xB3, 0x42)
    ensures ShiftIs(0x11B, 0xB3, 0x7D, 0x1)
  {
  }

  lemma Certificates8B()
    ensures SquareIs(0x11B, 0x7D, 0x8D, 0x14)
    ensures ShiftIs(0x11B, 0x8D, 0x1, 0x1)
  {
  }

  lemma Power51OfLength8(m: bv32, taps: Bits)
    requires |taps| >= 1 && m == 0x11B && IsModulus(m, taps)
    ensures Steps(51, 0x1, taps)
  {
    hide *;
    Certificates8A();
    Certificates8B();
    StartsWithX(taps);
    Doubled(m, taps, 1, 0x2, 0x4, 0x0);
    OneMore(m, taps, 2, 0x4, 0x8, 0x0);
    Doubled(m, taps, 3, 0x8, 0x40, 0x0);
    Doubled(m, taps, 6, 0x40, 0xAB, 0x11);
    Doubled(m, taps, 12, 0xAB, 0xB3, 0x42);
    OneMore(m, taps, 24, 0xB3, 0x7D, 0x1);
    Doubled(m, taps, 25, 0x7D, 0x8D, 0x14);
    OneMore(m, taps, 50, 0x8D, 0x1, 0x1);
  }

  // Code length 9

  lemma Certificates9A()
    ensures SquareIs(0x243, 0x2, 0x4, 0x0)
    ensures ShiftIs(0x243, 0x4, 0x8, 0x0)
    ensures SquareIs(0x243, 0x8, 0x40, 0x0)
    ensures ShiftIs(0x243, 0x40, 0x80, 0x0)
    ensures SquareIs(0x243, 0x80, 0x16C, 0x24)
    ensures ShiftIs(0x243, 0x16C, 0x9B, 0x1)
  {
  }

  lemma Certificates9B()
    ensures SquareIs(0x243, 0x9B, 0x29, 0x24)
    ensures ShiftIs(0x243, 0x29, 0x52, 0x0)
    ensures SquareIs(0x243, 0x52, 0x15F, 0x9)
    ensures ShiftIs(0x243, 0x15F, 0xFD, 0x1)
    ensures SquareIs(0x243, 0xFD, 0xE0, 0x2F)
    ensures ShiftIs(0x243, 0xE0, 0x1C0, 0x0)
  {
  }

  lemma Certificates9C()
    ensures SquareIs(0x243, 0x1C0, 0x1, 0xBF)
  {
  }

  lemma Power254OfLength9(m: bv32, taps: Bits)
    requires |taps| >= 1 && m == 0x243 && IsModulus(m, taps)
    ensures Steps(254, 0x1, taps)
  {
    hide *;
    Certificates9A();
    Certificates9B();
    Certificates9C();
    StartsWithX(taps);
    Doubled(m, taps, 1, 0x2, 0x4, 0x0);
    OneMore(m, taps, 2, 0x4, 0x8, 0x0);
    Doubled(m, taps, 3, 0x8, 0x40, 0x0);
    OneMore(m, taps, 6, 0x40, 0x80, 0x0);
    Doubled(m, taps, 7, 0x80, 0x16C, 0x24);
    OneMore(m, taps, 14, 0x16C, 0x9B, 0x1);
    Doubled(m, taps, 15, 0x9B, 0x29, 0x24);
    OneMore(m, taps, 30, 0x29, 0x52, 0x0);
    Doubled(m, taps, 31, 0x52, 0x15F, 0x9);
    OneMore(m, taps, 62, 0x15F, 0xFD, 0x1);
    Doubled(m, taps, 63, 0xFD, 0xE0, 0x2F);
    OneMore(m, taps, 126, 0xE0, 0x1C0, 0x0);
    Doubled(m, taps, 127, 0x1C0, 0x1, 0xBF);
  }

  // Code length 10

  lemma Certificates10A()
    ensures SquareIs(0x443, 0x2, 0x4, 0x0)
    ensures ShiftIs(0x443, 0x4, 0x8, 0x0)
    ensures SquareIs(0x443, 0x8, 0x40, 0x0)
    ensures SquareIs(0x443, 0x40, 0x10C, 0x4)
    ensures ShiftIs(0x443, 0x10C, 0x218, 0x0)
    ensures SquareIs(0x443, 0x218, 0x233, 0x111)
  {
  }

  lemma Certificates10B()
    ensures SquareIs(0x443, 0x233, 0x235, 0x110)
    ensures SquareIs(0x443, 0x235, 0x221, 0x110)
    ensures ShiftIs(0x443, 0x221, 0x1, 0x1)
  {
  }

  lemma Power105OfLength10(m: bv32, taps: Bits)
    requires |taps| >= 1 && m == 0x443 && IsModulus(m, taps)
    ensures Steps(105, 0x1, taps)
  {
    hide *;
    Certificates10A();
    Certificates10B();
    StartsWithX(taps);
    Doubled(m, taps, 1, 0x2, 0x4, 0x0);
    OneMore(m, taps, 2, 0x4, 0x8, 0x0);
    Doubled(m, taps, 3, 0x8, 0x40, 0x0);
    Doubled(m, taps, 6, 0x40, 0x10C, 0x4);
    OneMore(m, taps, 12, 0x10C, 0x218, 0x0);
    Doubled(m, taps, 13, 0x218, 0x233, 0x111);
    Doubled(m, taps, 26, 0x233, 0x235, 0x110);
    Doubled(m, taps, 52, 0x235, 0x221, 0x110);
    OneMore(m, taps, 104, 0x221, 0x1, 0x1);
  }

  // Code length 11

  lemma Certificates11A()
    ensures SquareIs(0x8C3, 0x2, 0x4, 0x0)
    ensures SquareIs(0x8C3, 0x4, 0x10, 0x0)
    ensures ShiftIs(0x8C3, 0x10, 0x20, 0x0)
    ensures SquareIs(0x8C3, 0x20, 0x400, 0x0)
    ensures ShiftIs(0x8C3, 0x400, 0xC3, 0x1)
    ensures SquareIs(0x8C3, 0xC3, 0x79B, 0xA)
  {
  }

  lemma Certificates11B()
    ensures SquareIs(0x8C3, 0x79B, 0x13A, 0x295)
    ensures SquareIs(0x8C3, 0x13A, 0x461, 0x23)
    ensures ShiftIs(0x8C3, 0x461, 0x1, 0x1)
  {
  }

  lemma Power89OfLength11(m: bv32, taps: Bits)
    requires |taps| >= 1 && m == 0x8C3 && IsModulus(m, taps)
    ensures Steps(89, 0x1, taps)
  {
    hide *;
    Certificates11A();
    Certificates11B();
    StartsWithX(taps);
    Doubled(m, taps, 1, 0x2, 0x4, 0x0);
    Doubled(m, taps, 2, 0x4, 0x10, 0x0);
    OneMore(m, taps, 4, 0x10, 0x20, 0x0);
    Doubled(m, taps, 5, 0x20, 0x400, 0x0);
    OneMore(m, taps, 10, 0x400, 0xC3, 0x1);
    Doubled(m, taps, 11, 0xC3, 0x79B, 0xA);
    Doubled(m, taps, 22, 0x79B, 0x13A, 0x295);
    Doubled(m, taps, 44, 0x13A, 0x461, 0x23);
    OneMore(m, taps, 88, 0x461, 0x1, 0x1);
  }

  // Code length 12

  lemma Certificates12A()
    ensures SquareIs(0x1A87, 0x2, 0x4, 0x0)
    ensures ShiftIs(0x1A87, 0x4, 0x8, 0x0)
    ensures SquareIs(0x1A87, 0x8, 0x40, 0x0)
    ensures ShiftIs(0x1A87, 0x40, 0x80, 0x0)
    ensures SquareIs(0x1A87, 0x80, 0x595, 0x7)
    ensures ShiftIs(0x1A87, 0x595, 0xB2A, 0x0)
  {
  }

  lemma Certificates12B()
    ensures SquareIs(0x1A87, 0xB2A, 0xE9, 0x70F)
    ensures SquareIs(0x1A87, 0xE9, 0xB53, 0x6)
    ensures ShiftIs(0x1A87, 0xB53, 0xC21, 0x1)
    ensures SquareIs(0x1A87, 0xC21, 0x9B2, 0x6BD)
    ensures ShiftIs(0x1A87, 0x9B2, 0x9E3, 0x1)
    ensures SquareIs(0x1A87, 0x9E3, 0x9F8, 0x77F)
  {
  }

  lemma Certificates12C()
    ensures SquareIs(0x1A87, 0x9F8, 0x8BD, 0x77F)
    ensures SquareIs(0x1A87, 0x8BD, 0xEF8, 0x763)
    ensures SquareIs(0x1A87, 0xEF8, 0x1A3, 0x6CD)
    ensures SquareIs(0x1A87, 0x1A3, 0xD43, 0x1A)
    ensures ShiftIs(0x1A87, 0xD43, 0x1, 0x1)
  {
  }

  lemma Power3937OfLength12(m: bv32, taps: Bits)
    requires |taps| >= 1 && m == 0x1A87 && IsModulus(m, taps)
    ensures Steps(3937, 0x1, taps)
  {
    hide *;
    Certificates12A();
    Certificates12B();
    Certificates12C();
    StartsWithX(taps);
    Doubled(m, taps, 1, 0x2, 0x4, 0x0);
    OneMore(m, taps, 2, 0x4, 0x8, 0x0);
    Doubled(m, taps, 3, 0x8, 0x40, 0x0);
    OneMore(m, taps, 6, 0x40, 0x80, 0x0);
    Doubled(m, taps, 7, 0x80, 0x595, 0x7);
    OneMore(m, taps, 14, 0x595, 0xB2A, 0x0);
    Doubled(m, taps, 15, 0xB2A, 0xE9, 0x70F);
    Doubled(m, taps, 30, 0xE9, 0xB53, 0x6);
    OneMore(m, taps, 60, 0xB53, 0xC21, 0x1);
    Doubled(m, taps, 61, 0xC21, 0x9B2, 0x6BD);
    OneMore(m, taps, 122, 0x9B2, 0x9E3, 0x1);
    Doubled(m, taps, 123, 0x9E3, 0x9F8, 0x77F);
    Doubled(m, taps, 246, 0x9F8, 0x8BD, 0x77F);
    Doubled(m, taps, 492, 0x8BD, 0xEF8, 0x763);
    Doubled(m, taps, 984, 0xEF8, 0x1A3, 0x6CD);
    Doubled(m, taps, 1968, 0x1A3, 0xD43, 0x1A);
    OneMore(m, taps, 3936, 0xD43, 0x1, 0x1);
  }

  // Code length 13

  lemma Certificates13A()
    ensures SquareIs(0x24CB, 0x2, 0x4, 0x0)
    ensures SquareIs(0x24CB, 0x4, 0x10, 0x0)
    ensures SquareIs(0x24CB, 0x10, 0x100, 0x0)
    ensures SquareIs(0x24CB, 0x100, 0x293, 0x9)
    ensures SquareIs(0x24CB, 0x293, 0x2DF, 0x26)
    ensures SquareIs(0x24CB, 0x2DF, 0x128F, 0x26)
  {
  }

  lemma Certificates13B()
    ensures SquareIs(0x24CB, 0x128F, 0x685, 0x930)
    ensures SquareIs(0x24CB, 0x685, 0xE30, 0xB7)
    ensures SquareIs(0x24CB, 0xE30, 0x1190, 0x2F0)
    ensures SquareIs(0x24CB, 0x1190, 0xF0F, 0x91D)
    ensures SquareIs(0x24CB, 0xF0F, 0x1656, 0x2F9)
    ensures SquareIs(0x24CB, 0x1656, 0x13A9, 0x9A3)
  {
  }

  lemma Certificates13C()
    ensures SquareIs(0x24CB, 0x13A9, 0x2, 0x939)
  {
  }

  lemma Power8192OfLength13(m: bv32, taps: Bits)
    requires |taps| >= 1 && m == 0x24CB && IsModulus(m, taps)
    ensures Steps(8192, 0x2, taps)
  {
    hide *;
    Certificates13A();
    Certificates13B();
    Certificates13C();
    StartsWithX(taps);
    Doubled(m, taps, 1, 0x2, 0x4, 0x0);
    Doubled(m, taps, 2, 0x4, 0x10, 0x0);
    Doubled(m, taps, 4, 0x10, 0x100, 0x0);
    Doubled(m, taps, 8, 0x100, 0x293, 0x9);
    Doubled(m, taps, 16, 0x293, 0x2DF, 0x26);
    Doubled(m, taps, 32, 0x2DF, 0x128F, 0x26);
    Doubled(m, taps, 64, 0x128F, 0x685, 0x930);
    Doubled(m, taps, 128, 0x685, 0xE30, 0xB7);
    Doubled(m, taps, 256, 0xE30, 0x1190, 0x2F0);
    Doubled(m, taps, 512, 0x1190, 0xF0F, 0x91D);
    Doubled(m, taps, 1024, 0xF0F, 0x1656, 0x2F9);
    Doubled(m, taps, 2048, 0x1656, 0x13A9, 0x9A3);
    Doubled(m, taps, 4096, 0x13A9, 0x2, 0x939);
  }

  // Code length 14

  lemma Certificates14A()
    ensures SquareIs(0x5607, 0x2, 0x4, 0x0)
    ensures SquareIs(0x5607, 0x4, 0x10, 0x0)
    ensures ShiftIs(0x5607, 0x10, 0x20, 0x0)
    ensures SquareIs(0x5607, 0x20, 0x400, 0x0)
    ensures SquareIs(0x5607, 0x400, 0x1BB9, 0x53)
    ensures ShiftIs(0x5607, 0x1BB9, 0x3772, 0x0)
  {
  }

  lemma Certificates14B()
    ensures SquareIs(0x5607, 0x3772, 0x115C, 0x11A8)
    ensures SquareIs(0x5607, 0x115C, 0x6CE, 0x532)
    ensures ShiftIs(0x5607, 0x6CE, 0xD9C, 0x0)
    ensures SquareIs(0x5607, 0xD9C, 0x3A16, 0x11A)
    ensures SquareIs(0x5607, 0x3A16, 0x280D, 0x10B3)
    ensures ShiftIs(0x5607, 0x280D, 0x61D, 0x1)
  {
  }

  lemma Certificates14C()
    ensures SquareIs(0x5607, 0x61D, 0x2284, 0x47)
    ensures SquareIs(0x5607, 0x2284, 0x1E68, 0x14C8)
    ensures ShiftIs(0x5607, 0x1E68, 0x3CD0, 0x0)
    ensures SquareIs(0x5607, 0x3CD0, 0xDCB, 0x10F5)
    ensures SquareIs(0x5607, 0xDCB, 0x2B03, 0x11A)
    ensures ShiftIs(0x5607, 0x2B03, 0x1, 0x1)
  {
  }

  lemma Power5461OfLength14(m: bv32, taps: Bits)
    requires |taps| >= 1 && m == 0x5607 && IsModulus(m, taps)
    ensures Steps(5461, 0x1, taps)
  {
    hide *;
    Certificates14A();
    Certificates14B();
    Certificates14C();
    StartsWithX(taps);
    Doubled(m, taps, 1, 0x2, 0x4, 0x0);
    Doubled(m, taps, 2, 0x4, 0x10, 0x0);
    OneMore(m, taps, 4, 0x10, 0x20, 0x0);
    Doubled(m, taps, 5, 0x20, 0x400, 0x0);
    Doubled(m, taps, 10, 0x400, 0x1BB9, 0x53);
    OneMore(m, taps, 20, 0x1BB9, 0x3772, 0x0);
    Doubled(m, taps, 21, 0x3772, 0x115C, 0x11A8);
    Doubled(m, taps, 42, 0x115C, 0x6CE, 0x532);
    OneMore(m, taps, 84, 0x6CE, 0xD9C, 0x0);
    Doubled(m, taps, 85, 0xD9C, 0x3A16, 0x11A);
    Doubled(m, taps, 170, 0x3A16, 0x280D, 0x10B3);
    OneMore(m, taps, 340, 0x280D, 0x61D, 0x1);
    Doubled(m, taps, 341, 0x61D, 0x2284, 0x47);
    Doubled(m, taps, 682, 0x2284, 0x1E68, 0x14C8);
    OneMore(m, taps, 1364, 0x1E68, 0x3CD0, 0x0);
    Doubled(m, taps, 1365, 0x3CD0, 0xDCB, 0x10F5);
    Doubled(m, taps, 2730, 0xDCB, 0x2B03, 0x11A);
    OneMore(m, taps, 5460, 0x2B03, 0x1, 0x1);
  }

  // Code length 15

  lemma Certificates15A()
    ensures SquareIs(0xA013, 0x2, 0x4, 0x0)
    ensures ShiftIs(0xA013, 0x4, 0x8, 0x0)
    ensures SquareIs(0xA013, 0x8, 0x40, 0x0)
    ensures SquareIs(0xA013, 0x40, 0x1000, 0x0)
    ensures ShiftIs(0xA013, 0x1000, 0x2000, 0x0)
    ensures SquareIs(0xA013, 0x2000, 0x554D, 0xAAB)
  {
  }

  lemma Certificates15B()
    ensures SquareIs(0xA013, 0x554D, 0x6AE5, 0x282C)
    ensures ShiftIs(0xA013, 0x6AE5, 0x75D9, 0x1)
    ensures SquareIs(0xA013, 0x75D9, 0x7EB8, 0x2287)
    ensures ShiftIs(0xA013, 0x7EB8, 0x5D63, 0x1)
    ensures SquareIs(0xA013, 0x5D63, 0x25EF, 0x2886)
    ensures ShiftIs(0xA013, 0x25EF, 0x4BDE, 0x0)
  {
  }

  lemma Certificates15C()
    ensures SquareIs(0xA013, 0x4BDE, 0xF80, 0x2A0C)
    ensures SquareIs(0xA013, 0xF80, 0x4918, 0x88)
    ensures ShiftIs(0xA013, 0x4918, 0x3223, 0x1)
    ensures SquareIs(0xA013, 0x3223, 0x7CA8, 0x80B)
    ensures SquareIs(0xA013, 0x7CA8, 0x60C1, 0x222F)
    ensures SquareIs(0xA013, 0x60C1, 0x105E, 0x2005)
  {
  }

  lemma Certificates15D()
    ensures ShiftIs(0xA013, 0x105E, 0x20BC, 0x0)
    ensures SquareIs(0xA013, 0x20BC, 0x101D, 0xAAB)
    ensures ShiftIs(0xA013, 0x101D, 0x203A, 0x0)
    ensures SquareIs(0xA013, 0x203A, 0x5009, 0xAAB)
    ensures ShiftIs(0xA013, 0x5009, 0x1, 0x1)
  {
  }

  lemma Power27559OfLength15(m: bv32, taps: Bits)
    requires |taps| >= 1 && m == 0xA013 && IsModulus(m, taps)
    ensures Steps(27559, 0x1, taps)
  {
    hide *;
    Certificates15A();
    Certificates15B();
    Certificates15C();
    Certificates15D();
    StartsWithX(taps);
    Doubled(m, taps, 1, 0x2, 0x4, 0x0);
    OneMore(m, taps, 2, 0x4, 0x8, 0x0);
    Doubled(m, taps, 3, 0x8, 0x40, 0x0);
    Doubled(m, taps, 6, 0x40, 0x1000, 0x0);
    OneMore(m, taps, 12, 0x1000, 0x2000, 0x0);
    Doubled(m, taps, 13, 0x2000, 0x554D, 0xAAB);
    Doubled(m, taps, 26, 0x554D, 0x6AE5, 0x282C);
    OneMore(m, taps, 52, 0x6AE5, 0x75D9, 0x1);
    Doubled(m, taps, 53, 0x75D9, 0x7EB8, 0x2287);
    OneMore(m, taps, 106, 0x7EB8, 0x5D63, 0x1);
    Doubled(m, taps, 107, 0x5D63, 0x25EF, 0x2886);
    OneMore(m, taps, 214, 0x25EF, 0x4BDE, 0x0);
    Doubled(m, taps, 215, 0x4BDE, 0xF80, 0x2A0C);
    Doubled(m, taps, 430, 0xF80, 0x4918, 0x88);
    OneMore(m, taps, 860, 0x4918, 0x3223, 0x1);
    Doubled(m, taps, 861, 0x3223, 0x7CA8, 0x80B);
    Doubled(m, taps, 1722, 0x7CA8, 0x60C1, 0x222F);
    Doubled(m, taps, 3444, 0x60C1, 0x105E, 0x2005);
    OneMore(m, taps, 6888, 0x105E, 0x20BC, 0x0);
    Doubled(m, taps, 6889, 0x20BC, 0x101D, 0xAAB);
    OneMore(m, taps, 13778, 0x101D, 0x203A, 0x0);
    Doubled(m, taps, 13779, 0x203A, 0x5009, 0xAAB);
    OneMore(m, taps, 27558, 0x5009, 0x1, 0x1);
  }

  // Code length 16

  lemma Certificates16A()
    ensures SquareIs(0x1428B, 0x2, 0x4, 0x0)
    ensures SquareIs(0x1428B, 0x4, 0x10, 0x0)
    ensures ShiftIs(0x1428B, 0x10, 0x20, 0x0)
    ensures SquareIs(0x1428B, 0x20, 0x400, 0x0)
    ensures SquareIs(0x1428B, 0x400, 0x6017, 0x15)
    ensures SquareIs(0x1428B, 0x6017, 0xE075, 0x1020)
  {
  }

  lemma Certificates16B()
    ensures ShiftIs(0x1428B, 0xE075, 0x8261, 0x1)
    ensures SquareIs(0x1428B, 0x8261, 0xB42, 0x55F9)
    ensures ShiftIs(0x1428B, 0xB42, 0x1684, 0x0)
    ensures SquareIs(0x1428B, 0x1684, 0xA461, 0x147)
    ensures SquareIs(0x1428B, 0xA461, 0xD76B, 0x50B6)
    ensures ShiftIs(0x1428B, 0xD76B, 0xEC5D, 0x1)
  {
  }

  lemma Certificates16C()
    ensures SquareIs(0x1428B, 0xEC5D, 0x515, 0x459C)
    ensures SquareIs(0x1428B, 0x515, 0x238D, 0x14)
    ensures ShiftIs(0x1428B, 0x238D, 0x471A, 0x0)
    ensures SquareIs(0x1428B, 0x471A, 0x7E86, 0x156E)
    ensures ShiftIs(0x1428B, 0x7E86, 0xFD0C, 0x0)
    ensures SquareIs(0x1428B, 0xFD0C, 0x9A5E, 0x44CA)
  {
  }

  lemma Certificates16D()
    ensures SquareIs(0x1428B, 0x9A5E, 0x1, 0x54FB)
  {
  }

  lemma Power10668OfLength16(m: bv32, taps: Bits)
    requires |taps| >= 1 && m == 0x1428B && IsModulus(m, taps)
    ensures Steps(10668, 0x1, taps)
  {
    hide *;
    Certificates16A();
    Certificates16B();
    Certificates16C();
    Certificates16D();
    StartsWithX(taps);
    Doubled(m, taps, 1, 0x2, 0x4, 0x0);
    Doubled(m, taps, 2, 0x4, 0x10, 0x0);
    OneMore(m, taps, 4, 0x10, 0x20, 0x0);
    Doubled(m, taps, 5, 0x20, 0x400, 0x0);
    Doubled(m, taps, 10, 0x400, 0x6017, 0x15);
    Doubled(m, taps, 20, 0x6017, 0xE075, 0x1020);
    OneMore(m, taps, 40, 0xE075, 0x8261, 0x1);
    Doubled(m, taps, 41, 0x8261, 0xB42, 0x55F9);
    OneMore(m, taps, 82, 0xB42, 0x1684, 0x0);
    Doubled(m, taps, 83, 0x1684, 0xA461, 0x147);
    Doubled(m, taps, 166, 0xA461, 0xD76B, 0x50B6);
    OneMore(m, taps, 332, 0xD76B, 0xEC5D, 0x1);
    Doubled(m, taps, 333, 0xEC5D, 0x515, 0x459C);
    Doubled(m, taps, 666, 0x515, 0x238D, 0x14);
    OneMore(m, taps, 1332, 0x238D, 0x471A, 0x0);
    Doubled(m, taps, 1333, 0x471A, 0x7E86, 0x156E);
    OneMore(m, taps, 2666, 0x7E86, 0xFD0C, 0x0);
    Doubled(m, taps, 2667, 0xFD0C, 0x9A5E, 0x44CA);
    Doubled(m, taps, 5334, 0x9A5E, 0x1, 0x54FB);
  }
}
