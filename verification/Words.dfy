/** How many steps of one a 32-bit word is above zero.

    The solver cannot relate a word to its value as an integer, so the value is counted: everything
    about it is proved by taking one away. */
module Words {
  type Word = bv32

  const LAST: Word := 0xFFFF_FFFF

  function Less(w: Word): Word {
    w - 1
  }

  function More(w: Word): Word {
    w + 1
  }

  /** One more than twice this. */
  function Twice(w: Word): Word {
    w + w + 1
  }

  function Nat(w: Word): nat
    decreases w
  {
    if w == 0 then 0 else 1 + Nat(Less(w))
  }

  lemma NatMore(w: Word)
    ensures w != LAST ==> Nat(More(w)) == Nat(w) + 1
  {
  }

  lemma TwiceLess(w: Word)
    requires w != 0 && w < 0x8000_0000
    ensures Less(w) < 0x8000_0000 && Twice(w) == More(More(Twice(Less(w))))
    ensures Twice(Less(w)) != LAST && More(Twice(Less(w))) != LAST
  {
  }

  lemma TwiceZero()
    ensures Nat(Twice(0)) == 1
  {
    assert Less(1) == 0 && Twice(0) == 1 && Nat(0) == 0;
  }

  lemma {:induction false} NatTwice(w: Word)
    ensures w < 0x8000_0000 ==> Nat(Twice(w)) == 2 * Nat(w) + 1
    decreases Nat(w)
  {
    hide Less, More, Twice;
    if w == 0 {
      TwiceZero();
    } else if w < 0x8000_0000 {
      TwiceLess(w);
      NatTwice(Less(w));
      NatMore(Twice(Less(w)));
      NatMore(More(Twice(Less(w))));
    }
  }

  /** Thirty-two ones in a row. */
  lemma NatLast()
    ensures Nat(LAST) == 0xFFFF_FFFF
  {
    hide Nat, Less;
    TwiceZero();
    NatTwice(1); NatTwice(3); NatTwice(7); NatTwice(0xF);
    NatTwice(0x1F); NatTwice(0x3F); NatTwice(0x7F); NatTwice(0xFF);
    NatTwice(0x1FF); NatTwice(0x3FF); NatTwice(0x7FF); NatTwice(0xFFF);
    NatTwice(0x1FFF); NatTwice(0x3FFF); NatTwice(0x7FFF); NatTwice(0xFFFF);
    NatTwice(0x1_FFFF); NatTwice(0x3_FFFF); NatTwice(0x7_FFFF); NatTwice(0xF_FFFF);
    NatTwice(0x1F_FFFF); NatTwice(0x3F_FFFF); NatTwice(0x7F_FFFF); NatTwice(0xFF_FFFF);
    NatTwice(0x1FF_FFFF); NatTwice(0x3FF_FFFF); NatTwice(0x7FF_FFFF); NatTwice(0xFFF_FFFF);
    NatTwice(0x1FFF_FFFF); NatTwice(0x3FFF_FFFF); NatTwice(0x7FFF_FFFF);
  }
}
