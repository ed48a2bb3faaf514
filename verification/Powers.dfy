/** Powers of two. */
module Powers {

  function Power2(n: nat): (r: nat)
    ensures r > 0
  {
    if n == 0 then 1 else 2 * Power2(n - 1)
  }

  lemma Power32()
    ensures Power2(32) == 0x1_0000_0000
  {
    assert Power2(16) == 0x1_0000 by { assert Power2(8) == 0x100; }
    assert Power2(24) == 0x100_0000 by { assert Power2(20) == 0x10_0000; }
  }
}
