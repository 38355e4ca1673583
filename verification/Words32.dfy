/** Unsigned 32-bit words: arithmetic modulo 2^32, and bits where bits matter. */
module Words32 {

  type Word = x: int | 0 <= x < 0x1_0000_0000

  function Bits(x: Word): bv32 { x as bv32 }
  function Num(b: bv32): Word { b as int }

  function Add(x: Word, y: Word): Word { (x + y) % 0x1_0000_0000 }

  lemma SumModulo(x: int, y: int)
    ensures (x + y % 0x1_0000_0000) % 0x1_0000_0000 == (x + y) % 0x1_0000_0000
  {
  }

  lemma SumAssociates(x: Word, y: Word, z: Word)
    ensures Add(x, Add(y, z)) == Add(Add(x, y), z)
  {
    SumModulo(x, y + z);
    SumModulo(z, x + y);
  }

  ghost predicate Commutes<W(!new)>(add: (W, W) -> W) {
    forall x, y :: add(x, y) == add(y, x)
  }

  ghost predicate Associates<W(!new)>(add: (W, W) -> W) {
    forall x, y, z :: add(x, add(y, z)) == add(add(x, y), z)
  }

  lemma AddLaws()
    ensures Commutes(Add) && Associates(Add)
  {
    assert Associates(Add) by {
      forall x, y, z ensures Add(x, Add(y, z)) == Add(Add(x, y), z) { SumAssociates(x, y, z); }
    }
    assert Commutes(Add);
  }
}
