/**
 Symbol identifiers are 32 bits wide and wrap. Both ends keep a window of the
 newest ones in a ring indexed by the low bits, and compare two of them by the
 sign of their wrapping difference. Here an identifier's true position in the
 stream is an unbounded integer, and Wrap is what the wire and the ring see.
 */
module SymbolIds {

  const MODULUS: nat := 0x1_0000_0000
  const HALF: nat := 0x8000_0000

  /** The receiver's window, in symbols. */
  const WIDTH: nat := 512
  /** The widest span one repair may cover. */
  const MAX_REPAIR_WINDOW: nat := 256

  type Id = x: nat | x < MODULUS

  function Wrap(x: int): Id {
    x % MODULUS
  }

  /** The signed 32-bit difference a - b is negative. */
  predicate Behind(a: Id, b: Id) {
    Wrap(a - b) >= HALF
  }

  /** The ring slot of an identifier. */
  function Slot(x: int): (i: nat)
    ensures i < WIDTH
  {
    x % WIDTH
  }

  // ---------- remainders ----------

  lemma AtLeastOnce(d: int, s: nat)
    requires d >= 1
    ensures d * s >= s
  {
  }

  lemma RemainderUnique(a: int, q: int, r: nat, s: nat)
    requires r < s && a == q * s + r
    ensures a % s == r
  {
    var q', r' := a / s, a % s;
    assert a == q' * s + r';
    assert (q - q') * s == r' - r && (q' - q) * s == r - r';
    if q > q' {
      AtLeastOnce(q - q', s);
    } else if q < q' {
      AtLeastOnce(q' - q, s);
    }
  }

  /** Multiples of the modulus do not change a remainder. */
  lemma RemainderOfSum(x: int, y: int, s: nat)
    requires s > 0
    ensures (x + y * s) % s == x % s
  {
    var q, r := x / s, x % s;
    assert x == q * s + r;
    assert x + y * s == (q + y) * s + r;
    RemainderUnique(x + y * s, q + y, r, s);
  }

  /** Numbers less than the modulus apart have different remainders. */
  lemma RemaindersDiffer(x: int, y: int, s: nat)
    requires x < y < x + s
    ensures x % s != y % s
  {
    var d := y / s - x / s;
    assert y - x == d * s + (y % s - x % s);
    RemainderUnique(y - x, 0, y - x, s);
    if x % s == y % s {
      RemainderUnique(y - x, d, 0, s);
    }
  }

  // ---------- wrapping ----------

  lemma WrapShift(x: int, k: int)
    ensures Wrap(x + k * MODULUS) == Wrap(x)
  {
  }

  lemma WrapPlus(x: int, n: int)
    ensures Wrap(Wrap(x) + n) == Wrap(x + n)
  {
    assert Wrap(x) == x - (x / MODULUS) * MODULUS;
    WrapShift(Wrap(x) + n, x / MODULUS);
  }

  lemma WrapMinus(x: int, y: int)
    ensures Wrap(Wrap(x) - Wrap(y)) == Wrap(x - y)
  {
    assert Wrap(x) == x - (x / MODULUS) * MODULUS;
    assert Wrap(y) == y - (y / MODULUS) * MODULUS;
    WrapShift(Wrap(x) - Wrap(y), x / MODULUS - y / MODULUS);
  }

  lemma WrapSmall(x: int)
    requires 0 <= x < MODULUS
    ensures Wrap(x) == x
  {
  }

  /** The sign test orders two identifiers correctly while they are less than 2^31 apart. */
  lemma BehindIsLess(x: int, y: int)
    requires -(HALF as int) <= x - y < HALF
    ensures Behind(Wrap(x), Wrap(y)) <==> x < y
  {
    WrapMinus(x, y);
    if x < y {
      WrapShift(x - y, 1);
      WrapSmall(x - y + MODULUS);
    } else {
      WrapSmall(x - y);
    }
  }

  /** Wrapping does not change an identifier's slot, because the ring's size divides 2^32. */
  lemma SlotOfWrap(x: int)
    ensures Slot(Wrap(x)) == Slot(x)
  {
    var q := x / MODULUS;
    assert Wrap(x) == x - q * MODULUS;
    assert x - q * MODULUS == x - (q * 8388608) * WIDTH;
    SlotShift(x, -(q * 8388608));
  }

  lemma SlotShift(x: int, k: int)
    ensures Slot(x + k * WIDTH) == Slot(x)
  {
  }

  /** The one identifier of the window starting at base that occupies slot i. */
  function IdAt(base: int, i: nat): (id: int)
    requires i < WIDTH
    ensures base <= id < base + WIDTH && Slot(id) == i
  {
    SlotInverse(base, i);
    base + (i - base) % WIDTH
  }

  lemma SlotInverse(base: int, i: nat)
    requires i < WIDTH
    ensures Slot(base + (i - base) % WIDTH) == i
  {
    var q := (i - base) / WIDTH;
    assert base + (i - base) % WIDTH == i + (-q) * WIDTH;
    SlotShift(i, -q);
  }

  /** Two identifiers of one window never share a slot. */
  lemma SlotUnique(x: int, y: int)
    requires Slot(x) == Slot(y) && -(WIDTH as int) < x - y < WIDTH
    ensures x == y
  {
  }

  lemma IdAtSlot(base: int, id: int)
    requires base <= id < base + WIDTH
    ensures IdAt(base, Slot(id)) == id
  {
    SlotUnique(IdAt(base, Slot(id)), id);
  }

  /** Sliding the window by one renames only the slot that fell off the back. */
  lemma IdAtNext(base: int, i: nat)
    requires i < WIDTH
    ensures IdAt(base + 1, i) == if i == Slot(base) then base + WIDTH else IdAt(base, i)
  {
    if i == Slot(base) {
      SlotShift(base, 1);
      IdAtSlot(base + 1, base + WIDTH);
    } else {
      var id := IdAt(base, i);
      assert id != base;
      IdAtSlot(base + 1, id);
    }
  }
}
