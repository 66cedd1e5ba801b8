/** Bytes and the little-endian integers of encoding/binary. */
module Bytes {

  type Byte = b: int | 0 <= b < 256

  /** The i-th base-256 digit of n, least significant first. */
  function Digit(n: nat, i: nat): Byte
    decreases n, i
  {
    if i == 0 then n % 256 else Digit(n / 256, i - 1)
  }

  /** The four bytes PutUint32 writes for uint32(n): n is truncated to 32 bits. */
  function LE32(n: nat): (r: seq<Byte>)
    ensures |r| == 4
  {
    seq(4, i requires 0 <= i => Digit(n, i))
  }

  /** binary.LittleEndian.Uint32: the only 32-bit number PutUint32 writes as b. */
  function U32(b: seq<Byte>): (n: nat)
    requires |b| == 4
    ensures n < 0x1_0000_0000 && LE32(n) == b
  {
    LE32Onto(b);
    LE32Injective();
    var n: nat :| n < 0x1_0000_0000 && LE32(n) == b;
    n
  }

  lemma Digits(n: nat, n1: nat, n2: nat, n3: nat)
    requires n1 == n / 256 && n2 == n1 / 256 && n3 == n2 / 256
    ensures Digit(n, 0) == n % 256 && Digit(n, 1) == n1 % 256
    ensures Digit(n, 2) == n2 % 256 && Digit(n, 3) == n3 % 256
  {
    assert Digit(n1, 0) == n1 % 256 && Digit(n2, 0) == n2 % 256 && Digit(n3, 0) == n3 % 256;
    assert Digit(n, 1) == Digit(n1, 0);
    assert Digit(n1, 1) == Digit(n2, 0) && Digit(n, 2) == Digit(n1, 1);
    assert Digit(n2, 1) == Digit(n3, 0) && Digit(n1, 2) == Digit(n2, 1) && Digit(n, 3) == Digit(n1, 2);
  }

  /** LE32 written out; the quotients are named to keep division out of its users. */
  lemma LE32Bytes(n: nat, n1: nat, n2: nat, n3: nat)
    requires n1 == n / 256 && n2 == n1 / 256 && n3 == n2 / 256
    ensures LE32(n) == [n % 256, n1 % 256, n2 % 256, n3 % 256]
  {
    Digits(n, n1, n2, n3);
  }

  /** The positional value of four bytes, least significant first. */
  function Positional(b: seq<Byte>): nat
    requires |b| == 4
  {
    b[0] + 256 * (b[1] + 256 * (b[2] + 256 * (b[3] as int)))
  }

  /** Four base-256 digits and the quotient make up n. */
  lemma DigitsMakeUp(n: nat, n1: nat, n2: nat, n3: nat, q: nat)
    requires n1 == n / 256 && n2 == n1 / 256 && n3 == n2 / 256 && q == n3 / 256
    ensures n == n % 256 + 256 * (n1 % 256 + 256 * (n2 % 256 + 256 * (n3 % 256))) + 0x1_0000_0000 * q
  {
    assert n3 == n3 % 256 + 256 * q;
    assert n2 == n2 % 256 + 256 * n3;
    assert n1 == n1 % 256 + 256 * n2;
    assert n == n % 256 + 256 * n1;
  }

  lemma PositionalOfLE32(n: nat)
    ensures Positional(LE32(n)) == n % 0x1_0000_0000
  {
    var n1 := n / 256;
    var n2 := n1 / 256;
    var n3 := n2 / 256;
    var q := n3 / 256;
    LE32Bytes(n, n1, n2, n3);
    DigitsMakeUp(n, n1, n2, n3, q);
    assert n == Positional(LE32(n)) + 0x1_0000_0000 * q;
    Remainder(n, Positional(LE32(n)), q);
  }

  lemma Remainder(n: nat, p: nat, q: nat)
    requires n == p + 0x1_0000_0000 * q && p < 0x1_0000_0000
    ensures p == n % 0x1_0000_0000
  {
  }

  lemma LE32Onto(b: seq<Byte>)
    requires |b| == 4
    ensures Positional(b) < 0x1_0000_0000 && LE32(Positional(b)) == b
  {
    var n2 := b[2] + 256 * (b[3] as int);
    var n1 := b[1] + 256 * n2;
    LE32Bytes(Positional(b), n1, n2, b[3]);
  }

  lemma SameLE32(m: nat, n: nat)
    requires m < 0x1_0000_0000 && n < 0x1_0000_0000 && LE32(m) == LE32(n)
    ensures m == n
  {
    PositionalOfLE32(m);
    PositionalOfLE32(n);
  }

  lemma LE32Injective()
    ensures forall m: nat, n: nat :: m < 0x1_0000_0000 && n < 0x1_0000_0000 && LE32(m) == LE32(n) ==> m == n
  {
    forall m: nat, n: nat | m < 0x1_0000_0000 && n < 0x1_0000_0000 && LE32(m) == LE32(n)
      ensures m == n
    {
      SameLE32(m, n);
    }
  }

  /** Reading is positional, and undoes writing up to 32-bit truncation. */
  lemma U32IsPositional(b: seq<Byte>)
    requires |b| == 4
    ensures U32(b) == Positional(b)
  {
    PositionalOfLE32(U32(b));
  }

  lemma U32OfLE32(n: nat)
    ensures U32(LE32(n)) == n % 0x1_0000_0000
  {
    U32IsPositional(LE32(n));
    PositionalOfLE32(n);
  }
}
