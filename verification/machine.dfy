/** The integers of C on a host with a long of 64 bits and an int of 32. Results out of range wrap around. */
module Machine {
  import opened Arithmetic

  const LONG := 0x8000_0000_0000_0000
  const INT := 0x8000_0000

  type CLong = x: int | -0x8000_0000_0000_0000 <= x < 0x8000_0000_0000_0000
  type CUint = x: int | 0 <= x < 0x1_0000_0000

  predicate IsLong(x: int) {
    -LONG <= x < LONG
  }

  predicate IsInt(x: int) {
    -INT <= x < INT
  }

  /** The long that a result is cut to. */
  function Long(x: int): CLong {
    (x + LONG) % (2 * LONG) - LONG
  }

  function Int(x: int): (y: int)
    ensures IsInt(y)
  {
    (x + INT) % (2 * INT) - INT
  }

  /** It differs from the result by a multiple of 2^64, */
  lemma LongIs(x: int, k: int)
    requires IsLong(x - 2 * LONG * k)
    ensures Long(x) == x - 2 * LONG * k
  {
    QuotientIs(x + LONG, k, x + LONG - 2 * LONG * k, 2 * LONG);
  }

  lemma LongTurns(x: int) returns (k: int)
    ensures Long(x) == x - 2 * LONG * k
  {
    k := (x + LONG) / (2 * LONG);
  }

  /** and is the result just if that is a long. */
  lemma LongFits(x: int)
    ensures Long(x) == x <==> IsLong(x)
  {
    if IsLong(x) { LongIs(x, 0); }
  }

  /** Cutting early or late is the same. */
  lemma LongAbsorbs(x: int, y: int)
    ensures Long(Long(x) + y) == Long(x + y)
  {
    var k := LongTurns(x);
    var m := LongTurns(x + y);
    LongIs(Long(x) + y, m - k);
  }

  lemma LongTimes(x: int, c: int)
    ensures Long(Long(x) * c) == Long(x * c)
  {
    var k := LongTurns(x);
    var m := LongTurns(x * c);
    assert Long(x) * c == x * c - 2 * LONG * (k * c);
    LongIs(Long(x) * c, m - k * c);
  }

  lemma IntIs(x: int, k: int)
    requires IsInt(x - 2 * INT * k)
    ensures Int(x) == x - 2 * INT * k
  {
    QuotientIs(x + INT, k, x + INT - 2 * INT * k, 2 * INT);
  }

  lemma IntTurns(x: int) returns (k: int)
    ensures Int(x) == x - 2 * INT * k
  {
    k := (x + INT) / (2 * INT);
  }

  lemma IntAbsorbs(x: int, y: int)
    ensures Int(Int(x) + y) == Int(x + y)
  {
    var k := IntTurns(x);
    var m := IntTurns(x + y);
    IntIs(Int(x) + y, m - k);
  }

  /** ABS: the least long has no positive counterpart and stays. */
  function AbsLong(x: CLong): (y: CLong)
    ensures IsAbs(y)
    ensures x != -LONG ==> y == if x < 0 then 0 - x else x
  {
    if x < 0 then Long(0 - x) else x
  }

  predicate IsAbs(x: int) {
    IsLong(x) && (x >= 0 || x == -LONG)
  }
}
