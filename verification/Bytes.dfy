/** Little-endian numbers in byte sequences. */
module Bytes {

  type Byte = b: nat | b < 0x100

  function Power256(n: nat): (p: nat)
    ensures p >= 1
  {
    if n == 0 then 1 else 0x100 * Power256(n - 1)
  }

  /** The little-endian number in `n` bytes from `offset`. */
  function Little(data: seq<Byte>, offset: nat, n: nat): nat
    requires offset + n <= |data|
    decreases n
  {
    if n == 0 then 0 else data[offset] + 0x100 * Little(data, offset + 1, n - 1)
  }

  /** The `n` little-endian bytes of a number. */
  function ToLittle(value: nat, n: nat): (bytes: seq<Byte>)
    ensures |bytes| == n
    decreases n, value
  {
    if n == 0 then [] else [value % 0x100] + ToLittle(value / 0x100, n - 1)
  }

  lemma {:induction false} LittleBound(data: seq<Byte>, offset: nat, n: nat)
    requires offset + n <= |data|
    ensures Little(data, offset, n) < Power256(n)
    decreases n
  {
    if n > 0 {
      LittleBound(data, offset + 1, n - 1);
    }
  }

  lemma {:induction false} LittleSame(a: seq<Byte>, i: nat, b: seq<Byte>, j: nat, n: nat)
    requires i + n <= |a| && j + n <= |b|
    requires forall k {:trigger a[k]} :: i <= k < i + n ==> a[k] == b[k - i + j]
    ensures Little(a, i, n) == Little(b, j, n)
    decreases n
  {
    if n > 0 {
      assert a[i] == b[j];
      LittleSame(a, i + 1, b, j + 1, n - 1);
    }
  }

  /** Reading back what was written gives the number, if it fits. */
  lemma {:induction false} LittleRoundTrip(value: nat, n: nat)
    requires value < Power256(n)
    ensures Little(ToLittle(value, n), 0, n) == value
  {
    if n > 0 {
      var rest := ToLittle(value / 0x100, n - 1);
      LittleRoundTrip(value / 0x100, n - 1);
      LittleSame(ToLittle(value, n), 1, rest, 0, n - 1);
    }
  }
}
