/**
  The DammSum checksum of base_layer/common_types/src/dammsum.rs.

  A byte is an element of GF(2^8) modulo x^8 + x^4 + x^3 + x + 1. The checksum folds
  r -> 2 * (r + digit) over the data; everything it detects follows from doubling being
  linear and injective and from 2 having multiplicative order 51.
*/
module DammSum {
  import opened Bytes
  import opened Wrappers

  datatype ChecksumError = InputDataTooShort | InvalidChecksum

  const COEFFICIENTS: seq<bv8> := [4, 3, 1]
  const MASK: byte := 0x1B

  /** Addition in the field. */
  function Add(x: byte, y: byte): byte {
    x ^ y
  }

  /** Multiplication by 2 in the field. */
  function Double(x: byte): byte {
    if x & 0x80 != 0 then (x << 1) ^ MASK else x << 1
  }

  function Fold(r: byte, data: seq<byte>): byte
    decreases |data|
  {
    if data == [] then r else Fold(Double(Add(r, data[0])), data[1..])
  }

  function Checksum(data: seq<byte>): byte {
    Fold(0, data)
  }

  function Validate(data: seq<byte>): Result<(), ChecksumError> {
    if |data| < 2 then Err(InputDataTooShort)
    else if Checksum(data) == 0 then Ok(())
    else Err(InvalidChecksum)
  }

  // ---------------------------------------------------------------------------------------------
  // The source's loops

  method ComputeChecksum(data: seq<byte>) returns (result: byte)
    ensures result == Checksum(data)
  {
    var mask: byte := 1;
    for i := 0 to |COEFFICIENTS|
      invariant mask == [1, 17, 25, MASK][i]
    {
      mask := mask + ((1 as byte) << COEFFICIENTS[i]);
    }
    result := 0;
    for i := 0 to |data|
      invariant Fold(result, data[i..]) == Checksum(data)
    {
      result := result ^ data[i];
      var overflow := result & 0x80 != 0;
      result := result << 1;
      if overflow {
        result := result ^ mask;
      }
    }
  }

  method ValidateChecksum(data: seq<byte>) returns (r: Result<(), ChecksumError>)
    ensures r == Validate(data)
  {
    if |data| < 2 {
      return Err(InputDataTooShort);
    }
    var checksum := ComputeChecksum(data);
    r := if checksum == 0 then Ok(()) else Err(InvalidChecksum);
  }

  // ---------------------------------------------------------------------------------------------
  // The field

  /** Doubling is the carry-less product with x, reduced modulo x^8 + x^4 + x^3 + x + 1. */
  lemma DoubleIsFieldDoubling(x: byte)
    ensures var product := (x as bv16) << 1;
            Double(x) as bv16 == if product & 0x100 != 0 then product ^ 0x11B else product
  {
  }

  lemma AddZero(x: byte)
    ensures Add(x, 0) == Add(0, x) == x
    ensures Add(x, x) == 0
  {
  }

  lemma AddComm(x: byte, y: byte)
    ensures Add(x, y) == Add(y, x)
  {
  }

  lemma AddAssoc(x: byte, y: byte, z: byte)
    ensures Add(Add(x, y), z) == Add(x, Add(y, z))
  {
  }

  lemma AddCancels(x: byte, y: byte)
    ensures Add(x, y) == 0 <==> x == y
    ensures Add(Add(x, y), y) == x
  {
  }

  lemma AddMoves(x: byte, y: byte, z: byte)
    ensures Add(x, y) == z <==> x == Add(y, z)
  {
    hide Add;
    AddCancels(x, y);
    AddCancels(z, y);
    AddComm(y, z);
  }

  lemma Regroup(a: byte, b: byte, c: byte, d: byte)
    ensures Add(Add(a, b), Add(c, d)) == Add(Add(a, c), Add(b, d))
  {
    hide Add;
    AddAssoc(a, b, Add(c, d));
    AddAssoc(b, c, d);
    AddComm(b, c);
    AddAssoc(c, b, d);
    AddAssoc(a, c, Add(b, d));
  }

  lemma DoubleAdd(x: byte, y: byte)
    ensures Double(Add(x, y)) == Add(Double(x), Double(y))
  {
    assert (x ^ y) << 1 == (x << 1) ^ (y << 1);
    assert (x ^ y) & 0x80 == (x & 0x80) ^ (y & 0x80);
    assert x & 0x80 == 0 || x & 0x80 == 0x80;
    assert y & 0x80 == 0 || y & 0x80 == 0x80;
  }

  lemma DoubleInjective(x: byte, y: byte)
    requires Double(x) == Double(y)
    ensures x == y
  {
  }

  /** 2^k * x. */
  function Scale(x: byte, k: nat): byte {
    if k == 0 then x else Double(Scale(x, k - 1))
  }

  lemma {:induction false} ScaleSum(x: byte, y: byte, k: nat)
    ensures Scale(Add(x, y), k) == Add(Scale(x, k), Scale(y, k))
  {
    hide Add, Double;
    if k > 0 {
      ScaleSum(x, y, k - 1);
      DoubleAdd(Scale(x, k - 1), Scale(y, k - 1));
    }
  }

  lemma {:induction false} ScaleInjective(x: byte, y: byte, k: nat)
    requires Scale(x, k) == Scale(y, k)
    ensures x == y
  {
    hide Double;
    if k > 0 {
      DoubleInjective(Scale(x, k - 1), Scale(y, k - 1));
      ScaleInjective(x, y, k - 1);
    }
  }

  lemma {:induction false} ScaleZero(x: byte, k: nat)
    ensures Scale(x, k) == 0 <==> x == 0
  {
    if k > 0 {
      ScaleZero(x, k - 1);
      if Scale(x, k) == 0 {
        DoubleInjective(Scale(x, k - 1), 0);
      }
    }
  }

  lemma {:induction false} ScaleTwice(x: byte, a: nat, b: nat)
    ensures Scale(Scale(x, a), b) == Scale(x, a + b)
  {
    hide Double;
    if b > 0 {
      ScaleTwice(x, a, b - 1);
    }
  }

  // ---------------------------------------------------------------------------------------------
  // The multiplicative order of 2 is 51

  function Double3(x: byte): byte {
    Double(Double(Double(x)))
  }

  function Double17(x: byte): byte {
    Double(Double(Double3(Double3(Double3(Double3(Double3(x)))))))
  }

  lemma Scale3(x: byte)
    ensures Scale(x, 3) == Double3(x)
  {
    hide Double;
    assert Scale(x, 2) == Double(Scale(x, 1));
  }

  lemma Scale17(x: byte)
    ensures Scale(x, 17) == Double17(x)
  {
    hide Double, Double3;
    Scale3(x);
    Scale3(Scale(x, 3));  ScaleTwice(x, 3, 3);
    Scale3(Scale(x, 6));  ScaleTwice(x, 6, 3);
    Scale3(Scale(x, 9));  ScaleTwice(x, 9, 3);
    Scale3(Scale(x, 12)); ScaleTwice(x, 12, 3);
    assert Scale(x, 16) == Double(Scale(x, 15));
  }

  /** w = 2^17 is a primitive cube root of unity: w^2 = w + 1. */
  lemma Scale34(x: byte)
    ensures Scale(x, 34) == Add(Scale(x, 17), x)
  {
    Scale17(x);
    Scale17(Scale(x, 17));
    ScaleTwice(x, 17, 17);
  }

  lemma Scale51(x: byte)
    ensures Scale(x, 51) == x
  {
    hide Add, Double;
    Scale34(x);
    ScaleTwice(x, 34, 17);
    ScaleTwice(x, 17, 17);
    ScaleSum(Scale(x, 17), x, 17);
    AddComm(Scale(x, 17), x);
    AddCancels(x, Scale(x, 17));
  }

  lemma NoFixedPoint3(x: byte)
    requires Scale(x, 3) == x
    ensures x == 0
  {
    Scale3(x);
  }

  lemma NoFixedPoint17(x: byte)
    requires Scale(x, 17) == x
    ensures x == 0
  {
    Scale17(x);
  }

  lemma {:induction false} PeriodMultiple(x: byte, k: nat, m: nat)
    requires Scale(x, k) == x
    ensures Scale(x, k * m) == x
  {
    hide Double;
    if m > 0 {
      PeriodMultiple(x, k, m - 1);
      ScaleTwice(x, k * (m - 1), k);
      assert k * (m - 1) + k == k * m;
    }
  }

  /** A period of x stays one when multiplied by m and reduced modulo 51. */
  lemma PeriodReduces(x: byte, k: nat, m: nat, g: nat)
    requires Scale(x, k) == x
    requires k * m % 51 == g
    ensures Scale(x, g) == x
  {
    hide Double;
    PeriodMultiple(x, k, m);
    var q := k * m / 51;
    Scale51(x);
    PeriodMultiple(x, 51, q);
    ScaleTwice(x, 51 * q, g);
    assert k * m == 51 * q + g;
  }

  lemma InverseMod17(r: nat) returns (m: nat)
    requires 0 < r < 17
    ensures r * m % 17 == 1
  {
    m := [0, 1, 9, 6, 13, 7, 3, 5, 15, 2, 12, 14, 10, 4, 11, 8, 16][r];
  }

  lemma Mod51(a: nat, q: nat, r: nat)
    requires a == 51 * q + r && r < 51
    ensures a % 51 == r
  {
  }

  lemma Distribute(q: nat, r: nat, n: nat, t: nat)
    requires r * n == 17 * t + 1
    ensures (17 * q + r) * (3 * n) == 51 * (q * n + t) + 3
    ensures (17 * q + r) * (3 * n) % 51 == 3
  {
  }

  lemma MultipleIs17(k: nat) returns (m: nat)
    requires k % 3 != 0
    ensures k * m % 51 == 17
  {
    var q, r := k / 3, k % 3;
    assert k == 3 * q + r;
    if r == 1 {
      m := 17;
      Mod51(k * m, q, 17);
    } else {
      m := 34;
      Mod51(k * m, 2 * q + 1, 17);
    }
  }

  lemma MultipleIs3(k: nat) returns (m: nat)
    requires k % 17 != 0
    ensures k * m % 51 == 3
  {
    var r, q := k % 17, k / 17;
    var n := InverseMod17(r);
    m := 3 * n;
    Distribute(q, r, n, r * n / 17);
  }

  lemma FactorsOf51(k: nat)
    requires k % 51 != 0
    ensures k % 3 != 0 || k % 17 != 0
  {
  }

  /** A nonzero x returns to itself after k doublings exactly when 51 divides k. */
  lemma OrderIs51(x: byte, k: nat)
    ensures Scale(x, k) == x <==> x == 0 || k % 51 == 0
  {
    hide Double;
    ScaleZero(x, k);
    if k % 51 == 0 {
      Scale51(x);
      PeriodMultiple(x, 51, k / 51);
    } else if Scale(x, k) == x {
      FactorsOf51(k);
      if k % 3 != 0 {
        var m := MultipleIs17(k);
        PeriodReduces(x, k, m, 17);
        NoFixedPoint17(x);
      } else {
        var m := MultipleIs3(k);
        PeriodReduces(x, k, m, 3);
        NoFixedPoint3(x);
      }
    }
  }

  // ---------------------------------------------------------------------------------------------
  // The checksum as a polynomial in 2, and what follows from it

  /** The sum of 2^(n - i) * data[i]: the checksum's reference definition. */
  function Polynomial(data: seq<byte>): byte {
    if data == [] then 0 else Add(Scale(data[0], |data|), Polynomial(data[1..]))
  }

  lemma {:induction false} FoldIsPolynomial(r: byte, data: seq<byte>)
    ensures Fold(r, data) == Add(Scale(r, |data|), Polynomial(data))
    decreases |data|
  {
    hide Add, Double;
    if data == [] {
      AddZero(r);
    } else {
      var n := |data|;
      FoldIsPolynomial(Double(Add(r, data[0])), data[1..]);
      ScaleTwice(Add(r, data[0]), 1, n - 1);
      assert Scale(Add(r, data[0]), 1) == Double(Add(r, data[0]));
      ScaleSum(r, data[0], n);
      AddAssoc(Scale(r, n), Scale(data[0], n), Polynomial(data[1..]));
    }
  }

  lemma ChecksumIsPolynomial(data: seq<byte>)
    ensures Checksum(data) == Polynomial(data)
  {
    hide Add, Double;
    FoldIsPolynomial(0, data);
    ScaleZero(0, |data|);
    AddZero(Polynomial(data));
  }

  function Xor(a: seq<byte>, b: seq<byte>): seq<byte>
    requires |a| == |b|
  {
    seq(|a|, i requires 0 <= i < |a| => Add(a[i], b[i]))
  }

  lemma {:induction false} PolynomialLinear(a: seq<byte>, b: seq<byte>)
    requires |a| == |b|
    ensures Polynomial(Xor(a, b)) == Add(Polynomial(a), Polynomial(b))
  {
    hide Add, Double;
    AddZero(0);
    if a != [] {
      PolynomialLinear(a[1..], b[1..]);
      ScaleSum(a[0], b[0], |a|);
      assert Xor(a, b)[1..] == Xor(a[1..], b[1..]);
      Regroup(Scale(a[0], |a|), Scale(b[0], |a|), Polynomial(a[1..]), Polynomial(b[1..]));
    }
  }

  lemma ChecksumLinear(a: seq<byte>, b: seq<byte>)
    requires |a| == |b|
    ensures Checksum(Xor(a, b)) == Add(Checksum(a), Checksum(b))
  {
    hide Add, Double;
    ChecksumIsPolynomial(a);
    ChecksumIsPolynomial(b);
    ChecksumIsPolynomial(Xor(a, b));
    PolynomialLinear(a, b);
  }

  lemma {:induction false} FoldSnoc(r: byte, data: seq<byte>, c: byte)
    ensures Fold(r, data + [c]) == Double(Add(Fold(r, data), c))
    decreases |data|
  {
    hide Add, Double;
    if data == [] {
      assert Fold(Double(Add(r, c)), []) == Double(Add(r, c));
    } else {
      assert (data + [c])[1..] == data[1..] + [c];
      FoldSnoc(Double(Add(r, data[0])), data[1..], c);
    }
  }

  /** Exactly one byte completes a nonempty array: its computed checksum. */
  lemma UniqueCompletion(data: seq<byte>, c: byte)
    ensures Validate([]) == Err(InputDataTooShort)
    ensures Validate(data + [c]) ==
            if data == [] then Err(InputDataTooShort)
            else if c == Checksum(data) then Ok(())
            else Err(InvalidChecksum)
  {
    hide Fold;
    FoldSnoc(0, data, c);
    if Double(Add(Checksum(data), c)) == 0 {
      DoubleInjective(Add(Checksum(data), c), 0);
    }
  }

  /** Replacing one digit shifts the checksum by the difference, scaled by its position. */
  lemma {:induction false} PolynomialUpdate(data: seq<byte>, i: nat, x: byte)
    requires i < |data|
    ensures Polynomial(data[i := x]) == Add(Polynomial(data), Scale(Add(data[i], x), |data| - i))
  {
    hide Add, Double;
    var n, tail := |data|, Polynomial(data[1..]);
    if i == 0 {
      assert data[0 := x][1..] == data[1..];
      ScaleSum(data[0], x, n);
      var a, b := Scale(data[0], n), Scale(x, n);
      Regroup(a, tail, a, b);
      AddZero(a);
      AddComm(tail, b);
      AddZero(Add(b, tail));
    } else {
      assert data[i := x][1..] == data[1..][i - 1 := x];
      PolynomialUpdate(data[1..], i - 1, x);
      AddAssoc(Scale(data[0], n), tail, Scale(Add(data[i], x), n - i));
    }
  }

  lemma ChecksumUpdate(data: seq<byte>, i: nat, x: byte)
    requires i < |data|
    ensures Checksum(data[i := x]) == Add(Checksum(data), Scale(Add(data[i], x), |data| - i))
  {
    hide Add, Double;
    ChecksumIsPolynomial(data);
    ChecksumIsPolynomial(data[i := x]);
    PolynomialUpdate(data, i, x);
  }

  lemma SubstitutionDetected(data: seq<byte>, i: nat, x: byte)
    requires i < |data| && x != data[i]
    requires Validate(data).Ok?
    ensures Validate(data[i := x]) == Err(InvalidChecksum)
  {
    hide Add, Double, Fold;
    ChecksumUpdate(data, i, x);
    AddCancels(data[i], x);
    ScaleZero(Add(data[i], x), |data| - i);
    AddZero(Scale(Add(data[i], x), |data| - i));
  }

  function Swap(data: seq<byte>, i: nat, j: nat): seq<byte>
    requires i < |data| && j < |data|
  {
    data[i := data[j]][j := data[i]]
  }

  lemma ChecksumSwap(data: seq<byte>, i: nat, j: nat)
    requires i < j < |data|
    ensures var d := Add(data[i], data[j]);
            Checksum(Swap(data, i, j)) == Add(Checksum(data), Scale(Add(Scale(d, j - i), d), |data| - j))
  {
    hide Add, Double, Fold;
    var x, y, n := data[i], data[j], |data|;
    var d := Add(x, y);
    ChecksumUpdate(data, i, y);
    ChecksumUpdate(data[i := y], j, x);
    AddComm(x, y);
    AddAssoc(Checksum(data), Scale(d, n - i), Scale(d, n - j));
    ScaleTwice(d, j - i, n - j);
    ScaleSum(Scale(d, j - i), d, n - j);
  }

  /** A swap of two unequal digits passes exactly when their distance is a multiple of 51. */
  lemma SwapDetected(data: seq<byte>, i: nat, j: nat)
    requires i < j < |data| && data[i] != data[j]
    requires Validate(data).Ok?
    ensures Validate(Swap(data, i, j)) == if (j - i) % 51 == 0 then Ok(()) else Err(InvalidChecksum)
  {
    hide Add, Double, Fold;
    var d := Add(data[i], data[j]);
    AddCancels(data[i], data[j]);
    ChecksumSwap(data, i, j);
    OrderIs51(d, j - i);
    AddCancels(Scale(d, j - i), d);
    ScaleZero(Add(Scale(d, j - i), d), |data| - j);
    AddZero(Scale(Add(Scale(d, j - i), d), |data| - j));
  }

  /** The least undetected swap: two different digits 51 places apart in a valid array. */
  lemma UndetectedSwap() returns (data: seq<byte>)
    ensures |data| == 53 && data[0] != data[51]
    ensures Validate(data).Ok? && Validate(Swap(data, 0, 51)).Ok?
  {
    hide Checksum, Validate;
    var prefix: seq<byte> := [1] + seq(51, i => 0);
    data := prefix + [Checksum(prefix)];
    UniqueCompletion(prefix, Checksum(prefix));
    SwapDetected(data, 0, 51);
  }
}
