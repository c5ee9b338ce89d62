/** Result types shared by every component. */
module Wrappers {

  datatype Option<+T> = None | Some(value: T)

  datatype Result<+T, +E> = Ok(value: T) | Err(error: E)
}

module Bytes {
  type byte = bv8

  lemma NumberOfByte(b: byte)
    ensures 0 <= b as int < 256 && (b as int) as byte == b
  {
  }

  lemma Successor(x: byte)
    requires x != 0xFF
    ensures (x + 1) as int == x as int + 1
  {
  }

  lemma {:induction false} ByteAt(n: nat) returns (x: byte)
    requires n < 256
    ensures x as int == n
  {
    if n == 0 {
      x := 0;
    } else {
      var y := ByteAt(n - 1);
      Successor(y);
      x := y + 1;
    }
  }

  lemma ByteOfNumber(n: nat)
    requires n < 256
    ensures (n as byte) as int == n
  {
    var x := ByteAt(n);
    NumberOfByte(x);
  }
}
