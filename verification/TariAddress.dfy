/**
  Tari addresses, base_layer/common_types/src/tari_address.rs: 32 bytes of public key, then the
  DammSum checksum of the key masked with the byte of the network. Two decoders read them, one told
  the network and one inferring it, and three texts carry them.
*/
module TariAddress {
  import opened Bytes
  import opened Wrappers
  import opened DammSum
  import opened Emoji
  import opened PublicKeys

  const ADDRESS_SIZE := 33

  datatype Network =
    | MainNet | StageNet | NextNet | LocalNet | Ridcully | Stibbons | Weatherwax | Igor | Dibbler | Esmeralda
  {
    function AsByte(): byte {
      match this
      case MainNet => 0x00
      case StageNet => 0x01
      case NextNet => 0x02
      case LocalNet => 0x10
      case Ridcully => 0x21
      case Stibbons => 0x22
      case Weatherwax => 0xa3
      case Igor => 0x24
      case Dibbler => 0x25
      case Esmeralda => 0x26
    }
  }

  function NetworkFromByte(v: byte): (n: Option<Network>)
    ensures forall network: Network :: n == Some(network) <==> network.AsByte() == v
  {
    if v == 0x00 then Some(MainNet)
    else if v == 0x01 then Some(StageNet)
    else if v == 0x02 then Some(NextNet)
    else if v == 0x10 then Some(LocalNet)
    else if v == 0x21 then Some(Ridcully)
    else if v == 0x22 then Some(Stibbons)
    else if v == 0xa3 then Some(Weatherwax)
    else if v == 0x24 then Some(Igor)
    else if v == 0x25 then Some(Dibbler)
    else if v == 0x26 then Some(Esmeralda)
    else None
  }

  datatype Address = Address(network: Network, publicKey: PublicKey)

  datatype AddressError = InvalidSize | InvalidNetworkOrChecksum | InvalidEmoji | CannotRecoverPublicKey

  // ---------------------------------------------------------------------------------------------
  // Bytes

  function ToBytes(a: Address): seq<byte> {
    a.publicKey + [Add(a.network.AsByte(), Checksum(a.publicKey))]
  }

  function FromBytesWithNetwork(curve: Curve, bytes: seq<byte>, network: Network): Result<Address, AddressError> {
    if |bytes| != ADDRESS_SIZE then Err(InvalidSize)
    else if Validate(bytes[32 := Add(bytes[32], network.AsByte())]).Err? then Err(InvalidNetworkOrChecksum)
    else if !curve(bytes[0..32]) then Err(CannotRecoverPublicKey)
    else Ok(Address(network, bytes[0..32]))
  }

  function FromBytes(curve: Curve, bytes: seq<byte>): Result<Address, AddressError> {
    if |bytes| != ADDRESS_SIZE then Err(InvalidSize) else
    match NetworkFromByte(Add(Checksum(bytes[0..32]), bytes[32]))
    case None => Err(InvalidNetworkOrChecksum)
    case Some(network) =>
      if !curve(bytes[0..32]) then Err(CannotRecoverPublicKey)
      else Ok(Address(network, bytes[0..32]))
  }

  method WriteBytes(a: Address) returns (r: seq<byte>)
    ensures r == ToBytes(a)
  {
    var buf := new byte[ADDRESS_SIZE](_ => 0);
    for i := 0 to 32
      invariant forall j :: 0 <= j < i ==> buf[j] == a.publicKey[j]
    {
      buf[i] := a.publicKey[i];
    }
    assert buf[0..32] == a.publicKey;
    var checksum := ComputeChecksum(buf[0..32]);
    buf[32] := a.network.AsByte() ^ checksum;
    assert buf[0..32] == a.publicKey;
    r := buf[..];
  }

  method ReadBytesWithNetwork(curve: Curve, bytes: seq<byte>, network: Network)
    returns (r: Result<Address, AddressError>)
    ensures r == FromBytesWithNetwork(curve, bytes, network)
  {
    hide Validate, Network.AsByte;
    if |bytes| != ADDRESS_SIZE {
      return Err(InvalidSize);
    }
    var fixedData := bytes;
    fixedData := fixedData[32 := fixedData[32] ^ network.AsByte()];
    var checked := ValidateChecksum(fixedData);
    if checked.Err? {
      return Err(InvalidNetworkOrChecksum);
    }
    var key := KeyFromBytes(curve, bytes[0..32]);
    r := if key.Some? then Ok(Address(network, key.value)) else Err(CannotRecoverPublicKey);
  }

  /** The network-aware check reduces to comparing the last byte with the masked checksum. */
  lemma MaskedChecksum(bytes: seq<byte>, network: Network)
    requires |bytes| == ADDRESS_SIZE
    ensures Validate(bytes[32 := Add(bytes[32], network.AsByte())]).Ok? <==>
            bytes[32] == Add(network.AsByte(), Checksum(bytes[0..32]))
  {
    hide Checksum, Add, Validate, Network.AsByte;
    var fixedData := bytes[32 := Add(bytes[32], network.AsByte())];
    assert fixedData == bytes[0..32] + [fixedData[32]];
    UniqueCompletion(bytes[0..32], fixedData[32]);
    AddMoves(bytes[32], network.AsByte(), Checksum(bytes[0..32]));
  }

  /** Decoding for a network accepts exactly the encodings of that network's addresses. */
  lemma WithNetworkExact(curve: Curve, bytes: seq<byte>, network: Network, a: Address)
    ensures FromBytesWithNetwork(curve, bytes, network) == Ok(a) <==>
            a.network == network && curve(a.publicKey) && ToBytes(a) == bytes
  {
    hide Checksum, Add, Validate, Network.AsByte;
    if |bytes| == ADDRESS_SIZE {
      MaskedChecksum(bytes, network);
    }
  }

  /** The network-inferring decoder accepts exactly the encodings of addresses. */
  lemma FromBytesExact(curve: Curve, bytes: seq<byte>, a: Address)
    ensures FromBytes(curve, bytes) == Ok(a) <==> curve(a.publicKey) && ToBytes(a) == bytes
  {
  }

  lemma DecodersAgree(curve: Curve, bytes: seq<byte>, a: Address)
    ensures FromBytes(curve, bytes) == Ok(a) <==> FromBytesWithNetwork(curve, bytes, a.network) == Ok(a)
  {
    FromBytesExact(curve, bytes, a);
    WithNetworkExact(curve, bytes, a.network, a);
  }

  lemma AtMostOneNetwork(curve: Curve, bytes: seq<byte>, m: Network, n: Network)
    requires FromBytesWithNetwork(curve, bytes, m).Ok? && FromBytesWithNetwork(curve, bytes, n).Ok?
    ensures m == n
  {
    hide FromBytes, FromBytesWithNetwork;
    DecodersAgree(curve, bytes, FromBytesWithNetwork(curve, bytes, m).value);
    DecodersAgree(curve, bytes, FromBytesWithNetwork(curve, bytes, n).value);
    WithNetworkExact(curve, bytes, m, FromBytesWithNetwork(curve, bytes, m).value);
    WithNetworkExact(curve, bytes, n, FromBytesWithNetwork(curve, bytes, n).value);
  }

  /** The 33 bytes: the key, and its checksum xored with the network's byte. */
  lemma AddressLayout(a: Address)
    ensures var b := ToBytes(a);
            && |b| == 33 && (forall i :: 0 <= i < 32 ==> b[i] == a.publicKey[i])
            && b[32] == a.network.AsByte() ^ Polynomial(a.publicKey)
  {
    hide Checksum, Polynomial, Network.AsByte;
    ChecksumIsPolynomial(a.publicKey);
  }

  /** The networks' bytes, by their numbers. */
  lemma NetworkBytes()
    ensures [MainNet.AsByte() as int, StageNet.AsByte() as int, NextNet.AsByte() as int] == [0, 1, 2]
    ensures LocalNet.AsByte() as int == 16
    ensures [Ridcully.AsByte() as int, Stibbons.AsByte() as int, Weatherwax.AsByte() as int] == [33, 34, 163]
    ensures [Igor.AsByte() as int, Dibbler.AsByte() as int, Esmeralda.AsByte() as int] == [36, 37, 38]
  {
  }

  /** Every key has the addresses of its networks; the curve decides only who may read them. */
  lemma FromBytesErrors(curve: Curve, bytes: seq<byte>)
    ensures var r := FromBytes(curve, bytes);
            && (r == Err(InvalidSize) <==> |bytes| != 33)
            && (r == Err(InvalidNetworkOrChecksum) <==> |bytes| == 33 && forall a :: ToBytes(a) != bytes)
            && (r == Err(CannotRecoverPublicKey) <==> exists a :: ToBytes(a) == bytes && !curve(a.publicKey))
            && r != Err(InvalidEmoji)
  {
    hide ToBytes;
    forall a ensures ToBytes(a) == bytes ==> |bytes| == 33 {
      Length(a);
    }
    var every: Curve := _ => true;
    forall a ensures ToBytes(a) == bytes <==> FromBytes(every, bytes) == Ok(a) {
      FromBytesExact(every, bytes, a);
    }
    if FromBytes(every, bytes).Ok? {
      assert ToBytes(FromBytes(every, bytes).value) == bytes;
    }
  }

  lemma WithNetworkErrors(curve: Curve, bytes: seq<byte>, network: Network)
    ensures var r := FromBytesWithNetwork(curve, bytes, network);
            && (r == Err(InvalidSize) <==> |bytes| != 33)
            && (r == Err(InvalidNetworkOrChecksum) <==>
                  |bytes| == 33 && forall key: PublicKey :: ToBytes(Address(network, key)) != bytes)
            && (r == Err(CannotRecoverPublicKey) <==>
                  exists key: PublicKey :: ToBytes(Address(network, key)) == bytes && !curve(key))
            && r != Err(InvalidEmoji)
  {
    hide ToBytes, Validate;
    forall a ensures ToBytes(a) == bytes ==> |bytes| == 33 {
      Length(a);
    }
    var every: Curve := _ => true;
    forall key: PublicKey
      ensures ToBytes(Address(network, key)) == bytes <==>
              FromBytesWithNetwork(every, bytes, network) == Ok(Address(network, key))
    {
      WithNetworkExact(every, bytes, network, Address(network, key));
    }
    if FromBytesWithNetwork(every, bytes, network).Ok? {
      assert ToBytes(Address(network, FromBytesWithNetwork(every, bytes, network).value.publicKey)) == bytes;
    }
  }

  // ---------------------------------------------------------------------------------------------
  // Damaged addresses

  /** What is left of the network byte when the checksum of the key is taken off the last byte. */
  function Mask(bytes: seq<byte>): byte
    requires |bytes| == ADDRESS_SIZE
  {
    Add(Checksum(bytes[0..32]), bytes[32])
  }

  /** The inferring decoder in terms of the mask: which address it yields, and when it gives which error. */
  lemma ReadByMask(curve: Curve, bytes: seq<byte>, b: Address)
    requires |bytes| == ADDRESS_SIZE
    ensures FromBytes(curve, bytes) == Ok(b) <==>
            curve(b.publicKey) && b.publicKey == bytes[0..32] && b.network.AsByte() == Mask(bytes)
    ensures FromBytes(curve, bytes) == Err(InvalidNetworkOrChecksum) <==>
            forall m: Network :: m.AsByte() != Mask(bytes)
  {
    hide Checksum, Add, Network.AsByte;
    var n := NetworkFromByte(Mask(bytes));
    assert n.Some? ==> n.value.AsByte() == Mask(bytes);
  }

  lemma MaskOfAddress(a: Address)
    ensures |ToBytes(a)| == ADDRESS_SIZE && Mask(ToBytes(a)) == a.network.AsByte()
  {
    hide Checksum, Add, Network.AsByte;
    assert ToBytes(a)[0..32] == a.publicKey;
    AddComm(a.network.AsByte(), Checksum(a.publicKey));
    AddMoves(a.network.AsByte(), Checksum(a.publicKey), ToBytes(a)[32]);
  }

  /** Changing byte i by e changes the mask by 2^(32 - i) * e. */
  lemma MaskUpdate(bytes: seq<byte>, i: nat, x: byte)
    requires |bytes| == ADDRESS_SIZE && i < ADDRESS_SIZE
    ensures Mask(bytes[i := x]) == Add(Mask(bytes), Scale(Add(bytes[i], x), 32 - i))
  {
    hide Checksum, Add, Double;
    var key, last := bytes[0..32], bytes[32];
    if i < 32 {
      var change := Scale(Add(bytes[i], x), 32 - i);
      assert bytes[i := x][0..32] == key[i := x];
      ChecksumUpdate(key, i, x);
      AddAssoc(Checksum(key), change, last);
      AddComm(change, last);
      AddAssoc(Checksum(key), last, change);
    } else {
      assert bytes[i := x][0..32] == key;
      AddAssoc(Checksum(key), last, Add(last, x));
      AddAssoc(last, last, x);
      AddZero(last);
      AddZero(x);
    }
  }

  /**
    One changed byte, the masked one included: the address's own network always rejects it. The
    inferring decoder yields b exactly when b has the changed key and the network the change amounts to.
  */
  lemma AddressSubstitution(curve: Curve, a: Address, i: nat, x: byte, b: Address)
    requires i < ADDRESS_SIZE && x != ToBytes(a)[i]
    ensures var damaged := ToBytes(a)[i := x];
            var network := Add(a.network.AsByte(), Scale(Add(ToBytes(a)[i], x), 32 - i));
            && FromBytesWithNetwork(curve, damaged, a.network) == Err(InvalidNetworkOrChecksum)
            && (FromBytes(curve, damaged) == Ok(b) <==>
                  curve(b.publicKey) && b.publicKey == damaged[0..32] && b.network.AsByte() == network)
            && (FromBytes(curve, damaged) == Err(InvalidNetworkOrChecksum) <==>
                  forall m: Network :: m.AsByte() != network)
            && network != a.network.AsByte()
  {
    hide ToBytes, FromBytes, Checksum, Add, Validate, Network.AsByte;
    var bytes := ToBytes(a);
    MaskOfAddress(a);
    MaskUpdate(bytes, i, x);
    ReadByMask(curve, bytes[i := x], b);
    var change := Scale(Add(bytes[i], x), 32 - i);
    AddCancels(bytes[i], x);
    ScaleZero(Add(bytes[i], x), 32 - i);
    Moved(a.network.AsByte(), change);
    RejectedByMask(curve, bytes[i := x], a.network);
  }

  lemma Moved(x: byte, change: byte)
    requires change != 0
    ensures Add(x, change) != x
  {
    hide Add;
    AddComm(x, change);
    AddCancels(change, x);
    AddZero(x);
  }

  lemma RejectedByMask(curve: Curve, bytes: seq<byte>, network: Network)
    requires |bytes| == ADDRESS_SIZE && Mask(bytes) != network.AsByte()
    ensures FromBytesWithNetwork(curve, bytes, network) == Err(InvalidNetworkOrChecksum)
  {
    hide Checksum, Add, Validate, Network.AsByte;
    MaskedChecksum(bytes, network);
    AddComm(Checksum(bytes[0..32]), bytes[32]);
    AddMoves(bytes[32], Checksum(bytes[0..32]), network.AsByte());
    AddComm(Checksum(bytes[0..32]), network.AsByte());
  }

  /** Dividing by 2^(32 - i) is multiplying by 2^(19 + i), because 2 has order 51. */
  lemma ScaleBack(e: byte, f: byte, i: nat)
    requires i < ADDRESS_SIZE
    ensures Scale(e, 32 - i) == f <==> e == Scale(f, 19 + i)
  {
    hide Double;
    ScaleTwice(e, 32 - i, 19 + i);
    ScaleTwice(f, 19 + i, 32 - i);
    Scale51(e);
    Scale51(f);
  }

  /**
    At every position, for every other network m, exactly one byte turns an address into a string
    that reads as m's, and this is it: the key changes unless the position is the last.
  */
  lemma OneByteChoosesNetwork(curve: Curve, a: Address, i: nat, x: byte, m: Network)
    requires i < ADDRESS_SIZE && m != a.network
    ensures var damaged := ToBytes(a)[i := x];
            FromBytes(curve, damaged) == Ok(Address(m, damaged[0..32])) <==>
            && x == Add(ToBytes(a)[i], Scale(Add(a.network.AsByte(), m.AsByte()), 19 + i))
            && curve(damaged[0..32])
  {
    hide ToBytes, FromBytes, Checksum, Add, Double, Network.AsByte;
    var bytes, n, k := ToBytes(a), a.network.AsByte(), m.AsByte();
    MaskOfAddress(a);
    MaskUpdate(bytes, i, x);
    var damaged := bytes[i := x];
    ReadByMask(curve, damaged, Address(m, damaged[0..32]));
    var e := Add(bytes[i], x);
    ScaleBack(e, Add(n, k), i);
    AddComm(n, Scale(e, 32 - i));
    AddMoves(Scale(e, 32 - i), n, k);
    AddComm(bytes[i], x);
    AddMoves(x, bytes[i], Scale(Add(n, k), 19 + i));
  }

  lemma Length(a: Address)
    ensures |ToBytes(a)| == ADDRESS_SIZE
  {
  }

  /** A key byte so changed: a StageNet address read as another key's on NextNet. */
  lemma KeyByteMisread(curve: Curve, key: PublicKey)
    requires curve(key[31 := Add(key[31], 0x8C)])
    ensures var other := key[31 := Add(key[31], 0x8C)];
            && other != key
            && FromBytes(curve, ToBytes(Address(StageNet, key))[31 := other[31]]) == Ok(Address(NextNet, other))
  {
    hide FromBytes, Checksum;
    var a, other := Address(StageNet, key), key[31 := Add(key[31], 0x8C)];
    assert Scale(0x8C, 1) == 3;
    ScaleBack(0x8C, 3, 31);
    OneByteChoosesNetwork(curve, a, 31, other[31], NextNet);
    assert ToBytes(a)[31 := other[31]][0..32] == other;
    AddCancels(key[31], 0x8C);
    assert other[31] != key[31];
  }

  lemma MaskSwap(bytes: seq<byte>, i: nat, j: nat)
    requires |bytes| == ADDRESS_SIZE && i < j < ADDRESS_SIZE
    ensures var d := Add(bytes[i], bytes[j]);
            Mask(Swap(bytes, i, j)) == Add(Mask(bytes), Scale(Add(Scale(d, j - i), d), 32 - j))
  {
    hide Checksum, Add, Double;
    var x, y := bytes[i], bytes[j];
    var d, step := Add(x, y), bytes[i := y];
    assert step[j := x] == Swap(bytes, i, j);
    MaskUpdate(bytes, i, y);
    MaskUpdate(step, j, x);
    AddComm(x, y);
    AddAssoc(Mask(bytes), Scale(d, 32 - i), Scale(d, 32 - j));
    ScaleTwice(d, j - i, 32 - j);
    ScaleSum(Scale(d, j - i), d, 32 - j);
  }

  /** The same for the swap of any two unequal bytes. */
  lemma AddressSwap(curve: Curve, a: Address, i: nat, j: nat, b: Address)
    requires i < j < ADDRESS_SIZE && ToBytes(a)[i] != ToBytes(a)[j]
    ensures var damaged, d := Swap(ToBytes(a), i, j), Add(ToBytes(a)[i], ToBytes(a)[j]);
            var network := Add(a.network.AsByte(), Scale(Add(Scale(d, j - i), d), 32 - j));
            && FromBytesWithNetwork(curve, damaged, a.network) == Err(InvalidNetworkOrChecksum)
            && (FromBytes(curve, damaged) == Ok(b) <==>
                  curve(b.publicKey) && b.publicKey == damaged[0..32] && b.network.AsByte() == network)
            && (FromBytes(curve, damaged) == Err(InvalidNetworkOrChecksum) <==>
                  forall m: Network :: m.AsByte() != network)
            && network != a.network.AsByte()
  {
    hide ToBytes, FromBytes, Checksum, Add, Double, Validate, Network.AsByte;
    var bytes := ToBytes(a);
    MaskOfAddress(a);
    MaskSwap(bytes, i, j);
    ReadByMask(curve, Swap(bytes, i, j), b);
    var d := Add(bytes[i], bytes[j]);
    AddCancels(bytes[i], bytes[j]);
    OrderIs51(d, j - i);
    AddCancels(Scale(d, j - i), d);
    ScaleZero(Add(Scale(d, j - i), d), 32 - j);
    Moved(a.network.AsByte(), Scale(Add(Scale(d, j - i), d), 32 - j));
    RejectedByMask(curve, Swap(bytes, i, j), a.network);
  }

  // ---------------------------------------------------------------------------------------------
  // Texts

  ghost function EmojiToBytes(t: Alphabet, s: string): Result<seq<byte>, AddressError> {
    if |s| != ADDRESS_SIZE then Err(InvalidSize)
    else if Translate(t, s).None? then Err(InvalidEmoji)
    else Ok(Translate(t, s).value)
  }

  method ReadEmoji(t: Alphabet, s: string) returns (r: Result<seq<byte>, AddressError>)
    ensures r == EmojiToBytes(t, s)
  {
    if |s| != ADDRESS_SIZE {
      return Err(InvalidSize);
    }
    var bytes := TranslateSymbols(t, s);
    r := if bytes.None? then Err(InvalidEmoji) else Ok(bytes.value);
  }

  function ToEmojiString(t: Alphabet, a: Address): string {
    Render(t, ToBytes(a))
  }

  ghost function FromEmojiString(t: Alphabet, curve: Curve, s: string): Result<Address, AddressError> {
    match EmojiToBytes(t, s)
    case Err(e) => Err(e)
    case Ok(bytes) => FromBytes(curve, bytes)
  }

  ghost function FromEmojiStringWithNetwork(t: Alphabet, curve: Curve, s: string, network: Network)
    : Result<Address, AddressError>
  {
    match EmojiToBytes(t, s)
    case Err(e) => Err(e)
    case Ok(bytes) => FromBytesWithNetwork(curve, bytes, network)
  }

  /** An accepted emoji string prints back to itself, and every printed one is accepted. */
  lemma EmojiStringExact(t: Alphabet, curve: Curve, s: string, a: Address)
    ensures FromEmojiString(t, curve, s) == Ok(a) <==> curve(a.publicKey) && ToEmojiString(t, a) == s
    ensures FromEmojiStringWithNetwork(t, curve, s, a.network) == Ok(a) <==> FromEmojiString(t, curve, s) == Ok(a)
  {
    hide ToBytes, FromBytes, FromBytesWithNetwork, Translate;
    Length(a);
    TranslateInvertsRender(t, s, ToBytes(a));
    if EmojiToBytes(t, s).Ok? {
      FromBytesExact(curve, EmojiToBytes(t, s).value, a);
      DecodersAgree(curve, EmojiToBytes(t, s).value, a);
    }
  }

  /** The errors of both emoji decoders: by size, by symbols, and as for the bytes. */
  lemma EmojiStringErrors(t: Alphabet, curve: Curve, s: string, network: Network)
    ensures var r, n := FromEmojiString(t, curve, s), FromEmojiStringWithNetwork(t, curve, s, network);
            && (r == Err(InvalidSize) <==> |s| != 33) && (n == Err(InvalidSize) <==> |s| != 33)
            && (r == Err(InvalidEmoji) <==> |s| == 33 && exists i :: 0 <= i < |s| && s[i] !in t)
            && (n == Err(InvalidEmoji) <==> |s| == 33 && exists i :: 0 <= i < |s| && s[i] !in t)
    ensures forall bytes :: Render(t, bytes) == s && |s| == 33 ==>
              && FromEmojiString(t, curve, s) == FromBytes(curve, bytes)
              && FromEmojiStringWithNetwork(t, curve, s, network) == FromBytesWithNetwork(curve, bytes, network)
  {
    hide Translate, FromBytes, FromBytesWithNetwork, Render;
    Untranslatable(t, s);
    if Translate(t, s).Some? {
      var bytes := Translate(t, s).value;
      TranslateInvertsRender(t, s, bytes);
      RenderedAs(t, bytes);
      FromBytesErrors(curve, bytes);
      WithNetworkErrors(curve, bytes, network);
    }
    forall bytes ensures Render(t, bytes) == s <==> Translate(t, s) == Some(bytes) {
      TranslateInvertsRender(t, s, bytes);
    }
  }

  function TrimStart(s: string): string {
    if s != [] && IsWhitespace(s[0]) then TrimStart(s[1..]) else s
  }

  function TrimEnd(s: string): string {
    if s != [] && IsWhitespace(s[|s| - 1]) then TrimEnd(s[..|s| - 1]) else s
  }

  function Trim(s: string): string {
    TrimEnd(TrimStart(s))
  }

  function RemoveBars(s: string): string {
    if s == [] then [] else (if s[0] == '|' then [] else [s[0]]) + RemoveBars(s[1..])
  }

  predicate Blank(s: string) {
    forall c :: c in s ==> IsWhitespace(c)
  }

  /**
    The hexadecimal codec, taken as a pair of functions: two digits per byte, read back by the
    decoder. What else the decoder accepts is its own business.
  */
  datatype HexCodec = HexCodec(encode: seq<byte> -> string, decode: string -> Option<seq<byte>>) {
    ghost predicate Lawful() {
      forall b :: Digits(encode(b), |b|) && decode(encode(b)) == Some(b)
    }

    static predicate Digits(s: string, n: nat) {
      |s| == 2 * n && forall c :: c in s ==> '0' <= c <= '9' || 'a' <= c <= 'f'
    }
  }

  const DIGITS := "0123456789abcdef"

  function HexPair(n: nat): string
    requires n < 256
  {
    [DIGITS[n / 16], DIGITS[n % 16]]
  }

  /** Two lower-case digits for each byte. */
  function EncodeHex(bytes: seq<byte>): string {
    if bytes == [] then [] else HexPair(bytes[0] as int) + EncodeHex(bytes[1..])
  }

  function DigitValue(c: char): (v: Option<nat>)
    ensures v.Some? ==> v.value < 16
  {
    if '0' <= c <= '9' then Some(c as int - '0' as int)
    else if 'a' <= c <= 'f' then Some(c as int - 'a' as int + 10)
    else if 'A' <= c <= 'F' then Some(c as int - 'A' as int + 10)
    else None
  }

  function FromPair(hi: char, lo: char): (v: Option<nat>)
    ensures v.Some? ==> v.value < 256
  {
    if DigitValue(hi).None? || DigitValue(lo).None? then None
    else Some(16 * DigitValue(hi).value + DigitValue(lo).value)
  }

  /** Digits of either case, two for each byte. */
  function DecodeHex(s: string): Option<seq<byte>> {
    if s == [] then Some([])
    else if |s| == 1 || FromPair(s[0], s[1]).None? || DecodeHex(s[2..]).None? then None
    else Some([FromPair(s[0], s[1]).value as byte] + DecodeHex(s[2..]).value)
  }

  lemma DigitInverse(n: nat)
    requires n < 16
    ensures DigitValue(DIGITS[n]) == Some(n) && ('0' <= DIGITS[n] <= '9' || 'a' <= DIGITS[n] <= 'f')
  {
  }

  lemma PairInverse(n: nat)
    requires n < 256
    ensures HexCodec.Digits(HexPair(n), 1) && FromPair(HexPair(n)[0], HexPair(n)[1]) == Some(n)
  {
    hide DigitValue;
    DigitInverse(n / 16);
    DigitInverse(n % 16);
  }

  lemma {:induction false} HexInverse(bytes: seq<byte>)
    ensures HexCodec.Digits(EncodeHex(bytes), |bytes|) && DecodeHex(EncodeHex(bytes)) == Some(bytes)
  {
    hide HexPair, FromPair;
    if bytes != [] {
      HexInverse(bytes[1..]);
      var s := EncodeHex(bytes);
      NumberOfByte(bytes[0]);
      PairInverse(bytes[0] as int);
      assert s[2..] == EncodeHex(bytes[1..]);
      assert bytes == [bytes[0]] + bytes[1..];
    }
  }

  /** The two-digit codec is lawful. */
  lemma TwoDigitCodec()
    ensures HexCodec(EncodeHex, DecodeHex).Lawful()
  {
    forall b: seq<byte>
      ensures HexCodec.Digits(EncodeHex(b), |b|) && DecodeHex(EncodeHex(b)) == Some(b)
    {
      HexInverse(b);
    }
  }

  function FromHex(hex: HexCodec, curve: Curve, s: string): Result<Address, AddressError> {
    match hex.decode(s)
    case None => Err(CannotRecoverPublicKey)
    case Some(bytes) => FromBytes(curve, bytes)
  }

  function ToHex(hex: HexCodec, a: Address): string {
    hex.encode(ToBytes(a))
  }

  ghost function FromStr(t: Alphabet, hex: HexCodec, curve: Curve, s: string): Result<Address, AddressError> {
    var emoji := FromEmojiString(t, curve, RemoveBars(Trim(s)));
    if emoji.Ok? then emoji
    else if FromHex(hex, curve, s).Ok? then FromHex(hex, curve, s)
    else Err(CannotRecoverPublicKey)
  }

  /** What a text is read as: an emoji form if it is one, and otherwise what its hexadecimal bytes encode. */
  lemma FromStrExact(t: Alphabet, hex: HexCodec, curve: Curve, s: string, a: Address)
    ensures FromStr(t, hex, curve, s) == Ok(a) <==>
            && curve(a.publicKey)
            && (if FromEmojiString(t, curve, RemoveBars(Trim(s))).Ok? then ToEmojiString(t, a) == RemoveBars(Trim(s))
                else hex.decode(s) == Some(ToBytes(a)))
    ensures FromStr(t, hex, curve, s).Err? ==> FromStr(t, hex, curve, s) == Err(CannotRecoverPublicKey)
  {
    hide FromEmojiString, FromBytes, ToBytes, Trim, RemoveBars, ToEmojiString;
    EmojiStringExact(t, curve, RemoveBars(Trim(s)), a);
    if hex.decode(s).Some? {
      FromBytesExact(curve, hex.decode(s).value, a);
    }
  }

  lemma {:induction false} TrimStartBlank(pad: string, s: string)
    requires Blank(pad) && (s == [] || !IsWhitespace(s[0]))
    ensures TrimStart(pad + s) == s
  {
    hide IsWhitespace;
    if pad == [] {
      assert pad + s == s;
    } else {
      assert (pad + s)[0] == pad[0] && (pad + s)[1..] == pad[1..] + s;
      TrimStartBlank(pad[1..], s);
    }
  }

  lemma {:induction false} TrimEndBlank(s: string, pad: string)
    requires Blank(pad) && (s == [] || !IsWhitespace(s[|s| - 1]))
    ensures TrimEnd(s + pad) == s
  {
    hide IsWhitespace;
    if pad == [] {
      assert s + pad == s;
    } else {
      var n := |pad| - 1;
      assert (s + pad)[|s| + n] == pad[n] && (s + pad)[..|s| + n] == s + pad[..n];
      TrimEndBlank(s, pad[..n]);
    }
  }

  lemma TrimPadded(before: string, s: string, after: string)
    requires Blank(before) && Blank(after)
    requires s != [] && !IsWhitespace(s[0]) && !IsWhitespace(s[|s| - 1])
    ensures Trim(before + s + after) == s
  {
    hide IsWhitespace;
    assert before + s + after == before + (s + after);
    TrimStartBlank(before, s + after);
    TrimEndBlank(s, after);
  }

  lemma {:induction false} RemoveBarsConcat(s: string, u: string)
    ensures RemoveBars(s + u) == RemoveBars(s) + RemoveBars(u)
  {
    if s == [] {
      assert s + u == u;
    } else {
      assert (s + u)[1..] == s[1..] + u;
      RemoveBarsConcat(s[1..], u);
    }
  }

  /** A bar more or less, anywhere, makes no difference, and none is left. */
  lemma BarAnywhere(s: string, u: string)
    ensures RemoveBars(s + "|" + u) == RemoveBars(s + u)
    ensures '|' !in RemoveBars(s)
  {
    RemoveBarsConcat(s, u);
    RemoveBarsConcat(s + "|", u);
    RemoveBarsConcat(s, "|");
    NoBarLeft(s);
  }

  lemma {:induction false} NoBarLeft(s: string)
    ensures '|' !in RemoveBars(s)
  {
    if s != [] {
      NoBarLeft(s[1..]);
    }
  }

  lemma {:induction false} RemoveBarsKeeps(s: string, c: char)
    requires c in s && c != '|'
    ensures c in RemoveBars(s)
  {
    if c != s[0] {
      RemoveBarsKeeps(s[1..], c);
    }
  }

  lemma {:induction false} RemoveBarsIdentity(s: string)
    requires '|' !in s
    ensures RemoveBars(s) == s
  {
    if s != [] {
      RemoveBarsIdentity(s[1..]);
    }
  }

  lemma RenderedSymbol(t: Alphabet, bytes: seq<byte>, c: char)
    requires c in Render(t, bytes)
    ensures !IsWhitespace(c)
  {
  }

  /** The emoji form is read back with bars anywhere in it and white space around it. */
  lemma EmojiTextRoundTrip(t: Alphabet, hex: HexCodec, curve: Curve, a: Address,
                           before: string, text: string, after: string)
    requires curve(a.publicKey)
    requires Blank(before) && Blank(after) && RemoveBars(text) == ToEmojiString(t, a)
    ensures FromStr(t, hex, curve, before + text + after) == Ok(a)
  {
    hide IsWhitespace, FromEmojiString, FromHex;
    forall c | c in text ensures !IsWhitespace(c) {
      if c == '|' {
        NotBlank();
      } else {
        RemoveBarsKeeps(text, c);
        RenderedSymbol(t, ToBytes(a), c);
      }
    }
    assert text != [];
    assert text[0] in text && text[|text| - 1] in text;
    TrimPadded(before, text, after);
    EmojiStringExact(t, curve, RemoveBars(text), a);
  }

  lemma NotBlank()
    ensures !IsWhitespace('|')
  {
  }

  lemma HexTextRoundTrip(t: Alphabet, hex: HexCodec, curve: Curve, a: Address)
    requires hex.Lawful() && curve(a.publicKey)
    ensures FromStr(t, hex, curve, ToHex(hex, a)) == Ok(a)
  {
    hide FromBytes, ToBytes;
    Length(a);
    var s := ToHex(hex, a);
    assert HexCodec.Digits(s, ADDRESS_SIZE);
    assert s[0] in s && s[|s| - 1] in s;
    TrimPadded([], s, []);
    assert [] + s + [] == s;
    RemoveBarsIdentity(s);
    FromBytesExact(curve, ToBytes(a), a);
  }
}
