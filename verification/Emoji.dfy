/**
  Public keys as the decoders of this project see them: 32 bytes in canonical form, accepted or not
  by the curve (section 4.3.1 of RFC 9496).
*/
module PublicKeys {
  import opened Bytes
  import opened Wrappers

  const KEY_SIZE := 32

  /**
    A public key, held as the 32 bytes of its canonical encoding. Which byte strings encode a
    group element is left to the curve: a predicate every decoder takes.
  */
  type PublicKey = k: seq<byte> | |k| == KEY_SIZE witness seq(KEY_SIZE, i => 0)
  type Curve = seq<byte> -> bool

  function KeyFromBytes(curve: Curve, bytes: seq<byte>): Option<PublicKey> {
    if |bytes| == KEY_SIZE && curve(bytes) then Some(bytes) else None
  }
}

/** The emoji alphabet of base_layer/common_types/src/emoji.rs: each byte is written as one emoji. */
module Emoji {
  import opened Bytes
  import opened Wrappers

  // ---------------------------------------------------------------------------------------------
  // The table

  const DICT_SIZE := 256

  const ROW_0 := "🌀🌂🌈🌊🌋🌍🌙🌝🌞🌟🌠🌰🌴🌵🌷🌸"
  const ROW_1 := "🌹🌻🌽🍀🍁🍄🍅🍆🍇🍈🍉🍊🍋🍌🍍🍎"
  const ROW_2 := "🍐🍑🍒🍓🍔🍕🍗🍚🍞🍟🍠🍣🍦🍩🍪🍫"
  const ROW_3 := "🍬🍭🍯🍰🍳🍴🍵🍶🍷🍸🍹🍺🍼🎀🎁🎂"
  const ROW_4 := "🎃🎄🎈🎉🎒🎓🎠🎡🎢🎣🎤🎥🎧🎨🎩🎪"
  const ROW_5 := "🎬🎭🎮🎰🎱🎲🎳🎵🎷🎸🎹🎺🎻🎼🎽🎾"
  const ROW_6 := "🎿🏀🏁🏆🏈🏉🏠🏥🏦🏭🏰🐀🐉🐊🐌🐍"
  const ROW_7 := "🐎🐐🐑🐓🐖🐗🐘🐙🐚🐛🐜🐝🐞🐢🐣🐨"
  const ROW_8 := "🐩🐪🐬🐭🐮🐯🐰🐲🐳🐴🐵🐶🐷🐸🐺🐻"
  const ROW_9 := "🐼🐽🐾👀👅👑👒👓👔👕👖👗👘👙👚👛"
  const ROW_A := "👞👟👠👡👢👣👹👻👽👾👿💀💄💈💉💊"
  const ROW_B := "💋💌💍💎💐💔💕💘💡💣💤💦💨💩💭💯"
  const ROW_C := "💰💳💸💺💻💼📈📉📌📎📚📝📡📣📱📷"
  const ROW_D := "🔋🔌🔎🔑🔔🔥🔦🔧🔨🔩🔪🔫🔬🔭🔮🔱"
  const ROW_E := "🗽😂😇😈😉😍😎😱😷😹😻😿🚀🚁🚂🚌"
  const ROW_F := "🚑🚒🚓🚕🚗🚜🚢🚦🚧🚨🚪🚫🚲🚽🚿🛁"

  const EMOJI: string :=
    ROW_0 + ROW_1 + ROW_2 + ROW_3 + ROW_4 + ROW_5 + ROW_6 + ROW_7 +
    ROW_8 + ROW_9 + ROW_A + ROW_B + ROW_C + ROW_D + ROW_E + ROW_F

  /** The characters with the Unicode White_Space property. */
  predicate IsWhitespace(c: char) {
    || '\U{9}' <= c <= '\U{D}' || c == ' ' || c == '\U{85}' || c == '\U{A0}' || c == '\U{1680}'
    || '\U{2000}' <= c <= '\U{200A}' || c == '\U{2028}' || c == '\U{2029}' || c == '\U{202F}'
    || c == '\U{205F}' || c == '\U{3000}'
  }

  /** The 25 code points of that property. */
  lemma WhiteSpaceExact(c: char)
    ensures IsWhitespace(c) <==>
            c as int in {9, 10, 11, 12, 13, 32, 133, 160, 5760, 8192, 8193, 8194, 8195, 8196, 8197, 8198, 8199,
                         8200, 8201, 8202, 8232, 8233, 8239, 8287, 12288}
  {
  }

  predicate Increasing(s: string) {
    forall i, j :: 0 <= i < j < |s| ==> s[i] < s[j]
  }

  /** A row of sixteen, each character below the next. */
  predicate Row(s: string, first: char, last: char) {
    && |s| == 16 && s[0] == first && s[15] == last
    && s[0] < s[1] < s[2] < s[3] < s[4] < s[5] < s[6] < s[7]
    && s[7] < s[8] < s[9] < s[10] < s[11] < s[12] < s[13] < s[14] < s[15]
  }

  /** 256 distinct characters, none of them white space or the `|` that texts may hold. */
  predicate IsAlphabet(t: string) {
    && |t| == DICT_SIZE
    && (forall i, j :: 0 <= i < j < |t| ==> t[i] != t[j])
    && (forall i :: 0 <= i < |t| ==> !IsWhitespace(t[i]) && t[i] != '|')
  }

  predicate Sorted(s: string, last: char) {
    s != [] && Increasing(s) && s[|s| - 1] == last
  }

  lemma RowIsSorted(row: string, first: char, last: char)
    requires Row(row, first, last)
    ensures Sorted(row, last)
  {
  }

  lemma AppendRow(table: string, last: char, row: string, first: char, last': char)
    requires Sorted(table, last) && Row(row, first, last') && last < first
    ensures Sorted(table + row, last') && |table + row| == |table| + 16
    ensures (table + row)[0] == table[0]
  {
    RowIsSorted(row, first, last');
  }

  lemma Rows0()
    ensures Row(ROW_0, '🌀', '🌸')
    ensures Row(ROW_1, '🌹', '🍎')
    ensures Row(ROW_2, '🍐', '🍫')
    ensures Row(ROW_3, '🍬', '🎂')
    ensures Row(ROW_4, '🎃', '🎪')
    ensures Row(ROW_5, '🎬', '🎾')
    ensures Row(ROW_6, '🎿', '🐍')
    ensures Row(ROW_7, '🐎', '🐨')
  {
  }

  lemma Rows1()
    ensures Row(ROW_8, '🐩', '🐻')
    ensures Row(ROW_9, '🐼', '👛')
    ensures Row(ROW_A, '👞', '💊')
    ensures Row(ROW_B, '💋', '💯')
    ensures Row(ROW_C, '💰', '📷')
    ensures Row(ROW_D, '🔋', '🔱')
    ensures Row(ROW_E, '🗽', '🚌')
    ensures Row(ROW_F, '🚑', '🛁')
  {
  }

  /** The source's table is strictly increasing, so it is an alphabet. */
  lemma EmojiTable()
    ensures IsAlphabet(EMOJI)
  {
    hide Row, Sorted, ROW_0, ROW_1, ROW_2, ROW_3, ROW_4, ROW_5, ROW_6, ROW_7;
    hide ROW_8, ROW_9, ROW_A, ROW_B, ROW_C, ROW_D, ROW_E, ROW_F;
    Rows0();
    Rows1();
    RowIsSorted(ROW_0, '🌀', '🌸');
    var table := ROW_0;
    AppendRow(table, '🌸', ROW_1, '🌹', '🍎'); table := table + ROW_1;
    AppendRow(table, '🍎', ROW_2, '🍐', '🍫'); table := table + ROW_2;
    AppendRow(table, '🍫', ROW_3, '🍬', '🎂'); table := table + ROW_3;
    AppendRow(table, '🎂', ROW_4, '🎃', '🎪'); table := table + ROW_4;
    AppendRow(table, '🎪', ROW_5, '🎬', '🎾'); table := table + ROW_5;
    AppendRow(table, '🎾', ROW_6, '🎿', '🐍'); table := table + ROW_6;
    AppendRow(table, '🐍', ROW_7, '🐎', '🐨'); table := table + ROW_7;
    AppendRow(table, '🐨', ROW_8, '🐩', '🐻'); table := table + ROW_8;
    AppendRow(table, '🐻', ROW_9, '🐼', '👛'); table := table + ROW_9;
    AppendRow(table, '👛', ROW_A, '👞', '💊'); table := table + ROW_A;
    AppendRow(table, '💊', ROW_B, '💋', '💯'); table := table + ROW_B;
    AppendRow(table, '💯', ROW_C, '💰', '📷'); table := table + ROW_C;
    AppendRow(table, '📷', ROW_D, '🔋', '🔱'); table := table + ROW_D;
    AppendRow(table, '🔱', ROW_E, '🗽', '🚌'); table := table + ROW_E;
    AppendRow(table, '🚌', ROW_F, '🚑', '🛁'); table := table + ROW_F;
    SortedIsAlphabet(EMOJI, '🛁');
  }

  lemma SortedIsAlphabet(t: string, last: char)
    requires Sorted(t, last) && |t| == DICT_SIZE && '\U{3000}' < t[0]
    ensures IsAlphabet(t)
  {
  }

  type Alphabet = t: string | IsAlphabet(t) witness (EmojiTable(); EMOJI)

  // ---------------------------------------------------------------------------------------------
  // Bytes as emoji

  function Index(b: byte): (i: nat)
    ensures i < DICT_SIZE
  {
    b as nat
  }

  lemma ByteOfIndex(b: byte, i: nat)
    requires i < DICT_SIZE
    ensures Index(i as byte) == i
    ensures Index(b) == i ==> b == i as byte
  {
    ByteOfNumber(i);
    NumberOfByte(b);
  }

  function Symbol(t: Alphabet, b: byte): char {
    t[Index(b)]
  }

  function Render(t: Alphabet, bytes: seq<byte>): string {
    seq(|bytes|, i requires 0 <= i < |bytes| => Symbol(t, bytes[i]))
  }

  /** Byte b is written as entry b of the table. */
  lemma RenderedAs(t: Alphabet, bytes: seq<byte>)
    ensures |Render(t, bytes)| == |bytes|
    ensures forall i :: 0 <= i < |bytes| ==> Render(t, bytes)[i] == t[bytes[i] as int]
  {
  }

  /** What a complete reverse table is: it holds exactly the symbols, each with its byte. */
  ghost predicate IsReverse(t: Alphabet, m: map<char, byte>) {
    && (forall c :: c in m ==> c == Symbol(t, m[c]))
    && (forall b :: Symbol(t, b) in m && m[Symbol(t, b)] == b)
  }

  method BuildReverseEmoji(t: Alphabet) returns (m: map<char, byte>)
    ensures IsReverse(t, m)
    ensures forall i :: 0 <= i < DICT_SIZE ==> t[i] in m && m[t[i]] as int == i
    ensures forall c :: c in m ==> c in t
  {
    hide Index;
    m := map[];
    for i := 0 to DICT_SIZE
      invariant forall c :: c in m ==> c == Symbol(t, m[c]) && Index(m[c]) < i
      invariant forall b :: Index(b) < i ==> Symbol(t, b) in m && m[Symbol(t, b)] == b
    {
      ByteOfIndex(0, i);
      assert t[i] == Symbol(t, i as byte);
      forall b | Index(b) <= i ensures (Index(b) == i) == (b == i as byte) {
        ByteOfIndex(b, i);
      }
      m := m[t[i] := i as byte];
    }
    forall i | 0 <= i < DICT_SIZE ensures t[i] in m && m[t[i]] as int == i {
      ByteOfNumber(i);
      ReadBack(t, i as byte);
    }
  }

  lemma ReadBack(t: Alphabet, b: byte)
    ensures t[b as int] == Symbol(t, b)
  {
  }

  /** A string does not translate exactly when it holds a character that is not in the table. */
  lemma Untranslatable(t: Alphabet, s: string)
    ensures Translate(t, s).None? <==> exists i :: 0 <= i < |s| && s[i] !in t
  {
    hide Symbol;
    forall c ensures ByteOf(t, c).None? <==> c !in t {
      if c in t {
        var i :| 0 <= i < |t| && t[i] == c;
        ByteOfNumber(i);
        ReadBack(t, i as byte);
      } else if ByteOf(t, c).Some? {
        ReadBack(t, ByteOf(t, c).value);
      }
    }
  }

  ghost function ByteOf(t: Alphabet, c: char): (r: Option<byte>)
    ensures forall b :: r == Some(b) <==> Symbol(t, b) == c
  {
    if b :| Symbol(t, b) == c then Some(b) else None
  }

  /** Each character back to its byte, or nothing if some character is not in the table. */
  ghost function Translate(t: Alphabet, s: string): Option<seq<byte>> {
    if forall i :: 0 <= i < |s| ==> ByteOf(t, s[i]).Some? then
      Some(seq(|s|, i requires 0 <= i < |s| && ByteOf(t, s[i]).Some? => ByteOf(t, s[i]).value))
    else
      None
  }

  lemma TranslateInvertsRender(t: Alphabet, s: string, bytes: seq<byte>)
    ensures Translate(t, s) == Some(bytes) <==> Render(t, bytes) == s
  {
    hide Symbol;
    var r := Render(t, bytes);
    if Translate(t, s) == Some(bytes) {
      assert forall i :: 0 <= i < |s| ==> ByteOf(t, s[i]) == Some(bytes[i]) && r[i] == s[i];
    }
    if r == s {
      assert forall i :: 0 <= i < |s| ==> ByteOf(t, s[i]) == Some(bytes[i]);
      assert Translate(t, s).value == bytes;
    }
  }

  /** The loop both decoders run over the characters of an emoji string. */
  method TranslateSymbols(t: Alphabet, s: string) returns (r: Option<seq<byte>>)
    ensures r == Translate(t, s)
  {
    hide Symbol;
    var reverse := BuildReverseEmoji(t);
    var bytes: seq<byte> := [];
    for i := 0 to |s|
      invariant Render(t, bytes) == s[..i]
    {
      if s[i] in reverse {
        bytes := bytes + [reverse[s[i]]];
      } else {
        assert ByteOf(t, s[i]).None?;
        return None;
      }
    }
    TranslateInvertsRender(t, s, bytes);
    r := Some(bytes);
  }
}

/**
  Emoji IDs of base_layer/common_types/src/emoji.rs: a public key followed by its DammSum checksum,
  written in emoji.
*/
module EmojiId {
  import opened Bytes
  import opened Wrappers
  import opened DammSum
  import opened Emoji
  import opened PublicKeys

  const INTERNAL_SIZE := 32
  const CHECKSUM_SIZE := 1

  datatype EmojiIdError = InvalidSize | InvalidEmoji | InvalidChecksum | CannotRecoverPublicKey

  function ToEmojiString(t: Alphabet, key: PublicKey): string {
    Render(t, key + [Checksum(key)])
  }

  ghost function FromEmojiString(t: Alphabet, curve: Curve, s: string): Result<PublicKey, EmojiIdError> {
    if |s| != INTERNAL_SIZE + CHECKSUM_SIZE then Err(InvalidSize) else
    match Translate(t, s)
    case None => Err(InvalidEmoji)
    case Some(bytes) =>
      if Validate(bytes).Err? then Err(EmojiIdError.InvalidChecksum)
      else if !curve(bytes[..INTERNAL_SIZE]) then Err(CannotRecoverPublicKey)
      else Ok(bytes[..INTERNAL_SIZE])
  }

  method ParseEmojiId(t: Alphabet, curve: Curve, s: string) returns (r: Result<PublicKey, EmojiIdError>)
    ensures r == FromEmojiString(t, curve, s)
  {
    if |s| != INTERNAL_SIZE + CHECKSUM_SIZE {
      return Err(InvalidSize);
    }
    var translated := TranslateSymbols(t, s);
    if translated.None? {
      return Err(InvalidEmoji);
    }
    var bytes := translated.value;
    var checked := ValidateChecksum(bytes);
    if checked.Err? {
      return Err(EmojiIdError.InvalidChecksum);
    }
    bytes := bytes[..|bytes| - 1];
    var key := KeyFromBytes(curve, bytes);
    r := if key.Some? then Ok(key.value) else Err(CannotRecoverPublicKey);
  }

  /** Parsing accepts exactly the strings that printing writes for a key on the curve. */
  lemma EmojiIdExact(t: Alphabet, curve: Curve, s: string, key: PublicKey)
    ensures FromEmojiString(t, curve, s) == Ok(key) <==> curve(key) && ToEmojiString(t, key) == s
  {
    hide Checksum, Fold, Double, Add;
    var full := key + [Checksum(key)];
    TranslateInvertsRender(t, s, full);
    UniqueCompletion(key, Checksum(key));
    if FromEmojiString(t, curve, s) == Ok(key) {
      var bytes := Translate(t, s).value;
      assert bytes == key + [bytes[INTERNAL_SIZE]];
      UniqueCompletion(key, bytes[INTERNAL_SIZE]);
    }
  }

  /** The 33 symbols of an emoji ID: the table's entries for the bytes of the key and for its checksum. */
  lemma EmojiIdSymbols(t: Alphabet, key: PublicKey)
    ensures var s := ToEmojiString(t, key);
            && |s| == 33 && (forall i :: 0 <= i < 32 ==> s[i] == t[key[i] as int])
            && s[32] == t[Polynomial(key) as int]
  {
    hide Checksum, Polynomial, Render;
    ChecksumIsPolynomial(key);
    RenderedAs(t, key + [Checksum(key)]);
  }

  /** When each error is given: by size, by symbols, and by what could have been printed as the string. */
  lemma EmojiIdErrors(t: Alphabet, curve: Curve, s: string)
    ensures var r := FromEmojiString(t, curve, s);
            && (r == Err(InvalidSize) <==> |s| != 33)
            && (r == Err(InvalidEmoji) <==> |s| == 33 && exists i :: 0 <= i < |s| && s[i] !in t)
            && (r == Err(EmojiIdError.InvalidChecksum) <==>
                  && |s| == 33 && (forall i :: 0 <= i < |s| ==> s[i] in t)
                  && forall key: PublicKey :: ToEmojiString(t, key) != s)
            && (r == Err(CannotRecoverPublicKey) <==>
                  exists key: PublicKey :: ToEmojiString(t, key) == s && !curve(key))
  {
    hide ToEmojiString, Validate, Symbol;
    Untranslatable(t, s);
    forall key: PublicKey ensures ToEmojiString(t, key) == s <==> Printed(t, s, key) {
      PrintedExact(t, s, key);
    }
    if |s| == 33 && Translate(t, s).Some? {
      assert Printed(t, s, Translate(t, s).value[..32]) <==> Validate(Translate(t, s).value).Ok?;
    }
  }

  /** The string is in the table, its checksum holds, and its first 32 bytes are the key. */
  ghost predicate Printed(t: Alphabet, s: string, key: PublicKey) {
    |s| == 33 && Translate(t, s).Some? && Validate(Translate(t, s).value).Ok? && Translate(t, s).value[..32] == key
  }

  lemma PrintedExact(t: Alphabet, s: string, key: PublicKey)
    ensures ToEmojiString(t, key) == s <==> Printed(t, s, key)
  {
    EmojiIdExact(t, _ => true, s, key);
  }

  /** Changing one symbol of an emoji ID, to anything, is detected. */
  lemma EmojiIdSubstitution(t: Alphabet, curve: Curve, s: string, i: nat, c: char)
    requires FromEmojiString(t, curve, s).Ok? && i < |s| && c != s[i]
    ensures FromEmojiString(t, curve, s[i := c]) in {Err(InvalidEmoji), Err(EmojiIdError.InvalidChecksum)}
  {
    hide Checksum, Fold, Double, Add;
    var bytes, s' := Translate(t, s).value, s[i := c];
    TranslateInvertsRender(t, s, bytes);
    match Translate(t, s')
    case None =>
    case Some(bytes') =>
      TranslateInvertsRender(t, s', bytes');
      assert bytes' == bytes[i := bytes'[i]] by {
        forall j | 0 <= j < |s| && j != i ensures bytes'[j] == bytes[j] {
          assert s'[j] == s[j];
        }
      }
      assert s'[i] == Symbol(t, bytes'[i]) && s[i] == Symbol(t, bytes[i]);
      SubstitutionDetected(bytes, i, bytes'[i]);
  }

  /** Swapping any two different symbols of an emoji ID is detected. */
  lemma EmojiIdSwap(t: Alphabet, curve: Curve, s: string, i: nat, j: nat)
    requires FromEmojiString(t, curve, s).Ok? && i < j < |s| && s[i] != s[j]
    ensures FromEmojiString(t, curve, s[i := s[j]][j := s[i]]) == Err(EmojiIdError.InvalidChecksum)
  {
    hide Checksum, Fold, Double, Add;
    var bytes, s' := Translate(t, s).value, s[i := s[j]][j := s[i]];
    TranslateInvertsRender(t, s, bytes);
    assert Render(t, Swap(bytes, i, j)) == s' by {
      assert forall k :: 0 <= k < |s| ==> s[k] == Symbol(t, bytes[k]);
    }
    TranslateInvertsRender(t, s', Swap(bytes, i, j));
    SwapDetected(bytes, i, j);
  }
}
