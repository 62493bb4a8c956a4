/** Unpadded URL-safe base64 (sections 3.2 and 5 of RFC 4648) as Go's base64.RawURLEncoding
    implements it: the decoder skips line breaks and accepts non-zero trailing bits. */
module Base64Url {
  import opened Text

  type Byte = b: int | 0 <= b < 256
  type Sextet = s: int | 0 <= s < 64

  // ---- The alphabet of section 5 ----

  function Letter(s: Sextet): char {
    if s < 26 then ('A' as int + s) as char
    else if s < 52 then ('a' as int + s - 26) as char
    else if s < 62 then ('0' as int + s - 52) as char
    else if s == 62 then '-'
    else '_'
  }

  predicate InAlphabet(c: char) {
    'A' <= c <= 'Z' || 'a' <= c <= 'z' || '0' <= c <= '9' || c == '-' || c == '_'
  }

  function Value(c: char): Sextet
    requires InAlphabet(c)
  {
    if 'A' <= c <= 'Z' then c as int - 'A' as int
    else if 'a' <= c <= 'z' then c as int - 'a' as int + 26
    else if '0' <= c <= '9' then c as int - '0' as int + 52
    else if c == '-' then 62
    else 63
  }

  // ---- Bytes and sextets ----

  function Pack(bytes: seq<Byte>): seq<Sextet> {
    if |bytes| == 0 then []
    else if |bytes| == 1 then [bytes[0] / 4, bytes[0] % 4 * 16]
    else if |bytes| == 2 then [bytes[0] / 4, bytes[0] % 4 * 16 + bytes[1] / 16, bytes[1] % 16 * 4]
    else [bytes[0] / 4, bytes[0] % 4 * 16 + bytes[1] / 16, bytes[1] % 16 * 4 + bytes[2] / 64, bytes[2] % 64]
         + Pack(bytes[3..])
  }

  // The three bytes that four sextets carry.
  function First(a: int, b: int): int { a * 4 + b / 16 }
  function Second(b: int, c: int): int { b % 16 * 16 + c / 4 }
  function Third(c: int, d: int): int { c % 4 * 64 + d }

  function Unpack(s: seq<Sextet>): Option<seq<Byte>> {
    if |s| == 0 then Some([])
    else if |s| == 1 then None
    else if |s| == 2 then Some([First(s[0], s[1])])
    else if |s| == 3 then Some([First(s[0], s[1]), Second(s[1], s[2])])
    else
      match Unpack(s[4..])
      case None => None
      case Some(rest) => Some([First(s[0], s[1]), Second(s[1], s[2]), Third(s[2], s[3])] + rest)
  }

  function Spell(s: seq<Sextet>): (text: string)
    ensures |text| == |s| && forall i :: 0 <= i < |s| ==> text[i] == Letter(s[i])
  {
    seq(|s|, i requires 0 <= i < |s| => Letter(s[i]))
  }

  function Read(text: string): (s: seq<Sextet>)
    requires forall c :: c in text ==> InAlphabet(c)
    ensures |s| == |text| && forall i :: 0 <= i < |s| ==> s[i] == Value(text[i])
  {
    seq(|text|, i requires 0 <= i < |text| => assert text[i] in text; Value(text[i]))
  }

  /** The decoder ignores carriage returns and line feeds anywhere in its input. */
  function DropLineBreaks(text: string): string {
    if text == "" then ""
    else if text[0] == '\n' || text[0] == '\r' then DropLineBreaks(text[1..])
    else [text[0]] + DropLineBreaks(text[1..])
  }

  /** RawURLEncoding.EncodeToString. */
  function Encode(bytes: seq<Byte>): string {
    Spell(Pack(bytes))
  }

  /** RawURLEncoding.DecodeString. */
  function Decode(text: string): Option<seq<Byte>> {
    var kept := DropLineBreaks(text);
    if forall c :: c in kept ==> InAlphabet(c) then Unpack(Read(kept)) else None
  }

  /** decodeCanonicalBase64: what decodes must also be what the encoder writes. */
  function DecodeCanonical(text: string): Option<seq<Byte>> {
    match Decode(text)
    case None => None
    case Some(bytes) => if Encode(bytes) == text then Some(bytes) else None
  }

  // ---- Round trip ----

  lemma {:induction false} UnpackPack(bytes: seq<Byte>)
    ensures Unpack(Pack(bytes)) == Some(bytes)
  {
    if |bytes| >= 3 {
      var s := Pack(bytes);
      assert s[4..] == Pack(bytes[3..]);
      UnpackPack(bytes[3..]);
      assert First(s[0], s[1]) == bytes[0];
      assert Second(s[1], s[2]) == bytes[1];
      assert Third(s[2], s[3]) == bytes[2];
      assert bytes == [bytes[0], bytes[1], bytes[2]] + bytes[3..];
    } else if |bytes| == 2 {
      assert bytes == [bytes[0], bytes[1]];
    } else if |bytes| == 1 {
      assert bytes == [bytes[0]];
    }
  }

  lemma SpellReads(s: seq<Sextet>)
    ensures forall c :: c in Spell(s) ==> InAlphabet(c)
    ensures Read(Spell(s)) == s
  {
    var text := Spell(s);
    forall i | 0 <= i < |s| ensures InAlphabet(text[i]) && Value(text[i]) == s[i] {
      assert text[i] == Letter(s[i]);
    }
  }

  lemma {:induction false} AlphabetKept(text: string)
    requires forall c :: c in text ==> InAlphabet(c)
    ensures DropLineBreaks(text) == text
  {
    if text != "" {
      assert text[0] in text;
      AlphabetKept(text[1..]);
    }
  }

  /** Decoding undoes encoding. */
  lemma DecodeEncode(bytes: seq<Byte>)
    ensures Decode(Encode(bytes)) == Some(bytes)
  {
    SpellReads(Pack(bytes));
    AlphabetKept(Encode(bytes));
    UnpackPack(bytes);
  }

  lemma EncodeInjective(a: seq<Byte>, b: seq<Byte>)
    requires Encode(a) == Encode(b)
    ensures a == b
  {
    DecodeEncode(a);
    DecodeEncode(b);
  }

  /** Encoded text holds only the 64 letters: in particular no dot, slash, colon or NUL. */
  lemma EncodedLetters(bytes: seq<Byte>)
    ensures forall c :: c in Encode(bytes) ==> InAlphabet(c)
    ensures '.' !in Encode(bytes)
    ensures bytes != [] ==> Encode(bytes) != ""
  {
    SpellReads(Pack(bytes));
  }

  // ---- Canonical form, section 3.5 ----

  /** The syntactic form: letters only, no lone final letter, unused trailing bits zero. */
  predicate CanonicalForm(text: string) {
    && (forall c :: c in text ==> InAlphabet(c))
    && |text| % 4 != 1
    && (|text| % 4 == 2 ==> Value(text[|text| - 1]) % 16 == 0)
    && (|text| % 4 == 3 ==> Value(text[|text| - 1]) % 4 == 0)
  }

  predicate ZeroTail(s: seq<Sextet>) {
    && |s| % 4 != 1
    && (|s| % 4 == 2 ==> s[|s| - 1] % 16 == 0)
    && (|s| % 4 == 3 ==> s[|s| - 1] % 4 == 0)
  }

  lemma {:induction false} PackZeroTail(bytes: seq<Byte>)
    ensures ZeroTail(Pack(bytes))
  {
    if |bytes| >= 3 {
      PackZeroTail(bytes[3..]);
      var rest := Pack(bytes[3..]);
      var s := Pack(bytes);
      assert |s| == 4 + |rest|;
      assert rest != [] ==> s[|s| - 1] == rest[|rest| - 1];
    }
  }

  lemma {:induction false} PackUnpack(s: seq<Sextet>)
    requires ZeroTail(s)
    ensures Unpack(s).Some? && Pack(Unpack(s).value) == s
  {
    if |s| >= 4 {
      assert |s| > 4 ==> s[4..][|s[4..]| - 1] == s[|s| - 1];
      PackUnpack(s[4..]);
      var bytes := Unpack(s).value;
      assert bytes[3..] == Unpack(s[4..]).value;
      FirstPair(s[0], s[1]);
      MiddlePair(s[0], s[1], s[2]);
      LastPair(s[1], s[2], s[3]);
      assert s == s[..4] + s[4..];
    } else {
      PackUnpackShort(s);
    }
  }

  lemma PackUnpackShort(s: seq<Sextet>)
    requires ZeroTail(s) && |s| < 4
    ensures Unpack(s).Some? && Pack(Unpack(s).value) == s
  {
    if |s| == 3 {
      FirstPair(s[0], s[1]);
      MiddlePair(s[0], s[1], s[2]);
    } else if |s| == 2 {
      FirstPair(s[0], s[1]);
    }
  }

  // What the bytes carried by sextets hold of each of them.

  lemma FirstPair(a: Sextet, b: Sextet)
    ensures First(a, b) / 4 == a && First(a, b) % 4 * 16 == b - b % 16
  {
  }

  lemma MiddlePair(a: Sextet, b: Sextet, c: Sextet)
    ensures First(a, b) % 4 * 16 + Second(b, c) / 16 == b && Second(b, c) % 16 * 4 == c - c % 4
  {
  }

  lemma LastPair(b: Sextet, c: Sextet, d: Sextet)
    ensures Second(b, c) % 16 * 4 + Third(c, d) / 64 == c && Third(c, d) % 64 == d
  {
  }

  /** The canonical decoder accepts exactly the encoder's image, which is exactly the canonical
      form; on it, text and bytes are in bijection. */
  lemma CanonicalExactly(text: string)
    ensures forall bytes :: DecodeCanonical(text) == Some(bytes) <==> Encode(bytes) == text
    ensures DecodeCanonical(text).Some? <==> CanonicalForm(text)
  {
    forall bytes ensures DecodeCanonical(text) == Some(bytes) <==> Encode(bytes) == text {
      DecodeEncode(bytes);
    }
    if DecodeCanonical(text).Some? {
      EncodedIsCanonical(DecodeCanonical(text).value);
    }
    if CanonicalForm(text) {
      CanonicalDecodes(text);
    }
  }

  lemma EncodedIsCanonical(bytes: seq<Byte>)
    ensures CanonicalForm(Encode(bytes))
  {
    PackZeroTail(bytes);
    SpellReads(Pack(bytes));
  }

  lemma CanonicalDecodes(text: string)
    requires CanonicalForm(text)
    ensures DecodeCanonical(text).Some?
  {
    AlphabetKept(text);
    PackUnpack(Read(text));
    SpellOfRead(text);
  }

  lemma SpellOfRead(text: string)
    requires forall c :: c in text ==> InAlphabet(c)
    ensures Spell(Read(text)) == text
  {
    forall i | 0 <= i < |text| ensures Letter(Value(text[i])) == text[i] {
      assert text[i] in text;
    }
  }

  // ---- The standard's own table and examples ----

  /** Capital letters, small letters, digits, hyphen and underscore, each range in order. */
  lemma AlphabetIsStandard(s: Sextet)
    ensures Letter(0) == 'A' && Letter(25) == 'Z' && Letter(26) == 'a' && Letter(51) == 'z'
    ensures Letter(52) == '0' && Letter(61) == '9' && Letter(62) == '-' && Letter(63) == '_'
    ensures s < 61 && s != 25 && s != 51 ==> Letter(s + 1) as int == Letter(s) as int + 1
  {
  }

  /** Section 10 of RFC 4648, without padding. */
  lemma StandardExamples()
    ensures Encode([]) == "" && Encode([102]) == "Zg" && Encode([102, 111]) == "Zm8"
    ensures Encode([102, 111, 111]) == "Zm9v"
  {
    assert Pack([102]) == [25, 32];
    assert Pack([102, 111]) == [25, 38, 60];
    assert [102, 111, 111][3..] == [];
    assert Pack([102, 111, 111]) == [25, 38, 61, 47];
  }
}
