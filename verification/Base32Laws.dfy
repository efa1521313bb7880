/** What the codec promises: round trips, lengths, tolerance, and which texts are canonical. */
module Base32Laws {
  import opened Bits
  import opened Prelude
  import opened Base32
  import opened Base32Facts

  // ---------------------------------------------------------------------------
  // Encoding spreads the bits and nothing else
  // ---------------------------------------------------------------------------

  /** Whatever bytes a secret has, decoding its text gives them back. */
  lemma RoundTrip(bytes: seq<Byte>)
    ensures Decoded(Encoded(bytes)) == Ok(bytes)
  {
    Pow2Values();
    var digits := Quintets(Expand(8, bytes));
    var pad := QuintetsSpread(Expand(8, bytes));
    LettersReadBack(digits);
    CleanKeepsAlphabet(Encoded(bytes));
    ChunkExpand(8, bytes, Zeros(pad));
  }

  /** n bytes are written as ceil(8n/5) characters, all from the alphabet. */
  lemma EncodedShape(bytes: seq<Byte>)
    ensures |Encoded(bytes)| == (8 * |bytes| + 4) / 5
    ensures forall c :: c in Encoded(bytes) ==> c in ALPHABET
  {
    var pad := QuintetsSpread(Expand(8, bytes));
    ExpandLength(8, bytes);
    var digits := Quintets(Expand(8, bytes));
    forall c | c in Encoded(bytes)
      ensures c in ALPHABET
    {
      var k :| 0 <= k < |Encoded(bytes)| && Encoded(bytes)[k] == c;
      LetterIsAlphabetEntry(digits[k]);
    }
  }

  /** Different secrets have different texts. */
  lemma EncodingIsInjective(a: seq<Byte>, b: seq<Byte>)
    requires Encoded(a) == Encoded(b)
    ensures a == b
  {
    RoundTrip(a);
    RoundTrip(b);
  }

  // ---------------------------------------------------------------------------
  // Decoding: what is accepted, and when it can be undone
  // ---------------------------------------------------------------------------

  /**
   Decoding succeeds exactly when every character is readable; then every five bits that a letter
   carries are written out in whole bytes, and what is left over is dropped.
   */
  lemma DecodeAccepts(s: string)
    ensures Decoded(s).Ok? <==> AllReadable(s)
    ensures Decoded(s).Ok? ==> |Decoded(s).value| == 5 * |Clean(s)| / 8
  {
    CleanInAlphabet(s);
    if InAlphabet(Clean(s)) {
      var b := Expand(5, Indices(Clean(s)));
      ExpandLength(5, Indices(Clean(s)));
      ExpandChunk(8, b);
      ExpandLength(8, Chunk(8, b));
    }
  }

  /**
   A text is what the encoder would have written for its own bytes exactly when its spare bits
   are fewer than five and all zero.
   */
  lemma CanonicalText(s: string)
    requires InAlphabet(s)
    ensures Decoded(s).Ok?
    ensures Encoded(Decoded(s).value) == s <==> |Spare(s)| < 5 && Spare(s) == Zeros(|Spare(s)|)
  {
    CleanKeepsAlphabet(s);
    var digits := Indices(s);
    var b := Expand(5, digits);
    var bytes := Octets(b);
    ExpandChunk(8, b);
    var head := Expand(8, bytes);
    var q := Quintets(head);
    var pad := QuintetsSpread(head);
    LettersReadBack(q);
    ExpandLength(5, digits);
    ExpandLength(8, bytes);
    Pow2Values();
    if Encoded(bytes) == s {
      assert q == digits;
      assert head + Spare(s) == head + Zeros(pad);
      assert Spare(s) == (head + Spare(s))[|head|..] == Zeros(pad);
    }
    if |Spare(s)| < 5 && Spare(s) == Zeros(|Spare(s)|) {
      assert 5 * |digits| == |head| + |Spare(s)|;
      assert pad == |Spare(s)|;
      assert Expand(5, q) == b;
      ChunkExpand(5, q, []);
      ChunkExpand(5, digits, []);
      assert b + [] == b;
      assert q == digits;
      SpellsItself(s);
    }
  }

  // ---------------------------------------------------------------------------
  // Typing a secret back in
  // ---------------------------------------------------------------------------

  lemma RetypedDecodes(typed: string, bytes: seq<Byte>)
    requires Retyped(typed, Encoded(bytes))
    ensures Decoded(typed) == Ok(bytes)
  {
    RetypedCleans(typed, Encoded(bytes));
    LettersReadBack(Quintets(Expand(8, bytes)));
    CleanKeepsAlphabet(Encoded(bytes));
    RoundTrip(bytes);
  }

  /** Grouping for manual entry never changes what a text decodes to, whatever the text. */
  lemma FormattingDecodesAlike(s: string)
    ensures Decoded(FormatSecretForEntry(s)) == Decoded(s)
  {
    CleanGrouped(s);
    CleanTrimStart(Grouped(s));
    CleanTrimEnd(TrimStart(Grouped(s)));
  }

  function Bit(b: bool): nat {
    if b then 1 else 0
  }

  lemma FiveBits(b: seq<bool>)
    requires |b| == 5
    ensures FromBits(b) == 16 * Bit(b[0]) + 8 * Bit(b[1]) + 4 * Bit(b[2]) + 2 * Bit(b[3]) + Bit(b[4])
  {
    assert b[..4][..3] == b[..3] && b[..3][..2] == b[..2] && b[..2][..1] == b[..1] && b[..1][..0] == [];
    assert FromBits(b[..1]) == Bit(b[0]);
    assert FromBits(b[..2]) == 2 * FromBits(b[..1]) + Bit(b[1]);
    assert FromBits(b[..3]) == 2 * FromBits(b[..2]) + Bit(b[2]);
    assert FromBits(b[..4]) == 2 * FromBits(b[..3]) + Bit(b[3]);
  }

  lemma TwoQuintets(b: seq<bool>)
    requires |b| == 8
    ensures Quintets(b) == [FromBits(b[..5]), FromBits(b[5..] + Zeros(2))]
  {
    assert Quintets(b[5..]) == [FromBits(b[5..] + Zeros(2))];
  }

  lemma BitsOfF()
    ensures ToBits(8, 0x66) == [false, true, true, false, false, true, true, false]
  {
    assert ToBits(4, 6) == [false, true, true, false];
  }

  /** The second test vector of section 10 of RFC 4648, padding aside: "f". */
  lemma Rfc4648Example()
    ensures Encoded([0x66]) == "MY"
  {
    var b := ToBits(8, 0x66);
    assert Expand(8, [0x66]) == b + [];
    assert b + [] == b;
    BitsOfF();
    TwoQuintets(b);
    FiveBits(b[..5]);
    FiveBits(b[5..] + Zeros(2));
    assert Quintets(b) == [12, 24];
  }
}
