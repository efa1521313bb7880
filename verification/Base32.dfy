/**
 The base32 codec of the second-factor secret (src/lib/auth/totp.ts, section 6 of RFC 4648).

 Two loops over an unmasked 32-bit accumulator, proved equal to the RFC's grouping rule. What
 the codec then promises is in Base32Laws.
 */
module Base32 {
  import opened Bits
  import opened Int32
  import opened Prelude

  type Byte = n: nat | n < 256

  datatype CodecError = NotBase32

  const ALPHABET := "ABCDEFGHIJKLMNOPQRSTUVWXYZ234567"

  // ---------------------------------------------------------------------------
  // The specification: group bits, then look digits up
  // ---------------------------------------------------------------------------

  function Letter(digit: nat): (c: char)
    requires digit < 32
  {
    if digit < 26 then 'A' + digit as char else '2' + (digit - 26) as char
  }

  function Letters(digits: seq<nat>): (s: string)
    requires forall i :: 0 <= i < |digits| ==> digits[i] < 32
    ensures |s| == |digits|
  {
    seq(|digits|, i requires 0 <= i < |digits| => Letter(digits[i]))
  }

  /** Groups of five bits, the last one filled up with zeros on the right. */
  function Quintets(b: seq<bool>): (r: seq<nat>)
    ensures forall i :: 0 <= i < |r| ==> r[i] < 32
    decreases |b|
  {
    Pow2Values();
    if b == [] then []
    else if |b| < 5 then [FromBits(b + Zeros(5 - |b|))]
    else [FromBits(b[..5])] + Quintets(b[5..])
  }

  function Text(b: seq<bool>): string {
    Letters(Quintets(b))
  }

  function Encoded(bytes: seq<Byte>): string {
    Text(Expand(8, bytes))
  }

  /** `ALPHABET.indexOf(c)`, with `None` for -1. */
  function IndexOf(c: char): (r: Option<nat>)
    ensures r.Some? ==> r.value < 32
  {
    if 'A' <= c <= 'Z' then Some((c - 'A') as nat)
    else if '2' <= c <= '7' then Some((c - '2') as nat + 26)
    else None
  }

  lemma LetterIsAlphabetEntry(digit: nat)
    requires digit < 32
    ensures ALPHABET[digit] == Letter(digit)
    ensures IndexOf(ALPHABET[digit]) == Some(digit)
  {
  }

  lemma IndexOfIsAlphabetPosition(c: char)
    ensures IndexOf(c).Some? ==> ALPHABET[IndexOf(c).value] == c
    ensures IndexOf(c).None? <==> c !in ALPHABET
  {
    if IndexOf(c).Some? {
      LetterIsAlphabetEntry(IndexOf(c).value);
    } else if c in ALPHABET {
      var k :| 0 <= k < |ALPHABET| && ALPHABET[k] == c;
      LetterIsAlphabetEntry(k);
    }
  }

  /** What `\s` matches. */
  predicate IsSpace(c: char) {
    c == ' ' || '\U{9}' <= c <= '\U{D}' || c == '\U{A0}' || c == '\U{1680}'
    || '\U{2000}' <= c <= '\U{200A}' || c == '\U{2028}' || c == '\U{2029}' || c == '\U{202F}'
    || c == '\U{205F}' || c == '\U{3000}' || c == '\U{FEFF}'
  }

  predicate IsFiller(c: char) {
    IsSpace(c) || c == '='
  }

  /**
   `toUpperCase` of one character, as far as the alphabet can tell: the characters that become
   letters of it. All others stand for themselves, being outside of it before and after.
   */
  function ToUpper(c: char): (u: string)
    ensures u != ""
  {
    if 'a' <= c <= 'z' then ['A' + (c - 'a')]
    else if c == '\U{DF}' then "SS"
    else if c == '\U{131}' then "I"
    else if c == '\U{17F}' then "S"
    else if c == '\U{FB00}' then "FF"
    else if c == '\U{FB01}' then "FI"
    else if c == '\U{FB02}' then "FL"
    else if c == '\U{FB03}' then "FFI"
    else if c == '\U{FB04}' then "FFL"
    else if c == '\U{FB05}' || c == '\U{FB06}' then "ST"
    else [c]
  }

  function UpperCased(s: string): string {
    if s == "" then "" else ToUpper(s[0]) + UpperCased(s[1..])
  }

  function WithoutFillers(s: string): string {
    if s == "" then ""
    else if IsFiller(s[0]) then WithoutFillers(s[1..])
    else [s[0]] + WithoutFillers(s[1..])
  }

  /** Upper-cased, with blanks and padding dropped. */
  function Clean(s: string): string {
    WithoutFillers(UpperCased(s))
  }

  predicate InAlphabet(s: string) {
    InAlphabetUpTo(s, |s|)
  }

  predicate InAlphabetUpTo(s: string, n: nat)
    requires n <= |s|
  {
    forall i :: 0 <= i < n ==> IndexOf(s[i]).Some?
  }

  lemma OneMoreInAlphabet(s: string, n: nat)
    requires n < |s| && InAlphabetUpTo(s, n)
    ensures IndexOf(s[n]).Some? ==> InAlphabetUpTo(s, n + 1)
    ensures IndexOf(s[n]).None? ==> !InAlphabet(s)
  {
  }

  /** The digit of every character; a character outside the alphabet reads as 0. */
  function Indices(s: string): (r: seq<nat>)
    ensures |r| == |s|
    ensures forall i :: 0 <= i < |r| ==> r[i] < 32
  {
    seq(|s|, i requires 0 <= i < |s| => IndexOf(s[i]).GetOr(0))
  }

  function Octets(b: seq<bool>): (r: seq<Byte>) {
    Pow2Values();
    ChunkBound(8, b);
    Chunk(8, b)
  }

  function Decoded(encoded: string): (r: Result<seq<Byte>, CodecError>) {
    var clean := Clean(encoded);
    if InAlphabet(clean) then Ok(Octets(Expand(5, Indices(clean)))) else Err(NotBase32)
  }

  // ---------------------------------------------------------------------------
  // The loops
  // ---------------------------------------------------------------------------

  /** `(value << 8) | byte` */
  function ShiftInByte(value: int32, byte: Byte): int32 {
    Or(Shl(value, 8), byte)
  }

  /** `(value << 5) | index` */
  function ShiftInQuintet(value: int32, index: nat): int32
    requires index < 32
  {
    Or(Shl(value, 5), index)
  }

  /** `(value >>> k) & 31` */
  function ReadQuintet(value: int32, k: nat): (digit: nat)
    ensures digit < 32
  {
    Ushr(value, k) % 32
  }

  /** `(value >>> k) & 255` */
  function ReadOctet(value: int32, k: nat): Byte {
    Ushr(value, k) % 256
  }

  /** Taking one more digit into the wrapped accumulator leaves the pending bit string as it was. */
  lemma TakeIn(bits: nat, value: int32, xs: seq<nat>, i: nat, k: nat)
    requires bits + k <= 32
    requires i < |xs| && xs[i] < Pow2(k) && xs[i] < 256
    ensures ToBits(bits + k, Or(Shl(value, k), xs[i])) + Expand(k, xs[i + 1..])
         == ToBits(bits, value) + Expand(k, xs[i..])
  {
    ShiftInAppends(bits, value, xs[i], k);
    assert xs[i..][1..] == xs[i + 1..];
    var rest := Expand(k, xs[i + 1..]);
    assert Expand(k, xs[i..]) == ToBits(k, xs[i]) + rest;
    assert ToBits(bits, value) + (ToBits(k, xs[i]) + rest) == (ToBits(bits, value) + ToBits(k, xs[i])) + rest;
  }

  lemma TakeInByte(bits: nat, value: int32, bytes: seq<Byte>, i: nat)
    requires bits <= 24 && i < |bytes|
    ensures ToBits(bits + 8, ShiftInByte(value, bytes[i])) + Expand(8, bytes[i + 1..])
         == ToBits(bits, value) + Expand(8, bytes[i..])
  {
    Pow2Values();
    TakeIn(bits, value, bytes, i, 8);
  }

  lemma TakeInQuintet(bits: nat, value: int32, digits: seq<nat>, i: nat)
    requires bits <= 27 && i < |digits| && digits[i] < 32
    ensures ToBits(bits + 5, ShiftInQuintet(value, digits[i])) + Expand(5, digits[i + 1..])
         == ToBits(bits, value) + Expand(5, digits[i..])
  {
    Pow2Values();
    TakeIn(bits, value, digits, i, 5);
  }

  lemma TextHead(low: seq<bool>, rest: seq<bool>)
    requires |low| >= 5
    ensures FromBits(low[..5]) < 32
    ensures Text(low + rest) == [Letter(FromBits(low[..5]))] + Text(low[5..] + rest)
  {
    Pow2Values();
    var all := low + rest;
    assert all[..5] == low[..5] && all[5..] == low[5..] + rest;
    assert Quintets(all) == [FromBits(low[..5])] + Quintets(low[5..] + rest);
  }

  /** One emitted character: the oldest five pending bits, read out of the wrapped accumulator. */
  lemma EmitQuintet(bits: nat, value: int32, rest: seq<bool>)
    requires 5 <= bits <= 12
    ensures Text(ToBits(bits, value) + rest)
         == [ALPHABET[ReadQuintet(value, bits - 5)]] + Text(ToBits(bits - 5, value) + rest)
  {
    ShiftOutReads(5, bits - 5, value);
    TextHead(ToBits(bits, value), rest);
    LetterIsAlphabetEntry(ReadQuintet(value, bits - 5));
  }

  /** The text still to be written: of the pending bits of the accumulator, and of the rest. */
  ghost function Pending(bits: nat, value: int32, rest: seq<bool>): string {
    Text(ToBits(bits, value) + rest)
  }

  /** One character moves from what is pending to what is written. */
  lemma EncodeStep(output: string, goal: string, bits: nat, value: int32, rest: seq<bool>)
    requires 5 <= bits <= 12 && output + Pending(bits, value, rest) == goal
    ensures (output + [ALPHABET[ReadQuintet(value, bits - 5)]]) + Pending(bits - 5, value, rest) == goal
  {
    EmitQuintet(bits, value, rest);
    Associative(output, [ALPHABET[ReadQuintet(value, bits - 5)]], Pending(bits - 5, value, rest));
  }

  /** The character left over at the end: fewer than five bits, shifted up against zeros. */
  lemma EmitTail(bits: nat, value: int32)
    requires 0 < bits < 5
    ensures Text(ToBits(bits, value)) == [ALPHABET[Shl(value, 5 - bits) % 32]]
  {
    var k := 5 - bits;
    ToBitsAppend(bits, k, value, 0);
    WrapKeepsLowBits(5, Double(value, k));
    ZeroBits(k);
    LowBitsRead(Shl(value, k));
    LetterIsAlphabetEntry(Shl(value, k) % 32);
  }

  lemma EncodeEnds(bits: nat, value: int32, bytes: seq<Byte>)
    ensures Pending(0, value, Expand(8, bytes[0..])) == Encoded(bytes)
    ensures Pending(bits, value, Expand(8, bytes[|bytes|..])) == Text(ToBits(bits, value))
    ensures bits == 0 ==> Text(ToBits(bits, value)) == ""
  {
    assert bytes[0..] == bytes;
    assert [] + Expand(8, bytes) == Expand(8, bytes);
    assert ToBits(bits, value) + [] == ToBits(bits, value);
  }

  method Base32Encode(bytes: seq<Byte>) returns (output: string)
    ensures output == Encoded(bytes)
  {
    var bits: nat := 0;
    var value: int32 := 0;
    ghost var goal := Encoded(bytes);
    output := "";
    EncodeEnds(bits, value, bytes);
    for i := 0 to |bytes|
      invariant bits < 5
      invariant output + Pending(bits, value, Expand(8, bytes[i..])) == goal
    {
      TakeInByte(bits, value, bytes, i);
      ghost var rest := Expand(8, bytes[i + 1..]);
      value := ShiftInByte(value, bytes[i]);
      bits := bits + 8;
      while bits >= 5
        invariant bits <= 12
        invariant output + Pending(bits, value, rest) == goal
      {
        EncodeStep(output, goal, bits, value, rest);
        output := output + [ALPHABET[ReadQuintet(value, bits - 5)]];
        bits := bits - 5;
      }
    }
    EncodeEnds(bits, value, bytes);
    if bits > 0 {
      EmitTail(bits, value);
      output := output + [ALPHABET[Shl(value, 5 - bits) % 32]];
    }
  }

  lemma ChunkHead(low: seq<bool>, rest: seq<bool>)
    requires |low| >= 8
    ensures Chunk(8, low + rest) == [FromBits(low[..8])] + Chunk(8, low[8..] + rest)
  {
    var all := low + rest;
    assert all[..8] == low[..8] && all[8..] == low[8..] + rest;
  }

  lemma EmitOctet(bits: nat, value: int32, rest: seq<bool>)
    requires 8 <= bits <= 12
    ensures Chunk(8, ToBits(bits, value) + rest)
         == [ReadOctet(value, bits - 8)] + Chunk(8, ToBits(bits - 8, value) + rest)
  {
    ShiftOutReads(8, bits - 8, value);
    ChunkHead(ToBits(bits, value), rest);
  }

  /** The bytes still to be written when the loop stands before digit `i`. */
  ghost function Owing(bits: nat, value: int32, digits: seq<nat>, i: nat): seq<nat>
    requires i <= |digits|
  {
    Chunk(8, ToBits(bits, value) + Expand(5, digits[i..]))
  }

  lemma OwingStep(bits: nat, value: int32, digits: seq<nat>, i: nat)
    requires bits < 8 && i < |digits| && digits[i] < 32
    ensures var value' := ShiftInQuintet(value, digits[i]);
            Owing(bits, value, digits, i)
              == if bits < 3 then Owing(bits + 5, value', digits, i + 1)
                 else [ReadOctet(value', bits - 3)] + Owing(bits - 3, value', digits, i + 1)
  {
    TakeInQuintet(bits, value, digits, i);
    if bits >= 3 {
      EmitOctet(bits + 5, ShiftInQuintet(value, digits[i]), Expand(5, digits[i + 1..]));
    }
  }

  /** One turn of the loop: what is written and what is owed stay the same together. */
  lemma DecodeStep(bytes: seq<nat>, goal: seq<nat>, bits: nat, value: int32, digits: seq<nat>, i: nat)
    requires bits < 8 && i < |digits| && digits[i] < 32
    requires bytes + Owing(bits, value, digits, i) == goal
    ensures var value' := ShiftInQuintet(value, digits[i]);
            && (bits < 3 ==> bytes + Owing(bits + 5, value', digits, i + 1) == goal)
            && (bits >= 3 ==> (bytes + [ReadOctet(value', bits - 3)]) + Owing(bits - 3, value', digits, i + 1) == goal)
  {
    OwingStep(bits, value, digits, i);
    if bits >= 3 {
      var value' := ShiftInQuintet(value, digits[i]);
      Associative(bytes, [ReadOctet(value', bits - 3)], Owing(bits - 3, value', digits, i + 1));
    }
  }

  lemma DecodeEnds(bits: nat, value: int32, digits: seq<nat>)
    ensures Owing(0, value, digits, 0) == Chunk(8, Expand(5, digits))
    ensures bits < 8 ==> Owing(bits, value, digits, |digits|) == []
  {
    assert digits[0..] == digits;
    assert [] + Expand(5, digits) == Expand(5, digits);
    assert ToBits(bits, value) + [] == ToBits(bits, value);
  }

  method Base32Decode(encoded: string) returns (r: Result<seq<Byte>, CodecError>)
    ensures r == Decoded(encoded)
  {
    var clean := Clean(encoded);
    var bits: nat := 0;
    var value: int32 := 0;
    var bytes: seq<nat> := [];
    ghost var digits := Indices(clean);
    ghost var goal: seq<nat> := Octets(Expand(5, digits));
    DecodeEnds(bits, value, digits);
    for i := 0 to |clean|
      invariant bits < 8
      invariant InAlphabetUpTo(clean, i)
      invariant bytes + Owing(bits, value, digits, i) == goal
    {
      var index := IndexOf(clean[i]);
      OneMoreInAlphabet(clean, i);
      if index.None? {
        return Err(NotBase32);
      }
      DecodeStep(bytes, goal, bits, value, digits, i);
      value := ShiftInQuintet(value, index.value);
      bits := bits + 5;
      if bits >= 8 {
        bytes := bytes + [ReadOctet(value, bits - 8)];
        bits := bits - 8;
      }
    }
    DecodeEnds(bits, value, digits);
    assert bytes + [] == bytes;
    r := Ok(bytes);
  }
}
