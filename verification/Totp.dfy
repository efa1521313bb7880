/** One-time passwords (src/lib/auth/totp.ts). */
module Totp {
  // Truncation is section 5.3 of RFC 4226, the one-step window and the replay guard section 5.2 of
  // RFC 6238. HMAC-SHA1 is a parameter.

  import opened Prelude
  import opened Base32
  import opened Bits

  const TOTP_STEP_MS := 30_000
  const WINDOW_STEPS := 1

  /** Any keyed digest of twenty bytes. */
  type Hmac = h: (seq<Byte>, seq<Byte>) -> seq<Byte> | forall k, m :: |h(k, m)| == 20
    witness ((k: seq<Byte>, m: seq<Byte>) => seq(20, _ => 0))

  datatype HotpError = BadSecret | CounterOutOfRange

  // ---------------------------------------------------------------------------
  // HOTP
  // ---------------------------------------------------------------------------

  function TotpStep(atMs: int): int {
    atMs / TOTP_STEP_MS
  }

  function BigEndian(bytes: seq<Byte>): (n: nat) {
    if bytes == [] then 0 else 256 * BigEndian(bytes[..|bytes| - 1]) + bytes[|bytes| - 1]
  }

  /** The four bytes `writeUInt32BE` stores. */
  function UInt32BE(n: nat): (r: seq<Byte>)
    requires n < 0x1_0000_0000
    ensures |r| == 4
  {
    [n / 0x100_0000, n / 0x1_0000 % 256, n / 256 % 256, n % 256]
  }

  function CounterMessage(counter: nat): (r: seq<Byte>)
    requires counter < 0x1_0000_0000_0000_0000
    ensures |r| == 8
  {
    UInt32BE(counter / 0x1_0000_0000) + UInt32BE(counter % 0x1_0000_0000)
  }

  /** Four bytes put together with shifts and ORs. */
  function Word(w: seq<nat>): nat
    requires |w| == 4
  {
    w[0] * 0x100_0000 + w[1] * 0x1_0000 + w[2] * 256 + w[3]
  }

  /** Where the truncation reads: the low nibble of the last byte. */
  function TruncationOffset(digest: seq<Byte>): (offset: nat)
    requires |digest| == 20
    ensures offset + 3 < |digest|
  {
    digest[|digest| - 1] % 16
  }

  /** The four bytes at the offset, the top bit masked off. */
  function Truncated(digest: seq<Byte>): nat
    requires |digest| == 20
  {
    var o := TruncationOffset(digest);
    Word([digest[o] % 128, digest[o + 1], digest[o + 2], digest[o + 3]])
  }

  function DigitChar(d: nat): char
    requires d < 10
  {
    '0' + d as char
  }

  function Decimal(n: nat): (s: string)
    ensures s != ""
  {
    if n < 10 then [DigitChar(n)] else Decimal(n / 10) + [DigitChar(n % 10)]
  }

  function PadStart(s: string, width: nat): string
    decreases width - |s|
  {
    if |s| >= width then s else PadStart("0" + s, width)
  }

  function Hotp(h: Hmac, secret: string, counter: int): Result<string, HotpError> {
    match Decoded(secret)
    case Err(_) => Err(BadSecret)
    case Ok(key) =>
      if counter < 0 || counter >= 0x1_0000_0000_0000_0000 then Err(CounterOutOfRange)
      else Ok(PadStart(Decimal(Truncated(h(key, CounterMessage(counter))) % 1_000_000), 6))
  }

  method WriteUInt32BE(buffer: array<Byte>, n: nat, at: nat)
    requires at + 4 <= buffer.Length && n < 0x1_0000_0000
    modifies buffer
    ensures buffer[at..at + 4] == UInt32BE(n)
    ensures forall i :: 0 <= i < buffer.Length && !(at <= i < at + 4) ==> buffer[i] == old(buffer[i])
  {
    buffer[at] := n / 0x100_0000;
    buffer[at + 1] := n / 0x1_0000 % 256;
    buffer[at + 2] := n / 256 % 256;
    buffer[at + 3] := n % 256;
  }

  /** `Buffer.alloc(8)` with the counter written in as two words. */
  method CounterBuffer(counter: nat) returns (message: array<Byte>)
    requires counter < 0x1_0000_0000_0000_0000
    ensures fresh(message) && message[..] == CounterMessage(counter)
  {
    message := new Byte[8](_ => 0);
    WriteUInt32BE(message, counter / 0x1_0000_0000, 0);
    ghost var high := message[0..4];
    WriteUInt32BE(message, counter % 0x1_0000_0000, 4);
    assert message[0..4] == high;
    assert message[..] == message[0..4] + message[4..8];
  }

  method HotpCode(h: Hmac, secret: string, counter: int) returns (code: Result<string, HotpError>)
    ensures code == Hotp(h, secret, counter)
  {
    var key := Base32Decode(secret);
    if key.Err? {
      return Err(BadSecret);
    }
    if counter < 0 || counter >= 0x1_0000_0000_0000_0000 {
      return Err(CounterOutOfRange);
    }
    var message := CounterBuffer(counter);
    var digest := h(key.value, message[..]);
    var offset := TruncationOffset(digest);
    var binary := Word([digest[offset] % 128, digest[offset + 1], digest[offset + 2], digest[offset + 3]]);
    code := Ok(PadStart(Decimal(binary % 1_000_000), 6));
  }

  /** The counter is recoverable from the message, so no two counters share one. */
  lemma CounterMessageReads(counter: nat)
    requires counter < 0x1_0000_0000_0000_0000
    ensures BigEndian(CounterMessage(counter)) == counter
  {
    var hi, lo := counter / 0x1_0000_0000, counter % 0x1_0000_0000;
    BigEndianWord([], hi);
    assert [] + UInt32BE(hi) == UInt32BE(hi);
    BigEndianWord(UInt32BE(hi), lo);
  }

  lemma BigEndianWord(front: seq<Byte>, n: nat)
    requires n < 0x1_0000_0000
    ensures BigEndian(front + UInt32BE(n)) == BigEndian(front) * 0x1_0000_0000 + n
  {
    BigEndianFour(front, UInt32BE(n));
    UInt32BESum(n);
  }

  lemma UInt32BESum(n: nat)
    requires n < 0x1_0000_0000
    ensures Word(UInt32BE(n)) == n
  {
    assert n / 0x1_0000 == n / 256 / 256 && n / 0x100_0000 == n / 256 / 256 / 256;
  }

  lemma BigEndianFour(front: seq<Byte>, w: seq<Byte>)
    requires |w| == 4
    ensures BigEndian(front + w) == BigEndian(front) * 0x1_0000_0000 + Word(w)
  {
    BigEndianSnoc(front, w[0]);
    BigEndianSnoc(front + [w[0]], w[1]);
    BigEndianSnoc(front + [w[0]] + [w[1]], w[2]);
    BigEndianSnoc(front + [w[0]] + [w[1]] + [w[2]], w[3]);
    assert front + [w[0]] + [w[1]] + [w[2]] + [w[3]] == front + w;
  }

  lemma BigEndianSnoc(front: seq<Byte>, b: Byte)
    ensures BigEndian(front + [b]) == 256 * BigEndian(front) + b
  {
    assert (front + [b])[..|front|] == front;
  }

  /** Dynamic truncation stays inside the digest and is the RFC's 31-bit big-endian number. */
  lemma TruncationIs31Bits(digest: seq<Byte>)
    requires |digest| == 20
    ensures TruncationOffset(digest) + 4 <= 20
    ensures Truncated(digest) == BigEndian(digest[TruncationOffset(digest)..TruncationOffset(digest) + 4]) % 0x8000_0000
  {
    var o := TruncationOffset(digest);
    var w := digest[o..o + 4];
    BigEndianFour([], w);
    assert [] + w == w;
  }

  // ---------------------------------------------------------------------------
  // Six digits
  // ---------------------------------------------------------------------------

  predicate IsDigit(c: char) {
    '0' <= c <= '9'
  }

  predicate AllDigits(s: string) {
    forall i :: 0 <= i < |s| ==> IsDigit(s[i])
  }

  function DecimalValue(s: string): nat
    requires AllDigits(s)
  {
    if s == "" then 0 else 10 * DecimalValue(s[..|s| - 1]) + (s[|s| - 1] - '0') as nat
  }

  lemma {:induction false} DecimalReads(n: nat, width: nat)
    requires width >= 1 && n < Pow10(width)
    ensures |Decimal(n)| <= width && AllDigits(Decimal(n)) && DecimalValue(Decimal(n)) == n
  {
    assert Pow10(1) == 10;
    if n >= 10 {
      DecimalReads(n / 10, width - 1);
      var s := Decimal(n);
      assert s[..|s| - 1] == Decimal(n / 10);
    }
  }

  function Pow10(k: nat): nat {
    if k == 0 then 1 else 10 * Pow10(k - 1)
  }

  lemma {:induction false} PadStartReads(s: string, width: nat)
    requires AllDigits(s) && |s| <= width
    ensures |PadStart(s, width)| == width && AllDigits(PadStart(s, width))
    ensures DecimalValue(PadStart(s, width)) == DecimalValue(s)
    decreases width - |s|
  {
    if |s| < width {
      PrependZero(s);
      PadStartReads("0" + s, width);
    }
  }

  lemma {:induction false} PrependZero(s: string)
    requires AllDigits(s)
    ensures AllDigits("0" + s) && DecimalValue("0" + s) == DecimalValue(s)
  {
    var t := "0" + s;
    if s == "" {
      assert t == "0";
      assert DecimalValue(t[..0]) == 0;
    } else {
      PrependZero(s[..|s| - 1]);
      assert t[..|t| - 1] == "0" + s[..|s| - 1];
    }
  }

  /** Every code is exactly six digits and spells the truncation modulo a million. */
  lemma HotpIsSixDigits(h: Hmac, secret: string, counter: int)
    requires Hotp(h, secret, counter).Ok?
    ensures var code := Hotp(h, secret, counter).value;
            && IsSixDigits(code)
            && DecimalValue(code) == Truncated(h(Decoded(secret).value, CounterMessage(counter))) % 1_000_000
  {
    var n := Truncated(h(Decoded(secret).value, CounterMessage(counter))) % 1_000_000;
    assert Pow10(3) == 1000;
    assert Pow10(6) == 1_000_000;
    DecimalReads(n, 6);
    PadStartReads(Decimal(n), 6);
  }

  // ---------------------------------------------------------------------------
  // Section 5.3 of RFC 4226, in its own terms
  // ---------------------------------------------------------------------------

  lemma {:induction false} BigEndianIsInjective(a: seq<Byte>, b: seq<Byte>)
    requires |a| == |b| && BigEndian(a) == BigEndian(b)
    ensures a == b
  {
    if a != [] {
      var i, j := a[..|a| - 1], b[..|b| - 1];
      BigEndianIsInjective(i, j);
      assert a == i + [a[|a| - 1]] && b == j + [b[|b| - 1]];
    }
  }

  lemma LowNibble(b: Byte, o: nat)
    requires o < 16 && ToBits(4, b) == ToBits(4, o)
    ensures b % 16 == o
  {
    assert Pow2(4) == 16;
    var q := b / 16;
    assert b == o + Double(q, 4) || b % 16 != o by {
      Double4(q);
    }
    FromToBits(4, o);
    ToBitsOfMultiple(4, 4, b % 16, q);
    Double4(q);
    assert b % 16 + Double(q, 4) == b;
    FromToBits(4, b % 16);
  }

  /** A code exists exactly for a secret that decodes and a counter of 64 bits. */
  lemma HotpExists(h: Hmac, secret: string, counter: int)
    ensures Hotp(h, secret, counter).Ok? <==>
            Decoded(secret).Ok? && 0 <= counter < 0x1_0000_0000_0000_0000
    ensures Hotp(h, secret, counter) == Err(BadSecret) <==> Decoded(secret).Err?
  {
  }

  /**
   The code is read where the low four bits of the digest's last byte point: the four bytes there,
   big-endian, without the top bit, modulo a million. The digest is that of the counter's eight bytes.
   */
  lemma HotpReadsAtNibble(h: Hmac, secret: string, counter: int, message: seq<Byte>, o: nat, w: seq<Byte>)
    requires Decoded(secret).Ok? && 0 <= counter && |message| == 8 && BigEndian(message) == counter
    requires var digest := h(Decoded(secret).value, message);
             o < 16 && ToBits(4, digest[19]) == ToBits(4, o) && digest[o..o + 4] == w
    ensures var code := Hotp(h, secret, counter);
            code.Ok? && IsSixDigits(code.value) && DecimalValue(code.value) == BigEndian(w) % 0x8000_0000 % 1_000_000
  {
    EightBytes(message);
    CounterMessageReads(counter);
    BigEndianIsInjective(message, CounterMessage(counter));
    var digest := h(Decoded(secret).value, message);
    LowNibble(digest[19], o);
    TruncationIs31Bits(digest);
    HotpIsSixDigits(h, secret, counter);
  }

  lemma EightBytes(message: seq<Byte>)
    requires |message| == 8
    ensures BigEndian(message) < 0x1_0000_0000_0000_0000
  {
    var front, back := message[..4], message[4..];
    assert message == front + back;
    BigEndianFour(front, back);
    BigEndianFour([], front);
    assert [] + front == front;
  }

  /** The digest of the first example in appendix D of RFC 4226, and its code. */
  lemma Rfc4226Example(h: Hmac, secret: string)
    requires Decoded(secret).Ok?
    requires h(Decoded(secret).value, [0, 0, 0, 0, 0, 0, 0, 0]) ==
             [0xcc, 0x93, 0xcf, 0x18, 0x50, 0x8d, 0x94, 0x93, 0x4c, 0x64,
              0xb6, 0x5d, 0x8b, 0xa7, 0x66, 0x7f, 0xb7, 0xcd, 0xe4, 0xb0]
    ensures Hotp(h, secret, 0) == Ok("755224")
  {
    var digest := h(Decoded(secret).value, CounterMessage(0));
    assert CounterMessage(0) == [0, 0, 0, 0, 0, 0, 0, 0];
    assert Truncated(digest) == 1284755224;
    SixDigitsSpelled(755224);
  }

  lemma SixDigitsSpelled(n: nat)
    requires n == 755224
    ensures PadStart(Decimal(n), 6) == "755224"
  {
    assert Decimal(755) == "755";
    assert Decimal(755224) == "755" + "224" by {
      assert Decimal(7552) == Decimal(755) + "2";
      assert Decimal(75522) == Decimal(7552) + "2";
      assert Decimal(755224) == Decimal(75522) + "4";
    }
  }

  // ---------------------------------------------------------------------------
  // Steps
  // ---------------------------------------------------------------------------

  /** Step `k` is the thirty seconds from `30 k` seconds on, before 1970 too. */
  lemma StepIsThirtySeconds(atMs: int, k: int)
    ensures TotpStep(atMs) == k <==> 30_000 * k <= atMs < 30_000 * k + 30_000
  {
  }

  // ---------------------------------------------------------------------------
  // The verdict
  // ---------------------------------------------------------------------------

  datatype Verdict = Accepted(step: int) | Malformed | Wrong | Replayed

  /** `submitted.replace(/\s/g, '')` */
  function StripSpaces(s: string): string {
    if s == "" then "" else if IsSpace(s[0]) then StripSpaces(s[1..]) else [s[0]] + StripSpaces(s[1..])
  }

  predicate IsSixDigits(s: string) {
    |s| == 6 && AllDigits(s)
  }

  predicate Spent(lastStep: Option<int>, step: int) {
    lastStep.Some? && step <= lastStep.value
  }

  /** What the authenticator shows at every step. */
  type Codes = int -> Result<string, HotpError>

  function CodesOf(h: Hmac, secret: string): Codes {
    (step: int) => Hotp(h, secret, step)
  }

  /** The window read from `step` on: the first step that matches decides, one way or the other. */
  function Scan(codes: Codes, cleaned: string, lastStep: Option<int>, step: int, end: int)
    : Result<Verdict, HotpError>
    decreases end - step
  {
    if step > end then Ok(Wrong)
    else if step < 0 then Scan(codes, cleaned, lastStep, step + 1, end)
    else
      match codes(step)
      case Err(e) => Err(e)
      case Ok(code) =>
        if code != cleaned then Scan(codes, cleaned, lastStep, step + 1, end)
        else if Spent(lastStep, step) then Ok(Replayed)
        else Ok(Accepted(step))
  }

  function Judge(codes: Codes, submitted: string, atMs: int, lastStep: Option<int>): Result<Verdict, HotpError> {
    var cleaned := StripSpaces(submitted);
    if !IsSixDigits(cleaned) then Ok(Malformed)
    else Scan(codes, cleaned, lastStep, TotpStep(atMs) - WINDOW_STEPS, TotpStep(atMs) + WINDOW_STEPS)
  }

  method VerifyTotp(h: Hmac, secret: string, submitted: string, atMs: int, lastStep: Option<int>)
    returns (r: Result<Verdict, HotpError>)
    ensures r == Judge(CodesOf(h, secret), submitted, atMs, lastStep)
  {
    var cleaned := StripSpaces(submitted);
    if !IsSixDigits(cleaned) {
      return Ok(Malformed);
    }
    var now := TotpStep(atMs);
    ghost var codes, end := CodesOf(h, secret), now + WINDOW_STEPS;
    ghost var verdict := Judge(codes, submitted, atMs, lastStep);
    var offset := -WINDOW_STEPS;
    while offset <= WINDOW_STEPS
      invariant -WINDOW_STEPS <= offset <= WINDOW_STEPS + 1
      invariant verdict == Scan(codes, cleaned, lastStep, now + offset, end)
    {
      var step := now + offset;
      if step >= 0 {
        var code := HotpCode(h, secret, step);
        assert code == codes(step);
        if code.Err? {
          return Err(code.error);
        }
        if code.value == cleaned {
          if lastStep.Some? && step <= lastStep.value {
            return Ok(Replayed);
          }
          return Ok(Accepted(step));
        }
      }
      offset := offset + 1;
    }
    r := Ok(Wrong);
  }

  lemma {:induction false} BlankIsStripped(a: string, c: char, b: string)
    requires IsSpace(c)
    ensures StripSpaces(a + [c] + b) == StripSpaces(a + b)
  {
    if a == "" {
      assert "" + [c] + b == [c] + b && ([c] + b)[1..] == b && "" + b == b;
    } else {
      assert (a + [c] + b)[1..] == a[1..] + [c] + b && (a + b)[1..] == a[1..] + b;
      BlankIsStripped(a[1..], c, b);
    }
  }

  lemma {:induction false} NothingIsStripped(s: string)
    requires forall c :: c in s ==> !IsSpace(c)
    ensures StripSpaces(s) == s
  {
    if s != "" {
      NothingIsStripped(s[1..]);
    }
  }

  /** A blank typed anywhere makes no difference; what has none is malformed exactly unless it is six digits. */
  lemma BlanksMakeNoDifference(codes: Codes, a: string, c: char, b: string, atMs: int, lastStep: Option<int>)
    requires IsSpace(c)
    ensures Judge(codes, a + [c] + b, atMs, lastStep) == Judge(codes, a + b, atMs, lastStep)
    ensures (forall d :: d in a ==> !IsSpace(d)) ==>
              (Judge(codes, a, atMs, lastStep) == Ok(Malformed) <==>
                |a| != 6 || exists i :: 0 <= i < |a| && !('0' <= a[i] <= '9'))
  {
    BlankIsStripped(a, c, b);
    if forall d :: d in a ==> !IsSpace(d) {
      NothingIsStripped(a);
      var from, end := TotpStep(atMs) - WINDOW_STEPS, TotpStep(atMs) + WINDOW_STEPS;
      ScanIsNotMalformed(codes, a, lastStep, from, end);
    }
  }

  lemma {:induction false} ScanIsNotMalformed(codes: Codes, cleaned: string, lastStep: Option<int>, from: int, end: int)
    ensures Scan(codes, cleaned, lastStep, from, end) != Ok(Malformed)
    decreases end - from
  {
    if from <= end {
      ScanIsNotMalformed(codes, cleaned, lastStep, from + 1, end);
    }
  }

  /** `step` lies in `from..end`, shows the code, and every earlier step of the range shows another. */
  ghost predicate FirstMatch(codes: Codes, cleaned: string, from: int, end: int, step: int) {
    && 0 <= step && from <= step <= end
    && codes(step) == Ok(cleaned)
    && forall t :: from <= t < step && 0 <= t ==> codes(t).Ok? && codes(t).value != cleaned
  }

  /** The least step of the ±1 window that shows the code. */
  ghost predicate LeastMatch(codes: Codes, cleaned: string, atMs: int, step: int) {
    FirstMatch(codes, cleaned, TotpStep(atMs) - 1, TotpStep(atMs) + 1, step)
  }

  lemma {:induction false} ScanFindsFirst(
      codes: Codes, cleaned: string, lastStep: Option<int>, from: int, end: int, step: int)
    requires FirstMatch(codes, cleaned, from, end, step)
    ensures Scan(codes, cleaned, lastStep, from, end) == Ok(if Spent(lastStep, step) then Replayed else Accepted(step))
    decreases end - from
  {
    if from < step {
      ScanFindsFirst(codes, cleaned, lastStep, from + 1, end, step);
    }
  }

  lemma {:induction false} ScanFound(codes: Codes, cleaned: string, lastStep: Option<int>, from: int, end: int)
    returns (first: Option<int>)
    ensures first.Some? ==> FirstMatch(codes, cleaned, from, end, first.value)
    ensures first.None? ==>
      var r := Scan(codes, cleaned, lastStep, from, end);
      if r.Err? then exists t :: from <= t <= end && 0 <= t && codes(t).Err? && codes(t).error == r.error
      else r.value == Wrong && forall t :: from <= t <= end && 0 <= t ==> codes(t).Ok? && codes(t).value != cleaned
    decreases end - from
  {
    if from > end {
      first := None;
    } else if 0 <= from && codes(from) == Ok(cleaned) {
      first := Some(from);
    } else if 0 <= from && codes(from).Err? {
      first := None;
    } else {
      first := ScanFound(codes, cleaned, lastStep, from + 1, end);
    }
  }

  /**
   The least matching step decides: accepted if it is past the last one spent, replayed if it
   is not. There is no other way to either verdict, and `Wrong` means that nothing matches.
   */
  lemma VerdictByLeastMatch(codes: Codes, submitted: string, atMs: int, lastStep: Option<int>)
    requires IsSixDigits(StripSpaces(submitted))
    ensures var cleaned, verdict := StripSpaces(submitted), Judge(codes, submitted, atMs, lastStep);
      && (forall step ::
            verdict == Ok(Accepted(step)) <==> LeastMatch(codes, cleaned, atMs, step) && !Spent(lastStep, step))
      && (verdict == Ok(Replayed) <==>
            exists step :: LeastMatch(codes, cleaned, atMs, step) && Spent(lastStep, step))
      && (verdict == Ok(Wrong) <==>
            forall t :: TotpStep(atMs) - 1 <= t <= TotpStep(atMs) + 1 && 0 <= t ==>
              codes(t).Ok? && codes(t).value != cleaned)
  {
    var cleaned := StripSpaces(submitted);
    var from, end := TotpStep(atMs) - 1, TotpStep(atMs) + 1;
    var first := ScanFound(codes, cleaned, lastStep, from, end);
    if first.Some? {
      ScanFindsFirst(codes, cleaned, lastStep, from, end, first.value);
      assert LeastMatch(codes, cleaned, atMs, first.value);
      assert forall step :: LeastMatch(codes, cleaned, atMs, step) ==> step == first.value;
    } else {
      forall step | LeastMatch(codes, cleaned, atMs, step)
        ensures false
      {
        ScanFindsFirst(codes, cleaned, lastStep, from, end, step);
      }
    }
  }

  /**
   The code the authenticator shows at a step no more than one away is accepted, blanks and
   all, as long as no step from the window on has been spent.
   */
  lemma GenuineCodeAccepted(h: Hmac, secret: string, submitted: string, atMs: int, lastStep: Option<int>, shown: int)
    requires Hotp(h, secret, shown) == Ok(StripSpaces(submitted))
    requires TotpStep(atMs) - 1 <= shown <= TotpStep(atMs) + 1
    requires lastStep.None? || lastStep.value < TotpStep(atMs) - 1
    ensures exists step :: step <= shown && Judge(CodesOf(h, secret), submitted, atMs, lastStep) == Ok(Accepted(step))
  {
    HotpIsSixDigits(h, secret, shown);
    var codes, cleaned := CodesOf(h, secret), StripSpaces(submitted);
    assert forall t :: 0 <= t <= shown ==> codes(t).Ok?;
    var from, end := TotpStep(atMs) - 1, TotpStep(atMs) + 1;
    var first := ShownInRange(codes, cleaned, from, end, shown);
    ScanFindsFirst(codes, cleaned, lastStep, from, end, first);
  }

  lemma {:induction false} ShownInRange(codes: Codes, cleaned: string, from: int, end: int, shown: int)
    returns (first: int)
    requires from <= shown <= end && 0 <= shown && codes(shown) == Ok(cleaned)
    requires forall t :: 0 <= t <= shown ==> codes(t).Ok?
    ensures first <= shown && FirstMatch(codes, cleaned, from, end, first)
    decreases shown - from
  {
    if 0 <= from && codes(from).value == cleaned {
      first := from;
    } else {
      first := ShownInRange(codes, cleaned, from + 1, end, shown);
    }
  }

  // ---------------------------------------------------------------------------
  // Runs of one account
  // ---------------------------------------------------------------------------

  datatype Attempt = Attempt(submitted: string, atMs: int)

  /** The step a caller stores after a verdict. */
  function StoredStep(verdict: Result<Verdict, HotpError>): Option<int> {
    if verdict.Ok? && verdict.value.Accepted? then Some(verdict.value.step) else None
  }

  /** The steps accepted over a run whose caller stores each accepted step. */
  function AcceptedSteps(codes: Codes, attempts: seq<Attempt>, lastStep: Option<int>): seq<int> {
    if attempts == [] then []
    else
      var step := StoredStep(Judge(codes, attempts[0].submitted, attempts[0].atMs, lastStep));
      if step.Some? then [step.value] + AcceptedSteps(codes, attempts[1..], step)
      else AcceptedSteps(codes, attempts[1..], lastStep)
  }

  /** Strictly increasing, and all past `lastStep`. */
  ghost predicate FreshAndIncreasing(steps: seq<int>, lastStep: Option<int>) {
    && (forall i :: 0 <= i < |steps| ==> !Spent(lastStep, steps[i]))
    && (forall i, j :: 0 <= i < j < |steps| ==> steps[i] < steps[j])
  }

  lemma FreshCons(step: int, rest: seq<int>, lastStep: Option<int>)
    requires FreshAndIncreasing(rest, Some(step)) && !Spent(lastStep, step)
    ensures FreshAndIncreasing([step] + rest, lastStep)
  {
    var steps := [step] + rest;
    assert forall i :: 0 < i < |steps| ==> steps[i] == rest[i - 1] && !Spent(Some(step), rest[i - 1]);
  }

  /**
   Accepted steps strictly increase over every run, whatever the clock does between attempts,
   so no step is spent twice.
   */
  lemma {:induction false} AcceptedStepsIncrease(codes: Codes, attempts: seq<Attempt>, lastStep: Option<int>)
    ensures FreshAndIncreasing(AcceptedSteps(codes, attempts, lastStep), lastStep)
  {
    if attempts != [] {
      var step := StoredStep(Judge(codes, attempts[0].submitted, attempts[0].atMs, lastStep));
      if step.Some? {
        AcceptedIsFresh(codes, attempts[0], lastStep);
        AcceptedStepsIncrease(codes, attempts[1..], step);
        FreshCons(step.value, AcceptedSteps(codes, attempts[1..], step), lastStep);
      } else {
        AcceptedStepsIncrease(codes, attempts[1..], lastStep);
      }
    }
  }

  lemma AcceptedIsFresh(codes: Codes, attempt: Attempt, lastStep: Option<int>)
    ensures var step := StoredStep(Judge(codes, attempt.submitted, attempt.atMs, lastStep));
            step.Some? ==>
              && !Spent(lastStep, step.value)
              && LeastMatch(codes, StripSpaces(attempt.submitted), attempt.atMs, step.value)
  {
    if IsSixDigits(StripSpaces(attempt.submitted)) {
      VerdictByLeastMatch(codes, attempt.submitted, attempt.atMs, lastStep);
    }
  }
}
