/**
 What the laws of the codec are stated in and rest on: quintets and the bits they spell, cleaning a
 text character by character, the characters the decoder reads, and grouping for manual entry.

 The laws themselves are in Base32Laws. The source is src/lib/auth/totp.ts.
 */
module Base32Facts {
  import opened Bits
  import opened Prelude
  import opened Base32

  // ---------------------------------------------------------------------------
  // Encoding spreads the bits and nothing else
  // ---------------------------------------------------------------------------

  /** The quintets spell the same bits, followed by fewer than five zeros. */
  lemma {:induction false} QuintetsSpread(b: seq<bool>) returns (pad: nat)
    ensures pad < 5
    ensures Expand(5, Quintets(b)) == b + Zeros(pad)
    ensures 5 * |Quintets(b)| == |b| + pad
    decreases |b|
  {
    Pow2Values();
    if b == [] {
      pad := 0;
    } else if |b| < 5 {
      pad := 5 - |b|;
      ToFromBits(b + Zeros(pad));
      assert Quintets(b)[1..] == [];
      assert Expand(5, Quintets(b)) == ToBits(5, Quintets(b)[0]) + [];
    } else {
      pad := QuintetsSpread(b[5..]);
      ToFromBits(b[..5]);
      var head, tail := FromBits(b[..5]), Quintets(b[5..]);
      assert Quintets(b) == [head] + tail;
      assert Expand(5, [head] + tail) == ToBits(5, head) + Expand(5, tail);
      assert b == b[..5] + b[5..];
    }
  }

  lemma LetterReadsBack(digit: nat)
    requires digit < 32
    ensures IndexOf(Letter(digit)) == Some(digit)
    ensures !IsFiller(Letter(digit)) && ToUpper(Letter(digit)) == [Letter(digit)]
  {
  }

  lemma LettersReadBack(digits: seq<nat>)
    requires forall i :: 0 <= i < |digits| ==> digits[i] < 32
    ensures InAlphabet(Letters(digits)) && Indices(Letters(digits)) == digits
  {
    forall i | 0 <= i < |digits|
      ensures IndexOf(Letters(digits)[i]) == Some(digits[i])
    {
      LetterReadsBack(digits[i]);
    }
  }

  lemma {:induction false} WithoutFillersAppend(a: string, b: string)
    ensures WithoutFillers(a + b) == WithoutFillers(a) + WithoutFillers(b)
  {
    if a == "" {
      assert a + b == b;
    } else {
      var rest := a[1..] + b;
      assert (a + b)[1..] == rest && (a + b)[0] == a[0];
      assert WithoutFillers(rest) == WithoutFillers(a[1..]) + WithoutFillers(b) by {
        WithoutFillersAppend(a[1..], b);
      }
    }
  }

  lemma {:induction false} UpperCasedAppend(a: string, b: string)
    ensures UpperCased(a + b) == UpperCased(a) + UpperCased(b)
  {
    if a == "" {
      assert a + b == b;
    } else {
      var rest := a[1..] + b;
      assert (a + b)[1..] == rest && (a + b)[0] == a[0];
      UpperCasedAppend(a[1..], b);
      Associative(ToUpper(a[0]), UpperCased(a[1..]), UpperCased(b));
    }
  }

  lemma CleanAppend(a: string, b: string)
    ensures Clean(a + b) == Clean(a) + Clean(b)
  {
    UpperCasedAppend(a, b);
    WithoutFillersAppend(UpperCased(a), UpperCased(b));
  }

  /** A blank or padding goes; any other character is upper-cased. */
  lemma CleanCons(s: string)
    requires s != ""
    ensures Clean(s) == (if IsFiller(s[0]) then "" else ToUpper(s[0])) + Clean(s[1..])
  {
    WithoutFillersAppend(ToUpper(s[0]), UpperCased(s[1..]));
    FillersAreOnesOwn(s[0]);
    if IsFiller(s[0]) {
      assert ToUpper(s[0])[1..] == "";
    } else {
      NoFillersKeptWhole(ToUpper(s[0]));
    }
  }

  lemma FillersAreOnesOwn(c: char)
    ensures IsFiller(c) ==> ToUpper(c) == [c]
    ensures !IsFiller(c) ==> forall u :: u in ToUpper(c) ==> !IsFiller(u)
  {
  }

  lemma {:induction false} NoFillersKeptWhole(s: string)
    requires forall c :: c in s ==> !IsFiller(c)
    ensures WithoutFillers(s) == s
  {
    if s != "" {
      assert s[0] in s;
      NoFillersKeptWhole(s[1..]);
    }
  }

  lemma {:induction false} CleanKeepsAlphabet(s: string)
    requires InAlphabet(s)
    ensures Clean(s) == s
  {
    if s != "" {
      CleanCons(s);
      LetterIsAlphabetEntry(IndexOf(s[0]).value);
      IndexOfIsAlphabetPosition(s[0]);
      LetterReadsBack(IndexOf(s[0]).value);
      CleanKeepsAlphabet(s[1..]);
    }
  }

  lemma {:induction false} ExpandLength(w: nat, xs: seq<nat>)
    ensures |Expand(w, xs)| == w * |xs|
  {
    if xs != [] {
      ExpandLength(w, xs[1..]);
      assert w * |xs| == w + w * (|xs| - 1);
    } else {
      assert w * 0 == 0;
    }
  }

  // ---------------------------------------------------------------------------
  // Decoding: what is accepted, and when it can be undone
  // ---------------------------------------------------------------------------

  /** The characters outside ASCII that upper-casing turns into letters of the alphabet. */
  const UNEXPECTED := "\U{DF}\U{131}\U{17F}\U{FB00}\U{FB01}\U{FB02}\U{FB03}\U{FB04}\U{FB05}\U{FB06}"

  /** A blank, padding, a letter in either case, a digit from 2 to 7, or one of the ten above. */
  predicate Readable(c: char) {
    IsFiller(c) || 'A' <= c <= 'Z' || 'a' <= c <= 'z' || '2' <= c <= '7' || c in UNEXPECTED
  }

  /** What is dropped, by number: the padding sign, ASCII's six blanks and nineteen more. */
  lemma FillersByNumber(c: char)
    ensures IsFiller(c) <==>
            c == '=' ||
            c as int in {9, 10, 11, 12, 13, 32, 160, 5760, 8192, 8193, 8194, 8195, 8196, 8197, 8198, 8199, 8200, 8201,
                         8202, 8232, 8233, 8239, 8287, 12288, 65279}
  {
  }

  lemma ReadableByUpper(c: char)
    ensures Readable(c) <==> IsFiller(c) || InAlphabet(ToUpper(c))
  {
    if c in UNEXPECTED {
      var k :| 0 <= k < |UNEXPECTED| && UNEXPECTED[k] == c;
      assert InAlphabet(ToUpper(c));
    } else if InAlphabet(ToUpper(c)) {
      assert IndexOf(ToUpper(c)[0]).Some?;
    }
  }

  predicate AllReadable(s: string) {
    forall c :: c in s ==> Readable(c)
  }

  lemma AllReadableCons(s: string)
    requires s != ""
    ensures AllReadable(s) <==> Readable(s[0]) && AllReadable(s[1..])
  {
    assert s == [s[0]] + s[1..];
  }

  lemma {:induction false} CleanInAlphabet(s: string)
    ensures InAlphabet(Clean(s)) <==> AllReadable(s)
  {
    if s != "" {
      CleanInAlphabet(s[1..]);
      AllReadableCons(s);
      ReadableByUpper(s[0]);
      CleanCons(s);
      if !IsFiller(s[0]) {
        AlphabetOfAppend(ToUpper(s[0]), Clean(s[1..]));
      }
    }
  }

  lemma AlphabetOfAppend(a: string, b: string)
    ensures InAlphabet(a + b) <==> InAlphabet(a) && InAlphabet(b)
  {
    var s := a + b;
    assert forall i :: 0 <= i < |a| ==> s[i] == a[i];
    assert forall i :: 0 <= i < |b| ==> s[i + |a|] == b[i];
  }

  /** The bits a text carries beyond its last whole byte. */
  function Spare(s: string): seq<bool> {
    Leftover(8, Expand(5, Indices(s)))
  }

  lemma SpellsItself(s: string)
    requires InAlphabet(s)
    ensures Letters(Indices(s)) == s
  {
    forall i | 0 <= i < |s|
      ensures Letters(Indices(s))[i] == s[i]
    {
      LetterIsAlphabetEntry(IndexOf(s[i]).value);
    }
  }

  // ---------------------------------------------------------------------------
  // Typing a secret back in
  // ---------------------------------------------------------------------------

  /**
   `typed` is `secret` with blanks or padding put in anywhere, and anything for a letter that reads
   as it in capitals.
   */
  predicate Retyped(typed: string, secret: string) {
    if typed == "" then secret == ""
    else if IsFiller(typed[0]) then Retyped(typed[1..], secret)
    else
      var letters := ToUpper(typed[0]);
      letters <= secret && Retyped(typed[1..], secret[|letters|..])
  }

  /** Retyping is what cleaning undoes, and nothing less. */
  lemma {:induction false} RetypedCleans(typed: string, secret: string)
    ensures Retyped(typed, secret) <==> Clean(typed) == secret
  {
    if typed != "" {
      CleanCons(typed);
      var letters := ToUpper(typed[0]);
      if IsFiller(typed[0]) {
        RetypedCleans(typed[1..], secret);
      } else if letters <= secret {
        RetypedCleans(typed[1..], secret[|letters|..]);
        assert secret == letters + secret[|letters|..];
      }
    }
  }

  predicate IsLineTerminator(c: char) {
    c == '\n' || c == '\r' || c == '\U{2028}' || c == '\U{2029}'
  }

  /** `replace(/(.{4})/g, '$1 ')`: a blank after every four characters that share a line. */
  function Grouped(s: string): string
    decreases |s|
  {
    if s == "" then ""
    else if |s| >= 4 && forall i :: 0 <= i < 4 ==> !IsLineTerminator(s[i]) then s[..4] + " " + Grouped(s[4..])
    else [s[0]] + Grouped(s[1..])
  }

  function TrimStart(s: string): string {
    if s != "" && IsSpace(s[0]) then TrimStart(s[1..]) else s
  }

  function TrimEnd(s: string): string {
    if s != "" && IsSpace(s[|s| - 1]) then TrimEnd(s[..|s| - 1]) else s
  }

  function FormatSecretForEntry(secret: string): string {
    TrimEnd(TrimStart(Grouped(secret)))
  }

  lemma CleanDropsBlank(a: string, blank: string, b: string)
    requires |blank| == 1 && IsFiller(blank[0])
    ensures Clean(a + blank + b) == Clean(a) + Clean(b)
  {
    assert Clean(a + blank) == Clean(a) by {
      assert Clean(blank) == "" by {
        CleanCons(blank);
        assert blank[1..] == "";
      }
      CleanAppend(a, blank);
    }
    CleanAppend(a + blank, b);
  }

  lemma CleanConsAlike(c: char, a: string, b: string)
    requires Clean(a) == Clean(b)
    ensures Clean([c] + a) == Clean([c] + b)
  {
    CleanAppend([c], a);
    CleanAppend([c], b);
  }

  lemma {:induction false} CleanGrouped(s: string)
    ensures Clean(Grouped(s)) == Clean(s)
    decreases |s|
  {
    if s == "" {
    } else if |s| >= 4 && forall i :: 0 <= i < 4 ==> !IsLineTerminator(s[i]) {
      CleanGrouped(s[4..]);
      CleanDropsBlank(s[..4], " ", Grouped(s[4..]));
      CleanAppend(s[..4], s[4..]);
      assert s[..4] + s[4..] == s;
    } else {
      CleanGrouped(s[1..]);
      CleanConsAlike(s[0], Grouped(s[1..]), s[1..]);
      assert [s[0]] + s[1..] == s;
    }
  }

  lemma {:induction false} CleanTrimStart(s: string)
    ensures Clean(TrimStart(s)) == Clean(s)
  {
    if s != "" && IsSpace(s[0]) {
      CleanTrimStart(s[1..]);
      CleanCons(s);
    }
  }

  lemma {:induction false} CleanTrimEnd(s: string)
    ensures Clean(TrimEnd(s)) == Clean(s)
  {
    if s != "" && IsSpace(s[|s| - 1]) {
      CleanTrimEnd(s[..|s| - 1]);
      var last := s[|s| - 1..];
      CleanAppend(s[..|s| - 1], last);
      assert s == s[..|s| - 1] + last;
      assert last[1..] == "";
      CleanCons(last);
    }
  }
}
