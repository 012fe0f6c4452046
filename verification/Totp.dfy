/**
 Time-based one-time codes. The keyed hash of a time step is a digest the model is given as a
 function of the step; everything after it is modelled: the dynamic truncation of section 5.3 of
 RFC 4226, the decimal code, the reading of a typed code, and the search for the time step a code
 belongs to within the drift window of section 5.2 of RFC 6238.
 */
module Totp {
  import opened Basics

  const DIGITS: nat := 6
  const MODULUS: nat := 1_000_000
  const PERIOD: nat := 30
  const DRIFT: nat := 1

  newtype Byte = x: int | 0 <= x < 256

  predicate IsDigest(bytes: seq<Byte>) { |bytes| == 20 }

  type Digest = bytes: seq<Byte> | IsDigest(bytes)
    witness [0, 0, 0, 0, 0, 0, 0, 0, 0, 0, 0, 0, 0, 0, 0, 0, 0, 0, 0, 0]

  // ---- decimal text ----------------------------------------------------------------------

  predicate IsDigit(c: char) { '0' <= c <= '9' }

  ghost predicate AllDigits(s: string) { forall i :: 0 <= i < |s| ==> IsDigit(s[i]) }

  function Digit(d: nat): char
    requires d < 10
  {
    '0' + d as char
  }

  function Decimal(n: nat): string {
    if n < 10 then [Digit(n)] else Decimal(n / 10) + [Digit(n % 10)]
  }

  function ZeroFilled(s: string, width: nat): string
    decreases width - |s|
  {
    if |s| < width then ZeroFilled("0" + s, width) else s
  }

  /** The number that decimal text denotes. */
  function Parsed(s: string): nat
    requires AllDigits(s)
  {
    if s == "" then 0 else 10 * Parsed(s[..|s| - 1]) + (s[|s| - 1] - '0') as nat
  }

  function PowerOfTen(k: nat): nat { if k == 0 then 1 else 10 * PowerOfTen(k - 1) }

  lemma {:induction false} DecimalDenotes(n: nat, k: nat)
    requires 1 <= k && n < PowerOfTen(k)
    ensures AllDigits(Decimal(n)) && Parsed(Decimal(n)) == n && 1 <= |Decimal(n)| <= k
  {
    if n >= 10 {
      assert k >= 2 && PowerOfTen(k) == 10 * PowerOfTen(k - 1);
      DecimalDenotes(n / 10, k - 1);
      assert Decimal(n)[..|Decimal(n)| - 1] == Decimal(n / 10);
    } else {
      assert Decimal(n)[..0] == "";
    }
  }

  lemma {:induction false} LeadingZero(s: string)
    requires AllDigits(s)
    ensures AllDigits("0" + s) && Parsed("0" + s) == Parsed(s)
  {
    if s != "" {
      LeadingZero(s[..|s| - 1]);
      assert ("0" + s)[..|s|] == "0" + s[..|s| - 1];
    }
  }

  lemma {:induction false} ZeroFilledDenotes(s: string, width: nat)
    requires AllDigits(s)
    ensures var r := ZeroFilled(s, width);
            AllDigits(r) && Parsed(r) == Parsed(s) && |r| == if |s| < width then width else |s|
    decreases width - |s|
  {
    if |s| < width {
      LeadingZero(s);
      ZeroFilledDenotes("0" + s, width);
    }
  }

  // ---- the code of a digest ---------------------------------------------------------------

  /** The four bytes from the offset in the last nibble, big end first, without the sign bit. */
  function Truncated(digest: Digest): (value: nat)
    ensures value < 0x8000_0000
  {
    var offset := digest[19] as nat % 16;
    var word := ((digest[offset] as nat * 256 + digest[offset + 1] as nat) * 256 +
                 digest[offset + 2] as nat) * 256 + digest[offset + 3] as nat;
    word % 0x8000_0000
  }

  /** Dropping the sign bit of the word is masking its first byte, as the standard writes it. */
  lemma TruncationMasksFirstByte(digest: Digest)
    ensures var o := digest[19] as nat % 16;
            Truncated(digest) ==
            digest[o] as nat % 128 * 0x100_0000 + digest[o + 1] as nat * 0x1_0000 +
            digest[o + 2] as nat * 0x100 + digest[o + 3] as nat
  {
    var o := digest[19] as nat % 16;
    var high, rest := digest[o] as nat,
        digest[o + 1] as nat * 0x1_0000 + digest[o + 2] as nat * 0x100 + digest[o + 3] as nat;
    assert high * 0x100_0000 + rest == high / 128 * 0x8000_0000 + (high % 128 * 0x100_0000 + rest);
  }

  function CodeOf(digest: Digest): string {
    ZeroFilled(Decimal(Truncated(digest) % MODULUS), DIGITS)
  }

  /** A code is six digits denoting the truncated value modulo a million. */
  lemma CodeIsSixDigits(digest: Digest)
    ensures |CodeOf(digest)| == 6 && AllDigits(CodeOf(digest))
    ensures Parsed(CodeOf(digest)) == Truncated(digest) % 1_000_000
  {
    var n := Truncated(digest) % MODULUS;
    assert PowerOfTen(1) == 10 && PowerOfTen(2) == 100 && PowerOfTen(3) == 1000;
    assert PowerOfTen(6) == MODULUS;
    DecimalDenotes(n, DIGITS);
    ZeroFilledDenotes(Decimal(n), DIGITS);
  }

  lemma {:induction false} ParsedInjective(a: string, b: string)
    requires AllDigits(a) && AllDigits(b) && |a| == |b| && Parsed(a) == Parsed(b)
    ensures a == b
  {
    if a != "" {
      var n := |a| - 1;
      ParsedInjective(a[..n], b[..n]);
      assert a == a[..n] + [a[n]] && b == b[..n] + [b[n]];
    }
  }

  /** Comparing codes compares the truncated values: the text neither merges nor splits them. */
  lemma CodesAgreeIff(a: Digest, b: Digest)
    ensures CodeOf(a) == CodeOf(b) <==> Truncated(a) % MODULUS == Truncated(b) % MODULUS
  {
    CodeIsSixDigits(a);
    CodeIsSixDigits(b);
    if Truncated(a) % MODULUS == Truncated(b) % MODULUS {
      ParsedInjective(CodeOf(a), CodeOf(b));
    }
  }

  // ---- the typed code -----------------------------------------------------------------------

  function Compact(s: string): string {
    if s == "" then "" else (if s[0] == ' ' then "" else [s[0]]) + Compact(s[1..])
  }

  predicate SixDigits(s: string) { |s| == DIGITS && forall i :: 0 <= i < |s| ==> IsDigit(s[i]) }

  function Normalized(typed: string): Option<string> {
    if SixDigits(Compact(typed)) then Some(Compact(typed)) else None
  }

  lemma {:induction false} CompactJoins(a: string, b: string)
    ensures Compact(a + b) == Compact(a) + Compact(b)
  {
    if a == "" {
      assert a + b == b;
    } else {
      assert (a + b)[1..] == a[1..] + b;
      CompactJoins(a[1..], b);
    }
  }

  lemma {:induction false} CompactKeeps(s: string)
    requires AllDigits(s)
    ensures Compact(s) == s
  {
    if s != "" {
      CompactKeeps(s[1..]);
      assert s == [s[0]] + s[1..];
    }
  }

  /** A code reads back as itself, in one piece or with a space typed anywhere in it. */
  lemma TypedCodeReadsBack(digest: Digest, cut: nat)
    requires cut <= DIGITS
    ensures |CodeOf(digest)| == DIGITS
    ensures var code := CodeOf(digest);
            Normalized(code) == Some(code) && Normalized(code[..cut] + " " + code[cut..]) == Some(code)
  {
    var code := CodeOf(digest);
    CodeIsSixDigits(digest);
    CompactKeeps(code);
    CompactKeeps(code[..cut]);
    CompactKeeps(code[cut..]);
    CompactJoins(code[..cut] + " ", code[cut..]);
    CompactJoins(code[..cut], " ");
    assert " "[1..] == "";
    assert Compact(" ") == "" + Compact(" "[1..]);
    var spaced := code[..cut] + " " + code[cut..];
    assert Compact(spaced) == code[..cut] + code[cut..] == code;
  }

  // ---- the step of a code -------------------------------------------------------------------

  datatype Outcome = Matched(step: int) | NoMatch | Overflow

  /** The steps that fit the eight bytes a step is hashed as. */
  predicate Hashable(step: int) { 0 <= step < 0x1_0000_0000_0000_0000 }

  ghost predicate Belongs(digestAt: int -> Digest, typed: string, step: int) {
    Normalized(typed) == Some(CodeOf(digestAt(step)))
  }

  ghost predicate WindowHashable(now: int) {
    Hashable(now / PERIOD - DRIFT) && Hashable(now / PERIOD + DRIFT)
  }

  ghost predicate InWindow(step: int, now: int) {
    now / PERIOD - DRIFT <= step <= now / PERIOD + DRIFT
  }

  /**
   What the search must answer: the newest step of the window the code belongs to; no match only
   if it is malformed or belongs to no step of the window; an overflow only if a step cannot be
   hashed.
   */
  ghost predicate IsAnswer(digestAt: int -> Digest, typed: string, now: int, r: Outcome) {
    match r
    case Overflow => Normalized(typed).Some? && !WindowHashable(now)
    case NoMatch =>
      && (Normalized(typed).None? || WindowHashable(now))
      && forall step :: InWindow(step, now) ==> !Belongs(digestAt, typed, step)
    case Matched(found) =>
      && InWindow(found, now) && WindowHashable(now) && Belongs(digestAt, typed, found)
      && forall step :: InWindow(step, now) && found < step ==> !Belongs(digestAt, typed, step)
  }

  /**
   The search over the drift window. The answer is the newest step of the window the code belongs
   to, so claiming it also rules out every older one; there is no answer exactly when the code is
   malformed or belongs to no step of the window.
   */
  method MatchingStep(digestAt: int -> Digest, typed: string, now: int) returns (r: Outcome)
    ensures IsAnswer(digestAt, typed, now, r)
  {
    var normalized := Normalized(typed);
    if normalized.None? {
      return NoMatch;
    }
    var current := now / PERIOD;
    var matched := NoMatch;
    var step := current - DRIFT;
    while step < current + DRIFT + 1
      invariant current - DRIFT <= step <= current + DRIFT + 1
      invariant forall k :: current - DRIFT <= k < step ==> Hashable(k)
      invariant !matched.Overflow?
      invariant matched.Matched? ==>
                  current - DRIFT <= matched.step < step && Belongs(digestAt, typed, matched.step) &&
                  forall k :: matched.step < k < step ==> !Belongs(digestAt, typed, k)
      invariant matched.NoMatch? ==> forall k :: current - DRIFT <= k < step ==> !Belongs(digestAt, typed, k)
    {
      if !Hashable(step) {
        return Overflow;
      }
      if CodeOf(digestAt(step)) == normalized.value {
        matched := Matched(step);
      }
      step := step + 1;
    }
    assert Hashable(current - DRIFT) && Hashable(current + DRIFT);
    return matched;
  }

  /** A code shown at one moment is found when typed at another that is at most one step away. */
  lemma CodeFoundInTime(digestAt: int -> Digest, shown: int, now: int, cut: nat, r: Outcome)
    requires cut <= DIGITS && WindowHashable(now) && InWindow(shown / PERIOD, now)
    ensures var code := CodeOf(digestAt(shown / PERIOD));
            |code| == DIGITS &&
            (IsAnswer(digestAt, code[..cut] + " " + code[cut..], now, r) ==> r.Matched? && shown / PERIOD <= r.step)
  {
    TypedCodeReadsBack(digestAt(shown / PERIOD), cut);
    var code := CodeOf(digestAt(shown / PERIOD));
    assert Belongs(digestAt, code[..cut] + " " + code[cut..], shown / PERIOD);
  }

  /**
   In seconds: a code is found if it was shown at most thirty before or after it is typed, and
   the step found is always one whose thirty seconds began less than sixty before and at most thirty after.
   */
  lemma CodeFoundInSeconds(digestAt: int -> Digest, shown: int, now: int, r: Outcome)
    requires WindowHashable(now) && IsAnswer(digestAt, CodeOf(digestAt(shown / 30)), now, r)
    ensures -30 <= now - shown <= 30 ==> r.Matched? && shown / 30 <= r.step
    ensures r.Matched? ==> -30 <= now - 30 * r.step < 60
  {
    CodeIsSixDigits(digestAt(shown / 30));
    CompactKeeps(CodeOf(digestAt(shown / 30)));
    assert Belongs(digestAt, CodeOf(digestAt(shown / 30)), shown / 30);
  }
}
