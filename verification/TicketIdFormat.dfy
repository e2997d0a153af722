/** Arithmetic of ticket ids: `prefix * multiplier + suffix`, the digit 1 that is
    appended to every id, and the hash based fallback id.  Machine integers are
    modelled by mathematical integers with the wrap-around written out. */
module TicketIdFormat {
  import opened Int64

  const LOCAL_LAST_DIGIT: int := 2

  /** Reinterprets the low 64 bits of `x` as a signed number. */
  function WrapI64(x: int): (r: int)
    ensures IsI64(r)
    ensures IsI64(x) ==> r == x
  {
    (x + TWO_63) % TWO_64 - TWO_63
  }

  function FloorLog10(n: nat): nat
    requires 1 <= n
  {
    if n < 10 then 0 else 1 + FloorLog10(n / 10)
  }

  function Pow10(k: nat): (p: nat)
    ensures 1 <= p
  {
    if k == 0 then 1 else 10 * Pow10(k - 1)
  }

  function SuffixMultiplier(suffixMax: nat): nat
    requires 1 <= suffixMax
  {
    Pow10(FloorLog10(suffixMax) + 1)
  }

  lemma {:induction false} MultiplierBounds(suffixMax: nat)
    requires 1 <= suffixMax
    ensures suffixMax < SuffixMultiplier(suffixMax) <= 10 * suffixMax
  {
    if suffixMax < 10 {
      assert Pow10(1) == 10 * Pow10(0);
    } else {
      MultiplierBounds(suffixMax / 10);
      assert SuffixMultiplier(suffixMax) == 10 * SuffixMultiplier(suffixMax / 10);
    }
  }

  predicate IsPowerOfTen(n: nat) {
    n == 1 || (0 < n && n % 10 == 0 && IsPowerOfTen(n / 10))
  }

  lemma {:induction false} PowersAreOfTen(k: nat)
    ensures IsPowerOfTen(Pow10(k))
  {
    if k > 0 {
      PowersAreOfTen(k - 1);
      assert Pow10(k) / 10 == Pow10(k - 1) && Pow10(k) % 10 == 0;
    }
  }

  /** The multiplier is the one power of ten above the largest suffix and at most ten
      times as large. */
  lemma MultiplierIsPower(suffixMax: nat)
    requires 1 <= suffixMax
    ensures IsPowerOfTen(SuffixMultiplier(suffixMax)) && suffixMax < SuffixMultiplier(suffixMax) <= 10 * suffixMax
  {
    PowersAreOfTen(FloorLog10(suffixMax) + 1);
    MultiplierBounds(suffixMax);
  }

  /** The id handed out for `suffix` of block `prefix`, before the last digit. */
  function BlockId(prefix: int, suffix: int, multiplier: int): int {
    WrapI64(prefix * multiplier + suffix)
  }

  /** `checked_mul(10)` then `checked_add(1)`; the id itself when either overflows. */
  function AppendLastDigit1(id: int): int
    requires IsI64(id)
  {
    if IsI64(id * 10) && IsI64(id * 10 + 1) then id * 10 + 1 else id
  }

  function BlockTicket(prefix: int, suffix: int, multiplier: int): int {
    AppendLastDigit1(BlockId(prefix, suffix, multiplier))
  }

  /** Neither the block id nor the appended digit overflows. */
  predicate Fits(prefix: int, suffix: int, multiplier: int) {
    0 < prefix && 10 * (prefix * multiplier + suffix) + 1 < TWO_63
  }

  /** Prefix and suffix are recovered from a ticket by division and remainder. */
  lemma TicketRecoversBlock(prefix: int, suffix: int, suffixMax: nat)
    requires 1 <= suffix <= suffixMax
    requires Fits(prefix, suffix, SuffixMultiplier(suffixMax))
    ensures var m := SuffixMultiplier(suffixMax);
            var t := BlockTicket(prefix, suffix, m);
            0 < t && t % 10 == 1 && (t / 10) / m == prefix && (t / 10) % m == suffix
  {
    MultiplierBounds(suffixMax);
    var m := SuffixMultiplier(suffixMax);
    assert 0 < prefix * m;
    DivModUnique(prefix, suffix, m);
  }

  lemma DivModUnique(q: int, r: int, m: int)
    requires 0 <= r < m
    ensures (q * m + r) / m == q && (q * m + r) % m == r
  {
    var d, e := (q * m + r) / m, (q * m + r) % m;
    assert d * m + e == q * m + r;
    assert (d - q) * m == r - e;
    MulAtLeast(d - q, m);
  }

  lemma MulAtLeast(k: int, m: int)
    requires 0 < m
    ensures 1 <= k ==> m <= k * m
    ensures k <= -1 ==> k * m <= -m
  {
  }

  /** Two tickets that fit are equal only for the same prefix and suffix. */
  lemma TicketInjective(p0: int, s0: int, p1: int, s1: int, suffixMax: nat)
    requires 1 <= s0 <= suffixMax && 1 <= s1 <= suffixMax
    requires Fits(p0, s0, SuffixMultiplier(suffixMax)) && Fits(p1, s1, SuffixMultiplier(suffixMax))
    ensures BlockTicket(p0, s0, SuffixMultiplier(suffixMax)) == BlockTicket(p1, s1, SuffixMultiplier(suffixMax))
            <==> p0 == p1 && s0 == s1
  {
    TicketRecoversBlock(p0, s0, suffixMax);
    TicketRecoversBlock(p1, s1, suffixMax);
  }

  /** Appending the digit is the one place where distinct ids may meet: the results
      of two distinct ids are equal exactly when one of them overflows, stays as it
      is, and happens to be the other with a 1 appended. */
  lemma AppendCollidesIff(x: int, y: int)
    requires IsI64(x) && IsI64(y) && x != y
    ensures AppendLastDigit1(x) == AppendLastDigit1(y)
            <==> (!IsI64(10 * x + 1) && x == 10 * y + 1) || (!IsI64(10 * y + 1) && y == 10 * x + 1)
  {
  }

  /** The collision is reachable with legal block ids once `Fits` is dropped. */
  lemma OverflowedTicketsCollide()
    ensures BlockTicket(922337203685477571, 1, 10) == BlockTicket(92233720368547757, 1, 10)
  {
  }

  /** The local fallback: set the top bit of the hash, then force the last digit to 2. */
  function LocalId(hash: int): (id: int)
    requires 0 <= hash < TWO_64
    ensures IsI64(id)
  {
    var withMsb := if hash < TWO_63 then hash + TWO_63 else hash;
    WrapI64(withMsb - withMsb % 10 + LOCAL_LAST_DIGIT)
  }

  /** `w` is the signed 64-bit number with the low 64 bits of `x`. */
  ghost predicate IsLow64(w: int, x: int) {
    -0x8000_0000_0000_0000 <= w < 0x8000_0000_0000_0000 && (x - w) % 0x1_0000_0000_0000_0000 == 0
  }

  /** `id` is `w` with the digit 1 appended, or `w` itself if that has no 64-bit value. */
  ghost predicate IsAppended(w: int, id: int) {
    id == if -0x8000_0000_0000_0000 <= 10 * w && 10 * w + 1 < 0x8000_0000_0000_0000 then 10 * w + 1 else w
  }

  /** Read as unsigned, `w` is the hash with its top bit set and its last digit replaced
      by 2. */
  ghost predicate IsLocal(hash: int, w: int) {
    var h := if hash < 0x8000_0000_0000_0000 then hash + 0x8000_0000_0000_0000 else hash;
    var u := if w < 0 then w + 0x1_0000_0000_0000_0000 else w;
    -0x8000_0000_0000_0000 <= w < 0x8000_0000_0000_0000 && u % 10 == 2 && u / 10 == h / 10
  }

  lemma WrapIsLow64(x: int)
    ensures IsLow64(WrapI64(x), x)
  {
    var q := (x + TWO_63) / TWO_64;
    assert x - WrapI64(x) == q * 0x1_0000_0000_0000_0000;
  }

  /** A block ticket in plain numbers, overflow included. */
  lemma TicketInPlain(prefix: int, suffix: int, multiplier: int)
    ensures var id := BlockTicket(prefix, suffix, multiplier);
            exists w :: IsLow64(w, prefix * multiplier + suffix) && IsAppended(w, id)
  {
    var w := BlockId(prefix, suffix, multiplier);
    WrapIsLow64(prefix * multiplier + suffix);
    assert IsAppended(w, BlockTicket(prefix, suffix, multiplier));
  }

  /** A fallback id keeps all digits of the hash but the last, which becomes 2. */
  lemma LocalIdKeepsHash(hash: int)
    requires 0 <= hash < TWO_64
    ensures IsLocal(hash, LocalId(hash)) && IsAppended(LocalId(hash), AppendLastDigit1(LocalId(hash)))
  {
    var h := if hash < TWO_63 then hash + TWO_63 else hash;
    var fixed := h - h % 10 + LOCAL_LAST_DIGIT;
    assert fixed == 10 * (h / 10) + 2;
    assert fixed % 10 == 2 && fixed / 10 == h / 10;
    assert LocalId(hash) == if fixed < TWO_63 then fixed else fixed - TWO_64;
  }

  /** So two fallback ids are equal exactly when the hashes, with the top bit set, agree
      up to their last digit. */
  lemma LocalIdSameIff(g: int, h: int)
    requires 0 <= g < TWO_64 && 0 <= h < TWO_64
    ensures LocalId(g) == LocalId(h) <==>
            (0x8000_0000_0000_0000 + g % 0x8000_0000_0000_0000) / 10
            == (0x8000_0000_0000_0000 + h % 0x8000_0000_0000_0000) / 10
  {
    LocalIdKeepsHash(g);
    LocalIdKeepsHash(h);
    TopBitSet(g);
    TopBitSet(h);
  }

  lemma TopBitSet(hash: int)
    requires 0 <= hash < TWO_64
    ensures TWO_63 + hash % TWO_63 == if hash < TWO_63 then hash + TWO_63 else hash
  {
  }

  /** Forcing the last digit clears the top bit for exactly the two values 2^63 and
      2^63 + 1 of the hash with its top bit set; every other fallback id is negative. */
  lemma LocalIdSign(hash: int)
    requires 0 <= hash < TWO_64
    ensures 0 < LocalId(hash) <==> hash % TWO_63 <= 1
    ensures 0 < LocalId(hash) ==> LocalId(hash) == TWO_63 - 6
    ensures LocalId(hash) <= 0 ==> LocalId(hash) <= -4
  {
    var low := if hash < TWO_63 then hash else hash - TWO_63;
    assert hash % TWO_63 == low;
    var fixed := TWO_63 + low - (TWO_63 + low) % 10 + LOCAL_LAST_DIGIT;
    assert TWO_63 % 10 == 8;
    assert fixed < TWO_63 <==> low <= 1;
    assert LocalId(hash) == if fixed < TWO_63 then fixed else fixed - TWO_64;
  }

  /** A fallback id is never zero, before or after the digit, so the retry loop and
      the non-zero guard of the service never run a second attempt. */
  lemma FallbackNonZero(hash: int)
    requires 0 <= hash < TWO_64
    ensures LocalId(hash) != 0 && AppendLastDigit1(LocalId(hash)) != 0
  {
  }

  /** A fallback id, with or without the digit, is never a block ticket that fits. */
  lemma FallbackNeverCollides(hash: int, prefix: int, suffix: int, suffixMax: nat)
    requires 0 <= hash < TWO_64
    requires 1 <= suffix <= suffixMax && Fits(prefix, suffix, SuffixMultiplier(suffixMax))
    ensures LocalId(hash) != BlockTicket(prefix, suffix, SuffixMultiplier(suffixMax))
    ensures AppendLastDigit1(LocalId(hash)) != BlockTicket(prefix, suffix, SuffixMultiplier(suffixMax))
  {
    LocalIdSign(hash);
    TicketRecoversBlock(prefix, suffix, suffixMax);
  }
}
