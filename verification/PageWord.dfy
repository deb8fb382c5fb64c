/**
  Which bits of the 64-bit word the fields of an entry are. Each getter and setter of `PageEntry` is stated bit by
  bit, as the kernel's mask operations do it: bit 0 is present, bit 1 writable, bit 2 user, bit 7 huge, and the
  address takes bits 12 to 47, or 21 to 51 in a huge entry.
*/
module PageWord {
  import opened Arithmetic
  import opened PageEntry

  /** Binary digit `k` of a number. */
  predicate Bit(v: nat, k: nat) { if k == 0 then v % 2 == 1 else Bit(v / 2, k - 1) }

  function Pow2(k: nat): (p: nat)
    ensures p > 0
  {
    if k == 0 then 1 else 2 * Pow2(k - 1)
  }

  /** The part of a number below `2^k`, and the rest of it. */
  function Low(v: nat, k: nat): nat { if k == 0 then 0 else 2 * Low(v / 2, k - 1) + v % 2 }

  function High(v: nat, k: nat): nat { if k == 0 then v else 2 * High(v / 2, k - 1) }

  // ---------------------------------------------------------------- digits

  /** The digits determine the number. */
  lemma {:induction false} BitsDetermine(v: nat, w: nat, n: nat)
    requires v < Pow2(n) && w < Pow2(n) && forall k: nat | k < n :: Bit(v, k) == Bit(w, k)
    ensures v == w
  {
    if n > 0 {
      assert Bit(v, 0) == Bit(w, 0);
      forall k: nat | k < n - 1 ensures Bit(v / 2, k) == Bit(w / 2, k) {
        assert Bit(v, k + 1) == Bit(w, k + 1);
      }
      BitsDetermine(v / 2, w / 2, n - 1);
    }
  }

  lemma {:induction false} BitOfZero(k: nat)
    ensures !Bit(0, k)
  {
    if k > 0 { BitOfZero(k - 1); }
  }

  lemma {:induction false} BitOfLow(v: nat, j: nat, k: nat)
    ensures Bit(Low(v, j), k) == (k < j && Bit(v, k))
  {
    if j == 0 {
      BitOfZero(k);
    } else if k > 0 {
      BitOfLow(v / 2, j - 1, k - 1);
      assert Low(v, j) / 2 == Low(v / 2, j - 1);
    }
  }

  /** A number put together from the high digits of one and the low digits of another. */
  lemma {:induction false} BitOfJoin(h: nat, l: nat, j: nat, k: nat)
    ensures Bit(High(h, j) + Low(l, j), k) == if k < j then Bit(l, k) else Bit(h, k)
  {
    var x := High(h, j) + Low(l, j);
    if j > 0 {
      assert x / 2 == High(h / 2, j - 1) + Low(l / 2, j - 1) && x % 2 == l % 2;
      if k > 0 { BitOfJoin(h / 2, l / 2, j - 1, k - 1); }
    }
  }

  lemma HalfOfRemainder(v: nat, p: nat, d: nat)
    requires p > 0 && d == 2 * p
    ensures v % d == 2 * (v / 2 % p) + v % 2 && v / d == v / 2 / p
  {
    var q, r := v / 2 / p, v / 2 % p;
    assert v / 2 == q * p + r;
    assert q * d == 2 * (q * p);
    Quotient(v, d, q, 2 * r + v % 2);
  }

  lemma {:induction false} LowIsRemainder(v: nat, k: nat, p: nat)
    requires p == Pow2(k)
    ensures Low(v, k) == v % p && High(v, k) == v - v % p
  {
    if k > 0 {
      HalfOfRemainder(v, Pow2(k - 1), p);
      LowIsRemainder(v / 2, k - 1, Pow2(k - 1));
    }
  }

  lemma {:induction false} BitIsQuotient(v: nat, k: nat, p: nat)
    requires p == Pow2(k)
    ensures Bit(v, k) == (v / p % 2 == 1)
  {
    if k > 0 {
      HalfOfRemainder(v, Pow2(k - 1), p);
      BitIsQuotient(v / 2, k - 1, Pow2(k - 1));
    }
  }

  lemma Powers()
    ensures Pow2(12) == P12 && Pow2(21) == P21 && Pow2(48) == P12 * P36 && Pow2(52) == P21 * P31 && Pow2(64) == U64
  {
    assert Pow2(8) == 0x100;
    assert Pow2(16) == 0x1_0000;
    assert Pow2(24) == 0x100_0000;
    assert Pow2(32) == 0x1_0000_0000;
    assert Pow2(40) == 0x100_0000_0000;
    assert Pow2(48) == 0x1_0000_0000_0000;
    assert Pow2(56) == 0x100_0000_0000_0000;
  }

  // ---------------------------------------------------------------- getters

  /** `present()` tests bit 0, `writable()` bit 1, `user()` bit 2 and `huge_page()` bit 7. */
  lemma FlagsAreBits(v: Word64)
    ensures Present(v) == Bit(v, 0) && Writable(v) == Bit(v, 1) && User(v) == Bit(v, 2) && Huge(v) == Bit(v, 7)
  {
    BitIsQuotient(v, 1, 2);
    BitIsQuotient(v, 2, 4);
    BitIsQuotient(v, 7, 128);
  }

  lemma Regroup(v: nat, p: nat, m: nat, d: nat, q: nat, a: nat, b: nat)
    requires d == p * m && v == q * d + (a * p + b)
    ensures v == (q * m + a) * p + b
  {
    assert q * d == q * (m * p) == q * m * p;
    assert (q * m + a) * p == q * m * p + a * p;
  }

  lemma MiddleDigits(v: nat, p: nat, m: nat, d: nat, q: nat, a: nat, b: nat)
    requires d == p * m && b < p && v == q * d + (a * p + b) && a * p + b < d
    ensures v / p % m * p == a * p
  {
    Regroup(v, p, m, d, q, a, b);
    Quotient(v, p, q * m + a, b);
    CancelLess(a, m, p);
    Quotient(v / p, m, q, a);
  }

  lemma CutDigits(v: nat, p: nat, m: nat, d: nat, r: nat)
    requires p > 0 && m > 0 && d == p * m && r == v % d
    ensures v / p % m * p == r - r % p
  {
    assert v == v / d * d + r && r == r / p * p + r % p;
    MiddleDigits(v, p, m, d, v / d, r / p, r % p);
  }

  /** The digits `a` to `b` of a number, in their place. */
  lemma DigitsBetween(v: nat, a: nat, b: nat, p: nat, m: nat, d: nat, k: nat)
    requires p == Pow2(a) && d == Pow2(b) && d == p * m && m > 0 && a <= b
    ensures Bit(v / p % m * p, k) == (a <= k < b && Bit(v, k))
  {
    var r := v % d;
    CutDigits(v, p, m, d, r);
    LowIsRemainder(v, b, d);
    LowIsRemainder(r, a, p);
    LowIsRemainder(0, a, p);
    BitOfJoin(r, 0, a, k);
    BitOfLow(v, b, k);
    BitOfZero(k);
  }

  /** `address()` masks with 0xFFFFFFFFF000, or with 0xFFFFFFFE00000 in a huge entry. */
  lemma AddressIsBits(v: Word64, k: nat)
    ensures Bit(Address(v), k) == (Bit(v, k) && if Bit(v, 7) then 21 <= k < 52 else 12 <= k < 48)
  {
    FlagsAreBits(v);
    Powers();
    if Huge(v) { DigitsBetween(v, 21, 52, P21, P31, P21 * P31, k); }
    else { DigitsBetween(v, 12, 48, P12, P36, P12 * P36, k); }
  }

  // ---------------------------------------------------------------- setters

  /** Each flag's setter writes its own bit and keeps the other sixty-three. */
  lemma SetPresentIsBit(v: Word64, x: bool, k: nat)
    ensures Bit(SetPresent(v, x), k) == if k == 0 then x else Bit(v, k)
  {
    assert SetPresent(v, x) / 2 == v / 2;
  }

  lemma SetWritableIsBit(v: Word64, x: bool, k: nat)
    ensures Bit(SetWritable(v, x), k) == if k == 1 then x else Bit(v, k)
  {
    assert SetWritable(v, x) / 2 == SetPresent(v / 2, x) && SetWritable(v, x) % 2 == v % 2;
    if k > 0 { SetPresentIsBit(v / 2, x, k - 1); }
  }

  /** The two setters on words put together from their digits. */
  lemma UserDigits(v: Word64, h: nat, c: nat, b: nat, a: nat, x: bool)
    requires c < 2 && b < 2 && a < 2 && v == 8 * h + 4 * c + 2 * b + a
    ensures SetUser(v, x) == 8 * h + Num(x) * 4 + 2 * b + a
  {
    Quotient(v, 8, h, 4 * c + 2 * b + a);
    Quotient(v, 4, 2 * h + c, 2 * b + a);
  }

  lemma WritableDigits(u: Word64, h: nat, c: nat, b: nat, x: bool)
    requires c < 2 && b < 2 && u == 4 * h + 2 * c + b
    ensures SetWritable(u, x) == 4 * h + Num(x) * 2 + b
  {
    Quotient(u, 4, h, 2 * c + b);
    Quotient(u, 2, 2 * h + c, b);
  }

  lemma UserHalf(v: Word64, x: bool)
    ensures SetUser(v, x) / 2 == SetWritable(v / 2, x) && SetUser(v, x) % 2 == v % 2
  {
    var h, m, c, b, a := Parts(v);
    UserDigits(v, h * 16 + m, c, b, a, x);
    WritableDigits(v / 2, h * 16 + m, c, b, x);
    Quotient(SetUser(v, x), 2, 4 * (h * 16 + m) + Num(x) * 2 + b, a);
  }

  lemma SetUserIsBit(v: Word64, x: bool, k: nat)
    ensures Bit(SetUser(v, x), k) == if k == 2 then x else Bit(v, k)
  {
    UserHalf(v, x);
    if k > 0 { SetWritableIsBit(v / 2, x, k - 1); }
  }

  /** `set_address` keeps the low 12 bits, or 21 in a huge entry, and takes the others from the address. */
  lemma SetAddressIsBits(v: Word64, a: Word64, k: nat)
    ensures Bit(SetAddress(v, a), k) == if k < (if Bit(v, 7) then 21 else 12) then Bit(v, k) else Bit(a, k)
  {
    FlagsAreBits(v);
    Powers();
    var j, p := if Huge(v) then 21 else 12, if Huge(v) then P21 else P12;
    LowIsRemainder(a, j, p);
    LowIsRemainder(v, j, p);
    BitOfJoin(a, v, j, k);
  }

  // ---------------------------------------------------------------- the word that linking stores

  /** The flags' setters on a word by its low three bits and the rest. */
  lemma PresentWord(w: Word64, q: nat, l: nat)
    requires w == 8 * q + l && l < 8
    ensures SetPresent(w, true) == 8 * q + l / 2 * 2 + 1
  {
    Quotient(w, 2, 4 * q + l / 2, l % 2);
  }

  lemma WritableWord(w: Word64, q: nat, l: nat, x: bool)
    requires w == 8 * q + l && l < 8 && l % 2 == 1
    ensures SetWritable(w, x) == 8 * q + l / 4 * 4 + Num(x) * 2 + 1
  {
    Quotient(w, 4, 2 * q + l / 4, l % 4);
    Quotient(w, 2, 4 * q + l / 2, 1);
  }

  lemma UserWord(w: Word64, q: nat, l: nat)
    requires w == 8 * q + l && l < 8
    ensures SetUser(w, false) == 8 * q + l % 4
  {
    Quotient(w, 8, q, l);
  }

  lemma FlagsWord(w: Word64, q: nat, l: nat, x: bool)
    requires w == 8 * q + l && l < 8
    ensures SetUser(SetWritable(SetPresent(w, true), x), false) == 8 * q + Num(x) * 2 + 1
  {
    PresentWord(w, q, l);
    WritableWord(SetPresent(w, true), q, l / 2 * 2 + 1, x);
    UserWord(SetWritable(SetPresent(w, true), x), q, l / 4 * 4 + Num(x) * 2 + 1);
  }

  /** Present, for the kernel only, with the page base and the permission; bits 3 to 11 are kept. */
  function LinkWord(v: Word64, a: Word64, writable: bool): Word64 {
    a / 0x1000 * 0x1000 + v % 0x1000 / 8 * 8 + (if writable then 2 else 0) + 1
  }

  lemma LinkedWord(v: Word64, a: Word64, writable: bool)
    requires v / 128 % 2 == 0
    ensures Linked(v, a, writable) == LinkWord(v, a, writable)
  {
    var low := v % P12;
    FlagsWord(SetAddress(v, a), a / P12 * 512 + low / 8, low % 8, writable);
  }

  /** The parts of that word. */
  lemma LinkWordParts(v: Word64, a: Word64, writable: bool, w: Word64)
    requires w == LinkWord(v, a, writable)
    ensures w / 0x1000 == a / 0x1000 && w % 8 == if writable then 3 else 1
  {
    var low := v % 0x1000 / 8 * 8 + (if writable then 2 else 0) + 1;
    Quotient(w, 0x1000, a / 0x1000, low);
    Quotient(w, 8, a / 0x1000 * 512 + v % 0x1000 / 8, if writable then 3 else 1);
  }

  // ---------------------------------------------------------------- the kernel's masks on the low four bits

  lemma MaskPresent(w: bv4, l: nat, x: bool)
    requires l == w as nat
    ensures (l % 2 == 1 <==> w & 1 != 0) && ((w & !1) | (if x then 1 else 0)) as nat == l / 2 * 2 + Num(x)
  {}

  lemma MaskWritable(w: bv4, l: nat, x: bool)
    requires l == w as nat
    ensures l / 2 % 2 == 1 <==> w & (1 << 1) != 0
    ensures ((w & !(1 << 1)) | (if x then 1 << 1 else 0)) as nat == l / 4 * 4 + Num(x) * 2 + l % 2
  {}

  lemma MaskUser(w: bv4, l: nat, x: bool)
    requires l == w as nat
    ensures l / 4 % 2 == 1 <==> w & (1 << 2) != 0
    ensures ((w & !(1 << 2)) | (if x then 1 << 2 else 0)) as nat == l / 8 * 8 + Num(x) * 4 + l % 4
  {}

  /** The flags of a word by its low four bits. */
  lemma LowFlags(v: Word64, h: nat, l: nat)
    requires v == 16 * h + l && l < 16
    ensures v / 2 == 8 * h + l / 2 && v / 4 == 4 * h + l / 4 && v / 8 == 2 * h + l / 8
    ensures v % 2 == l % 2 && v / 2 % 2 == l / 2 % 2 && v / 4 % 2 == l / 4 % 2 && v % 4 == l % 4
  {
    var a, b, c, d := l % 2, l / 2 % 2, l / 4 % 2, l / 8;
    assert l == 8 * d + 4 * c + 2 * b + a;
    Quotient(v, 2, 8 * h + 4 * d + 2 * c + b, a);
    Quotient(v / 2, 2, 4 * h + 2 * d + c, b);
    Quotient(v, 4, 4 * h + 2 * d + c, 2 * b + a);
    Quotient(v / 4, 2, 2 * h + d, c);
    Quotient(v, 8, 2 * h + d, 4 * c + 2 * b + a);
  }

  /** `value & 1`, `value & (1 << 1)` and `value & (1 << 2)`. */
  lemma GettersAreMasks(v: Word64, w: bv4)
    requires v % 16 == w as nat
    ensures Present(v) <==> w & 1 != 0
    ensures Writable(v) <==> w & (1 << 1) != 0
    ensures User(v) <==> w & (1 << 2) != 0
  {
    LowFlags(v, v / 16, v % 16);
    MaskPresent(w, v % 16, true);
    MaskWritable(w, v % 16, true);
    MaskUser(w, v % 16, true);
  }

  /** `(value & ~1) | x` and the like; the bits above are kept. */
  lemma SettersAreMasks(v: Word64, w: bv4, x: bool)
    requires v % 16 == w as nat
    ensures SetPresent(v, x) == v / 16 * 16 + ((w & !1) | (if x then 1 else 0)) as nat
    ensures SetWritable(v, x) == v / 16 * 16 + ((w & !(1 << 1)) | (if x then 1 << 1 else 0)) as nat
    ensures SetUser(v, x) == v / 16 * 16 + ((w & !(1 << 2)) | (if x then 1 << 2 else 0)) as nat
  {
    LowFlags(v, v / 16, v % 16);
    MaskPresent(w, v % 16, x);
    MaskWritable(w, v % 16, x);
    MaskUser(w, v % 16, x);
  }
}
