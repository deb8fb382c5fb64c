/**
  A page-table entry is a 64-bit value read and written one field at a time. A bit field is written with
  division and remainder, so `v & 1` is `v % 2` and `v & 0xFFFFFFFFF000` is `v / 2^12 % 2^36 * 2^12`.

  The laws: a setter sets its own field and leaves the others. They let the tree of tables be described
  with records instead of bits.
*/
module PageEntry {
  import opened Arithmetic

  const P12: int := 0x1000
  const P21: int := 0x20_0000
  const P31: int := 0x8000_0000
  const P36: int := 0x10_0000_0000

  type Word64 = v: nat | v < U64

  /** The fields of an entry that paging uses. */
  datatype Entry = Entry(present: bool, writable: bool, user: bool, huge: bool, address: nat)

  const ZERO := Entry(false, false, false, false, 0)

  predicate Present(v: nat) { v % 2 == 1 }

  predicate Writable(v: nat) { v / 2 % 2 == 1 }

  predicate User(v: nat) { v / 4 % 2 == 1 }

  predicate Huge(v: nat) { v / 128 % 2 == 1 }

  function Address(v: nat): nat {
    if Huge(v) then v / P21 % P31 * P21 else v / P12 % P36 * P12
  }

  function Fields(v: nat): Entry { Entry(Present(v), Writable(v), User(v), Huge(v), Address(v)) }

  function Num(x: bool): nat { if x then 1 else 0 }

  function SetPresent(v: Word64, x: bool): Word64 { v / 2 * 2 + Num(x) }

  function SetWritable(v: Word64, x: bool): Word64 { v / 4 * 4 + Num(x) * 2 + v % 2 }

  function SetUser(v: Word64, x: bool): Word64 { v / 8 * 8 + Num(x) * 4 + v % 4 }

  function SetAddress(v: Word64, a: Word64): Word64 {
    if Huge(v) then a / P21 * P21 + v % P21 else a / P12 * P12 + v % P12
  }

  // ---------------------------------------------------------------- the laws

  /** The fields of a value put together from its low bits and the rest. */
  lemma FromParts(v: nat, h: nat, m: nat, u: nat, w: nat, p: nat)
    requires p < 2 && w < 2 && u < 2 && m < 16
    requires v == h * 128 + m * 8 + u * 4 + w * 2 + p
    ensures v % 2 == p && v / 2 % 2 == w && v / 4 % 2 == u && v / 128 == h
  {
    Quotient(v, 2, h * 64 + m * 4 + u * 2 + w, p);
    Quotient(v / 2, 2, h * 32 + m * 2 + u, w);
    Quotient(v, 4, h * 32 + m * 2 + u, w * 2 + p);
    Quotient(v / 4, 2, h * 16 + m, u);
    Quotient(v, 128, h, m * 8 + u * 4 + w * 2 + p);
  }

  lemma Parts(v: nat) returns (h: nat, m: nat, u: nat, w: nat, p: nat)
    ensures p < 2 && w < 2 && u < 2 && m < 16 && v == h * 128 + m * 8 + u * 4 + w * 2 + p
    ensures p == v % 2 && w == v / 2 % 2 && u == v / 4 % 2 && h == v / 128
    ensures v / 2 == h * 64 + m * 4 + u * 2 + w && v / 4 == h * 32 + m * 2 + u && v / 8 == h * 16 + m
    ensures v % 4 == w * 2 + p
  {
    p, w, u, m, h := v % 2, v / 2 % 2, v / 4 % 2, v / 8 % 16, v / 8 / 16;
    assert v / 2 == v / 4 * 2 + w && v / 4 == v / 8 * 2 + u && v / 8 == h * 16 + m;
    FromParts(v, h, m, u, w, p);
    Quotient(v, 4, h * 32 + m * 2 + u, w * 2 + p);
  }

  /** The address depends only on what lies above the flags. */
  lemma SameAddress(v: nat, v': nat)
    requires v / 128 == v' / 128
    ensures Huge(v) == Huge(v') && Address(v) == Address(v')
  {
    assert v / P12 == v / 128 / 32 && v' / P12 == v' / 128 / 32;
    assert v / P21 == v / 128 / 0x4000 && v' / P21 == v' / 128 / 0x4000;
  }

  lemma SetPresentLaw(v: Word64, x: bool)
    ensures Fields(SetPresent(v, x)) == Fields(v).(present := x)
  {
    var h, m, u, w, p := Parts(v);
    FromParts(SetPresent(v, x), h, m, u, w, Num(x));
    SameAddress(SetPresent(v, x), v);
  }

  lemma SetWritableLaw(v: Word64, x: bool)
    ensures Fields(SetWritable(v, x)) == Fields(v).(writable := x)
  {
    var h, m, u, w, p := Parts(v);
    FromParts(SetWritable(v, x), h, m, u, Num(x), p);
    SameAddress(SetWritable(v, x), v);
  }

  lemma SetUserLaw(v: Word64, x: bool)
    ensures Fields(SetUser(v, x)) == Fields(v).(user := x)
  {
    var h, m, u, w, p := Parts(v);
    FromParts(SetUser(v, x), h, m, Num(x), w, p);
    SameAddress(SetUser(v, x), v);
  }

  /** The flags are in the low twelve bits. */
  lemma LowBits(v: nat, q: nat, low: nat)
    requires low < P12 && v == q * P12 + low
    ensures v / P12 == q && v % P12 == low
    ensures Present(v) == Present(low) && Writable(v) == Writable(low) && User(v) == User(low) && Huge(v) == Huge(low)
  {
    Quotient(v, P12, q, low);
    var h, m, u, w, p := Parts(low);
    FromParts(v, q * 32 + h, m, u, w, p);
    Quotient(q * 32 + h, 2, q * 16 + h / 2, h % 2);
  }

  /** The address read back is the page base: cut to 48 bits in a small-page entry, to 52 in a huge one. */
  lemma SetAddressLaw(v: Word64, a: Word64)
    ensures Fields(SetAddress(v, a)) ==
            Fields(v).(address := if Huge(v) then a / P21 % P31 * P21 else a / P12 % P36 * P12)
  {
    if Huge(v) {
      HighBits(v, a);
    } else {
      LowBits(SetAddress(v, a), a / P12, v % P12);
      LowBits(v, v / P12, v % P12);
    }
  }

  /** The flags of two values that agree below bit 21. */
  lemma SameLowBits(v: nat, r: nat, q: nat, q': nat, m: nat, l: nat)
    requires m < 512 && l < P12 && v == q * P21 + m * P12 + l && r == q' * P21 + m * P12 + l
    ensures r / P21 == q'
    ensures Present(r) == Present(v) && Writable(r) == Writable(v) && User(r) == User(v) && Huge(r) == Huge(v)
  {
    LowBits(v, q * 512 + m, l);
    LowBits(r, q' * 512 + m, l);
    Quotient(r, P21, q', m * P12 + l);
  }

  lemma HighBits(v: Word64, a: Word64)
    requires Huge(v)
    ensures Fields(SetAddress(v, a)) == Fields(v).(address := a / P21 % P31 * P21)
  {
    SameLowBits(v, SetAddress(v, a), v / P21, a / P21, v % P21 / P12, v % P21 % P12);
  }

  lemma ZeroFields()
    ensures Fields(0) == ZERO
  {}

  /** What linking does to an entry, setter by setter. */
  function Linked(v: Word64, a: Word64, writable: bool): Word64 {
    SetUser(SetWritable(SetPresent(SetAddress(v, a), true), writable), false)
  }

  /** For a small-page entry: present, with that page base and permission, for the kernel only. */
  lemma LinkedFields(v: Word64, a: Word64, writable: bool)
    requires !Huge(v)
    ensures Fields(Linked(v, a, writable)) == Entry(true, writable, false, false, a / P12 % P36 * P12)
  {
    SetAddressLaw(v, a);
    SetPresentLaw(SetAddress(v, a), true);
    SetWritableLaw(SetPresent(SetAddress(v, a), true), writable);
    SetUserLaw(SetWritable(SetPresent(SetAddress(v, a), true), writable), false);
  }

  /** A page base survives exactly when it is below 2^48. */
  lemma AddressSurvives(a: nat)
    requires a % P12 == 0
    ensures a / P12 % P36 * P12 == a <==> a < P36 * P12
  {}

  /** 2^48 itself is read back as 0. */
  lemma AddressLost()
    ensures Fields(SetAddress(0, P36 * P12)).address == 0
  {
    SetAddressLaw(0, P36 * P12);
  }
}
