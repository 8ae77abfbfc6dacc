/** The numeric identifiers of packages/payment-util/shadow/identity.go. Arithmetic is on integers;
    EncodersFit shows that no value computed by an encoder leaves the 64-bit range. */
module Identity {
  import opened Prelude

  const E7 := 10_000_000
  const E11 := 100_000_000_000
  const E13 := 10_000_000_000_000
  const E14 := 100_000_000_000_000
  const E15 := 1_000_000_000_000_000
  const E16 := 10_000_000_000_000_000
  const E18 := 1_000_000_000_000_000_000

  predicate Int64(x: int) { -0x8000_0000_0000_0000 <= x < 0x8000_0000_0000_0000 }

  /** Go's `/` and `%`, which truncate towards zero. */
  function Quotient(a: int, b: int): int
    requires b > 0
  {
    if a >= 0 then a / b else -(-a / b)
  }

  function Remainder(a: int, b: int): int
    requires b > 0
  {
    if a >= 0 then a % b else -(-a % b)
  }

  // ---------------------------------------------------------------- account ids

  datatype Account = Account(shadow: bool, currency: int, accountType: int, table: int, business: int, serial: int)

  function EncodeV1(a: Account): Option<int> {
    if a.currency < 0 || a.currency > 999 then None
    else if a.accountType < 0 || a.accountType > 99 then None
    else if a.table < 0 || a.table > 99 then None
    else if a.business < 0 || a.business > 9_999 then None
    else if a.serial <= 0 || a.serial > 9_999_999 then None
    else
      var id := a.serial + a.business * E7 + a.table * E11 + a.accountType * E13 + a.currency * E15;
      Some(if a.shadow then id + E18 else id)
  }

  function EncodeV2(a: Account): Option<int> {
    if a.currency < 0 || a.currency > 999 then None
    else if a.accountType < 0 || a.accountType > 9 then None
    else if a.table < 0 || a.table > 999 then None
    else if a.business < 0 || a.business > 9_999 then None
    else if a.serial <= 0 || a.serial > 9_999_999 then None
    else
      var id := a.serial + a.business * E7 + a.table * E11 + a.accountType * E14 + a.currency * E15;
      Some((if a.shadow then id + E18 else id) + 2 * E18)
  }

  function Version(id: int): int { if id >= 2 * E18 then 2 else 1 }

  /** The fields of what is left of an id when the two flags are taken off. */
  function Unpack(shadow: bool, x1: int, typeMul: int): Account
    requires typeMul > 0
  {
    var x2 := Remainder(x1, E15);
    var x3 := Remainder(x2, typeMul);
    var x4 := Remainder(x3, E11);
    Account(shadow, Quotient(x1, E15), Quotient(x2, typeMul), Quotient(x3, E11), Quotient(x4, E7), Remainder(x4, E7))
  }

  function Decode(id: int): Account {
    var v2 := Version(id) == 2;
    var x0 := if v2 then id - 2 * E18 else id;
    Unpack(x0 >= E18, if x0 >= E18 then x0 - E18 else x0, if v2 then E14 else E13)
  }

  /** `AccountIDGlobalTableIdx`, which skips the other fields. */
  function TableIndex(id: int): int {
    if Version(id) == 2 then
      var x := id - 2 * E18;
      Quotient(Remainder(if x >= E18 then x - E18 else x, E14), E11)
    else
      Quotient(Remainder(if id >= E18 then id - E18 else id, E13), E11)
  }

  /** `IsShadowAccountIDLayout`. */
  predicate IsShadowLayout(id: int) {
    Remainder(Quotient(id, E18), 2) == 1
  }

  /** `ValidateAccountIDLayout`: whether the id is accepted in a context of this kind. */
  predicate Validate(shadow: bool, id: int) {
    if id < 0 then false
    else
      var a := Decode(id);
      a.shadow == shadow && a.currency <= 999 && a.accountType <= 99 && a.table <= 99
      && a.business <= 9_999 && 0 < a.serial <= 9_999_999
  }

  // ---------------------------------------------------------------- digits

  lemma TimesAtLeast(d: int, k: int)
    requires d >= 1 && k > 0
    ensures d * k >= k
  {
    assert (d - 1) * k >= 0;
  }

  /** A number is split into high and low digits in one way only. */
  lemma Split(h: int, l: int, k: int)
    requires 0 <= l < k
    ensures (h * k + l) / k == h && (h * k + l) % k == l
  {
    var x := h * k + l;
    var q, r := x / k, x % k;
    assert q * k + r == x;
    assert (q - h) * k == l - r && (h - q) * k == r - l;
    if q > h { TimesAtLeast(q - h, k); }
    if q < h { TimesAtLeast(h - q, k); }
  }

  lemma LowDigitsOf(y: int, m: int, c: int, n: int)
    requires y >= 0 && m > 0 && c > 0 && n == m * c && n > 0
    ensures y % n % m == y % m
  {
    var q, r := y / n, y % n;
    var q1, r1 := r / m, r % m;
    assert y == q * n + r && r == q1 * m + r1;
    assert q * n == q * c * m;
    assert (q * c + q1) * m == q * c * m + q1 * m;
    Split(q * c + q1, r1, m);
  }

  lemma LowDigits(x: int, m: int, c: int, n: int)
    requires m > 0 && c > 0 && n == m * c && n > 0
    ensures Remainder(Remainder(x, n), m) == Remainder(x, m)
  {
    var y := if x >= 0 then x else -x;
    LowDigitsOf(y, m, c, n);
    var low := y % n;
    assert Remainder(x, n) == if x >= 0 then low else -low;
    assert Remainder(if x >= 0 then low else -low, m) == if x >= 0 then low % m else -(low % m);
  }

  /** The fields of a number with digit groups of 7, 4, 2 or 3, 2 or 1, and further digits. */
  lemma Fields(serial: int, business: int, table: int, accountType: int, currency: int, typeMul: int)
    requires typeMul == E13 || typeMul == E14
    requires 0 <= serial < E7 && 0 <= business < 10_000
    requires 0 <= table * E11 < typeMul && 0 <= accountType * typeMul < E15 && 0 <= currency
    ensures var x := serial + business * E7 + table * E11 + accountType * typeMul + currency * E15;
            && x / E15 == currency && x % E15 / typeMul == accountType && x % E15 % typeMul / E11 == table
            && x % E15 % typeMul % E11 / E7 == business && x % E15 % typeMul % E11 % E7 == serial
  {
    var x4 := business * E7 + serial;
    var x3 := table * E11 + x4;
    var x2 := accountType * typeMul + x3;
    Split(business, serial, E7);
    Split(table, x4, E11);
    Split(accountType, x3, typeMul);
    Split(currency, x2, E15);
  }

  // ---------------------------------------------------------------- account id theorems

  lemma UnpackUndoes(a: Account, typeMul: int)
    requires typeMul == E13 || typeMul == E14
    requires 0 <= a.serial < E7 && 0 <= a.business < 10_000 && 0 <= a.table * E11 < typeMul
    requires 0 <= a.accountType * typeMul < E15 && 0 <= a.currency
    ensures var x := a.serial + a.business * E7 + a.table * E11 + a.accountType * typeMul + a.currency * E15;
            x >= 0 && Unpack(a.shadow, x, typeMul) == a
  {
    Fields(a.serial, a.business, a.table, a.accountType, a.currency, typeMul);
  }

  lemma DecodeUndoesV1(a: Account)
    requires EncodeV1(a).Some?
    ensures 0 < EncodeV1(a).value < 2 * E18 && Decode(EncodeV1(a).value) == a
  {
    UnpackUndoes(a, E13);
  }

  lemma DecodeUndoesV2(a: Account)
    requires EncodeV2(a).Some?
    ensures 2 * E18 < EncodeV2(a).value < 4 * E18 && Decode(EncodeV2(a).value) == a
  {
    UnpackUndoes(a, E14);
  }

  /** Encoding with either layout can be undone. */
  lemma DecodeUndoesEncode(a: Account)
    ensures EncodeV1(a).Some? ==> 0 < EncodeV1(a).value < 2 * E18 && Decode(EncodeV1(a).value) == a
    ensures EncodeV2(a).Some? ==> 2 * E18 < EncodeV2(a).value < 4 * E18 && Decode(EncodeV2(a).value) == a
  {
    if EncodeV1(a).Some? { DecodeUndoesV1(a); }
    if EncodeV2(a).Some? { DecodeUndoesV2(a); }
  }

  /** No product, partial sum or result of an encoder overflows. */
  lemma EncodersFit(a: Account, typeMul: int)
    requires (EncodeV1(a).Some? && typeMul == E13) || (EncodeV2(a).Some? && typeMul == E14)
    ensures Int64(a.business * E7) && Int64(a.table * E11) && Int64(a.accountType * typeMul) && Int64(a.currency * E15)
    ensures Int64(a.serial + a.business * E7) && Int64(a.serial + a.business * E7 + a.table * E11)
    ensures Int64(a.serial + a.business * E7 + a.table * E11 + a.accountType * typeMul)
    ensures Int64(a.serial + a.business * E7 + a.table * E11 + a.accountType * typeMul +
                  a.currency * E15 + E18 + 2 * E18)
  {
  }

  lemma LastSeven(x: int, typeMul: int)
    requires x >= 0 && (typeMul == E13 || typeMul == E14)
    ensures x % E15 % typeMul % E11 % E7 == x % E7
  {
    LowDigitsOf(x % E15 % typeMul, E7, 10_000, E11);
    LowDigitsOf(x % E15, E7, typeMul / E7, typeMul);
    LowDigitsOf(x, E7, 100_000_000, E15);
  }

  /** The fields are in range and add up to x. */
  predicate Carries(a: Account, x: int, typeMul: int) {
    && a.serial == x % E7 && 0 <= a.business < 10_000
    && 0 <= a.table * E11 < typeMul && 0 <= a.accountType * typeMul < E15
    && a.currency == x / E15
    && x == a.serial + a.business * E7 + a.table * E11 + a.accountType * typeMul + a.currency * E15
  }

  /** Unpacking loses nothing. */
  lemma Unpacked(shadow: bool, x: int, typeMul: int)
    requires x >= 0 && (typeMul == E13 || typeMul == E14)
    ensures Carries(Unpack(shadow, x, typeMul), x, typeMul)
  {
    LastSeven(x, typeMul);
  }

  lemma FlagsLeaveSerial(id: int)
    ensures (id - E18) % E7 == id % E7 && (id - 2 * E18) % E7 == id % E7 && (id - 3 * E18) % E7 == id % E7
  {
  }

  /** An id without its two flags. */
  function Payload(id: int): int {
    id - (if Version(id) == 2 then 2 * E18 else 0) - if Decode(id).shadow then E18 else 0
  }

  lemma PayloadKeepsSerial(id: int)
    requires id >= 0
    ensures 0 <= Payload(id) && Payload(id) % E7 == id % E7 && (id < 4 * E18 ==> Payload(id) < E18)
  {
    FlagsLeaveSerial(id);
  }

  lemma DecodeIsUnpack(id: int)
    requires id >= 0
    ensures var typeMul := if Version(id) == 2 then E14 else E13;
            var x, a := Payload(id), Decode(id);
            && x >= 0 && a == Unpack(a.shadow, x, typeMul) && (id < 4 * E18 ==> x < E18)
            && Carries(a, x, typeMul) && a.serial == id % E7
  {
    PayloadKeepsSerial(id);
    Unpacked(Decode(id).shadow, Payload(id), if Version(id) == 2 then E14 else E13);
  }

  /** Every id below 4e18 with a non-zero serial number is the encoding of what it decodes to. */
  lemma EncodeUndoesDecode(id: int)
    requires 0 <= id < 4 * E18 && id % E7 != 0
    ensures (if Version(id) == 1 then EncodeV1(Decode(id)) else EncodeV2(Decode(id))) == Some(id)
  {
    DecodeIsUnpack(id);
  }

  ghost predicate InV1(shadow: bool, id: int) {
    exists a: Account :: a.shadow == shadow && EncodeV1(a) == Some(id)
  }

  ghost predicate InV2(shadow: bool, id: int) {
    exists a: Account :: a.shadow == shadow && EncodeV2(a) == Some(id)
  }

  lemma SerialOfV1(a: Account, id: int)
    requires EncodeV1(a) == Some(id)
    ensures id % E7 == a.serial && if a.shadow then E18 <= id < 2 * E18 else 0 <= id < E18
  {
    var rest := a.business + a.table * 10_000 + a.accountType * 1_000_000 +
      a.currency * 100_000_000 + if a.shadow then 100_000_000_000 else 0;
    Split(rest, a.serial, E7);
  }

  lemma SerialOfV2(a: Account, id: int)
    requires EncodeV2(a) == Some(id)
    ensures id % E7 == a.serial && if a.shadow then 3 * E18 <= id < 4 * E18 else 2 * E18 <= id < 3 * E18
  {
    var rest := a.business + a.table * 10_000 + a.accountType * 10_000_000 + a.currency * 100_000_000
                + if a.shadow then 300_000_000_000 else 200_000_000_000;
    Split(rest, a.serial, E7);
  }

  /** The four images are pairwise disjoint and fill four blocks of ids. */
  lemma ImagesAreBlocks(id: int)
    ensures InV1(false, id) <==> 0 <= id < E18 && id % E7 != 0
    ensures InV1(true, id) <==> E18 <= id < 2 * E18 && id % E7 != 0
    ensures InV2(false, id) <==> 2 * E18 <= id < 3 * E18 && id % E7 != 0
    ensures InV2(true, id) <==> 3 * E18 <= id < 4 * E18 && id % E7 != 0
  {
    forall a: Account | EncodeV1(a) == Some(id)
      ensures id % E7 == a.serial && if a.shadow then E18 <= id < 2 * E18 else 0 <= id < E18
    {
      SerialOfV1(a, id);
    }
    forall a: Account | EncodeV2(a) == Some(id)
      ensures id % E7 == a.serial && if a.shadow then 3 * E18 <= id < 4 * E18 else 2 * E18 <= id < 3 * E18
    {
      SerialOfV2(a, id);
    }
    if 0 <= id < 4 * E18 && id % E7 != 0 { EncodeUndoesDecode(id); }
  }

  /** The shortcut agrees with the full decoder on every integer. */
  lemma TableIndexIsDecoded(id: int)
    ensures TableIndex(id) == Decode(id).table
  {
    var x0 := if Version(id) == 2 then id - 2 * E18 else id;
    var x1 := if x0 >= E18 then x0 - E18 else x0;
    if Version(id) == 2 { LowDigits(x1, E14, 10, E15); } else { LowDigits(x1, E13, 100, E15); }
  }

  /** The shortcut for the shadow flag agrees with the decoder below 4e18, and above only where the
      leading digit happens to be odd. */
  lemma ShadowShortcutIsDecoded(id: int)
    ensures IsShadowLayout(id) == Decode(id).shadow <==> id < 4 * E18 || id / E18 % 2 == 1
  {
  }

  /** What decoding yields for an id that is not negative. */
  lemma DecodedFields(id: int)
    requires id >= 0
    ensures var a := Decode(id);
            && a.serial == id % E7 && 0 <= a.business <= 9_999 && 0 <= a.accountType <= 99
            && (a.currency <= 999 <==> id < 4 * E18) && (id < 2 * E18 ==> a.table <= 99)
            && (id < 4 * E18 ==> a.shadow == (E18 <= id < 2 * E18 || 3 * E18 <= id))
  {
    DecodeIsUnpack(id);
  }

  /** The validator accepts exactly the V1 ids of the context and those V2 ids of the context whose
      table number also exists in V1. */
  lemma ValidateIsExact(shadow: bool, id: int)
    ensures Validate(shadow, id) <==> InV1(shadow, id) || (InV2(shadow, id) && Decode(id).table <= 99)
  {
    ImagesAreBlocks(id);
    if id >= 0 { DecodedFields(id); }
  }

  /** A well-formed V2 id of table 100 is refused. */
  lemma ValidateRefusesV2Tables()
    ensures var a := Account(false, 608, 1, 100, 1, 1); EncodeV2(a).Some? && !Validate(false, EncodeV2(a).value)
  {
    DecodeUndoesEncode(Account(false, 608, 1, 100, 1, 1));
  }

  // ---------------------------------------------------------------- entity and generic ids

  datatype Entity = Entity(shadow: bool, table: int, serial: int)

  function EncodeEntity(e: Entity): Option<int> {
    if e.table < 0 || e.table > 99 then None
    else if e.serial <= 0 || e.serial > E16 - 1 then None
    else Some((if e.shadow then E18 else 0) + (e.table * E16 + e.serial))
  }

  function DecodeEntity(id: int): Entity {
    var x := if id >= E18 then id - E18 else id;
    Entity(id >= E18, Quotient(x, E16), Remainder(x, E16))
  }

  predicate ValidateEntity(shadow: bool, id: int) {
    if id <= 0 then false
    else var e := DecodeEntity(id); 0 <= e.table <= 99 && 0 < e.serial <= E16 - 1 && e.shadow == shadow
  }

  /** Entity ids round-trip both ways, and the validator accepts exactly the encodings for its
      context. */
  lemma EntityIsExact(shadow: bool, id: int, e: Entity)
    ensures EncodeEntity(e) == Some(id) ==> DecodeEntity(id) == e && Int64(id)
    ensures ValidateEntity(shadow, id)
            <==> DecodeEntity(id).shadow == shadow && EncodeEntity(DecodeEntity(id)) == Some(id)
  {
    if EncodeEntity(e) == Some(id) { Split(e.table, e.serial, E16); }
  }

  datatype Generic = Generic(shadow: bool, idType: int, table: int, serial: int)

  function EncodeGeneric(g: Generic): Option<int> {
    if g.idType < 0 || g.idType > 999 then None
    else if g.table < 0 || g.table > 99 then None
    else if g.serial <= 0 || g.serial > E13 - 1 then None
    else Some(g.serial + g.table * E13 + g.idType * E15 + if g.shadow then E18 else 0)
  }

  function DecodeGeneric(id: int): Generic {
    var x := if id >= E18 then id - E18 else id;
    Generic(id >= E18, Quotient(x, E15), Quotient(Remainder(x, E15), E13), Remainder(Remainder(x, E15), E13))
  }

  lemma GenericSerial(x: int)
    requires x >= 0
    ensures x % E15 % E13 == x % E13 && (x + E18) % E13 == x % E13
  {
    LowDigitsOf(x, E13, 100, E15);
  }

  /** Generic ids round-trip, and the ids that are encodings are those below 2e18 with a non-zero
      serial number. */
  lemma GenericIsExact(id: int, g: Generic)
    ensures EncodeGeneric(g) == Some(id) ==> DecodeGeneric(id) == g && Int64(id)
    ensures EncodeGeneric(DecodeGeneric(id)) == Some(id) <==> 0 <= id < 2 * E18 && id % E13 != 0
  {
    if EncodeGeneric(g) == Some(id) { GenericUnpacks(id, g); }
    GenericPacks(id);
  }

  lemma GenericUnpacks(id: int, g: Generic)
    requires EncodeGeneric(g) == Some(id)
    ensures DecodeGeneric(id) == g && 0 <= id < 2 * E18
  {
    Split(g.table, g.serial, E13);
    Split(g.idType, g.table * E13 + g.serial, E15);
  }

  lemma GenericPacks(id: int)
    ensures EncodeGeneric(DecodeGeneric(id)) == Some(id) <==> 0 <= id < 2 * E18 && id % E13 != 0
  {
    if id >= 0 { GenericSerial(if id >= E18 then id - E18 else id); }
  }

  /** `IDTableIndex` and `IDDBIndex`. */
  function GenericTableIndex(id: int): int {
    Quotient(Remainder(if id >= E18 then id - E18 else id, E15), E13)
  }

  function GenericDbIndex(id: int): int {
    Quotient(Quotient(Remainder(if id >= E18 then id - E18 else id, E15), E13), 10)
  }

  lemma FifteenthDigit(x: int)
    requires x >= 0
    ensures x % E15 / E13 / 10 == x / E14 % 10
  {
    var q, r := x / E15, x % E15;
    var d, s := r / E14, r % E14;
    Split(d * 10 + s / E13, s % E13, E13);
    Split(q * 10 + d, s, E14);
    Split(q, d, 10);
    Split(d, s / E13, 10);
  }

  lemma FlagLeavesDigit(id: int)
    ensures (id - E18) / E14 % 10 == id / E14 % 10
  {
    var q, r := id / E14, id % E14;
    assert id - E18 == (q - 10_000) * E14 + r;
    Split(q - 10_000, r, E14);
  }

  lemma EncodedIndex(id: int, g: Generic)
    requires EncodeGeneric(g) == Some(id)
    ensures GenericTableIndex(id) == g.table && GenericDbIndex(id) == g.table / 10
  {
    GenericUnpacks(id, g);
    assert DecodeGeneric(id).table == GenericTableIndex(id);
  }

  /** The shortcuts find the decoded table on every integer and the encoded one on every encoding; the
      database is the fifteenth digit of an id. */
  lemma GenericIndexIsDecoded(id: int, g: Generic)
    ensures GenericTableIndex(id) == DecodeGeneric(id).table
    ensures id >= 0 ==> GenericDbIndex(id) == id / E14 % 10
    ensures EncodeGeneric(g) == Some(id) ==> GenericTableIndex(id) == g.table && GenericDbIndex(id) == g.table / 10
  {
    if EncodeGeneric(g) == Some(id) { EncodedIndex(id, g); }
    if id >= E18 {
      FifteenthDigit(id - E18);
      FlagLeavesDigit(id);
    } else if id >= 0 {
      FifteenthDigit(id);
    }
  }

  // ---------------------------------------------------------------- merchant ids

  function EncodeMerchant(shadow: bool, serial: int): Option<int> {
    if serial <= 0 || serial > E18 - 1 then None else Some(if shadow then serial + E18 else serial)
  }

  function DecodeMerchant(id: int): (bool, int) {
    if id >= E18 then (true, id - E18) else (false, id)
  }

  predicate ValidateMerchant(shadow: bool, id: int) {
    if id <= 0 then false
    else
      var (isShadow, serial) := DecodeMerchant(id);
      0 < serial <= E18 - 1 && isShadow == shadow
  }

  function ShadowMerchant(id: int): int {
    if id <= 0 then 0 else if id >= E18 then id else id + E18
  }

  /** Merchant ids: the validator accepts exactly the encodings of its context, and the mapping to
      the shadow side keeps the serial number and lands where a shadow context accepts it. */
  lemma MerchantIsExact(shadow: bool, id: int)
    ensures ValidateMerchant(shadow, id) <==> exists serial :: EncodeMerchant(shadow, serial) == Some(id)
    ensures ValidateMerchant(shadow, id) ==>
              DecodeMerchant(id).0 == shadow && EncodeMerchant(shadow, DecodeMerchant(id).1) == Some(id)
    ensures ValidateMerchant(shadow, id) ==>
              ValidateMerchant(true, ShadowMerchant(id)) && DecodeMerchant(ShadowMerchant(id)).1 == DecodeMerchant(id).1
    ensures ShadowMerchant(ShadowMerchant(id)) == ShadowMerchant(id)
  {
    var serial := DecodeMerchant(id).1;
    if ValidateMerchant(shadow, id) { assert EncodeMerchant(shadow, serial) == Some(id); }
  }

  // ---------------------------------------------------------------- user ids

  const MAIN_FLEET := (1_000_000, 9_999_999)
  const MAIN_USER := (100_000_000, 899_999_999)
  const SHADOW_FLEET := (9_000_000_000, 9_009_999_999)
  const SHADOW_USER := (9_010_000_000, 9_899_999_999)

  predicate Within(range: (int, int), id: int) { range.0 <= id <= range.1 }

  function FleetUserId(shadow: bool, channel: int, table: int): int {
    var c := if channel < 0 || channel >= 9000 then 0 else channel;
    var t := if table < 0 || table >= 1000 then 0 else table;
    (if shadow then SHADOW_FLEET else MAIN_FLEET).0 + (c * 1000 + t)
  }

  function DecodeFleet(id: int): (int, int) {
    if Within(MAIN_FLEET, id) then (Quotient(id - MAIN_FLEET.0, 1000), Remainder(id - MAIN_FLEET.0, 1000))
    else if Within(SHADOW_FLEET, id) then (Quotient(id - SHADOW_FLEET.0, 1000), Remainder(id - SHADOW_FLEET.0, 1000))
    else (-1, -1)
  }

  predicate ValidateUser(shadow: bool, id: int) {
    var (lo, hi) := if shadow then SHADOW_USER else MAIN_USER;
    !(id < lo || id > hi)
  }

  function ShadowUser(id: int): int {
    if Within(SHADOW_USER, id) then id
    else if !Within(MAIN_USER, id) then 0
    else SHADOW_USER.0 + (id - MAIN_USER.0)
  }

  const SEGMENTS := {MAIN_FLEET, MAIN_USER, SHADOW_FLEET, SHADOW_USER}

  /** No user id lies in two of the four segments. */
  lemma SegmentsAreDisjoint(id: int)
    ensures forall a, b | a in SEGMENTS && b in SEGMENTS && Within(a, id) && Within(b, id) :: a == b
  {
  }

  /** Fleet ids: encoding always lands in the fleet segment of its context and, for a channel and a
      table in range, can be undone; exactly the ids of the two fleet segments decode, and such an id
      is the encoding of what it decodes to unless it lies in the last million of the shadow
      segment, for which there are no channels. */
  lemma FleetRoundTrip(shadow: bool, channel: int, table: int, id: int)
    ensures Within(if shadow then SHADOW_FLEET else MAIN_FLEET, FleetUserId(shadow, channel, table))
    ensures DecodeFleet(FleetUserId(shadow, channel, table)) == (channel, table)
            <==> 0 <= channel < 9000 && 0 <= table < 1000
    ensures Within(MAIN_FLEET, id) || Within(SHADOW_FLEET, id) <==> DecodeFleet(id) != (-1, -1)
    ensures DecodeFleet(id) != (-1, -1) ==>
              (FleetUserId(Within(SHADOW_FLEET, id), DecodeFleet(id).0, DecodeFleet(id).1) == id
               <==> id < SHADOW_FLEET.0 + 9_000_000)
  {
    if 0 <= channel < 9000 && 0 <= table < 1000 { Split(channel, table, 1000); }
  }

  /** The first such id decodes to channel 9000, which encodes as channel 0. */
  lemma ShadowFleetChannel9000()
    ensures DecodeFleet(9_009_000_000) == (9000, 0) && FleetUserId(true, 9000, 0) == 9_000_000_000
  {
  }

  /** Main users are mapped one to one into the shadow user segment, where a shadow context accepts
      them and a main context does not; mapping twice changes nothing. The first of them goes to
      9,010,000,000. */
  lemma ShadowUserIsInjective(a: int, b: int)
    ensures ValidateUser(false, a) ==> ValidateUser(true, ShadowUser(a)) && !ValidateUser(false, ShadowUser(a))
    ensures ValidateUser(false, a) && ValidateUser(false, b) && ShadowUser(a) == ShadowUser(b) ==> a == b
    ensures ShadowUser(ShadowUser(a)) == ShadowUser(a)
    ensures ShadowUser(a) != 0 <==> ValidateUser(false, a) || ValidateUser(true, a)
    ensures ShadowUser(100_000_000) == 9_010_000_000
  {
  }
}
