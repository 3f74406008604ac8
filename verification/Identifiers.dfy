/** Time-ordered identifiers: ULIDs and version 7 UUIDs carry their timestamp exactly and sort by it. */
module Identifiers {
  import opened Text

  // ------------------------------------------------------------------- digits

  /** Numbers are written in base 256 or in base 32. */
  datatype Base = Bytes | Base32

  function Size(base: Base): nat { if base.Bytes? then 256 else 32 }

  function Quotient(v: nat, base: Base): nat { if base.Bytes? then v / 256 else v / 32 }

  function Remainder(v: nat, base: Base): (r: nat)
    ensures r < Size(base)
  {
    if base.Bytes? then v % 256 else v % 32
  }

  function Joined(q: nat, r: nat, base: Base): nat { if base.Bytes? then q * 256 + r else q * 32 + r }

  function Power(base: Base, n: nat): (p: nat)
    ensures p > 0
  {
    if n == 0 then 1 else if base.Bytes? then 256 * Power(base, n - 1) else 32 * Power(base, n - 1)
  }

  predicate Below(d: seq<nat>, bound: nat) { forall i :: 0 <= i < |d| ==> d[i] < bound }

  /** The `n` lowest digits of `v`, the highest first. */
  function Digits(v: nat, n: nat, base: Base): (d: seq<nat>)
    ensures |d| == n && Below(d, Size(base))
  {
    if n == 0 then [] else Digits(Quotient(v, base), n - 1, base) + [Remainder(v, base)]
  }

  function Value(d: seq<nat>, base: Base): nat {
    if d == [] then 0 else Joined(Value(d[..|d| - 1], base), d[|d| - 1], base)
  }

  lemma {:induction false} ValueOfDigits(v: nat, n: nat, base: Base)
    requires v < Power(base, n)
    ensures Value(Digits(v, n, base), base) == v
  {
    if n > 0 {
      ValueOfDigits(Quotient(v, base), n - 1, base);
      assert Digits(v, n, base)[..n - 1] == Digits(Quotient(v, base), n - 1, base);
    }
  }

  lemma {:induction false} DigitsOfValue(d: seq<nat>, base: Base)
    requires Below(d, Size(base))
    ensures Value(d, base) < Power(base, |d|) && Digits(Value(d, base), |d|, base) == d
  {
    if d != [] {
      var init, last := d[..|d| - 1], d[|d| - 1];
      DigitsOfValue(init, base);
      JoinedParts(Value(init, base), last, base);
      assert d == init + [last];
    }
  }

  lemma JoinedParts(q: nat, r: nat, base: Base)
    requires r < Size(base)
    ensures Quotient(Joined(q, r, base), base) == q && Remainder(Joined(q, r, base), base) == r
  {
  }

  /** The highest digit of a number below eight times the digit's weight is below eight. */
  lemma {:induction false} HeadDigit(v: nat, n: nat)
    requires v < 8 * Power(Base32, n)
    ensures Digits(v, n + 1, Base32)[0] < 8
  {
    if n > 0 {
      HeadDigit(v / 32, n - 1);
    }
  }

  // -------------------------------------------------------------------- order

  /** The first place where they differ decides. */
  ghost predicate LexLess(d: seq<nat>, e: seq<nat>) {
    |d| == |e| && exists i :: DiffersAt(d, e, i)
  }

  predicate DiffersAt(d: seq<nat>, e: seq<nat>, i: int) {
    0 <= i < |d| && i < |e| && d[..i] == e[..i] && d[i] < e[i]
  }

  /** Fixed-width digits sort as their numbers. */
  lemma {:induction false} DigitsSort(v: nat, w: nat, n: nat, base: Base)
    requires v < w < Power(base, n)
    ensures LexLess(Digits(v, n, base), Digits(w, n, base))
  {
    var d, e := Digits(v, n, base), Digits(w, n, base);
    var q, p := Quotient(v, base), Quotient(w, base);
    assert d[..n - 1] == Digits(q, n - 1, base) && e[..n - 1] == Digits(p, n - 1, base);
    if q < p {
      DigitsSort(q, p, n - 1, base);
      var i :| DiffersAt(d[..n - 1], e[..n - 1], i);
      assert d[..i] == d[..n - 1][..i] && e[..i] == e[..n - 1][..i];
      assert DiffersAt(d, e, i);
    } else {
      assert q == p && DiffersAt(d, e, n - 1);
    }
  }

  /** Two texts of one length, compared before anything that follows. */
  lemma {:induction false} LessBefore(a: string, b: string, c: string, d: string)
    requires |a| == |b| && Less(a, b)
    ensures Less(a + c, b + d)
  {
    assert (a + c)[1..] == a[1..] + c && (b + d)[1..] == b[1..] + d;
    if a[0] == b[0] {
      LessBefore(a[1..], b[1..], c, d);
    }
  }

  lemma {:induction false} LessAfter(a: string, c: string, d: string)
    requires Less(c, d)
    ensures Less(a + c, a + d)
  {
    if a != "" {
      LessAfter(a[1..], c, d);
      assert (a + c)[1..] == a[1..] + c && (a + d)[1..] == a[1..] + d;
    } else {
      assert a + c == c && a + d == d;
    }
  }

  // --------------------------------------------------------------------- ULID

  const ULID_ALPHABET := "0123456789ABCDEFGHJKMNPQRSTVWXYZ"

  function Letter(d: nat): char
    requires d < 32
  {
    ULID_ALPHABET[d]
  }

  function Spell(d: seq<nat>): (s: string)
    requires Below(d, 32)
    ensures |s| == |d| && forall i :: 0 <= i < |d| ==> s[i] == Letter(d[i])
  {
    seq(|d|, i requires 0 <= i < |d| => Letter(d[i]))
  }

  lemma AlphabetRises(i: nat, j: nat)
    requires i < j < 32
    ensures Letter(i) < Letter(j)
  {
  }

  lemma SpellingsSort(d: seq<nat>, e: seq<nat>)
    requires Below(d, 32) && Below(e, 32) && LexLess(d, e)
    ensures Less(Spell(d), Spell(e))
  {
    var i :| DiffersAt(d, e, i);
    SpellSplit(d, i);
    SpellSplit(e, i);
    AlphabetRises(d[i], e[i]);
    LessAfter(Spell(d[..i]), Spell(d[i..]), Spell(e[i..]));
  }

  lemma SpellSplit(d: seq<nat>, i: nat)
    requires Below(d, 32) && i <= |d|
    ensures Spell(d) == Spell(d[..i]) + Spell(d[i..])
  {
  }

  /** The loop both encoders share: digits from the lowest, each put in front. */
  method EncodeBase32(value: nat, length: nat) returns (encoded: string)
    ensures encoded == Spell(Digits(value, length, Base32))
  {
    encoded := "";
    var rest := value;
    for i := 0 to length
      invariant Spell(Digits(value, length, Base32)) == Spell(Digits(rest, length - i, Base32)) + encoded
    {
      assert Spell(Digits(rest, length - i, Base32))
          == Spell(Digits(rest / 32, length - i - 1, Base32)) + [Letter(rest % 32)];
      encoded := [Letter(rest % 32)] + encoded;
      rest := rest / 32;
    }
  }

  /** `ulid` for the time and the bytes drawn: both read back from what it gives. */
  method MakeUlid(now: nat, random: seq<nat>) returns (s: string)
    ensures s == Ulid(now, random)
    ensures now < 0x1_0000_0000_0000 && |random| == 10 && Below(random, 256) ==>
      && IsUlid(s) && Value(Read(s[..10]), Base32) == now
      && Digits(Value(Read(s[10..]), Base32), 10, Bytes) == random
  {
    if now < 0x1_0000_0000_0000 && |random| == 10 && Below(random, 256) {
      UlidDecodes(now, random);
      UlidIsUlid(now, random);
    }
    var time := EncodeBase32(now, 10);
    var value := 0;
    for i := 0 to |random|
      invariant value == Value(random[..i], Bytes)
    {
      assert random[..i + 1][..i] == random[..i];
      value := value * 256 + random[i];
    }
    assert random[..|random|] == random;
    var rest := EncodeBase32(value, 16);
    s := time + rest;
  }

  function Ulid(now: nat, random: seq<nat>): (s: string)
    ensures |s| == 26
  {
    Spell(Digits(now, 10, Base32)) + Spell(Digits(Value(random, Bytes), 16, Base32))
  }

  /** What a character stands for, looked up from `i` on; what is not found stands for 0. */
  function Find(c: char, i: nat): (d: nat)
    requires i <= 32
    ensures d < 32
    decreases 32 - i
  {
    if i == 32 then 0 else if Letter(i) == c then i else Find(c, i + 1)
  }

  lemma {:induction false} FindSpelled(d: nat, i: nat)
    requires i <= d < 32
    ensures Find(Letter(d), i) == d
    decreases d - i
  {
    if i < d {
      AlphabetRises(i, d);
      FindSpelled(d, i + 1);
    }
  }

  function Read(s: string): (d: seq<nat>)
    ensures |d| == |s| && Below(d, 32)
  {
    seq(|s|, i requires 0 <= i < |s| => Find(s[i], 0))
  }

  lemma ReadSpelled(d: seq<nat>)
    requires Below(d, 32)
    ensures Read(Spell(d)) == d
  {
    forall i | 0 <= i < |d| ensures Read(Spell(d))[i] == d[i] {
      FindSpelled(d[i], 0);
    }
  }

  /** `[0-9A-HJKMNP-TV-Z]`, in either case. */
  predicate IsUlidChar(c: char) {
    var u := if 'a' <= c <= 'z' then (c as int - 32) as char else c;
    '0' <= u <= '9' || 'A' <= u <= 'H' || u in {'J', 'K', 'M', 'N'} || 'P' <= u <= 'T' || 'V' <= u <= 'Z'
  }

  /** `ULID_RE`. */
  predicate IsUlid(s: string) {
    |s| == 26 && '0' <= s[0] <= '7' && forall i :: 1 <= i < 26 ==> IsUlidChar(s[i])
  }

  lemma AlphabetFits(d: nat)
    requires d < 32
    ensures IsUlidChar(Letter(d)) && (d < 8 ==> '0' <= Letter(d) <= '7')
  {
  }

  lemma UlidPowers()
    ensures 8 * Power(Base32, 9) == 0x1_0000_0000_0000 && Power(Base32, 10) == 0x4_0000_0000_0000
    ensures Power(Bytes, 10) == Power(Base32, 16)
  {
    assert Power(Base32, 3) == 0x8000 && Power(Base32, 6) == 0x4000_0000;
    assert Power(Base32, 9) == 0x2000_0000_0000 && Power(Base32, 12) == 0x1000_0000_0000_0000;
    assert Power(Base32, 15) == 0x800_0000_0000_0000_0000;
    assert Power(Bytes, 3) == 0x100_0000 && Power(Bytes, 6) == 0x1_0000_0000_0000;
    assert Power(Bytes, 9) == 0x100_0000_0000_0000_0000;
  }

  /** Both halves of a ULID read back exactly. */
  lemma UlidDecodes(now: nat, random: seq<nat>)
    requires now < 0x1_0000_0000_0000 && |random| == 10 && Below(random, 256)
    ensures
      var s := Ulid(now, random);
      && Value(Read(s[..10]), Base32) == now
      && Digits(Value(Read(s[10..]), Base32), 10, Bytes) == random
  {
    var time, rest := Digits(now, 10, Base32), Digits(Value(random, Bytes), 16, Base32);
    UlidPowers();
    ReadSpelled(time);
    ReadSpelled(rest);
    assert Ulid(now, random)[..10] == Spell(time) && Ulid(now, random)[10..] == Spell(rest);
    ValueOfDigits(now, 10, Base32);
    DigitsOfValue(random, Bytes);
    ValueOfDigits(Value(random, Bytes), 16, Base32);
  }

  /** A ULID has the shape its validator asks for. */
  lemma UlidIsUlid(now: nat, random: seq<nat>)
    requires now < 0x1_0000_0000_0000
    ensures IsUlid(Ulid(now, random))
  {
    var time, rest := Digits(now, 10, Base32), Digits(Value(random, Bytes), 16, Base32);
    UlidPowers();
    HeadDigit(now, 9);
    AlphabetFits(time[0]);
    forall i | 1 <= i < 26 ensures IsUlidChar(Ulid(now, random)[i]) {
      AlphabetFits(if i < 10 then time[i] else rest[i - 10]);
    }
  }

  /** A smaller timestamp gives a smaller ULID, whatever the random parts. */
  lemma UlidsSort(now: nat, later: nat, random: seq<nat>, other: seq<nat>)
    requires now < later < 0x1_0000_0000_0000
    ensures Less(Ulid(now, random), Ulid(later, other))
  {
    UlidPowers();
    DigitsSort(now, later, 10, Base32);
    SpellingsSort(Digits(now, 10, Base32), Digits(later, 10, Base32));
    LessBefore(Spell(Digits(now, 10, Base32)), Spell(Digits(later, 10, Base32)),
               Spell(Digits(Value(random, Bytes), 16, Base32)), Spell(Digits(Value(other, Bytes), 16, Base32)));
  }

  // --------------------------------------------------------------------- UUID

  const HEX := "0123456789abcdef"

  function HexDigit(d: nat): char
    requires d < 16
  {
    HEX[d]
  }

  function HexByte(x: nat): string
    requires x < 256
  {
    [HexDigit(x / 16), HexDigit(x % 16)]
  }

  function Hex(bytes: seq<nat>): (s: string)
    requires Below(bytes, 256)
    ensures |s| == 2 * |bytes|
  {
    if bytes == [] then "" else HexByte(bytes[0]) + Hex(bytes[1..])
  }

  /** The random bytes with the timestamp, the version and the variant written over them. */
  function Stamped(now: nat, random: seq<nat>): (bytes: seq<nat>)
    requires |random| == 16 && Below(random, 256)
    ensures |bytes| == 16 && Below(bytes, 256)
  {
    Digits(now, 6, Bytes) + [0x70 + random[6] % 16, random[7], 0x80 + random[8] % 64] + random[9..]
  }

  function Uuid(bytes: seq<nat>): (s: string)
    requires |bytes| == 16 && Below(bytes, 256)
    ensures |s| == 36
  {
    Hex(bytes[..4]) + "-" + Hex(bytes[4..6]) + "-" + Hex(bytes[6..8]) + "-" + Hex(bytes[8..10]) + "-" + Hex(bytes[10..])
  }

  lemma VersionBits(b: bv8)
    ensures (b & 0x0f) | 0x70 == 0x70 + b % 16
  {
  }

  lemma VariantBits(b: bv8)
    ensures (b & 0x3f) | 0x80 == 0x80 + b % 64
  {
  }

  lemma LowBits(b: bv8)
    ensures (b % 16) as nat == b as nat % 16 && (b % 64) as nat == b as nat % 64
  {
  }

  lemma AddBits(b: bv8)
    ensures b < 16 ==> (0x70 + b) as nat == 0x70 + b as nat
    ensures b < 64 ==> (0x80 + b) as nat == 0x80 + b as nat
  {
  }

  /** Version 7 in the high nibble. */
  function Version(x: nat): nat { 0x70 + x % 16 }

  /** The variant 10 in the two highest bits. */
  function Variant(x: nat): nat { 0x80 + x % 64 }

  /** They are what the masks make of a byte. */
  lemma StampBits(b: bv8)
    ensures ((b & 0x0f) | 0x70) as nat == Version(b as nat)
    ensures ((b & 0x3f) | 0x80) as nat == Variant(b as nat)
  {
    VersionBits(b);
    VariantBits(b);
    LowBits(b);
    AddBits(b % 16);
    AddBits(b % 64);
  }

  /** Writes the timestamp, the version and the variant into the buffer of random bytes. */
  method Stamp(bytes: array<nat>, now: nat)
    requires bytes.Length == 16 && Below(bytes[..], 256)
    modifies bytes
    ensures bytes[..] == Stamped(now, old(bytes[..]))
  {
    ghost var random := bytes[..];
    SixDigits(now);
    bytes[0] := now / 0x100_0000_0000 % 256;
    bytes[1] := now / 0x1_0000_0000 % 256;
    bytes[2] := now / 0x100_0000 % 256;
    bytes[3] := now / 0x1_0000 % 256;
    bytes[4] := now / 0x100 % 256;
    bytes[5] := now % 256;
    assert bytes[6] == random[6] < 256 && bytes[8] == random[8] < 256;
    bytes[6] := Version(bytes[6]);
    bytes[8] := Variant(bytes[8]);
  }

  /** `uuid7` for the time and the bytes drawn. */
  method Uuid7(bytes: array<nat>, now: nat) returns (s: string)
    requires bytes.Length == 16 && Below(bytes[..], 256)
    modifies bytes
    ensures bytes[..] == Stamped(now, old(bytes[..])) && s == Uuid(Stamped(now, old(bytes[..])))
  {
    Stamp(bytes, now);
    s := Uuid(bytes[..]);
  }

  lemma Shifts(x: nat)
    ensures x / 0x100 / 0x100 == x / 0x1_0000 && x / 0x1_0000 / 0x100 == x / 0x100_0000
  {
  }

  lemma MoreShifts(x: nat)
    ensures x / 0x100_0000 / 0x100 == x / 0x1_0000_0000 && x / 0x1_0000_0000 / 0x100 == x / 0x100_0000_0000
  {
  }

  lemma {:induction false} DigitAt(v: nat, n: nat)
    requires n > 0
    ensures Digits(v, n, Bytes)[n - 1] == v % 256 && Digits(v, n, Bytes)[..n - 1] == Digits(v / 256, n - 1, Bytes)
  {
  }

  lemma SixDigits(now: nat)
    ensures Digits(now, 6, Bytes) ==
      [now / 0x100_0000_0000 % 256, now / 0x1_0000_0000 % 256, now / 0x100_0000 % 256, now / 0x1_0000 % 256,
       now / 0x100 % 256, now % 256]
  {
    Shifts(now);
    MoreShifts(now);
    DigitAt(now, 6);
    DigitAt(now / 0x100, 5);
    DigitAt(now / 0x1_0000, 4);
    DigitAt(now / 0x100_0000, 3);
    DigitAt(now / 0x1_0000_0000, 2);
    DigitAt(now / 0x100_0000_0000, 1);
  }

  /** The first six bytes are the timestamp, big-endian and exact. */
  lemma UuidCarriesTime(now: nat, random: seq<nat>)
    requires now < 0x1_0000_0000_0000 && |random| == 16 && Below(random, 256)
    ensures Value(Stamped(now, random)[..6], Bytes) == now
  {
    UlidPowers();
    ValueOfDigits(now, 6, Bytes);
    assert Stamped(now, random)[..6] == Digits(now, 6, Bytes);
  }

  predicate IsHexChar(c: char) { '0' <= c <= '9' || 'a' <= c <= 'f' || 'A' <= c <= 'F' }

  /** `UUID_RE`: dashes, hexadecimal digits, a version from 1 to 8 and the variant of section 4.1 of RFC 9562. */
  predicate IsUuid(s: string) {
    && |s| == 36
    && (forall i :: 0 <= i < 36 ==> if i in {8, 13, 18, 23} then s[i] == '-' else IsHexChar(s[i]))
    && '1' <= s[14] <= '8' && s[19] in {'8', '9', 'a', 'b', 'A', 'B'}
  }

  lemma HexDigitIsHex(d: nat)
    requires d < 16
    ensures IsHexChar(HexDigit(d))
  {
  }

  lemma {:induction false} HexIsHex(bytes: seq<nat>, i: nat)
    requires Below(bytes, 256) && i < 2 * |bytes|
    ensures IsHexChar(Hex(bytes)[i])
    ensures Hex(bytes)[i] == HexDigit(if i % 2 == 0 then bytes[i / 2] / 16 else bytes[i / 2] % 16)
  {
    if i >= 2 {
      HexIsHex(bytes[1..], i - 2);
      assert i % 2 == (i - 2) % 2 && bytes[1..][(i - 2) / 2] == bytes[i / 2];
      assert Hex(bytes)[i] == Hex(bytes[1..])[i - 2];
    } else {
      HexDigitIsHex(bytes[0] / 16);
      HexDigitIsHex(bytes[0] % 16);
      assert Hex(bytes)[i] == HexByte(bytes[0])[i];
    }
  }

  lemma UuidIsUuid(now: nat, random: seq<nat>)
    requires |random| == 16 && Below(random, 256)
    ensures IsUuid(Uuid(Stamped(now, random))) && Uuid(Stamped(now, random))[14] == '7'
  {
    var bytes := Stamped(now, random);
    var s := Uuid(bytes);
    forall i | 0 <= i < 36 ensures if i in {8, 13, 18, 23} then s[i] == '-' else IsHexChar(s[i]) {
      if i < 8 {
        HexIsHex(bytes[..4], i);
      } else if 8 < i < 13 {
        HexIsHex(bytes[4..6], i - 9);
      } else if 13 < i < 18 {
        HexIsHex(bytes[6..8], i - 14);
      } else if 18 < i < 23 {
        HexIsHex(bytes[8..10], i - 19);
      } else if 23 < i {
        HexIsHex(bytes[10..], i - 24);
      }
    }
    HexIsHex(bytes[6..8], 0);
    HexIsHex(bytes[8..10], 0);
    assert bytes[6..8][0] == 0x70 + random[6] % 16 && bytes[8..10][0] == 0x80 + random[8] % 64;
  }

  function Nibble(c: char): nat {
    if '0' <= c <= '9' then c as nat - '0' as nat else if 'a' <= c <= 'f' then c as nat - 'a' as nat + 10 else 16
  }

  /** The byte a pair of hexadecimal digits stands for. */
  function ByteAt(s: string, at: nat): nat
    requires at + 1 < |s|
  {
    16 * Nibble(s[at]) + Nibble(s[at + 1])
  }

  /** Where the digits of a byte begin, with a dash after the fourth, sixth, eighth and tenth byte. */
  function Place(i: nat): nat {
    2 * i + if i < 4 then 0 else if i < 6 then 1 else if i < 8 then 2 else if i < 10 then 3 else 4
  }

  lemma NibbleOfDigit(d: nat)
    requires d < 16
    ensures Nibble(HexDigit(d)) == d
  {
  }

  lemma {:induction false} HexReads(bytes: seq<nat>, i: nat)
    requires Below(bytes, 256) && i < |bytes|
    ensures Hex(bytes)[2 * i] == HexDigit(bytes[i] / 16) && Hex(bytes)[2 * i + 1] == HexDigit(bytes[i] % 16)
  {
    var head, rest := HexByte(bytes[0]), Hex(bytes[1..]);
    assert Hex(bytes) == head + rest;
    if i > 0 {
      HexReads(bytes[1..], i - 1);
      assert (head + rest)[2 * i] == rest[2 * (i - 1)] && (head + rest)[2 * i + 1] == rest[2 * (i - 1) + 1];
    }
  }

  lemma DigitsRead(s: string, at: nat, x: nat)
    requires x < 256 && at + 1 < |s| && s[at] == HexDigit(x / 16) && s[at + 1] == HexDigit(x % 16)
    ensures ByteAt(s, at) == x
  {
    NibbleOfDigit(x / 16);
    NibbleOfDigit(x % 16);
  }

  /** The digits of the bytes from `from` on stand at `at`. */
  lemma GroupReads(s: string, bytes: seq<nat>, from: nat, to: nat, at: nat, i: nat)
    requires from <= i < to <= |bytes| && Below(bytes, 256) && at + 2 * (to - from) <= |s|
    requires s[at..at + 2 * (to - from)] == Hex(bytes[from..to])
    ensures ByteAt(s, at + 2 * (i - from)) == bytes[i]
  {
    var group, k := s[at..at + 2 * (to - from)], 2 * (i - from);
    HexReads(bytes[from..to], i - from);
    assert s[at + k] == group[k] && s[at + k + 1] == group[k + 1];
    DigitsRead(s, at + k, bytes[i]);
  }

  lemma UuidGroups(bytes: seq<nat>)
    requires |bytes| == 16 && Below(bytes, 256)
    ensures
      var s := Uuid(bytes);
      && s[0..8] == Hex(bytes[0..4]) && s[9..13] == Hex(bytes[4..6]) && s[14..18] == Hex(bytes[6..8])
      && s[19..23] == Hex(bytes[8..10]) && s[24..36] == Hex(bytes[10..16])
  {
    assert bytes[..4] == bytes[0..4] && bytes[10..] == bytes[10..16];
  }

  /** Every byte reads back from its place in the text. */
  lemma UuidReads(bytes: seq<nat>, i: nat)
    requires |bytes| == 16 && Below(bytes, 256) && i < 16
    ensures ByteAt(Uuid(bytes), Place(i)) == bytes[i]
  {
    var s := Uuid(bytes);
    UuidGroups(bytes);
    if i < 4 {
      GroupReads(s, bytes, 0, 4, 0, i);
    } else if i < 6 {
      GroupReads(s, bytes, 4, 6, 9, i);
    } else if i < 8 {
      GroupReads(s, bytes, 6, 8, 14, i);
    } else if i < 10 {
      GroupReads(s, bytes, 8, 10, 19, i);
    } else {
      GroupReads(s, bytes, 10, 16, 24, i);
    }
  }

  lemma StampedAt(now: nat, random: seq<nat>, i: nat)
    requires |random| == 16 && Below(random, 256) && 6 <= i < 16
    ensures
      Stamped(now, random)[i] ==
      if i == 6 then 0x70 + random[6] % 16 else if i == 8 then 0x80 + random[8] % 64 else random[i]
  {
  }

  lemma KeptBits(x: nat)
    requires x < 256
    ensures (0x70 + x % 16) % 16 == x % 16 && (0x80 + x % 64) % 64 == x % 64
  {
  }

  /** All 74 bits the version and the variant leave free are the random ones, at the place they were drawn for. */
  lemma UuidKeepsRandom(now: nat, random: seq<nat>, i: nat)
    requires |random| == 16 && Below(random, 256) && 6 <= i < 16
    ensures
      var free := if i == 6 then 16 else if i == 8 then 64 else 256;
      ByteAt(Uuid(Stamped(now, random)), Place(i)) % free == random[i] % free
  {
    UuidReads(Stamped(now, random), i);
    StampedAt(now, random, i);
    KeptBits(random[i]);
  }

  lemma {:induction false} HexConcat(a: seq<nat>, b: seq<nat>)
    requires Below(a, 256) && Below(b, 256)
    ensures Hex(a + b) == Hex(a) + Hex(b)
  {
    if a == [] {
      assert a + b == b;
    } else {
      HexConcat(a[1..], b);
      assert (a + b)[1..] == a[1..] + b;
    }
  }

  lemma HexRises(x: nat, y: nat)
    requires x < y < 16
    ensures HexDigit(x) < HexDigit(y)
  {
  }

  lemma ByteSorts(x: nat, y: nat, c: string, d: string)
    requires x < y < 256
    ensures Less(HexByte(x) + c, HexByte(y) + d)
  {
    if x / 16 < y / 16 {
      HexRises(x / 16, y / 16);
    } else {
      HexRises(x % 16, y % 16);
      assert (HexByte(x) + c)[1..] == [HexDigit(x % 16)] + c;
      assert (HexByte(y) + d)[1..] == [HexDigit(y % 16)] + d;
    }
  }

  lemma HexSplit(d: seq<nat>, i: nat)
    requires Below(d, 256) && i < |d|
    ensures Hex(d) == Hex(d[..i]) + (HexByte(d[i]) + Hex(d[i + 1..]))
  {
    Parts(d, i);
    HexCons(d[i], d[i + 1..]);
    HexConcat(d[..i], [d[i]] + d[i + 1..]);
  }

  lemma Parts(d: seq<nat>, i: nat)
    requires Below(d, 256) && i < |d|
    ensures d == d[..i] + ([d[i]] + d[i + 1..])
    ensures Below(d[..i], 256) && Below(d[i + 1..], 256) && Below([d[i]] + d[i + 1..], 256)
  {
  }

  lemma HexCons(x: nat, rest: seq<nat>)
    requires x < 256 && Below(rest, 256)
    ensures Hex([x] + rest) == HexByte(x) + Hex(rest)
  {
    assert ([x] + rest)[1..] == rest;
  }

  lemma HexSorts(d: seq<nat>, e: seq<nat>)
    requires Below(d, 256) && Below(e, 256) && LexLess(d, e)
    ensures Less(Hex(d), Hex(e))
  {
    var i :| DiffersAt(d, e, i);
    HexSplit(d, i);
    HexSplit(e, i);
    ByteSorts(d[i], e[i], Hex(d[i + 1..]), Hex(e[i + 1..]));
    LessAfter(Hex(d[..i]), HexByte(d[i]) + Hex(d[i + 1..]),
              HexByte(e[i]) + Hex(e[i + 1..]));
  }

  /** Six bytes that sort, split after the fourth by a dash. */
  lemma SplitSorts(d: seq<nat>, e: seq<nat>)
    requires |d| == 6 && Below(d, 256) && Below(e, 256) && LexLess(d, e)
    ensures Less(Hex(d[..4]) + "-" + Hex(d[4..6]), Hex(e[..4]) + "-" + Hex(e[4..6]))
  {
    var i :| DiffersAt(d, e, i);
    if i < 4 {
      assert d[..4][..i] == d[..i] && e[..4][..i] == e[..i] && DiffersAt(d[..4], e[..4], i);
      HexSorts(d[..4], e[..4]);
      LessBefore(Hex(d[..4]), Hex(e[..4]), "-" + Hex(d[4..6]), "-" + Hex(e[4..6]));
      assert Hex(d[..4]) + "-" + Hex(d[4..6]) == Hex(d[..4]) + ("-" + Hex(d[4..6]));
      assert Hex(e[..4]) + "-" + Hex(e[4..6]) == Hex(e[..4]) + ("-" + Hex(e[4..6]));
    } else {
      assert d[..4] == d[..i][..4] == e[..4];
      assert d[4..6][..i - 4] == d[..i][4..] && e[4..6][..i - 4] == e[..i][4..];
      assert DiffersAt(d[4..6], e[4..6], i - 4);
      HexSorts(d[4..6], e[4..6]);
      LessAfter(Hex(d[..4]) + "-", Hex(d[4..6]), Hex(e[4..6]));
    }
  }

  /** A smaller timestamp gives a smaller UUID, whatever the random bytes. */
  lemma UuidsSort(now: nat, later: nat, random: seq<nat>, other: seq<nat>)
    requires now < later < 0x1_0000_0000_0000
    requires |random| == 16 && Below(random, 256) && |other| == 16 && Below(other, 256)
    ensures Less(Uuid(Stamped(now, random)), Uuid(Stamped(later, other)))
  {
    var d, e := Stamped(now, random), Stamped(later, other);
    StampsSort(now, later, random, other);
    UuidHead(d);
    UuidHead(e);
    LessBefore(Hex(d[..4]) + "-" + Hex(d[4..6]), Hex(e[..4]) + "-" + Hex(e[4..6]), UuidRest(d), UuidRest(e));
  }

  function UuidRest(bytes: seq<nat>): string
    requires |bytes| == 16 && Below(bytes, 256)
  {
    "-" + Hex(bytes[6..8]) + "-" + Hex(bytes[8..10]) + "-" + Hex(bytes[10..])
  }

  lemma UuidHead(bytes: seq<nat>)
    requires |bytes| == 16 && Below(bytes, 256)
    ensures Uuid(bytes) == Hex(bytes[..4]) + "-" + Hex(bytes[4..6]) + UuidRest(bytes)
  {
  }

  lemma StampsSort(now: nat, later: nat, random: seq<nat>, other: seq<nat>)
    requires now < later < 0x1_0000_0000_0000
    requires |random| == 16 && Below(random, 256) && |other| == 16 && Below(other, 256)
    ensures
      var d, e := Stamped(now, random), Stamped(later, other);
      Less(Hex(d[..4]) + "-" + Hex(d[4..6]), Hex(e[..4]) + "-" + Hex(e[4..6]))
  {
    var d, e := Stamped(now, random), Stamped(later, other);
    UlidPowers();
    DigitsSort(now, later, 6, Bytes);
    assert d[..6] == Digits(now, 6, Bytes) && e[..6] == Digits(later, 6, Bytes);
    SplitSorts(d[..6], e[..6]);
    assert d[..6][..4] == d[..4] && d[..6][4..6] == d[4..6] && e[..6][..4] == e[..4] && e[..6][4..6] == e[4..6];
  }
}
