/** Which addresses are private or metadata endpoints: the octet tests against the blocks they stand for. */
module AddressBlocks {
  import opened Text
  import opened Addresses

  // ------------------------------------------------------------------- blocks

  /** All addresses that share the first `bits` bits of `base`. */
  datatype Block = Block(base: seq<nat>, bits: nat)

  function Pow2(n: nat): (p: nat)
    ensures p > 0
  {
    if n == 0 then 1 else 2 * Pow2(n - 1)
  }

  predicate InBlock(bytes: seq<nat>, b: Block)
    requires |bytes| == |b.base| && b.bits <= 8 * |bytes|
  {
    var whole, part := b.bits / 8, b.bits % 8;
    && (forall i :: 0 <= i < whole ==> bytes[i] == b.base[i])
    && (part == 0 || bytes[whole] / Pow2(8 - part) == b.base[whole] / Pow2(8 - part))
  }

  predicate InSome(bytes: seq<nat>, blocks: seq<Block>)
    requires forall b <- blocks :: |bytes| == |b.base| && b.bits <= 8 * |bytes|
  {
    blocks != [] && (InBlock(bytes, blocks[0]) || InSome(bytes, blocks[1..]))
  }

  const V4_BLOCKS_LOW: seq<Block> :=
    [Block([0, 0, 0, 0], 8), Block([10, 0, 0, 0], 8), Block([127, 0, 0, 0], 8), Block([100, 64, 0, 0], 10),
     Block([169, 254, 0, 0], 16)]

  const V4_BLOCKS_HIGH: seq<Block> :=
    [Block([172, 16, 0, 0], 12), Block([192, 0, 0, 0], 24), Block([192, 168, 0, 0], 16), Block([198, 18, 0, 0], 15),
     Block([224, 0, 0, 0], 3)]

  const UNSPECIFIED: seq<nat> := [0, 0, 0, 0, 0, 0, 0, 0, 0, 0, 0, 0, 0, 0, 0, 0]
  const LOOPBACK: seq<nat> := [0, 0, 0, 0, 0, 0, 0, 0, 0, 0, 0, 0, 0, 0, 0, 1]
  const MAPPED: seq<nat> := [0, 0, 0, 0, 0, 0, 0, 0, 0, 0, 0xff, 0xff, 0, 0, 0, 0]
  const NAT64: seq<nat> := [0, 0x64, 0xff, 0x9b, 0, 0, 0, 0, 0, 0, 0, 0, 0, 0, 0, 0]

  function HighBytes(first: nat, second: nat): (bytes: seq<nat>)
    ensures |bytes| == 16
  {
    [first, second] + Zeros(14)
  }

  const V6_BLOCKS: seq<Block> :=
    [Block(UNSPECIFIED, 128), Block(LOOPBACK, 128), Block(HighBytes(0xfc, 0), 7), Block(HighBytes(0xfe, 0x80), 10),
     Block(HighBytes(0xff, 0), 8)]

  // ------------------------------------------------------------------ verdicts

  predicate IsPrivateIpv4(o: seq<nat>)
    requires IsOctets(o)
  {
    var a, b := o[0], o[1];
    || a == 0
    || a == 10
    || a == 127
    || (a == 100 && b >= 64 && b <= 127)
    || (a == 169 && b == 254)
    || (a == 172 && b >= 16 && b <= 31)
    || (a == 192 && b == 0 && o[2] == 0)
    || (a == 192 && b == 168)
    || (a == 198 && (b == 18 || b == 19))
    || a >= 224
  }

  predicate AllZero(bytes: seq<nat>) { forall i :: 0 <= i < |bytes| ==> bytes[i] == 0 }

  predicate IsPrivateIpv6(bytes: seq<nat>)
    requires IsAddress(bytes)
  {
    || (AllZero(bytes[..15]) && (bytes[15] == 0 || bytes[15] == 1))
    || (bytes[0] as bv8) & 0xfe == 0xfc
    || (bytes[0] == 0xfe && (bytes[1] as bv8) & 0xc0 == 0x80)
    || bytes[0] == 0xff
  }

  /** The IPv4 octets an IPv6 address carries. */
  function MappedOf(bytes: seq<nat>): (o: Option<seq<nat>>)
    requires IsAddress(bytes)
    ensures o.Some? ==> IsOctets(o.value)
  {
    var mapped := AllZero(bytes[..10]) && bytes[10] == 0xff && bytes[11] == 0xff;
    var nat64 := bytes[0] == 0x00 && bytes[1] == 0x64 && bytes[2] == 0xff && bytes[3] == 0x9b && AllZero(bytes[4..12]);
    if mapped || nat64 then Some(bytes[12..]) else None
  }

  /** The verdict an address deserves, from its bytes. */
  predicate PrivateBytes(bytes: seq<nat>)
    requires IsAddress(bytes)
  {
    match MappedOf(bytes) case Some(o) => IsPrivateIpv4(o) case None => IsPrivateIpv6(bytes)
  }

  /** `isPrivateAddress` on what unwraps no further. */
  function JudgeText(isIp: IsIp, address: string): bool {
    match ParseIpv4(isIp, address)
    case Some(o) => if IsOctets(o) then IsPrivateIpv4(o) else true
    case None =>
      match Ipv6(isIp, address)
      case None => true
      case Some(bytes) => if IsAddress(bytes) then IsPrivateIpv6(bytes) else true
  }

  /** `unwrapMappedIpv4`. */
  function Unwrapped(isIp: IsIp, address: string): Option<string> {
    match Ipv6(isIp, address)
    case None => None
    case Some(bytes) =>
      if !IsAddress(bytes) then None
      else match MappedOf(bytes) case None => None case Some(o) => Some(Dotted(o))
  }

  /** `isPrivateAddress`; what a mapped address unwraps to is dotted, and unwraps no further. */
  function IsPrivateAddress(isIp: IsIp, address: string): bool {
    match Unwrapped(isIp, address) case Some(mapped) => JudgeText(isIp, mapped) case None => JudgeText(isIp, address)
  }

  // ---------------------------------------------------------------- the proofs

  /** The octet tests are membership in the blocks. */
  lemma PrivateIpv4IsBlocks(o: seq<nat>)
    requires IsOctets(o)
    ensures IsPrivateIpv4(o) <==> InSome(o, V4_BLOCKS_LOW) || InSome(o, V4_BLOCKS_HIGH)
  {
    assert o[0] in o && o[1] in o && o[2] in o;
    LowBlocks(o);
    HighBlocks(o);
  }

  lemma Powers()
    ensures Pow2(1) == 2 && Pow2(4) == 16 && Pow2(5) == 32 && Pow2(6) == 64
  {
    assert Pow2(2) == 4 && Pow2(3) == 8;
  }

  lemma LowBlocks(o: seq<nat>)
    requires IsOctets(o) && o[0] < 256 && o[1] < 256
    ensures InSome(o, V4_BLOCKS_LOW) <==>
      || o[0] == 0 || o[0] == 10 || o[0] == 127 || (o[0] == 100 && 64 <= o[1] <= 127) || (o[0] == 169 && o[1] == 254)
  {
    Powers();
    var bs := V4_BLOCKS_LOW;
    assert InBlock(o, bs[0]) <==> o[0] == 0;
    assert InBlock(o, bs[1]) <==> o[0] == 10;
    assert InBlock(o, bs[2]) <==> o[0] == 127;
    assert InBlock(o, bs[3]) <==> o[0] == 100 && o[1] / 64 == 1;
    assert InBlock(o, bs[4]) <==> o[0] == 169 && o[1] == 254;
    InSomeOfFive(o, bs);
  }

  lemma HighBlocks(o: seq<nat>)
    requires IsOctets(o) && o[0] < 256 && o[1] < 256
    ensures InSome(o, V4_BLOCKS_HIGH) <==>
      || (o[0] == 172 && 16 <= o[1] <= 31) || (o[0] == 192 && o[1] == 0 && o[2] == 0) || (o[0] == 192 && o[1] == 168)
      || (o[0] == 198 && 18 <= o[1] <= 19) || o[0] >= 224
  {
    Powers();
    var bs := V4_BLOCKS_HIGH;
    assert InBlock(o, bs[0]) <==> o[0] == 172 && o[1] / 16 == 1;
    assert InBlock(o, bs[1]) <==> o[0] == 192 && o[1] == 0 && o[2] == 0;
    assert InBlock(o, bs[2]) <==> o[0] == 192 && o[1] == 168;
    assert InBlock(o, bs[3]) <==> o[0] == 198 && o[1] / 2 == 9;
    assert InBlock(o, bs[4]) <==> o[0] / 32 == 7;
    InSomeOfFive(o, bs);
  }

  lemma InSomeOfFive(bytes: seq<nat>, bs: seq<Block>)
    requires |bs| == 5 && forall b <- bs :: |bytes| == |b.base| && b.bits <= 8 * |bytes|
    ensures InSome(bytes, bs) <==>
      || InBlock(bytes, bs[0]) || InBlock(bytes, bs[1]) || InBlock(bytes, bs[2]) || InBlock(bytes, bs[3])
      || InBlock(bytes, bs[4])
  {
    assert bs[4..][1..] == [] && bs[4..][0] == bs[4];
    assert InSome(bytes, bs[4..]) <==> InBlock(bytes, bs[4]);
    assert bs[3..][1..] == bs[4..] && bs[3..][0] == bs[3];
    assert InSome(bytes, bs[3..]) <==> InBlock(bytes, bs[3]) || InSome(bytes, bs[4..]);
    assert bs[2..][1..] == bs[3..] && bs[2..][0] == bs[2];
    assert InSome(bytes, bs[2..]) <==> InBlock(bytes, bs[2]) || InSome(bytes, bs[3..]);
    assert bs[1..][1..] == bs[2..] && bs[1..][0] == bs[1];
    assert InSome(bytes, bs[1..]) <==> InBlock(bytes, bs[1]) || InSome(bytes, bs[2..]);
  }

  /** The byte tests are membership in ::/128, ::1/128, fc00::/7, fe80::/10 and ff00::/8. */
  lemma PrivateIpv6IsBlocks(bytes: seq<nat>)
    requires IsAddress(bytes)
    ensures IsPrivateIpv6(bytes) <==> InSome(bytes, V6_BLOCKS)
  {
    Powers();
    var bs := V6_BLOCKS;
    assert forall i :: 0 <= i < 15 ==> bytes[..15][i] == bytes[i];
    assert InBlock(bytes, bs[0]) <==> AllZero(bytes[..15]) && bytes[15] == 0;
    assert InBlock(bytes, bs[1]) <==> AllZero(bytes[..15]) && bytes[15] == 1;
    assert InBlock(bytes, bs[2]) <==> bytes[0] / 2 == 126;
    assert InBlock(bytes, bs[3]) <==> bytes[0] == 0xfe && bytes[1] / 64 == 2;
    assert InBlock(bytes, bs[4]) <==> bytes[0] == 0xff;
    Masks(bytes[0]);
    Masks(bytes[1]);
    InSomeOfFive(bytes, bs);
  }

  lemma Masks(x: nat)
    requires x < 256
    ensures (x as bv8) & 0xfe == 0xfc <==> x / 2 == 126
    ensures (x as bv8) & 0xc0 == 0x80 <==> x / 64 == 2
  {
  }

  /** What is unwrapped are the addresses of ::ffff:0:0/96 and 64:ff9b::/96. */
  lemma MappedIsBlocks(bytes: seq<nat>)
    requires IsAddress(bytes)
    ensures MappedOf(bytes).Some? <==> InBlock(bytes, Block(MAPPED, 96)) || InBlock(bytes, Block(NAT64, 96))
  {
    assert forall i :: 0 <= i < 10 ==> bytes[..10][i] == bytes[i];
    assert forall i :: 0 <= i < 8 ==> bytes[4..12][i] == bytes[i + 4];
  }

  lemma MeaningIsAddress(s: Spelling)
    requires Valid(s)
    ensures IsAddress(Meaning(s))
  {
    var words := Words(s.head) + Zeros(Groups(s) - |s.head| - |s.rest|) + Words(s.rest);
    forall i | 0 <= i < 2 * |words| ensures WordBytes(words)[i] < 256 {
      var k := i / 2;
      assert i == 2 * k || i == 2 * k + 1;
      WordBytesAt(words, k);
    }
    if s.tail.Some? {
      assert forall i :: 0 <= i < 4 ==> s.tail.value[i] in s.tail.value;
    }
  }

  /**
   * The verdict on a spelling is the verdict on its bytes: no way of writing an address changes it, and an
   * address that carries an IPv4 address is judged as that one.
   */
  lemma VerdictIsOnBytes(isIp: IsIp, s: Spelling)
    requires Valid(s) && Recognises(isIp)
    ensures IsAddress(Meaning(s)) && IsPrivateAddress(isIp, Render(s)) == PrivateBytes(Meaning(s))
  {
    SpellingsParse(isIp, s);
    MeaningIsAddress(s);
    match MappedOf(Meaning(s))
    case Some(o) => Ipv4OfDotted(isIp, o);
    case None =>
  }

  /** In particular two spellings of one address get one verdict. */
  lemma SpellingsAgree(isIp: IsIp, s: Spelling, t: Spelling)
    requires Valid(s) && Valid(t) && Meaning(s) == Meaning(t) && Recognises(isIp)
    ensures IsPrivateAddress(isIp, Render(s)) == IsPrivateAddress(isIp, Render(t))
  {
    VerdictIsOnBytes(isIp, s);
    VerdictIsOnBytes(isIp, t);
  }

  /** A dotted IPv4 address is private exactly in the ten blocks, and what is no address at all always is. */
  lemma DottedVerdict(isIp: IsIp, o: seq<nat>, other: string)
    requires IsOctets(o) && Recognises(isIp) && isIp(other) !in {4, 6}
    ensures IsPrivateAddress(isIp, Dotted(o)) <==> InSome(o, V4_BLOCKS_LOW) || InSome(o, V4_BLOCKS_HIGH)
    ensures IsPrivateAddress(isIp, other)
  {
    Ipv4OfDotted(isIp, o);
    PrivateIpv4IsBlocks(o);
    assert isIp(Dotted(o)) == 4;
  }

  // ----------------------------------------------------------------- metadata

  function LowerChar(c: char): char { if 'A' <= c <= 'Z' then (c as int + 32) as char else c }

  /** `toLowerCase` on the letters an address can hold. */
  function Lower(s: string): (t: string)
    ensures |t| == |s| && forall i :: 0 <= i < |s| ==> t[i] == LowerChar(s[i])
  {
    seq(|s|, i requires 0 <= i < |s| => LowerChar(s[i]))
  }

  function Lowers(pieces: seq<string>): (lower: seq<string>)
    ensures |lower| == |pieces| && forall i :: 0 <= i < |pieces| ==> lower[i] == Lower(pieces[i])
  {
    seq(|pieces|, i requires 0 <= i < |pieces| => Lower(pieces[i]))
  }

  const METADATA_V4: seq<nat> := [169, 254, 169, 254]
  const METADATA_V6: seq<nat> := [0xfd, 0, 0x0e, 0xc2, 0, 0, 0, 0, 0, 0, 0, 0, 0, 0, 0x02, 0x54]
  const METADATA_TEXT: string := "fd00:ec2::254"
  const METADATA_SPELLING := Spelling(["fd00", "ec2"], true, ["254"], None)

  /** `isMetadataAddress`. */
  function IsMetadataAddress(isIp: IsIp, address: string): bool {
    NamesMetadata(isIp, match Unwrapped(isIp, address) case Some(mapped) => mapped case None => Lower(address))
  }

  predicate MetadataBytes(bytes: seq<nat>)
    requires IsAddress(bytes)
  {
    match MappedOf(bytes) case Some(o) => o == METADATA_V4 case None => bytes == METADATA_V6
  }

  function LowerSpelling(s: Spelling): Spelling { Spelling(Lowers(s.head), s.elided, Lowers(s.rest), s.tail) }

  lemma LowerConcat(a: string, b: string)
    ensures Lower(a + b) == Lower(a) + Lower(b)
  {
  }

  lemma LowerPiece(p: string)
    requires IsPiece(p)
    ensures IsPiece(Lower(p)) && HexValue(Lower(p)) == HexValue(p)
  {
    forall c | c in Lower(p) ensures IsHex(c) {
      var i :| 0 <= i < |p| && Lower(p)[i] == c;
      assert p[i] in p;
    }
    assert forall i :: 0 <= i < |p| ==> p[i] in p;
    LowerHexValue(p);
  }

  lemma {:induction false} LowerHexValue(p: string)
    requires forall i :: 0 <= i < |p| ==> IsHex(p[i])
    ensures HexValue(Lower(p)) == HexValue(p)
  {
    if p != "" {
      LowerHexValue(p[..|p| - 1]);
      assert Lower(p)[..|p| - 1] == Lower(p[..|p| - 1]);
    }
  }

  lemma {:induction false} LowerColons(pieces: seq<string>)
    ensures Lower(Colons(pieces)) == Colons(Lowers(pieces))
  {
    if |pieces| > 1 {
      LowerColons(pieces[1..]);
      assert Lowers(pieces)[1..] == Lowers(pieces[1..]);
      LowerConcat(pieces[0] + [':'], Join(pieces[1..], ':'));
      LowerConcat(pieces[0], [':']);
      assert Lower([':']) == [':'];
    }
  }

  lemma {:induction false} LowerDotted(parts: seq<string>)
    requires parts != [] && forall p <- parts :: AllDigits(p)
    ensures Lower(Join(parts, '.')) == Join(parts, '.')
  {
    assert parts[0] in parts;
    if |parts| > 1 {
      assert forall p <- parts[1..] :: p in parts;
      LowerDotted(parts[1..]);
    }
  }

  lemma LowerMeaning(s: Spelling)
    requires Valid(s)
    ensures Valid(LowerSpelling(s)) && Meaning(LowerSpelling(s)) == Meaning(s)
  {
    LowerValid(s);
    LowerGroups(s.head, s.rest, Groups(s));
  }

  lemma LowerValid(s: Spelling)
    requires Valid(s)
    ensures Valid(LowerSpelling(s))
  {
    LowerPieces(s.head);
    LowerPieces(s.rest);
  }

  lemma LowerGroups(head: seq<string>, rest: seq<string>, groups: nat)
    requires (forall p <- head :: IsPiece(p)) && (forall p <- rest :: IsPiece(p)) && |head| + |rest| <= groups
    ensures GroupBytes(Lowers(head), Lowers(rest), groups) == GroupBytes(head, rest, groups)
  {
    LowerPieces(head);
    LowerPieces(rest);
  }

  lemma LowerRender(s: Spelling)
    requires Valid(s) && Valid(LowerSpelling(s))
    ensures Lower(Render(s)) == Render(LowerSpelling(s))
  {
    LowerBody(s);
    match s.tail
    case None =>
      assert Render(s) == Body(s) && Render(LowerSpelling(s)) == Body(LowerSpelling(s));
    case Some(o) =>
      LowerConcat(Body(s), Dotted(o));
      LowerDotted(Decimals(o));
  }

  lemma LowerPieces(pieces: seq<string>)
    requires forall p <- pieces :: IsPiece(p)
    ensures (forall p <- Lowers(pieces) :: IsPiece(p)) && Words(Lowers(pieces)) == Words(pieces)
  {
    forall i | 0 <= i < |pieces|
      ensures IsPiece(Lowers(pieces)[i]) && HexValue(Lowers(pieces)[i]) == HexValue(pieces[i])
    {
      assert pieces[i] in pieces;
      LowerPiece(pieces[i]);
    }
  }

  lemma LowerBody(s: Spelling)
    ensures Lower(Body(s)) == Body(LowerSpelling(s))
  {
    LowerColons(s.head);
    LowerColons(s.rest);
    var front := Colons(s.head) + (if s.elided then "::" else "");
    LowerConcat(front + Colons(s.rest), Suffix(s));
    LowerConcat(front, Colons(s.rest));
    LowerConcat(Colons(s.head), if s.elided then "::" else "");
    assert Lower("::") == "::" && Lower(":") == ":" && Lower("") == "";
  }

  lemma KnownMetadata(isIp: IsIp)
    requires Recognises(isIp)
    ensures Ipv6(isIp, METADATA_TEXT) == Some(METADATA_V6)
  {
    KnownSpelling();
    KnownBytes();
    SpellingsParse(isIp, METADATA_SPELLING);
  }

  lemma KnownSpelling()
    ensures Valid(METADATA_SPELLING) && Render(METADATA_SPELLING) == METADATA_TEXT
  {
    assert IsPiece("fd00") && IsPiece("ec2") && IsPiece("254");
    assert ["fd00", "ec2"][1..] == ["ec2"];
    assert Join(["fd00", "ec2"], ':') == "fd00" + [':'] + "ec2" == "fd00:ec2";
    assert Body(METADATA_SPELLING) == "fd00:ec2" + "::" + "254" + "";
  }

  lemma HexValue3(s: string)
    requires |s| == 3
    ensures HexValue(s) == (HexDigit(s[0]) * 16 + HexDigit(s[1])) * 16 + HexDigit(s[2])
  {
    var u := s[..2];
    var v := u[..1];
    assert v[..0] == "" && u[1] == s[1] && v[0] == s[0];
    assert HexValue(v) == HexDigit(s[0]);
    assert HexValue(u) == HexDigit(s[0]) * 16 + HexDigit(s[1]);
  }

  lemma KnownBytes()
    requires Valid(METADATA_SPELLING)
    ensures Meaning(METADATA_SPELLING) == METADATA_V6
  {
    HexValue4("fd00");
    HexValue3("ec2");
    HexValue3("254");
    var words := Words(["fd00", "ec2"]) + Zeros(5) + Words(["254"]);
    assert words == [0xfd00, 0xec2, 0, 0, 0, 0, 0, 0x254];
    BytesOfWords(METADATA_V6, words);
    assert METADATA_V6 + [] == METADATA_V6;
  }

  /** Whether an unwrapped, lower-case text is a metadata address. */
  predicate NamesMetadata(isIp: IsIp, text: string) {
    text == Dotted(METADATA_V4) || text == METADATA_TEXT || Ipv6(isIp, text) == Some(METADATA_V6)
  }

  lemma DottedMetadata(isIp: IsIp, o: seq<nat>)
    requires IsOctets(o) && Recognises(isIp)
    ensures NamesMetadata(isIp, Dotted(o)) <==> o == METADATA_V4
  {
    var known := METADATA_V4;
    assert IsOctets(known);
    DottedInjective(isIp, o, known);
    Ipv4OfDotted(isIp, o);
    MetadataTextHasColon();
    assert isIp(Dotted(o)) == 4;
  }

  lemma MetadataTextHasColon()
    ensures ':' in METADATA_TEXT
  {
    assert METADATA_TEXT[4] == ':';
  }

  lemma DottedInjective(isIp: IsIp, o: seq<nat>, p: seq<nat>)
    requires IsOctets(o) && IsOctets(p) && Recognises(isIp)
    ensures Dotted(o) == Dotted(p) <==> o == p
  {
    Ipv4OfDotted(isIp, o);
    Ipv4OfDotted(isIp, p);
  }

  lemma SpelledMetadata(isIp: IsIp, s: Spelling)
    requires Valid(s) && Recognises(isIp)
    ensures NamesMetadata(isIp, Render(s)) <==> Meaning(s) == METADATA_V6
  {
    SpellingsParse(isIp, s);
    KnownMetadata(isIp);
    assert IsOctets(METADATA_V4);
  }

  /** Of the dotted IPv4 addresses exactly 169.254.169.254 is a metadata endpoint. */
  lemma DottedMetadataVerdict(isIp: IsIp, o: seq<nat>)
    requires IsOctets(o) && Recognises(isIp)
    ensures IsMetadataAddress(isIp, Dotted(o)) <==> o == [169, 254, 169, 254]
  {
    assert isIp(Dotted(o)) == 4;
    forall part | part in Decimals(o) ensures AllDigits(part) {
      var i :| 0 <= i < 4 && Decimals(o)[i] == part;
      DecimalIsIndex(o[i]);
    }
    LowerDotted(Decimals(o));
    DottedMetadata(isIp, o);
  }

  /** The metadata verdict, too, is on the bytes: mapped, NAT64 and every spelling of the IPv6 endpoint included. */
  lemma MetadataIsOnBytes(isIp: IsIp, s: Spelling)
    requires Valid(s) && Recognises(isIp)
    ensures IsAddress(Meaning(s)) && IsMetadataAddress(isIp, Render(s)) == MetadataBytes(Meaning(s))
  {
    SpellingsParse(isIp, s);
    MeaningIsAddress(s);
    match MappedOf(Meaning(s))
    case Some(o) =>
      DottedMetadata(isIp, o);
    case None =>
      LowerMeaning(s);
      LowerRender(s);
      SpelledMetadata(isIp, LowerSpelling(s));
  }
}
