/**
 * IPv6 text and the address blocks: every spelling of an address parses to its bytes, and verdicts are about
 * the bytes.
 */
module Addresses {
  import opened Text

  // ---------------------------------------------------------------- spellings

  predicate IsHex(c: char) { '0' <= c <= '9' || 'a' <= c <= 'f' || 'A' <= c <= 'F' }

  function HexDigit(c: char): (d: nat)
    ensures d < 16
  {
    if '0' <= c <= '9' then c as int - '0' as int
    else if 'a' <= c <= 'f' then c as int - 'a' as int + 10
    else if 'A' <= c <= 'F' then c as int - 'A' as int + 10
    else 0
  }

  /** `parseInt(piece, 16)` of hexadecimal digits. */
  function HexValue(s: string): nat {
    if s == "" then 0 else HexValue(s[..|s| - 1]) * 16 + HexDigit(s[|s| - 1])
  }

  /** One to four hexadecimal digits of either case. */
  predicate IsPiece(s: string) { 1 <= |s| <= 4 && forall c <- s :: IsHex(c) }

  predicate IsOctets(o: seq<nat>) { |o| == 4 && forall b <- o :: b < 256 }

  /**
   * The text forms of section 2.2 of RFC 4291: groups before "::", whether there is one, groups after it, and a
   * dotted IPv4 tail in place of the last two groups.
   */
  datatype Spelling = Spelling(head: seq<string>, elided: bool, rest: seq<string>, tail: Option<seq<nat>>)

  function Groups(s: Spelling): nat { if s.tail.Some? then 6 else 8 }

  predicate Valid(s: Spelling) {
    && (forall p <- s.head :: IsPiece(p)) && (forall p <- s.rest :: IsPiece(p))
    && (s.tail.Some? ==> IsOctets(s.tail.value))
    && if s.elided then |s.head| + |s.rest| < Groups(s) else s.rest == [] && |s.head| == Groups(s)
  }

  function Colons(pieces: seq<string>): string { if pieces == [] then "" else Join(pieces, ':') }

  function Decimals(o: seq<nat>): (parts: seq<string>)
    ensures |parts| == |o| && forall i :: 0 <= i < |o| ==> parts[i] == Decimal(o[i])
  {
    seq(|o|, i requires 0 <= i < |o| => Decimal(o[i]))
  }

  function Dotted(o: seq<nat>): string
    requires o != []
  {
    Join(Decimals(o), '.')
  }

  /** The colon that separates a tail from the groups before it, unless "::" already does. */
  function Suffix(s: Spelling): string {
    if s.tail.None? || (s.elided && s.rest == []) then "" else ":"
  }

  /** All up to the tail. */
  function Body(s: Spelling): string {
    Colons(s.head) + (if s.elided then "::" else "") + Colons(s.rest) + Suffix(s)
  }

  function Render(s: Spelling): string
    requires Valid(s)
  {
    Body(s) + match s.tail case None => "" case Some(o) => Dotted(o)
  }

  function Words(pieces: seq<string>): (words: seq<nat>)
    ensures |words| == |pieces| && forall i :: 0 <= i < |words| ==> words[i] == HexValue(pieces[i])
  {
    seq(|pieces|, i requires 0 <= i < |pieces| => HexValue(pieces[i]))
  }

  function Zeros(n: nat): (z: seq<nat>)
    ensures |z| == n && forall b <- z :: b == 0
  {
    seq(n, i => 0)
  }

  /** Two bytes a word, the high one first. */
  function WordBytes(words: seq<nat>): (bytes: seq<nat>)
    ensures |bytes| == 2 * |words|
  {
    if words == [] then []
    else
      var w := words[|words| - 1];
      WordBytes(words[..|words| - 1]) + [w / 256 % 256, w % 256]
  }

  /** The bytes of groups before and after an elision, zeros between. */
  function GroupBytes(head: seq<string>, rest: seq<string>, groups: nat): seq<nat>
    requires |head| + |rest| <= groups
  {
    WordBytes(Words(head) + Zeros(groups - |head| - |rest|) + Words(rest))
  }

  lemma {:induction false} WordBytesAt(words: seq<nat>, k: nat)
    requires k < |words|
    ensures WordBytes(words)[2 * k] == words[k] / 256 % 256 && WordBytes(words)[2 * k + 1] == words[k] % 256
  {
    if k < |words| - 1 {
      WordBytesAt(words[..|words| - 1], k);
    }
  }

  /** The sixteen bytes a spelling stands for. */
  function Meaning(s: Spelling): (bytes: seq<nat>)
    requires Valid(s)
    ensures |bytes| == 16
  {
    GroupBytes(s.head, s.rest, Groups(s))
    + match s.tail case None => [] case Some(o) => o
  }

  // ------------------------------------------------------------------ parsing

  /** The platform's address recogniser: 4, 6 or something else. */
  type IsIp = string -> nat

  ghost predicate Recognises(isIp: IsIp) {
    && (forall s: Spelling :: Valid(s) ==> isIp(Render(s)) == 6)
    && forall o: seq<nat> :: IsOctets(o) ==> isIp(Dotted(o)) == 4
  }

  function Numbers(parts: seq<string>): Option<seq<nat>> {
    if exists p :: p in parts && !(p != "" && AllDigits(p)) then None
    else Some(seq(|parts|, i requires 0 <= i < |parts| => if AllDigits(parts[i]) then DigitsValue(parts[i]) else 0))
  }

  function ParseIpv4(isIp: IsIp, text: string): Option<seq<nat>> {
    if isIp(text) != 4 || |Split(text, '.')| != 4 then None else Numbers(Split(text, '.'))
  }

  /** Where the first "::" is, or the end. */
  function DoubleAt(s: string): (i: nat)
    ensures i <= |s| && (i < |s| ==> i + 1 < |s| && s[i] == ':' && s[i + 1] == ':')
    ensures forall j :: 0 <= j < i && j + 1 < |s| ==> !(s[j] == ':' && s[j + 1] == ':')
  {
    if |s| < 2 then |s| else if s[0] == ':' && s[1] == ':' then 0 else 1 + DoubleAt(s[1..])
  }

  /** `split("::")`. */
  function SplitDouble(s: string): (parts: seq<string>)
    ensures parts != []
    decreases |s|
  {
    var i := DoubleAt(s);
    if i == |s| then [s] else [s[..i]] + SplitDouble(s[i + 2..])
  }

  function NonEmpty(parts: seq<string>): seq<string> {
    if parts == [] then [] else (if parts[0] == "" then [] else [parts[0]]) + NonEmpty(parts[1..])
  }

  function SplitHextets(part: string): seq<nat> { Words(NonEmpty(Split(part, ':'))) }

  /** The text up to and including the last colon. */
  function UpToColon(s: string): (up: string)
    ensures up <= s && ':' !in s[|up|..] && (up == "" || up[|up| - 1] == ':')
  {
    if s == "" || s[|s| - 1] == ':' then s
    else
      var up := UpToColon(s[..|s| - 1]);
      assert s[|up|..] == s[..|s| - 1][|up|..] + [s[|s| - 1]];
      up
  }

  /** The dotted tail, when there is one. */
  function Trailing(isIp: IsIp, text: string): Option<seq<nat>> {
    var tail := text[|UpToColon(text)|..];
    if '.' in tail then ParseIpv4(isIp, tail) else None
  }

  /** The bytes of the groups split at "::", filled up to `groups` words. */
  function Filled(hextets: seq<string>, groups: nat): Option<seq<nat>>
    requires hextets != []
  {
    var head, rest := SplitHextets(hextets[0]), SplitHextets(if |hextets| > 1 then hextets[1] else "");
    if |hextets| > 2 || (|hextets| == 1 && |head| != groups) || |head| + |rest| > groups then None
    else Some(WordBytes(head + Zeros(groups - |head| - |rest|) + rest))
  }

  /** The bytes of the groups in `body`, then those of the dotted tail. */
  function Assembled(body: string, v4: Option<seq<nat>>): Option<seq<nat>> {
    match Filled(SplitDouble(body), if v4.None? then 8 else 6)
    case None => None
    case Some(bytes) => if |bytes + Default(v4, [])| == 16 then Some(bytes + Default(v4, [])) else None
  }

  function Ipv6(isIp: IsIp, text: string): Option<seq<nat>> {
    if isIp(text) != 6 then None
    else if Trailing(isIp, text).None? then Assembled(text, None)
    else Assembled(UpToColon(text), Trailing(isIp, text))
  }

  function Default<T>(o: Option<T>, d: T): T { match o case None => d case Some(v) => v }

  method PushWords(words: seq<nat>) returns (bytes: seq<nat>)
    ensures bytes == WordBytes(words)
  {
    bytes := [];
    for i := 0 to |words|
      invariant bytes == WordBytes(words[..i])
    {
      assert words[..i + 1][..i] == words[..i];
      bytes := bytes + [words[i] / 256 % 256, words[i] % 256];
    }
    assert words[..|words|] == words;
  }

  method FillGroups(hextets: seq<string>, groups: nat) returns (r: Option<seq<nat>>)
    requires hextets != []
    ensures r == Filled(hextets, groups)
  {
    if |hextets| > 2 {
      return None;
    }
    var head, rest := SplitHextets(hextets[0]), SplitHextets(if |hextets| > 1 then hextets[1] else "");
    if |hextets| == 1 && |head| != groups {
      return None;
    }
    var gap := groups - |head| - |rest|;
    if gap < 0 {
      return None;
    }
    var bytes := PushWords(head + Zeros(gap) + rest);
    r := Some(bytes);
  }

  /** `parseIpv6`: what it gives for any spelling of an address is the address. */
  method ParseIpv6(isIp: IsIp, address: string) returns (r: Option<seq<nat>>)
    ensures r == Ipv6(isIp, address)
    ensures Recognises(isIp) ==> forall s: Spelling :: Valid(s) && Render(s) == address ==> r == Some(Meaning(s))
  {
    if Recognises(isIp) {
      forall s: Spelling | Valid(s) && Render(s) == address ensures Ipv6(isIp, address) == Some(Meaning(s)) {
        SpellingsParse(isIp, s);
      }
    }
    if isIp(address) != 6 {
      return None;
    }
    var trailingV4 := Trailing(isIp, address);
    var hextets := SplitDouble(if trailingV4.None? then address else UpToColon(address));
    r := FillGroups(hextets, if trailingV4.None? then 8 else 6);
    if r.Some? {
      var bytes := r.value + Default(trailingV4, []);
      r := if |bytes| == 16 then Some(bytes) else None;
    }
  }

  // --------------------------------------------------------------- round trip

  /** Neither starts nor ends with a colon, nor has two in a row, nor a dot. */
  predicate Tidy(s: string) {
    && (s != "" ==> s[0] != ':' && s[|s| - 1] != ':')
    && '.' !in s
    && forall i :: 0 <= i < |s| - 1 ==> !(s[i] == ':' && s[i + 1] == ':')
  }

  lemma PieceIsTidy(p: string)
    requires IsPiece(p)
    ensures Tidy(p) && ':' !in p && p != ""
  {
    assert forall i :: 0 <= i < |p| ==> p[i] in p;
  }

  lemma {:induction false} ColonsAreTidy(pieces: seq<string>)
    requires forall p <- pieces :: IsPiece(p)
    ensures Tidy(Colons(pieces)) && (pieces != [] ==> Colons(pieces) != "")
  {
    if pieces != [] {
      assert pieces[0] in pieces;
      PieceIsTidy(pieces[0]);
      if |pieces| > 1 {
        ColonsAreTidy(pieces[1..]);
        var rest := Join(pieces[1..], ':');
        var s := pieces[0] + [':'] + rest;
        forall i | 0 <= i < |s| - 1 ensures !(s[i] == ':' && s[i + 1] == ':') {
          if i < |pieces[0]| {
            assert s[i] == pieces[0][i];
          } else if i > |pieces[0]| {
            assert s[i] == rest[i - |pieces[0]| - 1];
          } else {
            assert s[i + 1] == rest[0];
          }
        }
      }
    }
  }

  lemma JoinMore(parts: seq<string>, sep: char, more: string)
    requires |parts| > 1
    ensures Join(parts, sep) + [sep] + more == parts[0] + [sep] + (Join(parts[1..], sep) + [sep] + more)
  {
    var tail := Join(parts[1..], sep);
    assert Join(parts, sep) == parts[0] + [sep] + tail;
    assert parts[0] + [sep] + tail + [sep] + more == parts[0] + [sep] + (tail + [sep] + more);
  }

  lemma ConsPlus<T>(a: seq<T>, b: seq<T>)
    requires a != []
    ensures [a[0]] + (a[1..] + b) == a + b
  {
  }

  lemma {:induction false} SplitJoinMore(parts: seq<string>, sep: char, more: string)
    requires parts != [] && forall s <- parts :: sep !in s
    ensures Split(Join(parts, sep) + [sep] + more, sep) == parts + Split(more, sep)
  {
    assert sep !in parts[0];
    if |parts| == 1 {
      SplitHead(parts[0], sep, more);
      assert parts == [parts[0]];
    } else {
      SplitJoinMore(parts[1..], sep, more);
      JoinMore(parts, sep, more);
      SplitHead(parts[0], sep, Join(parts[1..], sep) + [sep] + more);
      ConsPlus(parts, Split(more, sep));
    }
  }

  lemma {:induction false} NonEmptyKeeps(parts: seq<string>, more: seq<string>)
    requires (forall p <- parts :: p != "") && forall p <- more :: p == ""
    ensures NonEmpty(parts + more) == parts
  {
    if parts != [] {
      assert parts[0] in parts && forall p <- parts[1..] :: p in parts;
      NonEmptyKeeps(parts[1..], more);
      assert (parts + more)[1..] == parts[1..] + more;
    } else if more != [] {
      assert more[0] in more && forall p <- more[1..] :: p in more;
      NonEmptyKeeps(parts, more[1..]);
      assert parts + more == more && parts + more[1..] == more[1..];
    } else {
      assert parts + more == [];
    }
  }

  /** Groups come back from their text, a colon left hanging at the end or not. */
  lemma HextetsOfColons(pieces: seq<string>, suffix: string)
    requires (forall p <- pieces :: IsPiece(p)) && suffix in {"", ":"} && (pieces == [] ==> suffix == "")
    ensures SplitHextets(Colons(pieces) + suffix) == Words(pieces)
  {
    forall p | p in pieces ensures ':' !in p && p != "" {
      PieceIsTidy(p);
    }
    var text := Colons(pieces) + suffix;
    assert Split("", ':') == [""];
    if pieces == [] {
      NonEmptyKeeps([], [""]);
      assert [] + [""] == [""] && text == "";
    } else if suffix == "" {
      SplitJoin(pieces, ':');
      NonEmptyKeeps(pieces, []);
      assert pieces + [] == pieces && text == Join(pieces, ':');
    } else {
      SplitJoinMore(pieces, ':', "");
      NonEmptyKeeps(pieces, [""]);
      assert text == Join(pieces, ':') + [':'] + "";
    }
  }

  lemma DoubleAtBetween(a: string, b: string)
    requires Tidy(a)
    ensures SplitDouble(a + "::" + b) == [a] + SplitDouble(b)
  {
    var s := a + "::" + b;
    assert s[|a|] == ':' && s[|a| + 1] == ':';
    forall j | 0 <= j < |a| ensures !(s[j] == ':' && s[j + 1] == ':') {
      assert s[j] == a[j] && (j + 1 < |a| ==> s[j + 1] == a[j + 1]);
    }
    assert DoubleAt(s) == |a|;
    assert s[..|a|] == a && s[|a| + 2..] == b;
  }

  lemma NoDouble(a: string, suffix: string)
    requires Tidy(a) && suffix in {"", ":"}
    ensures SplitDouble(a + suffix) == [a + suffix]
  {
    var s := a + suffix;
    assert forall j :: 0 <= j < |a| ==> s[j] == a[j];
  }

  lemma {:induction false} DottedIsPlain(parts: seq<string>)
    requires parts != [] && forall p <- parts :: p != "" && AllDigits(p)
    ensures ':' !in Join(parts, '.') && (|parts| > 1 ==> '.' in Join(parts, '.'))
  {
    assert parts[0] in parts;
    assert forall c <- parts[0] :: '0' <= c <= '9';
    if |parts| > 1 {
      assert forall p <- parts[1..] :: p in parts;
      DottedIsPlain(parts[1..]);
    }
  }

  /** The four numbers come back from their dotted text. */
  lemma Ipv4OfDotted(isIp: IsIp, o: seq<nat>)
    requires IsOctets(o) && Recognises(isIp)
    ensures ParseIpv4(isIp, Dotted(o)) == Some(o) && ':' !in Dotted(o) && '.' in Dotted(o)
  {
    var parts := Decimals(o);
    forall p | p in parts ensures p != "" && AllDigits(p) && '.' !in p {
      var i :| 0 <= i < 4 && parts[i] == p;
      DecimalIsIndex(o[i]);
      IndexHasNoDot(p);
    }
    DottedIsPlain(parts);
    SplitJoin(parts, '.');
    forall i | 0 <= i < 4 ensures DigitsValue(parts[i]) == o[i] {
      DecimalValue(o[i]);
    }
    assert Numbers(parts).value == o;
  }

  lemma IndexHasNoDot(s: string)
    requires AllDigits(s)
    ensures '.' !in s && ':' !in s
  {
    assert forall c <- s :: '0' <= c <= '9';
  }

  lemma {:induction false} UpToColonOf(a: string, b: string)
    requires ':' !in b && (a == "" || a[|a| - 1] == ':')
    ensures UpToColon(a + b) == a
  {
    var s := a + b;
    var up := UpToColon(s);
    forall i | |up| <= i < |s| ensures s[i] != ':' {
      assert s[|up|..][i - |up|] == s[i];
    }
    forall i | |a| <= i < |s| ensures s[i] != ':' {
      assert s[i] == b[i - |a|] && b[i - |a|] in b;
    }
    assert a != "" ==> s[|a| - 1] == ':';
    assert up != "" ==> s[|up| - 1] == ':';
  }

  lemma FilledOfTwo(a: string, b: string, head: seq<string>, rest: seq<string>, groups: nat)
    requires SplitHextets(a) == Words(head) && SplitHextets(b) == Words(rest) && |head| + |rest| <= groups
    ensures Filled([a, b], groups) == Some(GroupBytes(head, rest, groups))
  {
  }

  lemma FilledOfColons(head: seq<string>, rest: seq<string>, suffix: string, groups: nat)
    requires (forall p <- head :: IsPiece(p)) && (forall p <- rest :: IsPiece(p))
    requires suffix in {"", ":"} && (rest == [] ==> suffix == "") && |head| + |rest| <= groups
    ensures Filled([Colons(head), Colons(rest) + suffix], groups)
         == Some(GroupBytes(head, rest, groups))
  {
    HextetsOfColons(head, "");
    HextetsOfColons(rest, suffix);
    assert Colons(head) + "" == Colons(head);
    FilledOfTwo(Colons(head), Colons(rest) + suffix, head, rest, groups);
  }

  lemma SplitBody(s: Spelling)
    requires Valid(s) && s.elided
    ensures SplitDouble(Body(s)) == [Colons(s.head), Colons(s.rest) + Suffix(s)]
  {
    ColonsAreTidy(s.head);
    ColonsAreTidy(s.rest);
    var more := Colons(s.rest) + Suffix(s);
    assert Body(s) == Colons(s.head) + "::" + more;
    DoubleAtBetween(Colons(s.head), more);
    NoDouble(Colons(s.rest), Suffix(s));
  }

  lemma FilledOfWhole(pieces: seq<string>, suffix: string)
    requires (forall p <- pieces :: IsPiece(p)) && suffix in {"", ":"} && pieces != []
    ensures Filled([Colons(pieces) + suffix], |pieces|) == Some(GroupBytes(pieces, [], |pieces|))
  {
    HextetsOfColons(pieces, suffix);
    NoHextets();
    FilledOfOne(Colons(pieces) + suffix, pieces);
  }

  lemma NoHextets()
    ensures SplitHextets("") == Words([])
  {
    HextetsOfColons([], "");
    assert Colons([]) + "" == "";
  }

  lemma FilledOfOne(a: string, head: seq<string>)
    requires SplitHextets(a) == Words(head) && SplitHextets("") == Words([])
    ensures Filled([a], |head|) == Some(GroupBytes(head, [], |head|))
  {
  }

  lemma WholeBody(s: Spelling)
    requires Valid(s) && !s.elided
    ensures SplitDouble(Body(s)) == [Colons(s.head) + Suffix(s)]
  {
    ColonsAreTidy(s.head);
    assert Body(s) == Colons(s.head) + Suffix(s);
    NoDouble(Colons(s.head), Suffix(s));
  }

  lemma FilledOfPlain(s: Spelling)
    requires Valid(s) && !s.elided
    ensures Filled(SplitDouble(Body(s)), Groups(s)) == Some(GroupBytes(s.head, s.rest, Groups(s)))
  {
    WholeBody(s);
    FilledOfWhole(s.head, Suffix(s));
  }

  /** The groups of a spelling come back from its body, and so do their bytes. */
  lemma FilledOfBody(s: Spelling)
    requires Valid(s)
    ensures Filled(SplitDouble(Body(s)), Groups(s))
         == Some(GroupBytes(s.head, s.rest, Groups(s)))
  {
    if s.elided {
      SplitBody(s);
      FilledOfColons(s.head, s.rest, Suffix(s), Groups(s));
    } else {
      FilledOfPlain(s);
    }
  }

  /** Without a tail nothing dotted is found, with one exactly the tail. */
  lemma TailOfSpelling(isIp: IsIp, s: Spelling)
    requires Valid(s) && Recognises(isIp)
    ensures Trailing(isIp, Render(s)) == s.tail
    ensures (if s.tail.None? then Render(s) else UpToColon(Render(s))) == Body(s)
  {
    match s.tail
    case None =>
      BodyHasNoDot(s);
      assert Render(s) == Body(s);
      assert forall i :: 0 <= i < |Body(s)| ==> Body(s)[i] in Body(s);
    case Some(o) =>
      Ipv4OfDotted(isIp, o);
      BodyEndsInColon(s);
      UpToColonOf(Body(s), Dotted(o));
      assert Render(s)[|Body(s)|..] == Dotted(o);
  }

  /** Every spelling of an address, whatever its form and letter case, parses to the bytes it stands for. */
  lemma SpellingsParse(isIp: IsIp, s: Spelling)
    requires Valid(s) && Recognises(isIp)
    ensures Ipv6(isIp, Render(s)) == Some(Meaning(s))
  {
    TailOfSpelling(isIp, s);
    AssembledOfBody(s);
  }

  lemma AssembledOfBody(s: Spelling)
    requires Valid(s)
    ensures Assembled(Body(s), s.tail) == Some(Meaning(s))
  {
    FilledOfBody(s);
    var filled := Filled(SplitDouble(Body(s)), if s.tail.None? then 8 else 6);
    assert filled.Some? && filled.value + Default(s.tail, []) == Meaning(s);
  }

  lemma BodyHasNoDot(s: Spelling)
    requires Valid(s)
    ensures '.' !in Body(s)
  {
    ColonsAreTidy(s.head);
    ColonsAreTidy(s.rest);
  }

  lemma BodyEndsInColon(s: Spelling)
    requires Valid(s) && s.tail.Some?
    ensures Body(s) != "" && Body(s)[|Body(s)| - 1] == ':'
  {
    assert Colons([]) == "";
  }

  predicate IsAddress(bytes: seq<nat>) { |bytes| == 16 && forall i :: 0 <= i < 16 ==> bytes[i] < 256 }

  /** Four hexadecimal digits for two bytes. */
  function Hex4(high: nat, low: nat, digits: string): string
    requires high < 256 && low < 256 && |digits| == 16
  {
    [digits[high / 16], digits[high % 16], digits[low / 16], digits[low % 16]]
  }

  const LOWER := "0123456789abcdef"
  const UPPER := "0123456789ABCDEF"

  function FullForm(bytes: seq<nat>, digits: string): Spelling
    requires IsAddress(bytes) && |digits| == 16
  {
    Spelling(seq(8, i requires 0 <= i < 8 => Hex4(bytes[2 * i], bytes[2 * i + 1], digits)), false, [], None)
  }

  /** So the parser reaches every address: the full form of any sixteen bytes, in either case, parses to them. */
  lemma FullFormParses(isIp: IsIp, bytes: seq<nat>, digits: string)
    requires IsAddress(bytes) && digits in {LOWER, UPPER} && Recognises(isIp)
    ensures Valid(FullForm(bytes, digits)) && Ipv6(isIp, Render(FullForm(bytes, digits))) == Some(bytes)
  {
    FullFormMeans(bytes, digits);
    SpellingsParse(isIp, FullForm(bytes, digits));
  }

  lemma FullFormMeans(bytes: seq<nat>, digits: string)
    requires IsAddress(bytes) && digits in {LOWER, UPPER}
    ensures Valid(FullForm(bytes, digits)) && Meaning(FullForm(bytes, digits)) == bytes
  {
    var pieces := FullForm(bytes, digits).head;
    FullPieces(bytes, digits);
    BytesOfWords(bytes, Words(pieces));
    assert Words(pieces) + Zeros(0) + Words([]) == Words(pieces);
  }

  lemma FullPieces(bytes: seq<nat>, digits: string)
    requires IsAddress(bytes) && digits in {LOWER, UPPER}
    ensures var pieces := FullForm(bytes, digits).head;
      (forall p <- pieces :: IsPiece(p))
      && forall i :: 0 <= i < 8 ==> Words(pieces)[i] == bytes[2 * i] * 256 + bytes[2 * i + 1]
  {
    var pieces := FullForm(bytes, digits).head;
    forall i | 0 <= i < 8 ensures IsPiece(pieces[i]) && HexValue(pieces[i]) == bytes[2 * i] * 256 + bytes[2 * i + 1] {
      FullPiece(bytes, digits, i);
    }
  }

  lemma FullPiece(bytes: seq<nat>, digits: string, i: nat)
    requires IsAddress(bytes) && digits in {LOWER, UPPER} && i < 8
    ensures var p := FullForm(bytes, digits).head[i];
      IsPiece(p) && HexValue(p) == bytes[2 * i] * 256 + bytes[2 * i + 1]
  {
    Hex4Value(bytes[2 * i], bytes[2 * i + 1], digits);
  }

  lemma BytesOfWords(bytes: seq<nat>, words: seq<nat>)
    requires IsAddress(bytes) && |words| == 8
    requires forall i :: 0 <= i < 8 ==> words[i] == bytes[2 * i] * 256 + bytes[2 * i + 1]
    ensures WordBytes(words) == bytes
  {
    forall k | 0 <= k < 8
      ensures WordBytes(words)[2 * k] == bytes[2 * k] && WordBytes(words)[2 * k + 1] == bytes[2 * k + 1]
    {
      WordBytesAt(words, k);
      assert words[k] == bytes[2 * k] * 256 + bytes[2 * k + 1];
    }
    forall i | 0 <= i < 16 ensures WordBytes(words)[i] == bytes[i] {
      var k := i / 2;
      assert i == 2 * k || i == 2 * k + 1;
    }
  }

  lemma HexValue4(s: string)
    requires |s| == 4
    ensures HexValue(s) == ((HexDigit(s[0]) * 16 + HexDigit(s[1])) * 16 + HexDigit(s[2])) * 16 + HexDigit(s[3])
  {
    var t := s[..3];
    var u := t[..2];
    var v := u[..1];
    assert v[..0] == "" && t[2] == s[2] && u[1] == s[1] && v[0] == s[0];
    assert HexValue(v) == HexDigit(s[0]);
    assert HexValue(u) == HexDigit(s[0]) * 16 + HexDigit(s[1]);
    assert HexValue(t) == (HexDigit(s[0]) * 16 + HexDigit(s[1])) * 16 + HexDigit(s[2]);
  }

  lemma Hex4Value(high: nat, low: nat, digits: string)
    requires high < 256 && low < 256 && digits in {LOWER, UPPER}
    ensures IsPiece(Hex4(high, low, digits)) && HexValue(Hex4(high, low, digits)) == high * 256 + low
  {
    assert forall d :: 0 <= d < 16 ==> IsHex(digits[d]) && HexDigit(digits[d]) == d;
    HexValue4(Hex4(high, low, digits));
  }
}
