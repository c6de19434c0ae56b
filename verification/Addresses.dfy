/** Which host names the outbound HTTP guard takes for private or link-local addresses. */
module Addresses {
  import opened Basics

  predicate IsDigit(c: char) { '0' <= c <= '9' }

  function LowerChar(c: char): char {
    if 'A' <= c <= 'Z' then (c as int + 32) as char else c
  }

  function Lower(s: string): string {
    seq(|s|, i requires 0 <= i < |s| => LowerChar(s[i]))
  }

  predicate IsHexDigit(c: char) { IsDigit(c) || 'a' <= LowerChar(c) <= 'f' }

  function HexDigitValue(c: char): nat
    requires IsHexDigit(c)
  {
    if IsDigit(c) then c as int - '0' as int else LowerChar(c) as int - 'a' as int + 10
  }

  predicate AllDigits(s: string) { s != "" && forall i :: 0 <= i < |s| ==> IsDigit(s[i]) }

  predicate AllHex(s: string) { s != "" && forall i :: 0 <= i < |s| ==> IsHexDigit(s[i]) }

  /** The number a digit string denotes, in base 16 or 10. */
  function Numeral(s: string, hex: bool): nat
    requires forall i :: 0 <= i < |s| ==> IsHexDigit(s[i])
  {
    if s == "" then 0
    else
      var high, low := Numeral(s[..|s| - 1], hex), HexDigitValue(s[|s| - 1]);
      if hex then high * 16 + low else high * 10 + low
  }

  function DigitChar(d: nat): (c: char)
    requires d < 16
    ensures IsHexDigit(c) && HexDigitValue(c) == d && (d < 10 ==> IsDigit(c)) && c != '.' && c != ':'
  {
    if d < 10 then ('0' as int + d) as char else ('a' as int + d - 10) as char
  }

  /** `n.toString(16)` or `n.toString(10)` for a number that is not negative. */
  function Print(n: nat, hex: bool): (s: string)
    ensures AllHex(s) && (!hex ==> AllDigits(s))
    decreases n
  {
    if hex then (if n < 16 then [DigitChar(n)] else Print(n / 16, hex) + [DigitChar(n % 16)])
    else if n < 10 then [DigitChar(n)] else Print(n / 10, hex) + [DigitChar(n % 10)]
  }

  lemma {:induction false} NumeralOfPrint(n: nat, hex: bool)
    ensures Numeral(Print(n, hex), hex) == n
    decreases n
  {
    var s := Print(n, hex);
    var q := if hex then n / 16 else n / 10;
    if q > 0 {
      NumeralOfPrint(q, hex);
      assert s[..|s| - 1] == Print(q, hex);
    } else {
      assert s[..0] == "";
    }
  }

  function Decimal(n: int): string {
    if n < 0 then "-" + Print(-n, false) else Print(n, false)
  }

  // ------------------------------------------------------- the two classifiers

  /** `/^(\d+)\.(\d+)\.(\d+)\.(\d+)$/` with the groups converted to numbers. */
  function DottedQuad(h: string): Option<(nat, nat)> {
    var g := Split(h, '.');
    if |g| == 4 && AllDigits(g[0]) && AllDigits(g[1]) && AllDigits(g[2]) && AllDigits(g[3])
    then Some((Numeral(g[0], false), Numeral(g[1], false)))
    else None
  }

  predicate IsPrivateIPv4(hostname: string) {
    match DottedQuad(hostname)
    case None => false
    case Some((a, b)) => a == 10 || (a == 172 && 16 <= b <= 31) || (a == 192 && b == 168) || (a == 169 && b == 254)
  }

  /** A case-insensitive `/^prefix/`, for a lower-case prefix. */
  predicate StartsWith(h: string, prefix: string) {
    |h| >= |prefix| && Lower(h[..|prefix|]) == prefix
  }

  const MAPPED := "::ffff:"

  /** The dotted form of the IPv4 address whose two hexadecimal groups follow `::ffff:`. */
  function MappedQuad(rest: string): Option<string> {
    var g := Split(rest, ':');
    if DottedQuad(rest).Some? then Some(rest)
    else if |g| == 2 && AllHex(g[0]) && AllHex(g[1]) then Some(HexQuad(Numeral(g[0], true), Numeral(g[1], true)))
    else None
  }

  /** `${hi >> 8}.${hi & 0xff}.${lo >> 8}.${lo & 0xff}`. */
  function HexQuad(hi: nat, lo: nat): string {
    Decimal(ToInt32(hi) / 256) + "." + Decimal(ToInt32(hi) % 256) + "." +
    Decimal(ToInt32(lo) / 256) + "." + Decimal(ToInt32(lo) % 256)
  }

  predicate IsPrivateIPv6(hostname: string) {
    var h := if hostname == "" || hostname[0] != '[' then hostname
             else if |hostname| == 1 then "" else hostname[1..|hostname| - 1];
    var mapped := if StartsWith(h, MAPPED) then MappedQuad(h[|MAPPED|..]) else None;
    match mapped
    case Some(dotted) => IsPrivateIPv4(dotted)
    case None => HasLocalPrefix(h)
  }

  predicate HasLocalPrefix(h: string) {
    StartsWith(h, "fc") || StartsWith(h, "fd") ||
    StartsWith(h, "fe8") || StartsWith(h, "fe9") || StartsWith(h, "fea") || StartsWith(h, "feb")
  }

  // ------------------------------------------------------------------ theorems

  /** A byte of an address. */
  type Octet = o: nat | o < 256

  function Address(a: Octet, b: Octet, c: Octet, d: Octet): nat {
    ((a * 256 + b) * 256 + c) * 256 + d
  }

  /** 10.0.0.0/8, 172.16.0.0/12, 192.168.0.0/16 and 169.254.0.0/16. */
  predicate InListedBlocks(address: nat) {
    address / 0x100_0000 == 10 || address / 0x10_0000 == 0xAC1 || address / 0x1_0000 == 0xC0A8 || address / 0x1_0000 == 0xA9FE
  }

  function DottedForm(a: Octet, b: Octet, c: Octet, d: Octet): string {
    Print(a, false) + "." + Print(b, false) + "." + Print(c, false) + "." + Print(d, false)
  }

  /** The WHATWG form of the same address behind `::ffff:`, two groups of hexadecimal digits. */
  function HexForm(a: Octet, b: Octet, c: Octet, d: Octet): string {
    Print(a * 256 + b, true) + ":" + Print(c * 256 + d, true)
  }

  lemma JoinFour(p: string, q: string, r: string, s: string)
    ensures Join([p, q, r, s], '.') == p + "." + q + "." + r + "." + s
  {
    assert [p, q, r, s][1..] == [q, r, s] && [q, r, s][1..] == [r, s] && [r, s][1..] == [s];
    assert Join([r, s], '.') == r + "." + s;
    assert Join([q, r, s], '.') == q + "." + Join([r, s], '.');
    assert Join([p, q, r, s], '.') == p + "." + Join([q, r, s], '.');
  }

  lemma QuadOfDotted(a: Octet, b: Octet, c: Octet, d: Octet)
    ensures DottedQuad(DottedForm(a, b, c, d)) == Some((a, b))
  {
    var g := [Print(a, false), Print(b, false), Print(c, false), Print(d, false)];
    JoinFour(g[0], g[1], g[2], g[3]);
    forall i | 0 <= i < |g| ensures '.' !in g[i] {
      assert AllDigits(g[i]);
    }
    SplitOfJoin(g, '.');
    NumeralOfPrint(a, false);
    NumeralOfPrint(b, false);
  }

  lemma DottedVerdict(a: Octet, b: Octet, c: Octet, d: Octet)
    ensures IsPrivateIPv4(DottedForm(a, b, c, d)) <==> InListedBlocks(Address(a, b, c, d))
  {
    QuadOfDotted(a, b, c, d);
    assert Address(a, b, c, d) / 0x100_0000 == a && Address(a, b, c, d) / 0x1_0000 == a * 256 + b;
    assert Address(a, b, c, d) / 0x10_0000 == (a * 256 + b) / 16;
  }

  lemma HexFormSplits(hi: nat, lo: nat)
    ensures var text := Print(hi, true) + ":" + Print(lo, true);
            Split(text, ':') == [Print(hi, true), Print(lo, true)] && |Split(text, '.')| == 1
  {
    var g, text := [Print(hi, true), Print(lo, true)], Print(hi, true) + ":" + Print(lo, true);
    assert text == Join(g, ':') by { assert g[1..] == [Print(lo, true)]; }
    assert AllHex(g[0]) && AllHex(g[1]);
    SplitOfJoin(g, ':');
    SplitParts(text, '.');
    assert '.' !in text;
  }

  lemma HexFormReads(a: Octet, b: Octet, c: Octet, d: Octet)
    ensures MappedQuad(HexForm(a, b, c, d)) == Some(DottedForm(a, b, c, d))
  {
    var hi, lo := a * 256 + b, c * 256 + d;
    HexFormSplits(hi, lo);
    NumeralOfPrint(hi, true);
    NumeralOfPrint(lo, true);
    HexQuadIsDotted(a, b, c, d);
  }

  lemma HexQuadIsDotted(a: Octet, b: Octet, c: Octet, d: Octet)
    ensures HexQuad(a * 256 + b, c * 256 + d) == DottedForm(a, b, c, d)
  {
    Halves(a, b);
    Halves(c, d);
  }

  lemma Halves(high: Octet, low: Octet)
    ensures ToInt32(high * 256 + low) / 256 == high && ToInt32(high * 256 + low) % 256 == low
  {
  }

  lemma BracketsAndPrefix(rest: string)
    ensures var h := MAPPED + rest;
            && StartsWith(h, MAPPED) && h[|MAPPED|..] == rest
            && IsPrivateIPv6("[" + h + "]") == IsPrivateIPv6(h)
  {
    var h := MAPPED + rest;
    assert h[..7] == MAPPED && Lower(MAPPED) == MAPPED;
    assert h[0] == ':';
    assert ("[" + h + "]")[1..|h| + 1] == h;
  }

  /** Every 32-bit address is classified alike in all its spellings: dotted, IPv4-mapped dotted, IPv4-mapped
      hexadecimal, with or without brackets; and the verdict is membership in the four listed blocks. */
  lemma EverySpellingAgrees(a: Octet, b: Octet, c: Octet, d: Octet)
    ensures var listed := InListedBlocks(Address(a, b, c, d));
            && (IsPrivateIPv4(DottedForm(a, b, c, d)) <==> listed)
            && (IsPrivateIPv6(MAPPED + DottedForm(a, b, c, d)) <==> listed)
            && (IsPrivateIPv6(MAPPED + HexForm(a, b, c, d)) <==> listed)
            && (IsPrivateIPv6("[" + (MAPPED + HexForm(a, b, c, d)) + "]") <==> listed)
            && (IsPrivateIPv6("[" + (MAPPED + DottedForm(a, b, c, d)) + "]") <==> listed)
  {
    DottedVerdict(a, b, c, d);
    QuadOfDotted(a, b, c, d);
    BracketsAndPrefix(DottedForm(a, b, c, d));
    MappedVerdict(DottedForm(a, b, c, d), DottedForm(a, b, c, d));
    HexFormReads(a, b, c, d);
    BracketsAndPrefix(HexForm(a, b, c, d));
    MappedVerdict(HexForm(a, b, c, d), DottedForm(a, b, c, d));
  }

  lemma MappedVerdict(rest: string, dotted: string)
    requires MappedQuad(rest) == Some(dotted)
    ensures IsPrivateIPv6(MAPPED + rest) == IsPrivateIPv4(dotted)
  {
    BracketsAndPrefix(rest);
    assert (MAPPED + rest)[0] == ':';
  }

  lemma FourHexDigits(g: nat)
    requires 0x1000 <= g <= 0xffff
    ensures Print(g, true) == [DigitChar(g / 0x1000), DigitChar(g / 0x100 % 16), DigitChar(g / 16 % 16), DigitChar(g % 16)]
  {
    assert Print(g / 0x1000, true) == [DigitChar(g / 0x1000)];
    assert g / 0x100 / 16 == g / 0x1000 && g / 16 / 16 == g / 0x100;
    assert Print(g / 0x100, true) == [DigitChar(g / 0x1000), DigitChar(g / 0x100 % 16)];
    assert Print(g / 16, true) == [DigitChar(g / 0x1000), DigitChar(g / 0x100 % 16), DigitChar(g / 16 % 16)];
  }

  /** Unique local addresses fc00::/7 and link-local addresses fe80::/10. */
  predicate UniqueOrLinkLocal(firstGroup: nat) {
    firstGroup <= 0xffff && (firstGroup / 0x200 == 0x7e || firstGroup / 0x40 == 0x3fa)
  }

  lemma LocalDigits(g: nat, rest: string)
    requires UniqueOrLinkLocal(g)
    ensures HasLocalPrefix(Print(g, true) + ":" + rest) && Print(g, true)[0] == 'f'
  {
    var h := Print(g, true) + ":" + rest;
    assert 0xf000 <= g <= 0xffff;
    FourHexDigits(g);
    LocalPrefixChars(h);
    assert h[0] == DigitChar(g / 0x1000) && h[1] == DigitChar(g / 0x100 % 16) && h[2] == DigitChar(g / 16 % 16);
    hide Print, HasLocalPrefix, BeginsLikeLocal;
    GroupChars(g, h);
  }

  /** Every canonical IPv6 literal of those two ranges is private, whatever follows its first group. */
  lemma LocalIPv6IsPrivate(firstGroup: nat, rest: string)
    requires UniqueOrLinkLocal(firstGroup)
    ensures var h := Print(firstGroup, true) + ":" + rest;
            IsPrivateIPv6(h) && IsPrivateIPv6("[" + h + "]")
  {
    var h := Print(firstGroup, true) + ":" + rest;
    LocalDigits(firstGroup, rest);
    assert ("[" + h + "]")[1..|h| + 1] == h;
    if |h| >= 7 {
      assert Lower(h[..7])[0] == 'f';
    }
  }

  predicate IsLetter(c: char) { 'a' <= c <= 'z' || 'A' <= c <= 'Z' }

  /** The name begins, in either case, with fc, fd, fe8, fe9, fea or feb. */
  predicate BeginsLikeLocal(h: string) {
    && |h| >= 2 && h[0] in {'f', 'F'}
    && (h[1] in {'c', 'C', 'd', 'D'} || (|h| >= 3 && h[1] in {'e', 'E'} && h[2] in {'8', '9', 'a', 'A', 'b', 'B'}))
  }

  lemma LocalPrefixChars(h: string)
    ensures HasLocalPrefix(h) <==> BeginsLikeLocal(h)
  {
    if |h| >= 2 {
      assert Lower(h[..2]) == [LowerChar(h[0]), LowerChar(h[1])];
    }
    if |h| >= 3 {
      assert Lower(h[..3]) == [LowerChar(h[0]), LowerChar(h[1]), LowerChar(h[2])];
    }
  }

  lemma NotMapped(h: string)
    requires h == "" || h[0] != ':'
    ensures !StartsWith(h, MAPPED)
  {
    if |h| >= 7 {
      assert Lower(h[..7])[0] == LowerChar(h[0]);
    }
  }

  lemma NoQuadAfterLetter(h: string)
    requires h != "" && !IsDigit(h[0])
    ensures DottedQuad(h) == None
  {
    SplitParts(h, '.');
  }

  /** Of the host names that begin with a letter exactly those are refused that begin like a local IPv6 literal. */
  lemma NamesAreRefusedExactly(h: string)
    requires h != "" && IsLetter(h[0])
    ensures IsPrivateIPv4(h) || IsPrivateIPv6(h) <==> BeginsLikeLocal(h)
  {
    NoQuadAfterLetter(h);
    NotMapped(h);
    LocalPrefixChars(h);
  }

  /** A dotted address is no IPv6 literal, and the loopback hosts are nobody's private address. */
  lemma OtherVerdicts(a: Octet, b: Octet, c: Octet, d: Octet)
    ensures !IsPrivateIPv6(DottedForm(a, b, c, d))
    ensures forall h :: h in {"localhost", "127.0.0.1", "[::1]"} ==> !IsPrivateIPv4(h) && !IsPrivateIPv6(h)
  {
    var h := DottedForm(a, b, c, d);
    assert IsDigit(h[0]);
    NotMapped(h);
    LocalPrefixChars(h);
    NamesAreRefusedExactly("localhost");
    NoQuadAfterLetter("[::1]");
    assert "[::1]"[1..4] == "::1";
    LocalPrefixChars("::1");
    NotMapped("127.0.0.1");
    LocalPrefixChars("127.0.0.1");
    LoopbackIsNotPrivate();
  }

  lemma LoopbackIsNotPrivate()
    ensures !IsPrivateIPv4("127.0.0.1")
  {
    assert Print(127, false) == "127" by {
      assert Print(12, false) == "12" by { assert Print(1, false) == "1"; }
    }
    assert Print(0, false) == "0" && Print(1, false) == "1";
    assert DottedForm(127, 0, 0, 1) == "127.0.0.1";
    DottedVerdict(127, 0, 0, 1);
  }

  /** Of the IPv6 literals whose first group has four digits exactly those in fc00::/7 and fe80::/10 are refused. */
  lemma LongGroupsAreRefusedExactly(firstGroup: nat, rest: string)
    requires 0x1000 <= firstGroup <= 0xffff
    ensures IsPrivateIPv6("[" + (Print(firstGroup, true) + ":" + rest) + "]") <==> UniqueOrLinkLocal(firstGroup)
  {
    var h := Print(firstGroup, true) + ":" + rest;
    assert ("[" + h + "]")[1..|h| + 1] == h;
    FourHexDigits(firstGroup);
    assert h[0] == DigitChar(firstGroup / 0x1000);
    NotMapped(h);
    LocalPrefixChars(h);
    GroupChars(firstGroup, h);
  }

  lemma GroupChars(g: nat, h: string)
    requires 0x1000 <= g <= 0xffff && |h| > 4
    requires h[0] == DigitChar(g / 0x1000) && h[1] == DigitChar(g / 0x100 % 16) && h[2] == DigitChar(g / 16 % 16)
    ensures BeginsLikeLocal(h) <==> UniqueOrLinkLocal(g)
  {
    DigitChars(g / 0x1000);
    DigitChars(g / 0x100 % 16);
    DigitChars(g / 16 % 16);
    assert g / 0x200 == 0x7e <==> g / 0x1000 == 15 && (g / 0x100 % 16 == 12 || g / 0x100 % 16 == 13);
    assert g / 0x40 == 0x3fa <==> g / 0x1000 == 15 && g / 0x100 % 16 == 14 && 8 <= g / 16 % 16 <= 11;
  }

  lemma DigitChars(d: nat)
    requires d < 16
    ensures DigitChar(d) in {'f', 'F'} <==> d == 15
    ensures DigitChar(d) in {'c', 'C', 'd', 'D'} <==> d == 12 || d == 13
    ensures DigitChar(d) in {'e', 'E'} <==> d == 14
    ensures DigitChar(d) in {'8', '9', 'a', 'A', 'b', 'B'} <==> 8 <= d <= 11
  {
  }
}
