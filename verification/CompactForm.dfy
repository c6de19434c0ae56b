/** The compact SD-JWT serialisation `<JWS>~<Disclosure>~...~[<KB-JWT>]` as a parser and a printer. */
module CompactForm {
  import opened Basics

  /** What `parseCompact` returns; `kbJwt` is `None` when there is no key binding JWT. */
  datatype Compact = Compact(jws: string, disclosures: seq<string>, kbJwt: Option<string>)

  /** What the holder signs: the JWS and the disclosures, each closed by a tilde. */
  function PresentationHead(jws: string, disclosures: seq<string>): string {
    Join([jws] + disclosures, '~') + "~"
  }

  function Print(c: Compact): string {
    PresentationHead(c.jws, c.disclosures) + (if c.kbJwt.Some? then c.kbJwt.value else "")
  }

  /** The values a parser can produce: no part contains the separator, and a KB-JWT is not empty. */
  ghost predicate WellFormed(c: Compact) {
    && Free([c.jws] + c.disclosures, '~')
    && (c.kbJwt.Some? ==> '~' !in c.kbJwt.value && c.kbJwt.value != "")
  }

  function Parse(s: string): Compact {
    var parts := Split(s, '~');
    var last := parts[|parts| - 1];
    if |parts| == 1 then Compact(s, [], None)
    else Compact(parts[0], parts[1..|parts| - 1], if last == "" then None else Some(last))
  }

  /** `parseCompact`: shifts the JWS off the front of the split parts and pops the tail. */
  method ParseCompact(compact: string) returns (c: Compact)
    ensures c == Parse(compact)
  {
    var parts := Split(compact, '~');
    SplitParts(compact, '~');
    var jws := parts[0];
    parts := parts[1..];
    var kbJwt: Option<string> := None;
    if |parts| > 0 && parts[|parts| - 1] == "" {
      parts := parts[..|parts| - 1];
    } else if |parts| > 0 {
      kbJwt := Some(parts[|parts| - 1]);
      parts := parts[..|parts| - 1];
    }
    c := Compact(jws, parts, kbJwt);
  }

  function LastPart(c: Compact): string {
    if c.kbJwt.Some? then c.kbJwt.value else ""
  }

  lemma PrintIsJoin(c: Compact)
    ensures Print(c) == Join([c.jws] + c.disclosures + [LastPart(c)], '~')
  {
    JoinLast([c.jws] + c.disclosures, LastPart(c), '~');
  }

  /** Parsing undoes printing, exactly on the well-formed values. */
  lemma ParseOfPrint(c: Compact)
    ensures Parse(Print(c)) == c <==> WellFormed(c)
  {
    PrintIsJoin(c);
    var parts := [c.jws] + c.disclosures + [LastPart(c)];
    if WellFormed(c) {
      SplitOfJoin(parts, '~');
      assert parts[1..|parts| - 1] == c.disclosures;
    }
    if Parse(Print(c)) == c {
      SplitParts(Print(c), '~');
      var back := Split(Print(c), '~');
      assert |back| > 1 ==> [c.jws] + c.disclosures == back[..|back| - 1];
      assert '~' in Print(c);
    }
  }

  /** Printing undoes parsing, exactly on the strings that contain a tilde. */
  lemma PrintOfParse(s: string)
    ensures Print(Parse(s)) == s <==> '~' in s
    ensures '~' in s ==> WellFormed(Parse(s))
  {
    SplitParts(s, '~');
    var c, parts := Parse(s), Split(s, '~');
    PrintIsJoin(c);
    if '~' in s {
      assert [c.jws] + c.disclosures + [LastPart(c)] == parts;
      assert Free([c.jws] + c.disclosures, '~');
    } else {
      assert '~' in Print(c);
    }
  }

  /** The string has one reading: a well-formed value is what it parses to exactly when it prints back. */
  lemma UniqueReading(s: string, c: Compact)
    requires '~' in s
    ensures Parse(s) == c <==> WellFormed(c) && Print(c) == s
  {
    PrintOfParse(s);
    ParseOfPrint(c);
  }

  /** `s.lastIndexOf("~")`, -1 when there is none. */
  function LastTilde(s: string): (i: int)
    ensures -1 <= i < |s|
  {
    if s == "" then -1
    else if s[|s| - 1] == '~' then |s| - 1
    else LastTilde(s[..|s| - 1])
  }

  /** `presentation.slice(0, presentation.lastIndexOf("~") + 1)`. */
  function HeadOf(s: string): string {
    s[..LastTilde(s) + 1]
  }

  lemma {:induction false} LastTildeIs(s: string, k: nat)
    requires k < |s| && s[k] == '~' && '~' !in s[k + 1..]
    ensures LastTilde(s) == k
  {
    var n := |s| - 1;
    if k < n {
      assert s[n] == s[k + 1..][n - (k + 1)];
      assert s[..n][k + 1..] == s[k + 1..][..n - (k + 1)];
      LastTildeIs(s[..n], k);
    }
  }

  /** The head the verifier cuts off is the head the holder signed: they differ by the KB-JWT only. */
  lemma HeadIsPresentationHead(s: string)
    requires '~' in s
    ensures HeadOf(s) == PresentationHead(Parse(s).jws, Parse(s).disclosures)
    ensures s == HeadOf(s) + LastPart(Parse(s))
  {
    PrintOfParse(s);
    SplitParts(s, '~');
    var c := Parse(s);
    var head, kb := PresentationHead(c.jws, c.disclosures), LastPart(c);
    assert s == head + kb && head[|head| - 1] == '~' && '~' !in kb;
    assert s[..|head|] == head && s[|head|..] == kb;
    LastTildeIs(s, |head| - 1);
  }

  /** Two strings with equal heads carry the same JWS and the same disclosures in the same order. */
  lemma HeadDeterminesDisclosures(s: string, t: string)
    requires '~' in s && '~' in t && HeadOf(s) == HeadOf(t)
    ensures Parse(s).jws == Parse(t).jws && Parse(s).disclosures == Parse(t).disclosures
  {
    HeadIsPresentationHead(s);
    HeadIsPresentationHead(t);
    PrintOfParse(s);
    PrintOfParse(t);
    var c, d := Parse(s), Parse(t);
    var bare := (x: Compact) => Compact(x.jws, x.disclosures, None);
    assert Print(bare(c)) == HeadOf(s) == Print(bare(d));
    ParseOfPrint(bare(c));
    ParseOfPrint(bare(d));
  }
}
