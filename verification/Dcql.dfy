/** Checking a presentation against the query that asked for it. */
module Dcql {
  import opened Basics

  type Path = seq<string>

  function Decimal(n: nat): string
    decreases n
  {
    (if n < 10 then "" else Decimal(n / 10)) + [('0' as int + n % 10) as char]
  }

  /** The element whose canonical decimal index is `key`, among the first `n`. */
  function ElementAt(a: seq<Json>, key: string, n: nat): Option<Json>
    requires n <= |a|
  {
    if n == 0 then None else if Decimal(n - 1) == key then Some(a[n - 1]) else ElementAt(a, key, n - 1)
  }

  /** `cur[key]` on an object or array, without prototype properties; `None` is `undefined`. */
  function Property(cur: Json, key: string): Option<Json> {
    match cur
    case Obj(o) => Get(o, key)
    case Arr(a) => if key == "length" then Some(Num(|a|)) else ElementAt(a, key, |a|)
    case _ => None
  }

  /** The value a path leads to. */
  function Resolve(value: Option<Json>, path: Path): Option<Json>
    decreases |path|
  {
    if path == [] then value
    else if value.None? then None
    else Resolve(Property(value.value, path[0]), path[1..])
  }

  /** The claims of an mdoc, by namespace, as the object that a query is checked against. */
  function AsObject(claims: map<string, map<string, Json>>): Json {
    Obj(map ns | ns in claims :: Obj(claims[ns]))
  }

  predicate Satisfied(value: Option<Json>, path: Path) {
    var end := Resolve(value, path);
    end.Some? && end != Some(Null)
  }

  /** The paths for which `bad` holds, in order, each joined with dots. */
  function Select(paths: seq<Path>, bad: Path -> bool): seq<string> {
    if paths == [] then []
    else
      var rest := Select(paths[..|paths| - 1], bad);
      if bad(paths[|paths| - 1]) then rest + [Join(paths[|paths| - 1], '.')] else rest
  }

  /** What is missing: the requested paths, in request order, that lead to nothing or to null. */
  function Missing(paths: seq<Path>, disclosedClaims: Json): seq<string> {
    Select(paths, p => !Satisfied(Some(disclosedClaims), p))
  }

  lemma {:induction false} ResolveStep(value: Option<Json>, path: Path, n: nat)
    requires n < |path|
    ensures var cur := Resolve(value, path[..n]);
            Resolve(value, path[..n + 1]) == if cur.Some? then Property(cur.value, path[n]) else None
    decreases n
  {
    if n > 0 {
      if value.Some? {
        assert path[..n][1..] == path[1..][..n - 1] && path[..n + 1][1..] == path[1..][..n];
        ResolveStep(Property(value.value, path[0]), path[1..], n - 1);
      }
    } else {
      assert path[..1][1..] == [];
    }
  }

  lemma {:induction false} NothingLeadsToNothing(value: Option<Json>, path: Path, n: nat)
    requires n < |path|
    requires var cur := Resolve(value, path[..n]); cur.None? || !(cur.value.Obj? || cur.value.Arr?)
    ensures Resolve(value, path) == None
    decreases |path| - n
  {
    ResolveStep(value, path, n);
    if n + 1 < |path| {
      NothingLeadsToNothing(value, path, n + 1);
    } else {
      assert path[..n + 1] == path;
    }
  }

  /** `checkDcqlSatisfied`: walk every requested path. */
  method CheckDcqlSatisfied(requestedClaims: seq<Path>, disclosedClaims: Json) returns (missing: seq<string>)
    ensures missing == Missing(requestedClaims, disclosedClaims)
  {
    ghost var bad := (p: Path) => !Satisfied(Some(disclosedClaims), p);
    missing := [];
    for i := 0 to |requestedClaims|
      invariant missing == Select(requestedClaims[..i], bad)
    {
      var path := requestedClaims[i];
      var cur := Some(disclosedClaims);
      var k := 0;
      while k < |path|
        invariant 0 <= k <= |path| && Resolve(Some(disclosedClaims), path[..k]) == cur
      {
        if cur.None? || !(cur.value.Obj? || cur.value.Arr?) {
          NothingLeadsToNothing(Some(disclosedClaims), path, k);
          cur := None;
          break;
        }
        ResolveStep(Some(disclosedClaims), path, k);
        cur := Property(cur.value, path[k]);
        k := k + 1;
      }
      assert path[..|path|] == path;
      assert cur == Resolve(Some(disclosedClaims), path);
      assert requestedClaims[..i + 1][..i] == requestedClaims[..i];
      if cur.None? || cur == Some(Null) {
        missing := missing + [Join(path, '.')];
      }
    }
    assert requestedClaims[..|requestedClaims|] == requestedClaims;
  }

  lemma {:induction false} SelectAgrees(paths: seq<Path>, bad: Path -> bool, bad': Path -> bool)
    requires forall p :: p in paths ==> bad(p) == bad'(p)
    ensures Select(paths, bad) == Select(paths, bad')
  {
    if paths != [] {
      SelectAgrees(paths[..|paths| - 1], bad, bad');
    }
  }

  lemma {:induction false} SelectEmpty(paths: seq<Path>, bad: Path -> bool)
    ensures Select(paths, bad) == [] <==> forall p :: p in paths ==> !bad(p)
  {
    if paths != [] {
      SelectEmpty(paths[..|paths| - 1], bad);
      assert paths == paths[..|paths| - 1] + [paths[|paths| - 1]];
    }
  }

  /** Nothing is missing exactly when every requested path leads to a value that is not null. */
  lemma NothingMissingExactly(paths: seq<Path>, disclosedClaims: Json)
    ensures Missing(paths, disclosedClaims) == [] <==> forall p :: p in paths ==> Satisfied(Some(disclosedClaims), p)
  {
    SelectEmpty(paths, p => !Satisfied(Some(disclosedClaims), p));
  }

  // ----------------------------------------------------- what is missing, and how it is told

  /** The property of a value under a key: a member of an object; of an array its length, or the element whose index the key
      spells in decimal without leading zeros. */
  ghost predicate Holds(cur: Json, key: string, v: Json) {
    match cur
    case Obj(o) => key in o && o[key] == v
    case Arr(a) => if key == "length" then v == Num(|a|) else exists i :: 0 <= i < |a| && Spells(key, i) && v == a[i]
    case _ => false
  }

  /** The digits have this value, and the first is not 0 unless it is the only one. */
  predicate Spells(key: string, n: nat) {
    && key != "" && (forall i :: 0 <= i < |key| ==> '0' <= key[i] <= '9') && (|key| > 1 ==> key[0] != '0')
    && ValueOf(key) == n
  }

  function ValueOf(digits: string): int {
    if digits == "" then 0 else ValueOf(digits[..|digits| - 1]) * 10 + (digits[|digits| - 1] as int - '0' as int)
  }

  lemma {:induction false} DecimalSpells(n: nat)
    ensures Spells(Decimal(n), n) && (n > 0 ==> Decimal(n)[0] != '0')
  {
    if n >= 10 {
      DecimalSpells(n / 10);
      OneMoreDigit(Decimal(n / 10), n / 10, n % 10);
      hide Spells;
    } else {
      var s := Decimal(n);
      assert s == [('0' as int + n) as char] && s[..|s| - 1] == "";
      assert ValueOf(s) == ValueOf("") * 10 + n;
    }
  }

  lemma OneMoreDigit(key: string, n: nat, d: nat)
    requires Spells(key, n) && key[0] != '0' && d < 10
    ensures Spells(key + [('0' as int + d) as char], 10 * n + d)
  {
    var s := key + [('0' as int + d) as char];
    assert s[..|s| - 1] == key;
  }

  /** Nothing else spells it. */
  lemma {:induction false} SpelledIsDecimal(key: string, n: nat)
    requires Spells(key, n)
    ensures key == Decimal(n)
    decreases |key|
  {
    var before, d := key[..|key| - 1], key[|key| - 1] as int - '0' as int;
    assert n == ValueOf(before) * 10 + d && key == before + [key[|key| - 1]];
    if before == "" {
      assert n == d;
    } else {
      PositiveValue(before);
      SpelledIsDecimal(before, ValueOf(before));
      assert n / 10 == ValueOf(before) && n % 10 == d;
    }
  }

  lemma {:induction false} PositiveValue(digits: string)
    requires digits != "" && digits[0] != '0' && forall i :: 0 <= i < |digits| ==> '0' <= digits[i] <= '9'
    ensures ValueOf(digits) > 0
  {
    if |digits| > 1 { PositiveValue(digits[..|digits| - 1]); } else { assert digits[..0] == ""; }
  }

  ghost predicate ElementHolds(a: seq<Json>, key: string, n: nat, v: Json)
    requires n <= |a|
  {
    exists i :: 0 <= i < n && Spells(key, i) && v == a[i]
  }

  lemma {:induction false} ElementSpelled(a: seq<Json>, key: string, n: nat, v: Json)
    requires n <= |a|
    ensures ElementAt(a, key, n) == Some(v) <==> ElementHolds(a, key, n, v)
  {
    hide Spells, Decimal;
    if n > 0 {
      ElementSpelled(a, key, n - 1, v);
      if Decimal(n - 1) == key {
        DecimalSpells(n - 1);
        OnlyElement(a, key, n, v);
      } else if Spells(key, n - 1) {
        SpelledIsDecimal(key, n - 1);
      }
    }
  }

  lemma OnlyElement(a: seq<Json>, key: string, n: nat, v: Json)
    requires 0 < n <= |a| && Spells(key, n - 1)
    ensures ElementHolds(a, key, n, v) <==> v == a[n - 1]
  {
    assert forall i :: Spells(key, i) ==> i == ValueOf(key);
    hide Spells, ValueOf;
  }

  lemma PropertyHolds(cur: Json, key: string)
    ensures forall v :: Property(cur, key) == Some(v) <==> Holds(cur, key, v)
  {
    hide Spells, ElementAt;
    forall v ensures Property(cur, key) == Some(v) <==> Holds(cur, key, v) {
      if cur.Arr? { ElementSpelled(cur.a, key, |cur.a|, v); }
    }
  }

  /** These are the values that the steps of the path lead through, from the first to the last. */
  ghost predicate LeadsThrough(values: seq<Json>, path: Path) {
    |values| == |path| + 1 && forall i :: 0 <= i < |path| ==> Holds(values[i], path[i], values[i + 1])
  }

  lemma {:induction false} ResolvedLeads(value: Json, path: Path)
    ensures forall values :: LeadsThrough(values, path) && values[0] == value ==> Resolve(Some(value), path) == Some(values[|path|])
    ensures var end := Resolve(Some(value), path); end.Some? ==> exists values :: LeadsThrough(values, path) && values[0] == value && values[|path|] == end.value
    decreases |path|
  {
    hide Holds;
    if path == [] {
      assert LeadsThrough([value], path);
    } else {
      PropertyHolds(value, path[0]);
      var next := Property(value, path[0]);
      if next.Some? {
        ResolvedLeads(next.value, path[1..]);
        var end := Resolve(Some(value), path);
        if end.Some? {
          var values :| LeadsThrough(values, path[1..]) && values[0] == next.value && values[|path| - 1] == end.value;
          assert LeadsThrough([value] + values, path);
        }
      }
      forall values | LeadsThrough(values, path) && values[0] == value
        ensures Resolve(Some(value), path) == Some(values[|path|])
      {
        assert Holds(values[0], path[0], values[1]);
        assert LeadsThrough(values[1..], path[1..]) by {
          forall i | 0 <= i < |path| - 1 ensures Holds(values[1..][i], path[1..][i], values[1..][i + 1]) {
            assert Holds(values[i + 1], path[i + 1], values[i + 2]);
          }
        }
      }
    }
  }

  /** A requested path is satisfied exactly when it leads, member by member, to a value that is not null; `false`, 0 and the
      empty string do. */
  lemma SatisfiedExactly(disclosedClaims: Json, path: Path)
    ensures Satisfied(Some(disclosedClaims), path) <==>
            exists values :: LeadsThrough(values, path) && values[0] == disclosedClaims && values[|path|] != Null
  {
    ResolvedLeads(disclosedClaims, path);
    hide Resolve, Holds;
  }

  /** The steps of a path, with a dot before every one but the first. */
  function Dotted(path: Path): string {
    if path == [] then "" else if |path| == 1 then path[0] else Dotted(path[..|path| - 1]) + "." + path[|path| - 1]
  }

  lemma {:induction false} JoinedIsDotted(path: Path)
    ensures Join(path, '.') == Dotted(path)
  {
    if |path| > 1 {
      var before, last := path[..|path| - 1], path[|path| - 1];
      JoinedIsDotted(before);
      JoinLast(before, last, '.');
      assert path == before + [last];
    }
  }

  /** What is told as missing: in request order, the paths that are not satisfied, each once. */
  ghost predicate TellsMissing(paths: seq<Path>, disclosedClaims: Json, missing: seq<string>, at: seq<nat>) {
    && |at| == |missing| && (forall a, b :: 0 <= a < b < |at| ==> at[a] < at[b])
    && (forall a :: 0 <= a < |at| ==> at[a] < |paths| && missing[a] == Dotted(paths[at[a]]))
    && (forall i :: 0 <= i < |paths| ==> (i in at <==> !Satisfied(Some(disclosedClaims), paths[i])))
  }

  lemma MissingIsTold(paths: seq<Path>, disclosedClaims: Json)
    ensures exists at: seq<nat> :: TellsMissing(paths, disclosedClaims, Missing(paths, disclosedClaims), at)
  {
    var at := MissingAt(paths, disclosedClaims);
  }

  lemma {:induction false} MissingAt(paths: seq<Path>, disclosedClaims: Json) returns (at: seq<nat>)
    ensures TellsMissing(paths, disclosedClaims, Missing(paths, disclosedClaims), at)
  {
    hide *;
    if paths == [] {
      at := [];
      NothingToMiss(disclosedClaims);
    } else {
      var before, p := paths[..|paths| - 1], paths[|paths| - 1];
      assert paths == before + [p];
      at := MissingAt(before, disclosedClaims);
      OneMoreTold(before, p, disclosedClaims, Missing(before, disclosedClaims), at);
      OneMoreMissing(before, p, disclosedClaims);
      if !Satisfied(Some(disclosedClaims), p) { at := at + [|before|]; }
    }
  }

  lemma NothingToMiss(disclosedClaims: Json)
    ensures TellsMissing([], disclosedClaims, Missing([], disclosedClaims), [])
  {
  }

  lemma OneMoreMissing(paths: seq<Path>, p: Path, disclosedClaims: Json)
    ensures Missing(paths + [p], disclosedClaims) ==
            if Satisfied(Some(disclosedClaims), p) then Missing(paths, disclosedClaims) else Missing(paths, disclosedClaims) + [Dotted(p)]
  {
    JoinedIsDotted(p);
    assert (paths + [p])[..|paths|] == paths;
    hide Satisfied, Dotted;
    SelectAgrees(paths, q => !Satisfied(Some(disclosedClaims), q), q => !Satisfied(Some(disclosedClaims), q));
  }

  lemma OneMoreTold(paths: seq<Path>, p: Path, disclosedClaims: Json, missing: seq<string>, at: seq<nat>)
    requires TellsMissing(paths, disclosedClaims, missing, at)
    ensures if Satisfied(Some(disclosedClaims), p) then TellsMissing(paths + [p], disclosedClaims, missing, at)
            else TellsMissing(paths + [p], disclosedClaims, missing + [Dotted(p)], at + [|paths|])
  {
    hide Satisfied, Dotted;
    var all, at' := paths + [p], at + [|paths|];
    assert all[|paths|] == p && forall i :: 0 <= i < |paths| ==> all[i] == paths[i];
    assert |paths| !in at && forall i :: i in at' <==> i in at || i == |paths|;
  }
}
