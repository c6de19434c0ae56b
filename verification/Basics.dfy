/** Vocabulary shared by every component: optional values, JSON values and string splitting. */
module Basics {

  datatype Option<+T> = None | Some(value: T)

  /** A parsed JSON value. A property that is absent (`undefined`) is `None` at the place of use. */
  datatype Json =
    | Null
    | Bool(b: bool)
    | Num(n: int)
    | Str(s: string)
    | Arr(a: seq<Json>)
    | Obj(o: map<string, Json>)

  /** The value of `o[key]` on an object without prototype properties. */
  function Get<V>(o: map<string, V>, key: string): Option<V> {
    if key in o then Some(o[key]) else None
  }

  /** `v?.[name]` on a value that may be absent or not an object. */
  function Field(v: Option<Json>, name: string): Option<Json> {
    match v
    case Some(Obj(o)) => Get(o, name)
    case _ => None
  }

  /** JavaScript truthiness of a possibly absent property. */
  predicate Truthy(v: Option<Json>) {
    match v
    case None => false
    case Some(Null) => false
    case Some(Bool(b)) => b
    case Some(Num(n)) => n != 0
    case Some(Str(s)) => s != ""
    case Some(_) => true
  }

  const TWO_31 := 0x8000_0000
  const TWO_32 := 0x1_0000_0000

  /** JavaScript bit operators first convert a number to 32-bit two's complement. */
  function ToInt32(x: int): int {
    if x % TWO_32 < TWO_31 then x % TWO_32 else x % TWO_32 - TWO_32
  }

  /** `s.split(sep)` for a one-character separator. */
  function Split(s: string, sep: char): (parts: seq<string>)
    ensures |parts| >= 1
  {
    if s == "" then [""]
    else if s[0] == sep then [""] + Split(s[1..], sep)
    else
      var rest := Split(s[1..], sep);
      [[s[0]] + rest[0]] + rest[1..]
  }

  /** `parts.join(sep)` for a one-character separator. */
  function Join(parts: seq<string>, sep: char): string {
    if parts == [] then ""
    else if |parts| == 1 then parts[0]
    else parts[0] + [sep] + Join(parts[1..], sep)
  }

  ghost predicate Free(parts: seq<string>, sep: char) {
    forall i :: 0 <= i < |parts| ==> sep !in parts[i]
  }

  lemma {:induction false} SplitParts(s: string, sep: char)
    ensures Join(Split(s, sep), sep) == s
    ensures Free(Split(s, sep), sep)
    ensures |Split(s, sep)| == 1 <==> sep !in s
  {
    if s != "" {
      SplitParts(s[1..], sep);
      var rest := Split(s[1..], sep);
      if s[0] == sep {
        assert Split(s, sep)[1..] == rest;
        assert s == [s[0]] + s[1..];
      } else {
        var parts := Split(s, sep);
        assert parts[1..] == rest[1..];
        assert s == [s[0]] + s[1..];
        if |rest| > 1 {
          assert Join(rest, sep) == rest[0] + [sep] + Join(rest[1..], sep);
          assert parts[0] + [sep] + Join(parts[1..], sep) == [s[0]] + Join(rest, sep);
        }
      }
    }
  }

  /** Prepending a separator-free word to a string prepends it to the first part. */
  lemma {:induction false} SplitAfterWord(word: string, s: string, sep: char)
    requires sep !in word
    ensures var parts := Split(s, sep); Split(word + s, sep) == [word + parts[0]] + parts[1..]
  {
    if word == "" {
      assert word + s == s;
      assert word + Split(s, sep)[0] == Split(s, sep)[0];
    } else {
      assert (word + s)[1..] == word[1..] + s;
      SplitAfterWord(word[1..], s, sep);
      assert [word[0]] + (word[1..] + Split(s, sep)[0]) == word + Split(s, sep)[0];
    }
  }

  lemma {:induction false} SplitOfJoin(parts: seq<string>, sep: char)
    requires parts != [] && Free(parts, sep)
    ensures Split(Join(parts, sep), sep) == parts
  {
    if |parts| == 1 {
      SplitAfterWord(parts[0], "", sep);
      assert parts[0] + "" == parts[0];
      assert parts == [parts[0]];
    } else {
      var rest := [sep] + Join(parts[1..], sep);
      assert rest[1..] == Join(parts[1..], sep);
      assert forall i :: 0 <= i < |parts[1..]| ==> parts[1..][i] == parts[i + 1];
      SplitOfJoin(parts[1..], sep);
      SplitAfterWord(parts[0], rest, sep);
      assert parts[0] + rest == parts[0] + [sep] + Join(parts[1..], sep);
      assert Split(rest, sep) == [""] + parts[1..];
      assert parts[0] + "" == parts[0];
      assert Join(parts, sep) == parts[0] + rest;
    }
  }

  lemma {:induction false} JoinLast(parts: seq<string>, last: string, sep: char)
    requires parts != []
    ensures Join(parts + [last], sep) == Join(parts, sep) + [sep] + last
  {
    var all := parts + [last];
    assert all[1..] == parts[1..] + [last];
    if |parts| > 1 {
      JoinLast(parts[1..], last, sep);
    }
  }
}
