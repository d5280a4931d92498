/** Small value types and string operations shared by the models. */
module Common {

  datatype Option<+T> = None | Some(value: T)

  datatype Result<+T, +E> = Ok(value: T) | Err(error: E)

  // ASCII lower-casing, as str.lower() acts on hex strings and identifiers.
  function LowerChar(c: char): (r: char)
    ensures !('A' <= r <= 'Z') && (r == c || ('A' <= c <= 'Z' && r as int - 'a' as int == c as int - 'A' as int))
  {
    if 'A' <= c <= 'Z' then (c as int + 32) as char else c
  }

  function Lower(s: string): (r: string)
    ensures |r| == |s|
    ensures forall i :: 0 <= i < |s| ==> r[i] == LowerChar(s[i])
  {
    seq(|s|, i requires 0 <= i < |s| => LowerChar(s[i]))
  }

  lemma LowerIdempotent(s: string)
    ensures Lower(Lower(s)) == Lower(s)
  {
    assert forall i :: 0 <= i < |s| ==> Lower(Lower(s))[i] == Lower(s)[i];
  }

  // str.upper() on ASCII letters.
  function Upper(s: string): (r: string)
    ensures |r| == |s|
    ensures forall i :: 0 <= i < |s| ==> !('a' <= r[i] <= 'z') && LowerChar(r[i]) == LowerChar(s[i])
  {
    seq(|s|, i requires 0 <= i < |s| => if 'a' <= s[i] <= 'z' then (s[i] as int - 32) as char else s[i])
  }

  predicate StartsWith(s: string, prefix: string) {
    prefix <= s
  }

  predicate EndsWith(s: string, suffix: string) {
    |suffix| <= |s| && s[|s| - |suffix|..] == suffix
  }

  predicate Contains(s: string, part: string) {
    StartsWith(s, part) || (s != [] && Contains(s[1..], part))
  }

  lemma {:induction false} ContainsMeaning(s: string, part: string)
    ensures Contains(s, part) <==> exists before, after :: s == before + part + after
  {
    if StartsWith(s, part) {
      assert s == [] + part + s[|part|..];
    } else if s != [] {
      ContainsMeaning(s[1..], part);
      if Contains(s[1..], part) {
        var before, after :| s[1..] == before + part + after;
        assert s == ([s[0]] + before) + part + after;
      }
      forall before, after | s == before + part + after ensures Contains(s[1..], part) {
        assert before == [] ==> StartsWith(s, part);
        assert s[1..] == before[1..] + part + after;
      }
    }
  }

  function Max(a: int, b: int): int { if a < b then b else a }

  function Min(a: int, b: int): int { if a < b then a else b }

  // A sequence read backwards, as list.reverse() leaves it.
  function Reverse<T>(s: seq<T>): (r: seq<T>)
    ensures |r| == |s|
    ensures forall i :: 0 <= i < |s| ==> r[i] == s[|s| - 1 - i]
  {
    if s == [] then [] else [s[|s| - 1]] + Reverse(s[..|s| - 1])
  }

  lemma ConcatAssociates<T>(a: seq<T>, b: seq<T>, c: seq<T>)
    ensures (a + b) + c == a + (b + c)
  {
  }
}
