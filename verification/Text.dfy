/** JavaScript strings as sequences of UTF-16 code units, and the string functions the printers use. */
module Text {

  type CodeUnit = u: int | 0 <= u < 0x10000

  type Units = seq<CodeUnit>

  /** `s.replace(/c/g, rep)` for a single character c. */
  function ReplaceAll(s: Units, c: CodeUnit, rep: Units): Units {
    if s == [] then [] else (if s[0] == c then rep else [s[0]]) + ReplaceAll(s[1..], c, rep)
  }

  lemma Assoc<T>(a: seq<T>, b: seq<T>, c: seq<T>)
    ensures a + b + c == a + (b + c)
  {
  }

  lemma ReplaceAllFirst(s: Units, c: CodeUnit, rep: Units, u: CodeUnit, rest: Units)
    requires s == [u] + rest
    ensures ReplaceAll(s, c, rep) == (if u == c then rep else [u]) + ReplaceAll(rest, c, rep)
  {
    assert s[1..] == rest;
  }

  lemma {:induction false} ReplaceAllConcat(a: Units, b: Units, c: CodeUnit, rep: Units)
    ensures ReplaceAll(a + b, c, rep) == ReplaceAll(a, c, rep) + ReplaceAll(b, c, rep)
  {
    if a == [] {
      assert a + b == b;
    } else {
      var u, rest := a[0], a[1..];
      ReplaceAllConcat(rest, b, c, rep);
      ReplaceAllFirst(a, c, rep, u, rest);
      ReplaceAllFirst(a + b, c, rep, u, rest + b);
      Assoc(if u == c then rep else [u], ReplaceAll(rest, c, rep), ReplaceAll(b, c, rep));
    }
  }

  lemma ReplaceAllOne(u: CodeUnit, c: CodeUnit, rep: Units)
    ensures ReplaceAll([u], c, rep) == if u == c then rep else [u]
  {
    assert ReplaceAll([u][1..], c, rep) == [];
  }

  lemma {:induction false} ReplaceAllAbsent(s: Units, c: CodeUnit, rep: Units)
    requires c !in s
    ensures ReplaceAll(s, c, rep) == s
  {
    if s != [] {
      ReplaceAllAbsent(s[1..], c, rep);
    }
  }

  predicate StartsWith<T(==)>(s: seq<T>, prefix: seq<T>) {
    |prefix| <= |s| && s[..|prefix|] == prefix
  }

  lemma StartsWithConcat<T>(prefix: seq<T>, rest: seq<T>)
    ensures StartsWith(prefix + rest, prefix) && (prefix + rest)[|prefix|..] == rest
  {
  }
}
