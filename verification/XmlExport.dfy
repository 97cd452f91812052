/** XML escaping of the credential export (sdk/src/export.ts) and its decoder (section 4.6 of XML 1.0). */
module XmlExport {
  import opened Wrappers
  import opened Text

  // & < > " '
  const AMP: CodeUnit := 38
  const LT: CodeUnit := 60
  const GT: CodeUnit := 62
  const QUOT: CodeUnit := 34
  const APOS: CodeUnit := 39

  // &amp; &lt; &gt; &quot; &apos;
  const AMP_REF: Units := [38, 97, 109, 112, 59]
  const LT_REF: Units := [38, 108, 116, 59]
  const GT_REF: Units := [38, 103, 116, 59]
  const QUOT_REF: Units := [38, 113, 117, 111, 116, 59]
  const APOS_REF: Units := [38, 97, 112, 111, 115, 59]

  /** Control characters that XML 1.0 forbids. */
  predicate IsForbidden(u: CodeUnit) {
    u <= 0x08 || u == 0x0B || u == 0x0C || 0x0E <= u <= 0x1F
  }

  function Strip(s: Units): Units {
    if s == [] then [] else (if IsForbidden(s[0]) then [] else [s[0]]) + Strip(s[1..])
  }

  /** The five replacements, in the order of the code. */
  function EscapeChain(value: Units): Units {
    ReplaceAll(
      ReplaceAll(
        ReplaceAll(
          ReplaceAll(
            ReplaceAll(value, AMP, AMP_REF),
            LT, LT_REF),
          GT, GT_REF),
        QUOT, QUOT_REF),
      APOS, APOS_REF)
  }

  function EscapeXml(value: Units): Units {
    Strip(EscapeChain(value))
  }

  function EscapeUnit(u: CodeUnit): Units {
    if u == AMP then AMP_REF
    else if u == LT then LT_REF
    else if u == GT then GT_REF
    else if u == QUOT then QUOT_REF
    else if u == APOS then APOS_REF
    else if IsForbidden(u) then []
    else [u]
  }

  function EscapeOnePass(value: Units): Units {
    if value == [] then [] else EscapeUnit(value[0]) + EscapeOnePass(value[1..])
  }

  lemma StripFirst(s: Units, u: CodeUnit, rest: Units)
    requires s == [u] + rest
    ensures Strip(s) == (if IsForbidden(u) then [] else [u]) + Strip(rest)
  {
    assert s[1..] == rest;
  }

  lemma {:induction false} StripConcat(a: Units, b: Units)
    ensures Strip(a + b) == Strip(a) + Strip(b)
  {
    if a == [] {
      assert a + b == b;
    } else {
      StripConcat(a[1..], b);
      StripFirst(a, a[0], a[1..]);
      StripFirst(a + b, a[0], a[1..] + b);
    }
  }

  lemma EscapeChainConcat(a: Units, b: Units)
    ensures EscapeChain(a + b) == EscapeChain(a) + EscapeChain(b)
  {
    ReplaceAllConcat(a, b, AMP, AMP_REF);
    var a1, b1 := ReplaceAll(a, AMP, AMP_REF), ReplaceAll(b, AMP, AMP_REF);
    ReplaceAllConcat(a1, b1, LT, LT_REF);
    var a2, b2 := ReplaceAll(a1, LT, LT_REF), ReplaceAll(b1, LT, LT_REF);
    ReplaceAllConcat(a2, b2, GT, GT_REF);
    var a3, b3 := ReplaceAll(a2, GT, GT_REF), ReplaceAll(b2, GT, GT_REF);
    ReplaceAllConcat(a3, b3, QUOT, QUOT_REF);
    var a4, b4 := ReplaceAll(a3, QUOT, QUOT_REF), ReplaceAll(b3, QUOT, QUOT_REF);
    ReplaceAllConcat(a4, b4, APOS, APOS_REF);
  }

  /** Later replacements leave alone what an earlier one wrote. */
  lemma RefsSurvive(ref: Units)
    requires LT !in ref && GT !in ref && QUOT !in ref && APOS !in ref
    ensures ReplaceAll(ref, LT, LT_REF) == ref && ReplaceAll(ref, GT, GT_REF) == ref
    ensures ReplaceAll(ref, QUOT, QUOT_REF) == ref && ReplaceAll(ref, APOS, APOS_REF) == ref
  {
    ReplaceAllAbsent(ref, LT, LT_REF);
    ReplaceAllAbsent(ref, GT, GT_REF);
    ReplaceAllAbsent(ref, QUOT, QUOT_REF);
    ReplaceAllAbsent(ref, APOS, APOS_REF);
  }

  lemma EscapeChainOfAmp()
    ensures EscapeChain([AMP]) == AMP_REF
  {
    ReplaceAllOne(AMP, AMP, AMP_REF);
    RefsSurvive(AMP_REF);
  }

  lemma EscapeChainOfLt()
    ensures EscapeChain([LT]) == LT_REF
  {
    ReplaceAllOne(LT, AMP, AMP_REF);
    ReplaceAllOne(LT, LT, LT_REF);
    RefsSurvive(LT_REF);
  }

  lemma EscapeChainOfGt()
    ensures EscapeChain([GT]) == GT_REF
  {
    ReplaceAllOne(GT, AMP, AMP_REF);
    ReplaceAllOne(GT, LT, LT_REF);
    ReplaceAllOne(GT, GT, GT_REF);
    RefsSurvive(GT_REF);
  }

  lemma EscapeChainOfOther(u: CodeUnit)
    requires u != AMP && u != LT && u != GT
    ensures EscapeChain([u]) == if u == QUOT then QUOT_REF else if u == APOS then APOS_REF else [u]
  {
    ReplaceAllOne(u, AMP, AMP_REF);
    ReplaceAllOne(u, LT, LT_REF);
    ReplaceAllOne(u, GT, GT_REF);
    ReplaceAllOne(u, QUOT, QUOT_REF);
    ReplaceAllOne(u, APOS, APOS_REF);
    RefsSurvive(QUOT_REF);
  }

  lemma EscapeChainOne(u: CodeUnit)
    ensures EscapeChain([u]) == if IsForbidden(u) then [u] else EscapeUnit(u)
  {
    if u == AMP {
      EscapeChainOfAmp();
    } else if u == LT {
      EscapeChainOfLt();
    } else if u == GT {
      EscapeChainOfGt();
    } else {
      EscapeChainOfOther(u);
    }
  }

  predicate NoForbidden(s: Units) {
    forall i :: 0 <= i < |s| ==> !IsForbidden(s[i])
  }

  lemma {:induction false} StripClean(s: Units)
    requires NoForbidden(s)
    ensures Strip(s) == s
  {
    if s != [] {
      StripClean(s[1..]);
    }
  }

  lemma StripOne(u: CodeUnit)
    ensures Strip(EscapeChain([u])) == EscapeUnit(u)
  {
    EscapeChainOne(u);
    if IsForbidden(u) {
      assert Strip([u][1..]) == [];
    } else {
      StripClean(EscapeUnit(u));
    }
  }

  /** The chained replacements and the stripping are one pass, character by character. */
  lemma {:induction false} ChainIsOnePass(value: Units)
    ensures EscapeXml(value) == EscapeOnePass(value)
  {
    if value == [] {
      assert EscapeChain([]) == [];
    } else {
      var first, rest := [value[0]], value[1..];
      assert value == first + rest;
      EscapeChainConcat(first, rest);
      StripConcat(EscapeChain(first), EscapeChain(rest));
      StripOne(value[0]);
      ChainIsOnePass(rest);
    }
  }

  /** Exactly the control characters other than tab, line feed and carriage return are taken out. */
  lemma StripIs(a: Units, u: CodeUnit, b: Units)
    ensures Strip([]) == []
    ensures Strip(a + [u] + b) == Strip(a) + (if u < 0x20 && u != 9 && u != 10 && u != 13 then [] else [u]) + Strip(b)
  {
    StripConcat(a + [u], b);
    StripConcat(a, [u]);
    assert [u][1..] == [];
  }

  /** The units of an ASCII text. */
  function Ascii(s: string): Units
    requires forall i :: 0 <= i < |s| ==> s[i] <= '~'
  {
    seq(|s|, i requires 0 <= i < |s| => s[i] as int)
  }

  /** What is written for one unit. */
  function Written(u: CodeUnit): Units {
    if u == 0x26 then Ascii("&amp;")
    else if u == 0x3C then Ascii("&lt;")
    else if u == 0x3E then Ascii("&gt;")
    else if u == 0x22 then Ascii("&quot;")
    else if u == 0x27 then Ascii("&apos;")
    else if u < 0x20 && u != 9 && u != 10 && u != 13 then []
    else [u]
  }

  lemma WrittenIsEscaped(u: CodeUnit)
    ensures Written(u) == EscapeUnit(u)
  {
    if u == QUOT {
      assert Ascii("&quot;") == QUOT_REF;
    } else if u == APOS {
      assert Ascii("&apos;") == APOS_REF;
    } else if u == AMP {
      assert Ascii("&amp;") == AMP_REF;
    }
  }

  /** So it is written wherever it stands. */
  lemma UnitIsWritten(a: Units, u: CodeUnit, b: Units)
    ensures EscapeXml([]) == []
    ensures EscapeXml(a + [u] + b) == EscapeXml(a) + Written(u) + EscapeXml(b)
  {
    EscapeChainConcat(a + [u], b);
    EscapeChainConcat(a, [u]);
    StripConcat(EscapeChain(a) + EscapeChain([u]), EscapeChain(b));
    StripConcat(EscapeChain(a), EscapeChain([u]));
    StripOne(u);
    WrittenIsEscaped(u);
    ChainIsOnePass([]);
  }

  // ---- Decoding ----

  function Prepend(u: CodeUnit, r: Option<Units>): Option<Units> {
    if r.Some? then Some([u] + r.value) else None
  }

  /** Character data with its predefined entities decoded; markup and other references are not data. */
  function DecodeXml(s: Units): Option<Units> {
    if s == [] then Some([])
    else if s[0] == LT then None
    else if s[0] != AMP then Prepend(s[0], DecodeXml(s[1..]))
    else if StartsWith(s, AMP_REF) then Prepend(AMP, DecodeXml(s[5..]))
    else if StartsWith(s, LT_REF) then Prepend(LT, DecodeXml(s[4..]))
    else if StartsWith(s, GT_REF) then Prepend(GT, DecodeXml(s[4..]))
    else if StartsWith(s, QUOT_REF) then Prepend(QUOT, DecodeXml(s[6..]))
    else if StartsWith(s, APOS_REF) then Prepend(APOS, DecodeXml(s[6..]))
    else None
  }

  lemma PrefixAt(s: Units, prefix: Units, i: nat)
    requires i < |prefix| && i < |s| && s[i] != prefix[i]
    ensures !StartsWith(s, prefix)
  {
    assert |prefix| <= |s| ==> s[..|prefix|][i] == s[i];
  }

  lemma DecodeUnit(u: CodeUnit, rest: Units)
    requires !IsForbidden(u)
    ensures DecodeXml(EscapeUnit(u) + rest) == Prepend(u, DecodeXml(rest))
  {
    var ref := EscapeUnit(u);
    var s := ref + rest;
    assert s[|ref|..] == rest;
    StartsWithConcat(ref, rest);
    assert s[0] == ref[0];
    if u == LT {
      PrefixAt(s, AMP_REF, 1);
    } else if u == GT {
      PrefixAt(s, AMP_REF, 1);
      PrefixAt(s, LT_REF, 1);
    } else if u == QUOT {
      PrefixAt(s, AMP_REF, 1);
      PrefixAt(s, LT_REF, 1);
      PrefixAt(s, GT_REF, 1);
    } else if u == APOS {
      PrefixAt(s, AMP_REF, 2);
      PrefixAt(s, LT_REF, 1);
      PrefixAt(s, GT_REF, 1);
      PrefixAt(s, QUOT_REF, 1);
    }
  }

  /** Decoding an escaped text gives the text back, without the characters XML forbids. */
  lemma {:induction false} XmlRoundTrip(value: Units)
    ensures DecodeXml(EscapeXml(value)) == Some(Strip(value))
  {
    ChainIsOnePass(value);
    if value != [] {
      var rest := value[1..];
      XmlRoundTrip(rest);
      ChainIsOnePass(rest);
      if IsForbidden(value[0]) {
        assert EscapeOnePass(value) == EscapeOnePass(rest);
        assert Strip(value) == Strip(rest);
      } else {
        DecodeUnit(value[0], EscapeOnePass(rest));
      }
    }
  }
}
