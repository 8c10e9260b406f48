/** What the strings that are valid look like (src/bech32.cpp; BIP 173, section "Bech32", and BIP 350, section "Bech32m"). */
module Bech32Strings {
  import opened Bech32Model
  import opened Bech32Poly

  // ---------------------------------------------------------------- the prefix

  lemma WordValue(x: nat)
    requires x < 32
    ensures WordOf(x) as int == x
  {
  }

  /** A prefix of bytes expands to the high three bits of each, a zero, and the low five bits of each. */
  lemma ExpansionIs(hrp: string, i: nat)
    requires i < |hrp| && hrp[i] < 256 as char
    ensures var r := ExpandHrp(hrp);
            && |r| == 2 * |hrp| + 1 && r[|hrp|] == 0
            && r[|hrp| + 1 + i] as int < 32 && 32 * (r[i] as int) + (r[|hrp| + 1 + i] as int) == hrp[i] as int
  {
    hide WordOf;
    WordValue(hrp[i] as int / 32);
    WordValue(hrp[i] as int % 32);
  }

  lemma ExpansionSymbols(hrp: string)
    ensures Symbols(ExpandHrp(hrp))
  {
    hide WordOf;
    forall c: char ensures Symbol(HighBits(c)) && Symbol(LowBits(c)) {
      WordSymbol(c as int / 32);
      WordSymbol(c as int % 32);
    }
  }

  lemma WordSymbol(x: nat)
    ensures Symbol(WordOf(x))
  {
  }

  // ---------------------------------------------------------------- the checksum

  /** The remainder of a message that is valid under the encoding. */
  function Residue(e: Encoding): Poly
    requires e != Invalid
  {
    if e == Bech32 then [0, 0, 0, 0, 0, 1] else [21, 28, 16, 12, 5, 3]
  }

  lemma ResidueIs(e: Encoding)
    requires e != Invalid
    ensures Groups(Constant(e)) == Residue(e) && Small(Constant(e))
  {
  }

  /** Prefix and symbols verify just when their polynomial leaves the encoding's residue when divided by the generator. */
  lemma VerifiedIff(hrp: string, values: Poly, e: Encoding)
    requires Symbols(values) && e != Invalid
    ensures Verified(hrp, values) == e <==> exists q :: Divides(Message(ExpandHrp(hrp) + values), q, Residue(e))
  {
    hide Divides, Groups, Fold, Message, Symbols, ExpandHrp, Residue;
    var v := ExpandHrp(hrp) + values;
    ExpansionSymbols(hrp);
    SymbolsAppend(ExpandHrp(hrp), values);
    SymbolsSmall(v);
    FoldSmall(1, v);
    ResidueIs(e);
    var q := PolyModIsRemainder(v);
    PackGroups(PolyMod(v));
    PackGroups(Constant(e));
    ConstantFacts(e);
    forall other | Divides(Message(v), other, Residue(e)) ensures PolyMod(v) == Constant(e) {
      RemainderUnique(Message(v), q, Groups(PolyMod(v)), other, Residue(e));
    }
  }

  // ---------------------------------------------------------------- characters

  const CHARSET := "qpzry9x8gf2tvdw0s3jn54khce6mua7l"

  lemma Charset0(i: nat)
    requires i < 8
    ensures CharOf(WordOf(i)) == CHARSET[i]
  {
  }

  lemma Charset1(i: nat)
    requires 8 <= i < 16
    ensures CharOf(WordOf(i)) == CHARSET[i]
  {
  }

  lemma Charset2(i: nat)
    requires 16 <= i < 20
    ensures CharOf(WordOf(i)) == CHARSET[i]
  {
  }

  lemma Charset3(i: nat)
    requires 20 <= i < 24
    ensures CharOf(WordOf(i)) == CHARSET[i]
  {
  }

  lemma Charset4(i: nat)
    requires 24 <= i < 28
    ensures CharOf(WordOf(i)) == CHARSET[i]
  {
  }

  lemma Charset5(i: nat)
    requires 28 <= i < 32
    ensures CharOf(WordOf(i)) == CHARSET[i]
  {
  }

  /** The characters of the symbols, in order. */
  lemma CharsetIs(v: Word)
    requires Symbol(v)
    ensures CharOf(v) == CHARSET[v as int]
  {
    hide CharOf, WordOf;
    WordValue(v as int);
    SameWord(v);
    var i := v as int;
    if i < 8 { Charset0(i); } else if i < 16 { Charset1(i); } else if i < 20 { Charset2(i); } else if i < 24 { Charset3(i); }
    else if i < 28 { Charset4(i); } else { Charset5(i); }
  }

  lemma SameWord(v: Word)
    requires Symbol(v)
    ensures WordOf(v as int) == v
  {
  }

  /** An encoding of symbols is the prefix, the separator, their characters and six more; of anything else it is empty. */
  lemma EncodedSpells(hrp: string, v: Poly, e: Encoding)
    ensures var s := Encoded(hrp, v, e);
            if e == Invalid || exists i :: 0 <= i < |v| && v[i] >= 32 then s == ""
            else |s| == |hrp| + 7 + |v| && s[..|hrp| + 1] == hrp + "1"
                 && forall i :: 0 <= i < |v| ==> v[i] as int < 32 && s[|hrp| + 1 + i] == CHARSET[v[i] as int]
  {
    hide CharOf, Checksum;
    var r := Checksum(hrp, v, e);
    ChecksumSymbols(hrp, v, e);
    SymbolsAppend(v, r);
    if e != Invalid && Symbols(v) {
      var s := Encoded(hrp, v, e);
      assert s[..|hrp| + 1] == hrp + "1";
      forall i | 0 <= i < |v| ensures v[i] as int < 32 && s[|hrp| + 1 + i] == CHARSET[v[i] as int] {
        CharsetIs(v[i]);
        assert (v + r)[i] == v[i];
      }
    }
  }

  lemma RevIgnoresCase(c: char)
    ensures RevOf(Lower(c)) == RevOf(c)
  {
    hide RevOf;
    if 'A' <= c <= 'F' { SameRev0(c); } else if 'F' < c <= 'L' { SameRev1(c); } else if 'L' < c <= 'R' { SameRev2(c); }
    else if 'R' < c <= 'Z' { SameRev3(c); }
  }

  lemma SameRev0(c: char)
    requires 'A' <= c <= 'F'
    ensures RevOf(Lower(c)) == RevOf(c)
  {
  }

  lemma SameRev1(c: char)
    requires 'F' < c <= 'L'
    ensures RevOf(Lower(c)) == RevOf(c)
  {
  }

  lemma SameRev2(c: char)
    requires 'L' < c <= 'R'
    ensures RevOf(Lower(c)) == RevOf(c)
  {
  }

  lemma SameRev3(c: char)
    requires 'R' < c <= 'Z'
    ensures RevOf(Lower(c)) == RevOf(c)
  {
  }

  // ---------------------------------------------------------------- decoding

  lemma LowerFacts(s: string)
    ensures |LowerAll(s)| == |s| && LowerAll(LowerAll(s)) == LowerAll(s) && LastOne(LowerAll(s)) == LastOne(s)
    ensures WellCased(s) ==> WellCased(LowerAll(s))
  {
    hide LastOne;
    var t, pos := LowerAll(s), LastOne(s);
    LastOneOf(s);
    LastOneOf(t);
    assert forall i :: 0 <= i < |s| ==> (t[i] == '1' <==> s[i] == '1');
    if pos >= 0 { LastOneAt(t, pos); }
  }

  lemma LastOneOf(s: string)
    ensures var pos := LastOne(s); -1 <= pos < |s| && (pos >= 0 ==> s[pos] == '1') && forall i :: pos < i < |s| ==> s[i] != '1'
  {
    hide LastOne;
  }

  lemma RevsLower(s: string)
    ensures Revs(LowerAll(s)) == Revs(s)
  {
    hide RevOf;
    forall i | 0 <= i < |s| ensures RevOf(Lower(s[i])) == RevOf(s[i]) { RevIgnoresCase(s[i]); }
  }

  lemma LowerSlice(s: string, i: nat, j: nat)
    requires i <= j <= |s|
    ensures LowerAll(s)[i..j] == LowerAll(s[i..j])
  {
  }

  /** A string that is not of mixed case decodes to the same in lower case. */
  lemma DecodeIgnoresCase(s: string)
    requires WellCased(s)
    ensures Decode(LowerAll(s)) == Decode(s)
  {
    hide LastOne, RevOf, Revs, LowerAll, WellCased, Verified;
    var t, pos := LowerAll(s), LastOne(s);
    LowerFacts(s);
    if 0 <= pos {
      LowerSlice(s, 0, pos);
      LowerSlice(s, pos + 1, |s|);
      LowerFacts(s[..pos]);
      RevsLower(s[pos + 1..]);
      assert s[0..pos] == s[..pos] && t[0..pos] == t[..pos] && s[pos + 1..|s|] == s[pos + 1..] && t[pos + 1..|t|] == t[pos + 1..];
      forall i | pos < i < |s| ensures RevOf(t[i]) == RevOf(s[i]) { LowerAt(s, i); RevIgnoresCase(s[i]); }
    }
  }

  lemma LowerAt(s: string, i: nat)
    requires i < |s|
    ensures |LowerAll(s)| == |s| && LowerAll(s)[i] == Lower(s[i])
  {
  }

  /** Printable characters, with capital letters or small ones but not both. */
  predicate OneCase(s: string) {
    && (forall i :: 0 <= i < |s| ==> 33 <= s[i] as int <= 126)
    && ((forall i :: 0 <= i < |s| ==> !('a' <= s[i] <= 'z')) || forall i :: 0 <= i < |s| ==> !('A' <= s[i] <= 'Z'))
  }

  lemma OneCaseIs(s: string)
    ensures OneCase(s) <==> WellCased(s)
  {
  }

  /** Just the strings of at most 1023 characters decode that are not of mixed case and in lower case encode something. */
  lemma DecodeIff(s: string, d: Decoded)
    requires d.encoding != Invalid
    ensures Decode(s) == d <==>
            && OneCase(s) && |s| <= 1023 && GoodPrefix(d.hrp) && Symbols(d.data)
            && LowerAll(s) == Encoded(d.hrp, d.data, d.encoding)
  {
    hide LowerAll, WellCased, OneCase, Encoded, Symbols, GoodPrefix, Decode;
    OneCaseIs(s);
    if Decode(s) == d {
      EncodeDecode(s);
      DecodedIsGood(s);
    } else if WellCased(s) && |s| <= 1023 && GoodPrefix(d.hrp) && Symbols(d.data)
              && LowerAll(s) == Encoded(d.hrp, d.data, d.encoding) {
      LowerFacts(s);
      EncodedLength(d.hrp, d.data, d.encoding);
      DecodeEncode(d.hrp, d.data, d.encoding);
      DecodeIgnoresCase(s);
    }
  }

  lemma EncodedLength(hrp: string, v: Poly, e: Encoding)
    requires e != Invalid && Symbols(v)
    ensures |Encoded(hrp, v, e)| == |hrp| + 7 + |v|
  {
    hide Checksum, CharOf, Symbols;
    ChecksumSymbols(hrp, v, e);
    SymbolsAppend(v, Checksum(hrp, v, e));
  }

  lemma DecodedIsGood(s: string)
    requires Decode(s).encoding != Invalid
    ensures WellCased(s) && |s| <= 1023 && GoodPrefix(Decode(s).hrp) && Symbols(Decode(s).data)
  {
    hide RevOf, Verified, Revs, Symbols, LastOne;
    var pos := LastOne(s);
    assert Framed(s);
    RevsFacts(s[pos + 1..]);
    SymbolsFront(Revs(s[pos + 1..]));
  }

  lemma SymbolsFront(v: Poly)
    requires Symbols(v)
    ensures |v| >= 6 ==> Symbols(v[..|v| - 6])
  {
  }

  // ---------------------------------------------------------------- the shortest strings of BIP 173 and BIP 350

  lemma FoldOfA()
    ensures Fold(1, [3, 0, 1, 0, 0, 0, 0, 0, 0]) == 0x15cc_fe9e
  {
    hide Step;
    StepsOfA();
    var v := [3, 0, 1, 0, 0, 0, 0, 0, 0];
    FoldOne(1, v);
    FoldOne(0x23, v[1..]);
    FoldOne(0x460, v[1..][1..]);
    FoldSix(0x8c01, v[1..][1..][1..]);
  }

  lemma StepsOfA()
    ensures Step(1, 3) == 0x23 && Step(0x23, 0) == 0x460 && Step(0x460, 1) == 0x8c01
    ensures Step(0x8c01, 0) == 0x11_8020 && Step(0x11_8020, 0) == 0x230_0400 && Step(0x230_0400, 0) == 0x3d6a_d7b2
    ensures Step(0x3d6a_d7b2, 0) == 0x02fd_30b9 && Step(0x02fd_30b9, 0) == 0x24cc_4092 && Step(0x24cc_4092, 0) == 0x15cc_fe9e
  {
  }

  lemma ExpansionOfA()
    ensures ExpandHrp("a") == [3, 0, 1]
  {
  }

  /** The prefix "a" without data. */
  lemma ShortestStrings()
    ensures Encoded("a", [], Bech32) == "a12uel5l" && Encoded("a", [], Bech32m) == "a1lqfn3a"
  {
    hide Fold, CharOf, Groups, Checksum;
    ChecksumsOfA();
    assert Symbols([10, 28, 25, 31, 20, 31]) && Symbols([31, 0, 9, 19, 17, 29]);
    LettersOfA();
    assert [] + Checksum("a", [], Bech32) == [10, 28, 25, 31, 20, 31];
    assert [] + Checksum("a", [], Bech32m) == [31, 0, 9, 19, 17, 29];
    assert Chars([10, 28, 25, 31, 20, 31]) == "2uel5l" && Chars([31, 0, 9, 19, 17, 29]) == "lqfn3a";
    assert "a" + "1" + "2uel5l" == "a12uel5l" && "a" + "1" + "lqfn3a" == "a1lqfn3a";
  }

  lemma LettersOfA()
    ensures CharOf(10) == '2' && CharOf(28) == 'u' && CharOf(25) == 'e' && CharOf(31) == 'l' && CharOf(20) == '5'
    ensures CharOf(0) == 'q' && CharOf(9) == 'f' && CharOf(19) == 'n' && CharOf(17) == '3' && CharOf(29) == 'a'
  {
  }

  lemma ChecksumsOfA()
    ensures Checksum("a", [], Bech32) == [10, 28, 25, 31, 20, 31] && Checksum("a", [], Bech32m) == [31, 0, 9, 19, 17, 29]
  {
    hide Fold, Groups;
    FoldOfA();
    ExpansionOfA();
    assert ExpandHrp("a") + [] + ZEROS == [3, 0, 1, 0, 0, 0, 0, 0, 0];
    GroupsOfA();
  }

  lemma GroupsOfA()
    ensures Groups(X(0x15cc_fe9e, 1)) == [10, 28, 25, 31, 20, 31] && Groups(X(0x15cc_fe9e, 0x2bc8_30a3)) == [31, 0, 9, 19, 17, 29]
  {
  }
}
