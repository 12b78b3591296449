/** Where the currency words and the conjunction appear in the words for an
    amount: "Dirhams" names the dirhams (or the zero amount), and " and "
    joins dirhams to fils only when both are present. */
module AmountPhrases {
  import opened Text
  import opened AmountInWords

  /** Every space is followed by a capital letter: the words are separated
      by single spaces and each starts with a capital. */
  predicate Spaced(w: string) {
    forall i :: 0 <= i < |w| && w[i] == ' ' ==> i + 1 < |w| && 'A' <= w[i + 1] <= 'Z'
  }

  /** A non-empty spaced string that starts with a capital letter. */
  predicate Capped(w: string) {
    w != [] && 'A' <= w[0] <= 'Z' && Spaced(w)
  }

  lemma SpacedConcat(a: string, b: string)
    requires Spaced(a) && Spaced(b)
    ensures Spaced(a + b)
  {
    var s := a + b;
    forall i | 0 <= i < |s| && s[i] == ' '
      ensures i + 1 < |s| && 'A' <= s[i + 1] <= 'Z'
    {
      if i < |a| {
        assert s[i] == a[i];
        assert s[i + 1] == a[i + 1];
      } else {
        assert s[i] == b[i - |a|];
        assert s[i + 1] == b[i - |a| + 1];
      }
    }
  }

  /** A space in front of a capitalised, spaced string keeps it spaced. */
  lemma SpaceBefore(w: string)
    requires Capped(w)
    ensures Spaced(" " + w)
  {
    var s := " " + w;
    forall i | 0 <= i < |s| && s[i] == ' '
      ensures i + 1 < |s| && 'A' <= s[i + 1] <= 'Z'
    {
      if i > 0 {
        assert s[i] == w[i - 1];
        assert s[i + 1] == w[i];
      }
    }
  }

  /** A label: a space, then one capitalised word. */
  lemma Label(w: string)
    requires w != [] && 'A' <= w[0] <= 'Z' && ' ' !in w
    ensures Spaced(" " + w)
  {
    SpaceBefore(w);
  }

  lemma Labels()
    ensures Spaced(" Hundred") && Spaced(" Crore") && Spaced(" Lakh") && Spaced(" Thousand")
    ensures Spaced(" Dirhams") && Spaced(" Fils") && Spaced(" Only") && Spaced("Zero Dirhams")
  {
    Label("Hundred");
    assert " Hundred" == " " + "Hundred";
    Label("Crore");
    assert " Crore" == " " + "Crore";
    Label("Lakh");
    assert " Lakh" == " " + "Lakh";
    Label("Thousand");
    assert " Thousand" == " " + "Thousand";
    Label("Dirhams");
    assert " Dirhams" == " " + "Dirhams";
    Label("Fils");
    assert " Fils" == " " + "Fils";
    Label("Only");
    assert " Only" == " " + "Only";
    SpacedConcat("Zero", " Dirhams");
    assert "Zero Dirhams" == "Zero" + " Dirhams";
  }

  lemma BelowHundredSpaced(m: nat)
    requires 0 < m < 100
    ensures Capped(BelowHundred(m))
  {
    BelowHundredShape(m);
    if m < 20 {
      UnitCapitalised(m);
    } else {
      TenCapitalised(m / 10);
      if m % 10 > 0 {
        UnitCapitalised(m % 10);
        SpaceBefore(Units[m % 10]);
        SpacedConcat(Tens[m / 10], " " + Units[m % 10]);
        Assoc(Tens[m / 10], " ", Units[m % 10]);
      }
    }
  }

  /** A chunk's words are spaced, and capitalised when not empty. */
  lemma ChunkSpaced(n: int)
    ensures Spaced(ChunkWords(n))
    ensures 1 <= n <= 999 ==> Capped(ChunkWords(n))
  {
    if 1 <= n <= 999 {
      ChunkWordsCases(n);
      ChunkWordsShape(n);
      if n < 100 {
        BelowHundredSpaced(n);
      } else {
        UnitCapitalised(n / 100);
        Labels();
        if n % 100 > 0 {
          BelowHundredSpaced(n % 100);
          SpaceBefore(BelowHundred(n % 100));
        } else {
          assert ChunkTail(n) == "";
        }
        SpacedConcat(" Hundred", ChunkTail(n));
        SpacedConcat(Units[n / 100], " Hundred" + ChunkTail(n));
      }
    }
  }

  /** Parts that join into spaced words: each is spaced, and each after the
      first starts with a capital. */
  predicate Joinable(parts: seq<string>) {
    (forall w :: w in parts ==> Spaced(w))
    && (forall i :: 1 <= i < |parts| ==> Capped(parts[i]))
  }

  lemma {:induction false} JoinSpaced(parts: seq<string>)
    requires Joinable(parts)
    ensures Spaced(Join(parts, " "))
    ensures |parts| >= 2 ==> Join(parts, " ")[..|parts[0]|] == parts[0]
    ensures |parts| >= 1 && Capped(parts[0]) ==> Capped(Join(parts, " "))
    decreases |parts|
  {
    if |parts| >= 2 {
      var rest := parts[1..];
      assert forall w :: w in rest ==> w in parts;
      assert forall i :: 1 <= i < |rest| ==> rest[i] == parts[i + 1];
      JoinSpaced(rest);
      var j := Join(rest, " ");
      assert Capped(j);
      SpaceBefore(j);
      SpacedConcat(parts[0], " " + j);
      Assoc(parts[0], " ", j);
      assert Join(parts, " ") == parts[0] + (" " + j);
    }
  }

  lemma GroupSpaced(count: nat, suffix: string)
    requires Spaced(suffix)
    ensures forall w :: w in Group(count, suffix) ==> Spaced(w)
    ensures 1 <= count <= 999 ==> forall w :: w in Group(count, suffix) ==> Capped(w)
  {
    if count > 0 {
      ChunkSpaced(count);
      SpacedConcat(ChunkWords(count), suffix);
    }
  }

  lemma JoinableAppend(parts: seq<string>, more: seq<string>)
    requires Joinable(parts)
    requires forall w :: w in more ==> Capped(w)
    ensures Joinable(parts + more)
  {
    var all := parts + more;
    forall i | 1 <= i < |all|
      ensures Capped(all[i])
    {
      if i >= |parts| {
        assert all[i] == more[i - |parts|];
        assert all[i] in more;
      } else {
        assert all[i] == parts[i];
      }
    }
  }

  /** The four groups, each below a thousand except the crores, join into
      spaced words. */
  lemma GroupsJoinable(crore: nat, lakh: nat, thousand: nat, rest: nat)
    requires lakh < 100 && thousand < 100 && rest < 1000
    ensures Joinable(Group(crore, " Crore") + Group(lakh, " Lakh") + Group(thousand, " Thousand") + Group(rest, ""))
  {
    Labels();
    assert Spaced("");
    GroupSpaced(crore, " Crore");
    GroupSpaced(lakh, " Lakh");
    GroupSpaced(thousand, " Thousand");
    GroupSpaced(rest, "");
    var g1 := Group(crore, " Crore");
    assert Joinable(g1);
    JoinableAppend(g1, Group(lakh, " Lakh"));
    JoinableAppend(g1 + Group(lakh, " Lakh"), Group(thousand, " Thousand"));
    JoinableAppend(g1 + Group(lakh, " Lakh") + Group(thousand, " Thousand"), Group(rest, ""));
  }

  /** The dirham groups join into spaced words. */
  lemma DirhamGroupsJoinable(d: nat)
    ensures Joinable(DirhamGroups(d))
  {
    if d > 0 {
      var g := Decompose(d);
      GroupsJoinable(g.crore, g.lakh, g.thousand, g.rest);
    }
  }

  /** The dirham phrase is spaced and ends with "Dirhams". */
  lemma DirhamWordsSpaced(d: nat)
    requires d > 0
    ensures Spaced(DirhamWords(d))
    ensures |DirhamWords(d)| >= 7 && DirhamWords(d)[|DirhamWords(d)| - 7..] == "Dirhams"
  {
    var s := Join(DirhamGroups(d), " ");
    assert Spaced(s) by {
      DirhamGroupsJoinable(d);
      JoinSpaced(DirhamGroups(d));
    }
    assert DirhamWords(d) == s + (if s != "" then " " else "") + "Dirhams";
    NamedDirhams(s);
  }

  lemma NamedDirhams(s: string)
    requires Spaced(s)
    ensures var w := s + (if s != "" then " " else "") + "Dirhams";
            Spaced(w) && |w| >= 7 && w[|w| - 7..] == "Dirhams"
  {
    if s != "" {
      Label("Dirhams");
      assert " Dirhams" == " " + "Dirhams";
      SpacedConcat(s, " Dirhams");
      Assoc(s, " ", "Dirhams");
    } else {
      assert "" + "" + "Dirhams" == "Dirhams";
      NoSpaceSpaced("Dirhams");
    }
  }

  lemma NoSpaceSpaced(w: string)
    requires ' ' !in w
    ensures Spaced(w)
  {
  }

  lemma FilsWordsSpaced(f: nat)
    requires 1 <= f < 100
    ensures Capped(FilsWords(f)) && 'D' !in FilsWords(f)
  {
    ChunkSpaced(f);
    ChunkWordsShape(f);
    Labels();
    SpacedConcat(ChunkWords(f), " Fils");
  }

  /** Trimming keeps a string spaced. */
  lemma TrimSpaced(s: string)
    requires Spaced(s)
    ensures Spaced(Trim(s))
  {
    TrimStartSpaced(s);
    TrimEndSpaced(TrimStart(s));
  }

  lemma TrimStartSpaced(s: string)
    requires Spaced(s)
    ensures Spaced(TrimStart(s))
  {
    var r := TrimStart(s);
    var k := |s| - |r|;
    forall i | 0 <= i < |r| && r[i] == ' '
      ensures i + 1 < |r| && 'A' <= r[i + 1] <= 'Z'
    {
      assert r[i] == s[k + i];
      assert s[k + i + 1] == r[i + 1];
    }
  }

  lemma TrimEndSpaced(s: string)
    requires Spaced(s)
    ensures Spaced(TrimEnd(s))
  {
    var r := TrimEnd(s);
    forall i | 0 <= i < |r| && r[i] == ' '
      ensures i + 1 < |r| && 'A' <= r[i + 1] <= 'Z'
    {
      assert r[i] == s[i];
      assert !IsWhiteSpace(s[i + 1]);
    }
  }

  /** Trimming keeps an occurrence that lies between two characters that
      are not white space. */
  lemma IncludesAfterTrim(s: string, t: string, pos: nat, a: nat, b: nat)
    requires OccursAt(s, t, pos)
    requires |t| > 0 && a <= pos && pos + |t| <= b + 1 && b < |s|
    requires !IsWhiteSpace(s[a]) && !IsWhiteSpace(s[b])
    ensures Includes(Trim(s), t)
  {
    var k := |s| - |TrimStart(s)|;
    var n := |Trim(s)|;
    TrimKeepsMiddle(s, a, b);
    OccursInSlice(s, t, pos, k, k + n);
    IncludesAt(Trim(s), t, pos - k);
  }

  /** The trimmed text is a slice that starts no later than the first
      character that is not white space and ends no earlier than the
      last. */
  lemma TrimKeepsMiddle(s: string, a: nat, b: nat)
    requires a <= b < |s| && !IsWhiteSpace(s[a]) && !IsWhiteSpace(s[b])
    ensures var k := |s| - |TrimStart(s)|;
            k <= a && b < k + |Trim(s)| <= |s| && Trim(s) == s[k..k + |Trim(s)|]
  {
    var r := TrimStart(s);
    var k := |s| - |r|;
    TrimStartBefore(s, a);
    assert r[b - k] == s[b];
    TrimEndAfter(r, b - k);
    assert Trim(s) == r[..|Trim(s)|];
  }

  lemma OccursInSlice(s: string, t: string, pos: nat, lo: nat, hi: nat)
    requires OccursAt(s, t, pos) && lo <= pos && pos + |t| <= hi <= |s|
    ensures OccursAt(s[lo..hi], t, pos - lo)
  {
    var w := s[lo..hi];
    forall j | 0 <= j < |t|
      ensures w[pos - lo + j] == t[j]
    {
      assert w[pos - lo + j] == s[pos + j] == s[pos..pos + |t|][j];
    }
    assert w[pos - lo..pos - lo + |t|] == t;
  }

  lemma IncludesAt(s: string, t: string, i: nat)
    requires OccursAt(s, t, i)
    ensures Includes(s, t)
  {
  }

  lemma TrimStartBefore(s: string, a: nat)
    requires a < |s| && !IsWhiteSpace(s[a])
    ensures |s| - |TrimStart(s)| <= a
  {
    if a < |s| - |TrimStart(s)| {
      TrimStartDropsWhiteSpace(s, a);
    }
  }

  lemma TrimEndAfter(r: string, b: nat)
    requires b < |r| && !IsWhiteSpace(r[b])
    ensures |TrimEnd(r)| > b
  {
    if |TrimEnd(r)| <= b {
      TrimEndDropsWhiteSpace(r, b);
    }
  }

  lemma IncludesPrefix(s: string, t: string, u: string)
    requires Includes(s, t)
    ensures Includes(s + u, t)
  {
    var i: nat :| i <= |s| && OccursAt(s, t, i);
    assert (s + u)[i..i + |t|] == s[i..i + |t|];
    assert OccursAt(s + u, t, i);
  }

  /** A string that ends with `t` holds it there, whatever follows. */
  lemma OccursAtSuffix(w: string, t: string, u: string)
    requires |w| >= |t| && w[|w| - |t|..] == t
    ensures OccursAt(w + u, t, |w| - |t|)
  {
    assert (w + u)[|w| - |t|..|w|] == w[|w| - |t|..];
  }

  /** A spaced string cannot hold " and ": its spaces are followed by
      capitals. */
  lemma NoConjunction(w: string)
    requires Spaced(w)
    ensures !Includes(w, " and ")
  {
    forall i: nat | i <= |w|
      ensures !OccursAt(w, " and ", i)
    {
      if i + 5 <= |w| {
        if w[i] == ' ' {
          assert w[i..i + 5][1] == w[i + 1] != 'a';
        } else {
          assert w[i..i + 5][0] == w[i];
        }
      }
    }
  }

  /** Without dirhams there are no dirham words. */
  lemma NoDirhamWords()
    ensures DirhamWords(0) == ""
  {
    assert DirhamGroups(0) == [];
  }

  /** Unless both parts are zero, the words are the trimmed phrase
      followed by " Only". */
  lemma WordsTrimmed(d: nat, f: nat)
    requires d > 0 || f > 0
    ensures Words(d, f) == Trim(Combine(DirhamWords(d), FilsWords(f))) + " Only"
  {
  }

  /** " and " appears in the words exactly when there are both dirhams and
      fils. */
  lemma ConjunctionIffBoth(d: nat, f: nat)
    requires f < 100
    ensures Includes(Words(d, f), " and ") <==> d > 0 && f > 0
  {
    if d > 0 && f > 0 {
      ConjunctionWhenBoth(d, f);
    } else {
      NoConjunctionOtherwise(d, f);
    }
  }

  lemma ConjunctionWhenBoth(d: nat, f: nat)
    requires d > 0 && 0 < f < 100
    ensures Includes(Words(d, f), " and ")
  {
    var dw := DirhamWords(d);
    var fw := FilsWords(f);
    DirhamWordsSpaced(d);
    FilsWordsSpaced(f);
    WordsTrimmed(d, f);
    JoinedByConjunction(dw, fw);
  }

  /** Dirham words ending with "Dirhams" and capitalised fils words keep
      the " and " between them through the trim. */
  lemma JoinedByConjunction(dw: string, fw: string)
    requires |dw| >= 7 && dw[|dw| - 7..] == "Dirhams" && fw != [] && 'A' <= fw[0] <= 'Z'
    ensures Includes(Trim(Combine(dw, fw)) + " Only", " and ")
  {
    var words := dw + " and " + fw;
    var pos := |dw|;
    assert Combine(dw, fw) == words;
    assert words[pos..pos + 5] == " and ";
    assert words[pos - 7] == dw[|dw| - 7..][0] == 'D';
    assert words[pos + 5] == fw[0];
    IncludesAfterTrim(words, " and ", pos, pos - 7, pos + 5);
    IncludesPrefix(Trim(words), " and ", " Only");
  }

  lemma NoConjunctionOtherwise(d: nat, f: nat)
    requires f < 100 && (d == 0 || f == 0)
    ensures !Includes(Words(d, f), " and ")
  {
    var phrase := PhraseOf(d, f);
    assert Spaced(phrase) by {
      PhraseSpaced(d, f);
    }
    assert Spaced(" Only") by {
      Labels();
    }
    SpacedConcat(phrase, " Only");
    NoConjunction(Words(d, f));
  }

  /** The phrase in front of " Only". */
  function PhraseOf(d: nat, f: nat): (p: string)
    ensures Words(d, f) == p + " Only"
  {
    var words := Combine(DirhamWords(d), FilsWords(f));
    if words == "" && d == 0 && f == 0 then "Zero Dirhams" else Trim(words)
  }

  /** With at most one part present, the phrase is spaced. */
  lemma PhraseSpaced(d: nat, f: nat)
    requires f < 100 && (d == 0 || f == 0)
    ensures Spaced(PhraseOf(d, f))
  {
    var dw := DirhamWords(d);
    var fw := FilsWords(f);
    var words := Combine(dw, fw);
    if d > 0 {
      DirhamWordsSpaced(d);
      assert words == dw;
      TrimSpaced(words);
    } else if f > 0 {
      FilsWordsSpaced(f);
      NoDirhamWords();
      assert words == fw;
      TrimSpaced(words);
    } else {
      NoDirhamWords();
      Labels();
    }
  }

  /** "Dirhams" appears in the words exactly when there are dirhams, or
      when there are neither dirhams nor fils and the amount reads as zero;
      fils alone never name the dirhams. */
  lemma DirhamsNamedIff(d: nat, f: nat)
    requires f < 100
    ensures Includes(Words(d, f), "Dirhams") <==> d > 0 || f == 0
  {
    if d > 0 {
      DirhamsNamed(d, f);
    } else if f == 0 {
      ZeroNamed();
    } else {
      FilsAloneUnnamed(f);
    }
  }

  lemma DirhamsNamed(d: nat, f: nat)
    requires d > 0
    ensures Includes(Words(d, f), "Dirhams")
  {
    var dw := DirhamWords(d);
    var words := Combine(dw, FilsWords(f));
    var pos := |dw| - 7;
    DirhamsInCombined(d, f);
    IncludesAfterTrim(words, "Dirhams", pos, pos, pos + 6);
    WordsTrimmed(d, f);
    IncludesPrefix(Trim(words), "Dirhams", " Only");
  }

  /** The dirham words end the dirham part of the combined phrase. */
  lemma DirhamsInCombined(d: nat, f: nat)
    requires d > 0
    ensures var dw := DirhamWords(d);
            var words := Combine(dw, FilsWords(f));
            && |dw| >= 7 && OccursAt(words, "Dirhams", |dw| - 7)
            && words[|dw| - 7] == 'D' && words[|dw| - 1] == 's'
  {
    var dw := DirhamWords(d);
    var fw := FilsWords(f);
    DirhamWordsSpaced(d);
    var tail := if fw == "" then "" else " and " + fw;
    assert Combine(dw, fw) == dw + tail;
    OccursAtSuffix(dw, "Dirhams", tail);
  }

  lemma ZeroNamed()
    ensures Includes(Words(0, 0), "Dirhams")
  {
    NoDirhamWords();
    var w := Words(0, 0);
    assert w == "Zero Dirhams" + " Only";
    assert w[5..12] == "Dirhams";
    assert OccursAt(w, "Dirhams", 5);
  }

  lemma FilsAloneUnnamed(f: nat)
    requires 1 <= f < 100
    ensures !Includes(Words(0, f), "Dirhams")
  {
    FilsAloneWithoutD(f);
    NotIncludesWithoutChar(Words(0, f), "Dirhams");
  }

  /** The words for fils alone hold no capital D. */
  lemma FilsAloneWithoutD(f: nat)
    requires 1 <= f < 100
    ensures 'D' !in Words(0, f)
  {
    var fw := FilsWords(f);
    assert Combine(DirhamWords(0), fw) == fw by {
      NoDirhamWords();
    }
    WordsTrimmed(0, f);
    assert 'D' !in Trim(fw) by {
      FilsWordsSpaced(f);
      TrimKeepsOut(fw, 'D');
    }
  }

  /** Trimming adds no character. */
  lemma TrimKeepsOut(s: string, c: char)
    requires c !in s
    ensures c !in Trim(s)
  {
    var r1 := TrimStart(s);
    assert r1 == s[|s| - |r1|..];
    var r2 := TrimEnd(r1);
    assert r2 == r1[..|r2|];
  }
}
