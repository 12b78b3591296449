/** The amount in words printed on an invoice: the absolute amount is split
    into dirhams and fils (rounded to the nearest fils), the dirhams are
    grouped in the Indian system (crore, lakh, thousand, the rest), each
    group below a thousand is spelled in English words, and the phrase ends
    with "Only". */
module AmountInWords {
  import opened Base
  import opened Text
  import opened JsNumber

  const Units: seq<string> := [
    "", "One", "Two", "Three", "Four", "Five", "Six", "Seven",
    "Eight", "Nine", "Ten", "Eleven", "Twelve", "Thirteen",
    "Fourteen", "Fifteen", "Sixteen", "Seventeen", "Eighteen", "Nineteen"]

  const Tens: seq<string> := ["", "", "Twenty", "Thirty", "Forty", "Fifty", "Sixty", "Seventy", "Eighty", "Ninety"]

  /** The words for 0..99 (empty for 0). */
  function BelowHundred(m: nat): string
    requires m < 100
  {
    if m == 0 then ""
    else if m < 20 then Units[m]
    else if m % 10 > 0 then Tens[m / 10] + " " + Units[m % 10]
    else Tens[m / 10]
  }

  /** The hundreds of a chunk, followed by a space when tens or units
      follow. */
  function HundredsPart(n: nat): string
    requires n < 1000
  {
    if n >= 100 then Units[n / 100] + " Hundred" + (if n % 100 > 0 then " " else "") else ""
  }

  /** The words for a chunk 1..999; anything else, zero included, gives
      the empty string. */
  function ChunkWords(n: int): string {
    if n < 0 || n >= 1000 || n == 0 then ""
    else HundredsPart(n) + BelowHundred(n % 100)
  }

  lemma Assoc(a: string, b: string, c: string)
    ensures (a + b) + c == a + (b + c)
  {
  }

  /** `convertChunkToWords(n)`, building the words in a mutable string. */
  method ConvertChunkToWords(n0: int) returns (words: string)
    ensures words == ChunkWords(n0)
  {
    var n := n0;
    if n < 0 || n >= 1000 {
      return "";
    }
    if n == 0 {
      return "";
    }
    words := "";
    if n >= 100 {
      words := words + Units[n / 100] + " Hundred";
      n := n % 100;
      if n > 0 {
        words := words + " ";
      }
    }
    assert words == HundredsPart(n0) && n == n0 % 100;
    ghost var prefix := words;
    if n > 0 {
      if n < 20 {
        words := words + Units[n];
      } else {
        words := words + Tens[n / 10];
        if n % 10 > 0 {
          words := words + " " + Units[n % 10];
          TensAndUnit(prefix, n);
        }
      }
    } else {
      assert words == prefix + "";
    }
    assert words == prefix + BelowHundred(n);
  }

  lemma TensAndUnit(prefix: string, m: nat)
    requires 20 <= m < 100 && m % 10 > 0
    ensures prefix + Tens[m / 10] + " " + Units[m % 10] == prefix + BelowHundred(m)
  {
    Assoc(prefix, Tens[m / 10], " ");
    Assoc(prefix, Tens[m / 10] + " ", Units[m % 10]);
  }

  /** A single word: non-empty, starting with a capital letter, holding no
      space and no capital `H` or `D`. Every unit word from 1 on and every
      tens word from 2 on is one. */
  predicate Capitalised(w: string) {
    WordGroup(w) && ' ' !in w
  }

  /** Words that start with a capital letter and hold no capital `H` or
      `D`. */
  predicate WordGroup(w: string) {
    w != [] && 'A' <= w[0] <= 'Z' && 'H' !in w && 'D' !in w
  }

  lemma UnitCapitalised(i: nat)
    requires 1 <= i < 20
    ensures Capitalised(Units[i])
  {
    if i < 10 {
      LowUnitCapitalised(i);
    } else {
      TeenCapitalised(i);
    }
  }

  lemma LowUnitCapitalised(i: nat)
    requires 1 <= i < 10
    ensures Capitalised(Units[i])
  {
    assert Units[i] in ["One", "Two", "Three", "Four", "Five", "Six", "Seven", "Eight", "Nine"];
  }

  lemma TeenCapitalised(i: nat)
    requires 10 <= i < 20
    ensures Capitalised(Units[i])
  {
    if i < 15 {
      assert Units[i] in ["Ten", "Eleven", "Twelve", "Thirteen", "Fourteen"];
    } else {
      assert Units[i] in ["Fifteen", "Sixteen", "Seventeen", "Eighteen", "Nineteen"];
    }
  }

  lemma TenCapitalised(i: nat)
    requires 2 <= i < 10
    ensures Capitalised(Tens[i])
  {
    assert Tens[i] in ["Twenty", "Thirty", "Forty", "Fifty", "Sixty", "Seventy", "Eighty", "Ninety"];
  }

  /** The words for 1..99 are non-empty, start with a capital letter and
      hold no capital `H` or `D`. */
  lemma BelowHundredShape(m: nat)
    requires 0 < m < 100
    ensures WordGroup(BelowHundred(m))
  {
    if m < 20 {
      UnitCapitalised(m);
    } else {
      TenCapitalised(m / 10);
      if m % 10 > 0 {
        UnitCapitalised(m % 10);
        var w := BelowHundred(m);
        assert w == Tens[m / 10] + (" " + Units[m % 10]);
        assert w[0] == Tens[m / 10][0];
      }
    }
  }

  /** The two forms of a chunk's words: below a hundred, and the
      hundreds word followed by the rest. */
  lemma ChunkWordsCases(n: int)
    requires 1 <= n <= 999
    ensures n < 100 ==> ChunkWords(n) == BelowHundred(n)
    ensures n >= 100 ==> ChunkWords(n) == Units[n / 100] + (" Hundred" + ChunkTail(n))
  {
    if n < 100 {
      assert HundredsPart(n) == "" && n % 100 == n;
    } else {
      Assoc(Units[n / 100] + " Hundred", if n % 100 > 0 then " " else "", BelowHundred(n % 100));
      Assoc(Units[n / 100], " Hundred", ChunkTail(n));
    }
  }

  /** What follows "Hundred" in a chunk of 100..999. */
  function ChunkTail(n: nat): string
    requires n < 1000
  {
    (if n % 100 > 0 then " " else "") + BelowHundred(n % 100)
  }

  /** The words of a chunk in 1..999 start with a capital letter and hold
      no capital `D`; below a hundred they hold no capital `H` either. */
  lemma ChunkWordsShape(n: int)
    requires 1 <= n <= 999
    ensures ChunkWords(n) != [] && 'A' <= ChunkWords(n)[0] <= 'Z' && 'D' !in ChunkWords(n)
    ensures n < 100 ==> 'H' !in ChunkWords(n)
  {
    ChunkWordsCases(n);
    if n >= 100 {
      var u := Units[n / 100];
      UnitCapitalised(n / 100);
      if n % 100 > 0 {
        BelowHundredShape(n % 100);
      }
      assert 'D' !in ChunkTail(n);
      assert ChunkWords(n)[0] == u[0];
    } else {
      BelowHundredShape(n);
    }
  }

  /** A chunk has words exactly when it lies in 1..999. */
  lemma ChunkWordsNonEmpty(n: int)
    ensures ChunkWords(n) != "" <==> 1 <= n <= 999
  {
    if 1 <= n <= 999 {
      ChunkWordsShape(n);
    }
  }

  /** A chunk's words name a hundred exactly when the chunk is 100..999. */
  lemma ChunkWordsHundred(n: int)
    ensures Includes(ChunkWords(n), "Hundred") <==> 100 <= n <= 999
  {
    var w := ChunkWords(n);
    if 100 <= n <= 999 {
      ChunkWordsCases(n);
      var u := Units[n / 100];
      assert w[|u| + 1..|u| + 8] == "Hundred";
      assert OccursAt(w, "Hundred", |u| + 1);
    } else if 1 <= n < 100 {
      ChunkWordsShape(n);
      NotIncludesWithoutChar(w, "Hundred");
    } else {
      NotIncludesWithoutChar(w, "Hundred");
    }
  }

  /** The Indian grouping of a number of dirhams. */
  datatype Groups = Groups(crore: nat, lakh: nat, thousand: nat, rest: nat)

  function Decompose(d: nat): (g: Groups)
    ensures g.crore * 10000000 + g.lakh * 100000 + g.thousand * 1000 + g.rest == d
    ensures g.lakh < 100 && g.thousand < 100 && g.rest < 1000
  {
    var r1 := d % 10000000;
    var r2 := r1 % 100000;
    Groups(d / 10000000, r1 / 100000, r2 / 1000, r2 % 1000)
  }

  /** The grouping is the only one with those bounds. */
  lemma DecomposeUnique(d: nat, g: Groups)
    requires g.crore * 10000000 + g.lakh * 100000 + g.thousand * 1000 + g.rest == d
    requires g.lakh < 100 && g.thousand < 100 && g.rest < 1000
    ensures g == Decompose(d)
  {
    var low := g.lakh * 100000 + g.thousand * 1000 + g.rest;
    assert low < 10000000;
    assert d / 10000000 == g.crore && d % 10000000 == low;
    var mid := g.thousand * 1000 + g.rest;
    assert mid < 100000;
    assert low / 100000 == g.lakh && low % 100000 == mid;
  }

  /** Dirhams and fils of a non-negative amount: the fils are the rounded
      hundredths of the fractional part, and a rounding up to 100 fils
      carries into the dirhams. */
  function Split(a: real): (p: (nat, nat))
    requires a >= 0.0
    ensures p.1 < 100
    ensures p.0 * 100 + p.1 == Round(a * 100.0)
  {
    var integerPart := a.Floor;
    var filsPart := Round((a - integerPart as real) * 100.0);
    RoundShift((a - integerPart as real) * 100.0, 100 * integerPart);
    assert (a - integerPart as real) * 100.0 + (100 * integerPart) as real == a * 100.0;
    if filsPart == 100 then (integerPart + 1, 0) else (integerPart, filsPart)
  }

  /** A fractional part of 0.995 or more rounds to a hundred fils, which
      carry into one more dirham and leave no fils. */
  lemma FilsCarry(a: real)
    requires a >= 0.0 && a - a.Floor as real >= 0.995
    ensures Split(a) == (a.Floor + 1, 0)
  {
    var x := (a - a.Floor as real) * 100.0;
    assert 99.5 <= x < 100.0;
    assert Round(x) == 100;
  }

  /** Adding an integer to a real moves its rounding by that integer. */
  lemma RoundShift(x: real, k: int)
    ensures Round(x + k as real) == Round(x) + k
  {
    assert (x + k as real + 0.5).Floor == (x + 0.5).Floor + k;
  }

  /** A group's words followed by its suffix, when the group is not zero. */
  function Group(count: nat, suffix: string): seq<string> {
    if count > 0 then [ChunkWords(count) + suffix] else []
  }

  /** The labelled non-zero groups, largest first. */
  function DirhamGroups(d: nat): seq<string> {
    var g := Decompose(d);
    if d == 0 then []
    else Group(g.crore, " Crore") + Group(g.lakh, " Lakh") + Group(g.thousand, " Thousand") + Group(g.rest, "")
  }

  /** The dirham phrase: the groups joined by spaces, then "Dirhams" when
      there are any dirhams. */
  function DirhamWords(d: nat): string {
    var s := Join(DirhamGroups(d), " ");
    if d > 0 then s + (if s != "" then " " else "") + "Dirhams" else s
  }

  function FilsWords(f: nat): string {
    if f > 0 then ChunkWords(f) + " Fils" else ""
  }

  /** The two phrases, joined by " and " when both are present. */
  function Combine(dirhams: string, fils: string): string {
    if fils == "" then dirhams
    else if dirhams == "" then fils
    else dirhams + " and " + fils
  }

  /** The words for a non-zero magnitude `a`. */
  function Phrase(a: real): (r: string)
    requires a > 0.0
    ensures |r| >= 5 && r[|r| - 5..] == " Only"
  {
    var (d, f) := Split(a);
    Words(d, f)
  }

  /** The words for `d` dirhams and `f` fils. */
  function Words(d: nat, f: nat): (r: string)
    ensures |r| >= 5 && r[|r| - 5..] == " Only"
  {
    var words := Combine(DirhamWords(d), FilsWords(f));
    Only(if words == "" && d == 0 && f == 0 then "Zero Dirhams" else Trim(words))
  }

  /** The closing " Only". */
  function Only(phrase: string): (r: string)
    ensures |r| >= 5 && r[|r| - 5..] == " Only"
  {
    assert (phrase + " Only")[|phrase|..] == " Only";
    phrase + " Only"
  }

  /** `getAmountInWords(num)`; `None` stands for an argument that is not a
      number, or is `NaN`. */
  function AmountWords(num: Option<real>): (r: string)
    ensures num.None? ==> r == "Invalid Amount"
    ensures num == Some(0.0) ==> r == "Zero Dirhams Only"
    ensures num.Some? ==> |r| >= 5 && r[|r| - 5..] == " Only"
  {
    if num.None? then "Invalid Amount"
    else if num.value == 0.0 then "Zero Dirhams Only"
    else Phrase(Abs(num.value))
  }

  /** `Math.abs`. */
  function Abs(v: real): (a: real)
    ensures a >= 0.0 && (a == v || a == -v)
    ensures a == 0.0 <==> v == 0.0
  {
    if v < 0.0 then -v else v
  }

  /** Step 5 of `getAmountInWords`: the labelled groups pushed onto the
      dirham words array. */
  method CollectGroups(amount: nat) returns (dirhamWordsArray: seq<string>)
    ensures dirhamWordsArray == DirhamGroups(amount)
  {
    dirhamWordsArray := [];
    var remainingAmount := amount;
    ghost var g := Decompose(amount);
    if remainingAmount > 0 {
      var crore := remainingAmount / 10000000;
      remainingAmount := remainingAmount % 10000000;
      if crore > 0 {
        var w := ConvertChunkToWords(crore);
        dirhamWordsArray := dirhamWordsArray + [w + " Crore"];
      }
      assert dirhamWordsArray == Group(g.crore, " Crore");
      ghost var upToCrore := dirhamWordsArray;
      var lakh := remainingAmount / 100000;
      remainingAmount := remainingAmount % 100000;
      if lakh > 0 {
        var w := ConvertChunkToWords(lakh);
        dirhamWordsArray := dirhamWordsArray + [w + " Lakh"];
      }
      assert dirhamWordsArray == upToCrore + Group(g.lakh, " Lakh");
      ghost var upToLakh := dirhamWordsArray;
      var thousand := remainingAmount / 1000;
      remainingAmount := remainingAmount % 1000;
      if thousand > 0 {
        var w := ConvertChunkToWords(thousand);
        dirhamWordsArray := dirhamWordsArray + [w + " Thousand"];
      }
      assert dirhamWordsArray == upToLakh + Group(g.thousand, " Thousand");
      ghost var upToThousand := dirhamWordsArray;
      assert remainingAmount == g.rest;
      if remainingAmount > 0 {
        var w := ConvertChunkToWords(remainingAmount);
        assert w + "" == w;
        dirhamWordsArray := dirhamWordsArray + [w];
      }
      assert dirhamWordsArray == upToThousand + Group(g.rest, "");
    }
  }

  /** `getAmountInWords(num)`, with its mutable locals and the array of
      dirham groups it pushes onto. */
  method GetAmountInWords(num: Option<real>) returns (r: string)
    ensures r == AmountWords(num)
  {
    if num.None? {
      return "Invalid Amount";
    }
    if num.value == 0.0 {
      return "Zero Dirhams Only";
    }
    var absNum := Abs(num.value);
    var integerPart := absNum.Floor;
    var filsPart := Round((absNum - integerPart as real) * 100.0);
    var adjustedIntegerPart := integerPart;
    var adjustedFilsPart := filsPart;
    if filsPart == 100 {
      adjustedIntegerPart := adjustedIntegerPart + 1;
      adjustedFilsPart := 0;
    }
    assert (adjustedIntegerPart, adjustedFilsPart) == Split(absNum);

    r := SpellParts(adjustedIntegerPart, adjustedFilsPart);
  }

  /** Steps 5 to 8 of `getAmountInWords`: the dirham words, the fils
      words, their combination and the closing " Only". */
  method SpellParts(adjustedIntegerPart: nat, adjustedFilsPart: nat) returns (r: string)
    ensures r == Words(adjustedIntegerPart, adjustedFilsPart)
  {
    var dirhamWordsArray := CollectGroups(adjustedIntegerPart);

    var dirhamWordsString := Join(dirhamWordsArray, " ");
    if adjustedIntegerPart > 0 {
      dirhamWordsString := dirhamWordsString + (if dirhamWordsString != "" then " " else "") + "Dirhams";
    }

    assert dirhamWordsString == DirhamWords(adjustedIntegerPart);

    var filsWordsString := "";
    if adjustedFilsPart > 0 {
      var w := ConvertChunkToWords(adjustedFilsPart);
      filsWordsString := w + " Fils";
    }
    assert filsWordsString == FilsWords(adjustedFilsPart);

    var finalWords := "";
    if dirhamWordsString != "" {
      finalWords := finalWords + dirhamWordsString;
    }
    assert finalWords == dirhamWordsString;
    if filsWordsString != "" {
      if finalWords != "" {
        finalWords := finalWords + " and ";
      }
      finalWords := finalWords + filsWordsString;
    }
    assert finalWords == Combine(dirhamWordsString, filsWordsString);

    if finalWords == "" && adjustedIntegerPart == 0 && adjustedFilsPart == 0 {
      return "Zero Dirhams Only";
    }
    r := Trim(finalWords) + " Only";
  }

  /** The words depend only on the magnitude of the amount. */
  lemma SignInsensitive(x: real)
    ensures AmountWords(Some(-x)) == AmountWords(Some(x))
  {
    if x != 0.0 {
      calc {
        AmountWords(Some(-x));
        Phrase(Abs(-x));
        { assert Abs(-x) == Abs(x); }
        Phrase(Abs(x));
        AmountWords(Some(x));
      }
    }
  }

  /** Below a thousand dirhams there is one group, and the phrase names the
      dirhams once. */
  lemma DirhamWordsSmall(d: nat)
    requires 1 <= d <= 999
    ensures DirhamWords(d) == ChunkWords(d) + " Dirhams"
  {
    var g := Decompose(d);
    assert g == Groups(0, 0, 0, d);
    assert DirhamGroups(d) == [ChunkWords(d) + ""];
    assert ChunkWords(d) + "" == ChunkWords(d);
    ChunkWordsNonEmpty(d);
  }

  /** A phrase made of chunk words starts with a capital letter and ends
      with a letter, so trimming leaves it as it is. */
  lemma TrimPhrase(w: string, tail: string)
    requires w != [] && 'A' <= w[0] <= 'Z'
    requires |tail| > 0 && 'a' <= tail[|tail| - 1] <= 'z'
    ensures Trim(w + tail) == w + tail
  {
    TrimUnchanged(w + tail);
  }

  /** Whole dirhams below a thousand: the chunk words, then "Dirhams". */
  lemma DirhamsOnlyWords(d: nat)
    requires 1 <= d < 1000
    ensures Words(d, 0) == ChunkWords(d) + " Dirhams" + " Only"
  {
    var w := ChunkWords(d) + " Dirhams";
    assert Combine(DirhamWords(d), FilsWords(0)) == w by {
      DirhamWordsSmall(d);
    }
    assert Trim(w) == w by {
      ChunkWordsShape(d);
      TrimPhrase(ChunkWords(d), " Dirhams");
    }
  }

  /** Fils alone: no "and", and no dirhams named. */
  lemma FilsOnlyWords(f: nat)
    requires 1 <= f < 100
    ensures Words(0, f) == ChunkWords(f) + " Fils" + " Only"
  {
    var w := ChunkWords(f) + " Fils";
    assert Combine(DirhamWords(0), FilsWords(f)) == w by {
      assert DirhamGroups(0) == [];
    }
    assert Trim(w) == w by {
      ChunkWordsShape(f);
      TrimPhrase(ChunkWords(f), " Fils");
    }
  }

  /** Dirhams below a thousand and fils: the two joined by " and ". */
  lemma DirhamsAndFilsWords(d: nat, f: nat)
    requires 1 <= d < 1000 && 1 <= f < 100
    ensures Words(d, f) == ChunkWords(d) + " Dirhams" + " and " + (ChunkWords(f) + " Fils") + " Only"
  {
    var cd := ChunkWords(d);
    var w := cd + " Dirhams" + " and " + (ChunkWords(f) + " Fils");
    assert Combine(DirhamWords(d), FilsWords(f)) == w by {
      DirhamWordsSmall(d);
    }
    assert Trim(w) == w by {
      var tail := " Dirhams" + " and " + (ChunkWords(f) + " Fils");
      Assoc(cd, " Dirhams", " and ");
      Assoc(cd, " Dirhams" + " and ", ChunkWords(f) + " Fils");
      ChunkWordsShape(d);
      TrimPhrase(cd, tail);
    }
  }

  /** No dirhams and no fils read as zero. */
  lemma ZeroWords()
    ensures Words(0, 0) == "Zero Dirhams Only"
  {
    assert DirhamGroups(0) == [];
  }

  /** Amounts that round to the same dirhams and fils read the same; a
      tiny positive amount rounds to no fils and reads as zero. */
  lemma RoundedAmountWords(a: real)
    requires a > 0.0
    ensures AmountWords(Some(a)) == Words(Split(a).0, Split(a).1)
    ensures a < 0.005 ==> AmountWords(Some(a)) == "Zero Dirhams Only"
  {
    if a < 0.005 {
      assert Round(a * 100.0) == 0;
      assert Split(a) == (0, 0);
      ZeroWords();
    }
  }

  /** A leading space is trimmed away. */
  lemma TrimLeadingSpace(w: string)
    ensures Trim(" " + w) == Trim(w)
  {
    var s := " " + w;
    SkipShift(' ', w, 0);
    assert SkipWhiteSpace(s, 0) == SkipWhiteSpace(s, 1);
    assert TrimStart(s) == TrimStart(w) by {
      var k := SkipWhiteSpace(w, 0);
      assert s[k + 1..] == w[k..];
    }
  }

  /** One more character in front shifts every index by one. */
  lemma {:induction false} SkipShift(c: char, w: string, i: nat)
    requires i <= |w|
    ensures SkipWhiteSpace([c] + w, i + 1) == SkipWhiteSpace(w, i) + 1
    decreases |w| - i
  {
    if i < |w| {
      assert ([c] + w)[i + 1] == w[i];
      if IsWhiteSpace(w[i]) {
        SkipShift(c, w, i + 1);
      }
    }
  }

  /** A thousand crore dirhams or more lose their crore count: the crore
      chunk is out of the range a chunk can spell, so only the label
      remains. */
  lemma CroreOverflow(d: nat)
    requires d % 10000000 == 0 && d / 10000000 >= 1000
    ensures AmountWords(Some(d as real)) == "Crore Dirhams" + " Only"
  {
    var a := d as real;
    assert Split(a) == (d, 0) by {
      assert a.Floor == d;
    }
    assert Words(d, 0) == "Crore Dirhams" + " Only" by {
      CroreOverflowWords(d);
    }
    assert AmountWords(Some(a)) == Phrase(a);
  }

  lemma CroreOverflowWords(d: nat)
    requires d % 10000000 == 0 && d / 10000000 >= 1000
    ensures Words(d, 0) == "Crore Dirhams" + " Only"
  {
    CroreOverflowDirhams(d);
    TrimmedCroreLabel();
  }

  /** The dirham phrase is the bare label and the currency. */
  lemma CroreOverflowDirhams(d: nat)
    requires d % 10000000 == 0 && d / 10000000 >= 1000
    ensures DirhamWords(d) == " Crore" + " " + "Dirhams"
  {
    assert Decompose(d) == Groups(d / 10000000, 0, 0, 0);
    assert ChunkWords(d / 10000000) + " Crore" == " Crore";
    assert DirhamGroups(d) == [" Crore"];
  }

  lemma TrimmedCroreLabel()
    ensures Trim(" Crore" + " " + "Dirhams") == "Crore Dirhams"
  {
    assert " Crore" + " " + "Dirhams" == " " + "Crore Dirhams";
    TrimLeadingSpace("Crore Dirhams");
    TrimUnchanged("Crore Dirhams");
  }

  /** From a thousand crore up, the crore chunk is spelt as nothing: only
      the bare label is pushed, followed by the groups of the amount below
      a crore. */
  lemma CroreCountDropped(d: nat)
    requires d / 10000000 >= 1000
    ensures DirhamGroups(d) == [" Crore"] + DirhamGroups(d % 10000000)
  {
    var r := d % 10000000;
    var g := Decompose(d);
    assert g.crore == d / 10000000;
    assert ChunkWords(g.crore) + " Crore" == " Crore";
    assert Group(g.crore, " Crore") == [" Crore"];
    assert r / 10000000 == 0 && r % 10000000 == r;
    if r == 0 {
      assert g.lakh == 0 && g.thousand == 0 && g.rest == 0;
    } else {
      assert Decompose(r) == Groups(0, g.lakh, g.thousand, g.rest);
    }
  }

  /** From a thousand crore up with fewer than a thousand dirhams below
      the crores, the words are the label "Crore" and the remainder's
      words: the crore count is lost, the remainder is kept. */
  lemma CroreOverflowRemainder(d: nat)
    requires d / 10000000 >= 1000 && 1 <= d % 10000000 <= 999
    ensures Words(d, 0) == "Crore " + ChunkWords(d % 10000000) + " Dirhams" + " Only"
  {
    var c := ChunkWords(d % 10000000);
    var w := " Crore" + " " + c + " " + "Dirhams";
    assert Combine(DirhamWords(d), FilsWords(0)) == w by {
      CroreRemainderDirhams(d);
    }
    assert Trim(w) == "Crore " + c + " Dirhams" by {
      ChunkWordsNonEmpty(d % 10000000);
      CroreRemainderTrim(c);
    }
  }

  /** The dirham phrase: the label, the remainder's words and "Dirhams". */
  lemma CroreRemainderDirhams(d: nat)
    requires d / 10000000 >= 1000 && 1 <= d % 10000000 <= 999
    ensures DirhamWords(d) == " Crore" + " " + ChunkWords(d % 10000000) + " " + "Dirhams"
  {
    var c := ChunkWords(d % 10000000);
    assert DirhamGroups(d) == [" Crore", c] by {
      CroreCountDropped(d);
      SmallGroups(d % 10000000);
    }
    assert Join(DirhamGroups(d), " ") == " Crore" + " " + c by {
      JoinPair(" Crore", c);
    }
  }

  lemma CroreRemainderTrim(c: string)
    requires c != []
    ensures Trim(" Crore" + " " + c + " " + "Dirhams") == "Crore " + c + " Dirhams"
  {
    var p := "Crore " + c + " Dirhams";
    assert " Crore" + " " + c + " " + "Dirhams" == " " + p;
    TrimLeadingSpace(p);
    TrimUnchanged(p);
  }

  /** Below a thousand dirhams there is one group, the chunk itself. */
  lemma SmallGroups(d: nat)
    requires 1 <= d <= 999
    ensures DirhamGroups(d) == [ChunkWords(d)]
  {
    assert Decompose(d) == Groups(0, 0, 0, d);
    assert ChunkWords(d) + "" == ChunkWords(d);
  }

  lemma JoinPair(a: string, b: string)
    ensures Join([a, b], " ") == a + " " + b
  {
    assert [a, b][1..] == [b];
  }

  /** A thousand crore or more with five dirhams below the crores, such as
      10,000,000,005, reads "Crore Five Dirhams Only", whatever the crore
      count. */
  lemma CroreOverflowWithRemainder(d: nat)
    requires d / 10000000 >= 1000 && d % 10000000 == 5
    ensures Words(d, 0) == "Crore Five Dirhams" + " Only"
  {
    assert Words(d, 0) == "Crore " + ChunkWords(5) + " Dirhams" + " Only" by {
      CroreOverflowRemainder(d);
    }
    CroreFivePhrase();
  }

  lemma CroreFivePhrase()
    ensures "Crore " + ChunkWords(5) + " Dirhams" + " Only" == "Crore Five Dirhams" + " Only"
  {
    FiveWord();
  }

  lemma FiveWord()
    ensures ChunkWords(5) == "Five"
  {
    assert HundredsPart(5) == "";
    assert BelowHundred(5) == Units[5];
  }
}
