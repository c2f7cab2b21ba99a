/** How `add entry` names and fills a dated entry: the month directory
    under `entry_path`, the non-padded file name, and the template with its
    `{}` token replaced by the zero-padded date. */
module Naming {
  import opened Text

  /** A calendar date as the clock reports it (`today.year()`, `.month()`, `.day()`). */
  datatype Date = Date(year: nat, month: nat, day: nat)

  /** The dates the UTC clock can report, with the year limited to four digits. */
  predicate ValidDate(d: Date)
  {
    d.year <= 9999 && 1 <= d.month <= 12 && 1 <= d.day <= 31
  }

  /** The placeholder the entry template carries for the date. */
  const Token: string := "{}"

  predicate BraceFree(s: string)
  {
    forall i :: 0 <= i < |s| ==> s[i] != '{' && s[i] != '}'
  }

  /** `<entry_path>/<year>/<month>`, month without padding. */
  function EntryDir(entryPath: string, d: Date): string
  {
    Join(Join(entryPath, Decimal(d.year)), Decimal(d.month))
  }

  /** `<year>_<month>_<day>.md`, month and day without padding. */
  function EntryFileName(d: Date): string
  {
    Decimal(d.year) + "_" + Decimal(d.month) + "_" + Decimal(d.day) + ".md"
  }

  /** Where `write_file` puts the entry: the file name under the month directory. */
  function EntryFilePath(entryPath: string, d: Date): string
  {
    Join(EntryDir(entryPath, d), EntryFileName(d))
  }

  /** The date as `%Y/%m/%d` formats it: year to four digits, month and day to two. */
  function DateText(d: Date): string
  {
    ZeroPad(Decimal(d.year), 4) + "/" + ZeroPad(Decimal(d.month), 2) + "/" + ZeroPad(Decimal(d.day), 2)
  }

  /** The entry body: the template with every `{}` replaced by the date text. */
  function Render(template: string, d: Date): string
  {
    Replace(template, Token, DateText(d))
  }

  // ---------------------------------------------------------------------
  // Date text

  function Pow10(k: nat): nat
  {
    if k == 0 then 1 else 10 * Pow10(k - 1)
  }

  /** A number below 10^k has at most k decimal digits. */
  lemma {:induction false} DecimalLength(n: nat, k: nat)
    requires k >= 1 && n < Pow10(k)
    ensures |Decimal(n)| <= k
    decreases n
  {
    if n >= 10 {
      DecimalLength(n / 10, k - 1);
    }
  }

  /** A number below 10^w padded to width w is exactly w digits that read back as it. */
  lemma PaddedField(n: nat, w: nat)
    requires w >= 1 && n < Pow10(w)
    ensures var f := ZeroPad(Decimal(n), w);
      |f| == w && AllDigits(f) && Value(f) == n
  {
    DecimalLength(n, w);
    ZeroPadValue(Decimal(n), w);
    ValueOfDecimal(n);
  }

  /** `%Y/%m/%d` is ten characters: digits with `/` at 4 and 7, and the three
      digit fields read back as the year, the month and the day. */
  lemma DateTextLayout(d: Date)
    requires ValidDate(d)
    ensures var r := DateText(d);
      |r| == 10 && r[4] == '/' && r[7] == '/' &&
      AllDigits(r[..4]) && Value(r[..4]) == d.year &&
      AllDigits(r[5..7]) && Value(r[5..7]) == d.month &&
      AllDigits(r[8..]) && Value(r[8..]) == d.day
  {
    var y, m, dd := ZeroPad(Decimal(d.year), 4), ZeroPad(Decimal(d.month), 2), ZeroPad(Decimal(d.day), 2);
    assert Pow10(4) == 10000 && Pow10(2) == 100;
    PaddedField(d.year, 4);
    PaddedField(d.month, 2);
    PaddedField(d.day, 2);
    ThreeFields(y, m, dd);
  }

  /** Where the fields of `y/m/d` sit, for a four-, a two- and a two-character field. */
  lemma ThreeFields(y: string, m: string, dd: string)
    requires |y| == 4 && |m| == 2 && |dd| == 2
    ensures var r := y + "/" + m + "/" + dd;
      |r| == 10 && r[4] == '/' && r[7] == '/' && r[..4] == y && r[5..7] == m && r[8..] == dd
  {
    var r := y + "/" + m + "/" + dd;
    assert r[..4] == y;
    assert r[5..7] == m;
    assert r[8..] == dd;
  }

  /** The date text holds no brace, so rendering cannot create a new token. */
  lemma DateTextBraceFree(d: Date)
    requires ValidDate(d)
    ensures BraceFree(DateText(d)) && |DateText(d)| > 0
  {
    assert Pow10(4) == 10000 && Pow10(2) == 100;
    PaddedField(d.year, 4);
    PaddedField(d.month, 2);
    PaddedField(d.day, 2);
    DigitFieldsBraceFree(ZeroPad(Decimal(d.year), 4), ZeroPad(Decimal(d.month), 2), ZeroPad(Decimal(d.day), 2));
  }

  lemma DigitFieldsBraceFree(y: string, m: string, dd: string)
    requires AllDigits(y) && AllDigits(m) && AllDigits(dd)
    ensures BraceFree(y + "/" + m + "/" + dd)
  {
    var r := y + "/" + m + "/" + dd;
    forall i | 0 <= i < |r| ensures r[i] != '{' && r[i] != '}' {
      if i < |y| {
        assert r[i] == y[i];
      } else if |y| < i < |y| + 1 + |m| {
        assert r[i] == m[i - |y| - 1];
      } else if |y| + 1 + |m| + 1 <= i {
        assert r[i] == dd[i - |y| - |m| - 2];
      }
    }
  }

  // ---------------------------------------------------------------------
  // Names and directories

  /** An entry file name is a plain name: no `/`, and it starts with a digit. */
  lemma EntryFileNameIsPlain(d: Date)
    ensures '/' !in EntryFileName(d)
    ensures IsDigit(EntryFileName(d)[0])
  {
    var y, m, dd := Decimal(d.year), Decimal(d.month), Decimal(d.day);
    NotInDigits(y, '/');
    NotInDigits(m, '/');
    NotInDigits(dd, '/');
    assert EntryFileName(d) == y + ("_" + m + "_" + dd + ".md");
  }

  /** Two dates get the same file name only if they are the same date. */
  lemma EntryFileNameInjective(d1: Date, d2: Date)
    requires EntryFileName(d1) == EntryFileName(d2)
    ensures d1 == d2
  {
    FileNameFields(Decimal(d1.year), Decimal(d1.month), Decimal(d1.day),
                   Decimal(d2.year), Decimal(d2.month), Decimal(d2.day));
    DecimalInjective(d1.year, d2.year);
    DecimalInjective(d1.month, d2.month);
    DecimalInjective(d1.day, d2.day);
  }

  /** Digit fields joined as `y_m_d.md` can be read back one by one. */
  lemma FileNameFields(y1: string, m1: string, e1: string, y2: string, m2: string, e2: string)
    requires AllDigits(y1) && AllDigits(m1) && AllDigits(y2) && AllDigits(m2)
    requires y1 + "_" + m1 + "_" + e1 + ".md" == y2 + "_" + m2 + "_" + e2 + ".md"
    ensures y1 == y2 && m1 == m2 && e1 == e2
  {
    NotInDigits(y1, '_');
    NotInDigits(y2, '_');
    NotInDigits(m1, '_');
    NotInDigits(m2, '_');
    assert y1 + "_" + m1 + "_" + e1 + ".md" == y1 + ['_'] + (m1 + "_" + e1 + ".md");
    assert y2 + "_" + m2 + "_" + e2 + ".md" == y2 + ['_'] + (m2 + "_" + e2 + ".md");
    SplitAtFirst(y1, m1 + "_" + e1 + ".md", y2, m2 + "_" + e2 + ".md", '_');
    assert m1 + "_" + e1 + ".md" == m1 + ['_'] + (e1 + ".md");
    assert m2 + "_" + e2 + ".md" == m2 + ['_'] + (e2 + ".md");
    SplitAtFirst(m1, e1 + ".md", m2, e2 + ".md", '_');
    assert e1 == (e1 + ".md")[..|e1|];
    assert e2 == (e2 + ".md")[..|e2|];
  }

  /** Two dates share a month directory exactly when they share year and month. */
  lemma EntryDirSameMonth(entryPath: string, d1: Date, d2: Date)
    ensures EntryDir(entryPath, d1) == EntryDir(entryPath, d2) <==>
            d1.year == d2.year && d1.month == d2.month
  {
    if EntryDir(entryPath, d1) == EntryDir(entryPath, d2) {
      var y1, m1 := Decimal(d1.year), Decimal(d1.month);
      var y2, m2 := Decimal(d2.year), Decimal(d2.month);
      NotInDigits(m1, '/');
      NotInDigits(m2, '/');
      NotInDigits(y1, '/');
      NotInDigits(y2, '/');
      assert (entryPath + "/" + y1) + ['/'] + m1 == (entryPath + "/" + y2) + ['/'] + m2;
      SplitAtLast(entryPath + "/" + y1, m1, entryPath + "/" + y2, m2, '/');
      assert entryPath + ['/'] + y1 == entryPath + ['/'] + y2;
      SplitAtLast(entryPath, y1, entryPath, y2, '/');
      DecimalInjective(d1.year, d2.year);
      DecimalInjective(d1.month, d2.month);
    }
  }

  /** Entries of different days never share a path, whatever the entry paths are. */
  lemma EntryFilePathInjective(p1: string, p2: string, d1: Date, d2: Date)
    requires EntryFilePath(p1, d1) == EntryFilePath(p2, d2)
    ensures d1 == d2 && EntryDir(p1, d1) == EntryDir(p2, d2)
  {
    EntryFileNameIsPlain(d1);
    EntryFileNameIsPlain(d2);
    assert EntryDir(p1, d1) + ['/'] + EntryFileName(d1) == EntryDir(p2, d2) + ['/'] + EntryFileName(d2);
    SplitAtLast(EntryDir(p1, d1), EntryFileName(d1), EntryDir(p2, d2), EntryFileName(d2), '/');
    EntryFileNameInjective(d1, d2);
  }

  // ---------------------------------------------------------------------
  // Rendering

  /** A template without `{}` is written unchanged. */
  lemma RenderWithoutToken(template: string, d: Date)
    requires !Contains(template, Token)
    ensures Render(template, d) == template
  {
    ReplaceAbsent(template, Token, DateText(d));
  }

  /** Rendering leaves no `{}` behind: every occurrence is replaced. */
  lemma RenderLeavesNoToken(template: string, d: Date)
    requires ValidDate(d)
    ensures !Contains(Render(template, d), Token)
  {
    DateTextBraceFree(d);
    ReplacedLeavesNoToken(template, DateText(d));
  }

  /** Rendering works piece by piece, as long as the cut does not split a `{}`. */
  lemma RenderConcat(a: string, b: string, d: Date)
    requires !(|a| > 0 && |b| > 0 && a[|a| - 1] == '{' && b[0] == '}')
    ensures Render(a + b, d) == Render(a, d) + Render(b, d)
  {
    ReplaceTokenConcat(a, b, DateText(d));
  }

  lemma {:induction false} ReplaceTokenConcat(a: string, b: string, to: string)
    requires !(|a| > 0 && |b| > 0 && a[|a| - 1] == '{' && b[0] == '}')
    ensures Replace(a + b, Token, to) == Replace(a, Token, to) + Replace(b, Token, to)
    decreases |a|
  {
    if a == [] {
      assert a + b == b;
    } else if |a| == 1 {
      SingleThenReplace(a[0], b, to);
      assert a == [a[0]];
    } else {
      var k := if a[..2] == Token then 2 else 1;
      ReplaceTokenConcat(a[k..], b, to);
      ReplaceStep(a, b, to);
    }
  }

  /** One step of the scan: a prefix of `a` long enough to decide the match. */
  lemma ReplaceStep(a: string, b: string, to: string)
    requires |a| >= 2
    ensures var k := if a[..2] == Token then 2 else 1;
      var head := if k == 2 then to else [a[0]];
      Replace(a + b, Token, to) == head + Replace(a[k..] + b, Token, to) &&
      Replace(a, Token, to) == head + Replace(a[k..], Token, to)
  {
    var s := a + b;
    assert s[..2] == a[..2];
    assert s[2..] == a[2..] + b;
    assert s[1..] == a[1..] + b;
  }

  lemma SingleThenReplace(c: char, b: string, to: string)
    requires !(c == '{' && |b| > 0 && b[0] == '}')
    ensures Replace([c] + b, Token, to) == [c] + Replace(b, Token, to)
  {
    var s := [c] + b;
    if |s| >= 2 {
      assert s[..2] == [c, b[0]];
      assert s[1..] == b;
    } else {
      assert b == [];
    }
  }

  /** The first character of a replacement result is `}` exactly when the
      input's is, provided the replacement text is brace-free. */
  lemma ReplacedHead(s: string, to: string)
    requires |to| > 0 && BraceFree(to) && |s| > 0
    ensures |Replace(s, Token, to)| > 0
    ensures Replace(s, Token, to)[0] == '}' <==> s[0] == '}'
  {
  }

  lemma BraceFreeHasNoToken(s: string)
    requires BraceFree(s)
    ensures !Contains(s, Token)
  {
    forall i: nat | i <= |s| ensures !OccursAt(s, Token, i) {
      if i + 2 <= |s| {
        assert s[i..i + 2][0] == s[i];
      }
    }
  }

  /** Gluing two token-free strings makes no token unless the seam is `{` `}`. */
  lemma NoTokenConcat(a: string, b: string)
    requires !Contains(a, Token) && !Contains(b, Token)
    requires !(|a| > 0 && |b| > 0 && a[|a| - 1] == '{' && b[0] == '}')
    ensures !Contains(a + b, Token)
  {
    var s := a + b;
    forall i: nat | i <= |s| ensures !OccursAt(s, Token, i) {
      if i + 2 <= |s| {
        TokenAt(s, i);
        if i + 2 <= |a| {
          TokenAt(a, i);
          NotOccursAt(a, Token, i);
          assert s[i] == a[i] && s[i + 1] == a[i + 1];
        } else if i >= |a| {
          TokenAt(b, i - |a|);
          NotOccursAt(b, Token, i - |a|);
          assert s[i] == b[i - |a|] && s[i + 1] == b[i - |a| + 1];
        } else {
          assert s[i] == a[|a| - 1] && s[i + 1] == b[0];
        }
      }
    }
  }

  /** `{}` occurs at `i` exactly when `{` and `}` stand at `i` and `i + 1`. */
  lemma TokenAt(s: string, i: nat)
    requires i + 2 <= |s|
    ensures OccursAt(s, Token, i) <==> s[i] == '{' && s[i + 1] == '}'
  {
    if s[i] == '{' && s[i + 1] == '}' {
      assert s[i..i + 2] == Token;
    }
    if OccursAt(s, Token, i) {
      assert s[i..i + 2][0] == s[i] && s[i..i + 2][1] == s[i + 1];
    }
  }

  lemma NotOccursAt(s: string, pat: string, i: nat)
    requires !Contains(s, pat) && i <= |s|
    ensures !OccursAt(s, pat, i)
  {
  }

  lemma {:induction false} ReplacedLeavesNoToken(s: string, to: string)
    requires |to| > 0 && BraceFree(to)
    ensures !Contains(Replace(s, Token, to), Token)
    decreases |s|
  {
    if |s| < 2 {
      forall i: nat | i <= |s| ensures !OccursAt(s, Token, i) { }
    } else if s[..2] == Token {
      ReplacedLeavesNoToken(s[2..], to);
      BraceFreeHasNoToken(to);
      NoTokenConcat(to, Replace(s[2..], Token, to));
    } else {
      var rest := Replace(s[1..], Token, to);
      ReplacedLeavesNoToken(s[1..], to);
      forall i: nat | i <= 1 ensures !OccursAt([s[0]], Token, i) { }
      if s[0] == '{' {
        ReplacedHead(s[1..], to);
        assert s[1] != '}' by { assert s[..2] == [s[0], s[1]]; }
      }
      NoTokenConcat([s[0]], rest);
    }
  }

  // ---------------------------------------------------------------------
  // Worked examples

  lemma EntryNameExample()
    ensures EntryFileName(Date(2024, 3, 7)) == "2024_3_7.md"
    ensures EntryDir("/home/me/demo/entries", Date(2024, 3, 7)) == "/home/me/demo/entries/2024/3"
  {
  }

  lemma DateTextExample()
    ensures DateText(Date(2024, 3, 7)) == "2024/03/07"
  {
    assert Decimal(2024) == "2024";
    assert ZeroPad("3", 2) == "03";
    assert ZeroPad("7", 2) == "07";
  }

  /** The template `# {}`, a blank line and `body`, rendered on 2024-03-07. */
  lemma RenderExample(template: string, d: Date)
    requires template == "# {}\n\nbody" && d == Date(2024, 3, 7)
    ensures Render(template, d) == "# 2024/03/07\n\nbody"
  {
    DateTextExample();
    RenderHeading(template, d);
  }

  /** The same template on any day: the date text stands where `{}` stood. */
  lemma RenderHeading(template: string, d: Date)
    requires template == "# {}\n\nbody"
    ensures Render(template, d) == "# " + DateText(d) + "\n\nbody"
  {
    ReplaceSingleToken(template, "# ", "\n\nbody", DateText(d));
  }

  /** A template with one `{}` between brace-free text renders to that text around the date. */
  lemma ReplaceSingleToken(s: string, a: string, b: string, to: string)
    requires s == a + Token + b && BraceFree(a) && BraceFree(b)
    ensures Replace(s, Token, to) == a + to + b
  {
    var t := Token + b;
    assert s == a + t;
    BraceFreeHasNoToken(a);
    BraceFreeHasNoToken(b);
    ReplaceAbsent(a, Token, to);
    ReplaceAbsent(b, Token, to);
    ReplaceTokenConcat(Token, b, to);
    ReplaceTokenItself(to);
    assert Replace(t, Token, to) == to + b;
    ReplaceTokenConcat(a, t, to);
  }

  lemma ReplaceTokenItself(to: string)
    ensures Replace(Token, Token, to) == to
  {
    assert Token[..2] == Token && Token[2..] == [];
  }
}
