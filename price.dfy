/** Price extraction of main.py:53-57: the search for the leftmost substring of
    the form `\d{1,3}(,\d{3})*\.\d{2}`, its conversion to a number once the
    thousands separators are removed, and the `:.2f` rendering of a price.
    Prices are integer cents. */
module Price {
  import opened Wrappers

  // ---------------------------------------------------------------------------
  // Characters and digit strings

  /** A character matched by `\d` (ASCII digits in this model). */
  predicate IsDigit(c: char) { '0' <= c <= '9' }

  /** A character that may occur before the decimal point of a match. */
  predicate InRun(c: char) { IsDigit(c) || c == ',' }

  function DigitValue(c: char): (d: nat)
    requires IsDigit(c)
    ensures d < 10
  {
    c as int - '0' as int
  }

  function DigitChar(d: nat): (c: char)
    requires d < 10
    ensures IsDigit(c) && DigitValue(c) == d
  {
    ('0' as int + d) as char
  }

  predicate AllDigits(w: string) { forall k :: 0 <= k < |w| ==> IsDigit(w[k]) }

  /** The number a string of decimal digits denotes. */
  function DigitsValue(ds: string): nat
    requires AllDigits(ds)
  {
    if ds == [] then 0 else DigitsValue(ds[..|ds| - 1]) * 10 + DigitValue(ds[|ds| - 1])
  }

  lemma DigitsValueSnoc(ds: string, c: char)
    requires AllDigits(ds) && IsDigit(c)
    ensures AllDigits(ds + [c])
    ensures DigitsValue(ds + [c]) == DigitsValue(ds) * 10 + DigitValue(c)
  {
    assert (ds + [c])[..|ds|] == ds;
  }

  /** `str.replace(",", "")`. */
  function StripCommas(w: string): (r: string)
    ensures |r| <= |w|
    ensures forall k :: 0 <= k < |r| ==> r[k] != ','
    ensures (forall k :: 0 <= k < |w| ==> InRun(w[k])) ==> AllDigits(r)
    ensures AllDigits(w) ==> r == w
    ensures |w| == 1 ==> r == if w[0] == ',' then [] else w
  {
    if w == [] then []
    else (if w[0] == ',' then [] else [w[0]]) + StripCommas(w[1..])
  }

  lemma {:induction false} StripCommasAppend(a: string, b: string)
    ensures StripCommas(a + b) == StripCommas(a) + StripCommas(b)
  {
    if a == [] {
      assert a + b == b;
    } else {
      var head := if a[0] == ',' then [] else [a[0]];
      assert (a + b)[0] == a[0];
      assert (a + b)[1..] == a[1..] + b;
      assert StripCommas(a + b) == head + StripCommas(a[1..] + b);
      StripCommasAppend(a[1..], b);
      assert StripCommas(a) == head + StripCommas(a[1..]);
    }
  }

  // ---------------------------------------------------------------------------
  // The language of the regular expression \d{1,3}(,\d{3})*\.\d{2}

  /** `(,\d{3})*` */
  predicate CommaGroups(w: string)
    decreases |w|
  {
    w == [] || (|w| >= 4 && w[0] == ',' && AllDigits(w[1..4]) && CommaGroups(w[4..]))
  }

  /** `\d{k}(,\d{3})*` */
  predicate LeadGroup(w: string, k: nat)
  {
    k <= |w| && AllDigits(w[..k]) && CommaGroups(w[k..])
  }

  /** `\d{1,3}(,\d{3})*` */
  predicate IntegerPart(w: string)
  {
    LeadGroup(w, 1) || LeadGroup(w, 2) || LeadGroup(w, 3)
  }

  /** `[0-9,]*\.\d{2}`: what the conversion of main.py:55 reads. */
  predicate IsNumeral(w: string)
  {
    |w| >= 3
    && (forall k :: 0 <= k < |w| - 3 ==> InRun(w[k]))
    && w[|w| - 3] == '.' && IsDigit(w[|w| - 2]) && IsDigit(w[|w| - 1])
  }

  /** A whole match of the price expression. */
  predicate IsPriceToken(w: string)
  {
    IsNumeral(w) && IntegerPart(w[..|w| - 3])
  }

  /** `s[i..j]` is a match of the price expression. */
  predicate MatchAt(s: string, i: int, j: int)
  {
    0 <= i <= j <= |s| && IsPriceToken(s[i..j])
  }

  /** `s[i..j]` is the match `re.search` reports: no match starts further left. */
  ghost predicate Leftmost(s: string, i: int, j: int)
  {
    MatchAt(s, i, j) && forall i', j' :: 0 <= i' < i ==> !MatchAt(s, i', j')
  }

  // ---------------------------------------------------------------------------
  // Search

  /** The end of the maximal run of `[0-9,]` that starts at `i`. */
  function RunEnd(s: string, i: nat): (p: nat)
    requires i <= |s|
    ensures i <= p <= |s|
    ensures forall k :: i <= k < p ==> InRun(s[k])
    ensures p == |s| || !InRun(s[p])
    decreases |s| - i
  {
    if i == |s| || !InRun(s[i]) then i else RunEnd(s, i + 1)
  }

  /** A match starting at `i` has its decimal point right after the run of
      `[0-9,]` starting at `i`, so it has only one possible end. */
  lemma RunDeterminesMatch(s: string, i: nat)
    requires i <= |s|
    ensures forall j :: MatchAt(s, i, j) ==> j == RunEnd(s, i) + 3
  {
    var p := RunEnd(s, i);
    forall j | MatchAt(s, i, j)
      ensures j == p + 3
    {
      var w := s[i..j];
      assert forall k :: i <= k < j - 3 ==> InRun(s[k]) by {
        forall k | i <= k < j - 3 ensures InRun(s[k]) {
          assert s[k] == w[k - i];
        }
      }
      assert s[j - 3] == w[|w| - 3] == '.';
    }
  }

  /** From a given start index at most one match exists. */
  lemma MatchUnique(s: string, i: nat, j1: nat, j2: nat)
    requires MatchAt(s, i, j1) && MatchAt(s, i, j2)
    ensures j1 == j2
  {
    RunDeterminesMatch(s, i);
  }

  /** The end of the match starting at `i`, if there is one. */
  function MatchEnd(s: string, i: nat): (r: Option<nat>)
    requires i <= |s|
    ensures r.Some? ==> MatchAt(s, i, r.value)
    ensures r.None? ==> forall j :: !MatchAt(s, i, j)
  {
    var p := RunEnd(s, i);
    RunDeterminesMatch(s, i);
    if p + 3 <= |s| && IsPriceToken(s[i..p + 3]) then Some(p + 3) else None
  }

  datatype Span = Span(start: nat, stop: nat)

  /** `re.search` started at index `from`: the first start index at which a
      match exists, with that match's end. */
  function Search(s: string, from: nat): (r: Option<Span>)
    requires from <= |s|
    ensures r.Some? ==> from <= r.value.start && MatchAt(s, r.value.start, r.value.stop)
    ensures r.Some? ==> forall i, j :: from <= i < r.value.start ==> !MatchAt(s, i, j)
    ensures r.None? ==> forall i, j :: from <= i ==> !MatchAt(s, i, j)
    decreases |s| - from
  {
    match MatchEnd(s, from)
    case Some(j) => Some(Span(from, j))
    case None => if from == |s| then None else Search(s, from + 1)
  }

  /** `float(w.replace(",", ""))` for a numeral with two fractional digits,
      in cents: the numeral with its commas and its point deleted, read as an
      integer; the digits before the point are the whole units. */
  function NumeralCents(w: string): (c: nat)
    requires IsNumeral(w)
    ensures AllDigits(StripCommas(w[..|w| - 3]) + w[|w| - 2..])
    ensures c == DigitsValue(StripCommas(w[..|w| - 3]) + w[|w| - 2..])
    ensures DigitsValue(StripCommas(w[..|w| - 3])) * 100 <= c < DigitsValue(StripCommas(w[..|w| - 3])) * 100 + 100
  {
    var units := StripCommas(w[..|w| - 3]);
    DigitsValueSnoc(units, w[|w| - 2]);
    DigitsValueSnoc(units + [w[|w| - 2]], w[|w| - 1]);
    assert units + [w[|w| - 2]] + [w[|w| - 1]] == units + w[|w| - 2..];
    DigitsValue(units) * 100 + DigitValue(w[|w| - 2]) * 10 + DigitValue(w[|w| - 1])
  }

  /** main.py:53-55: the price in a text, or None when the search fails. No
      price is found exactly when the text holds no match, and the price is the
      value of the leftmost match. */
  function ParsePrice(text: string): (r: Option<nat>)
    ensures r.None? <==> forall i, j :: !MatchAt(text, i, j)
    ensures forall i, j :: Leftmost(text, i, j) ==> r == Some(NumeralCents(text[i..j]))
  {
    match Search(text, 0)
    case None => None
    case Some(m) =>
      assert Leftmost(text, m.start, m.stop);
      assert forall i, j :: Leftmost(text, i, j) ==> i == m.start && j == m.stop by {
        forall i, j | Leftmost(text, i, j) ensures i == m.start && j == m.stop {
          LeftmostUnique(text, i, j, m.start, m.stop);
        }
      }
      Some(NumeralCents(text[m.start..m.stop]))
  }

  /** The leftmost match is unique. */
  lemma LeftmostUnique(s: string, i1: int, j1: int, i2: int, j2: int)
    requires Leftmost(s, i1, j1) && Leftmost(s, i2, j2)
    ensures i1 == i2 && j1 == j2
  {
    assert !(i1 < i2) && !(i2 < i1);
    MatchUnique(s, i1, j1, j2);
  }

  /** A text with no decimal point holds no price. */
  lemma NoPointNoPrice(s: string)
    requires '.' !in s
    ensures ParsePrice(s) == None
  {
  }

  // ---------------------------------------------------------------------------
  // Rendering

  /** Decimal text of a natural number, without leading zeros. */
  function NatText(n: nat): (t: string)
    ensures |t| >= 1 && AllDigits(t)
    ensures t[0] == '0' ==> n == 0
    ensures n < 10 ==> |t| == 1
    ensures n < 100 ==> |t| <= 2
    ensures n < 1000 ==> |t| <= 3
  {
    if n < 10 then [DigitChar(n)] else NatText(n / 10) + [DigitChar(n % 10)]
  }

  lemma {:induction false} NatTextValue(n: nat)
    ensures DigitsValue(NatText(n)) == n
  {
    if n < 10 {
      assert NatText(n)[..0] == [];
    } else {
      NatTextValue(n / 10);
      DigitsValueSnoc(NatText(n / 10), DigitChar(n % 10));
    }
  }

  lemma CentsDigits(c: nat)
    ensures c == c / 100 * 100 + (c / 10 % 10) * 10 + c % 10
  {
    assert c == c / 10 * 10 + c % 10;
    assert c / 10 == c / 100 * 10 + c / 10 % 10;
  }

  /** `f"{price:.2f}"` for a price of `c` cents: a numeral whose integer part
      has no leading zero and which reads back, through the conversion of
      main.py:55, as the same price. It agrees with `:.2f` of the float for
      every price below the threshold, the only prices the script formats;
      for very large values (around 10^17 cents) the float's own digits
      differ. */
  function FormatCents(c: nat): (t: string)
    ensures IsNumeral(t) && NumeralCents(t) == c
    ensures t[..|t| - 3] == NatText(c / 100)
  {
    var t := NatText(c / 100) + "." + [DigitChar(c / 10 % 10), DigitChar(c % 10)];
    assert t[..|t| - 3] == NatText(c / 100);
    NatTextValue(c / 100);
    CentsDigits(c);
    t
  }

  /** `\d{3}` for a number below 1000, zero-padded. */
  function Pad3(m: nat): (t: string)
    requires m < 1000
    ensures |t| == 3 && AllDigits(t)
  {
    [DigitChar(m / 100), DigitChar(m / 10 % 10), DigitChar(m % 10)]
  }

  lemma Pad3Value(m: nat)
    requires m < 1000
    ensures DigitsValue(Pad3(m)) == m
  {
    var a, b, c := DigitChar(m / 100), DigitChar(m / 10 % 10), DigitChar(m % 10);
    DigitsValueSnoc([], a);
    assert [] + [a] == [a];
    DigitsValueSnoc([a], b);
    DigitsValueSnoc([a, b], c);
    assert [a] + [b] == [a, b] && [a, b] + [c] == Pad3(m);
    CentsDigits(m);
  }

  /** An integer with thousands separators, the way the store shows prices
      (main.py:52, "$1,199.99"). */
  function Grouped(n: nat): (t: string)
    ensures forall k :: 0 <= k < |t| ==> InRun(t[k])
  {
    if n < 1000 then NatText(n) else Grouped(n / 1000) + "," + Pad3(n % 1000)
  }

  /** A price as the store displays it. */
  function Displayed(c: nat): string
  {
    "$" + Grouped(c / 100) + "." + [DigitChar(c / 10 % 10), DigitChar(c % 10)]
  }

  lemma {:induction false} CommaGroupsSnoc(w: string, d: string)
    requires CommaGroups(w) && |d| == 3 && AllDigits(d)
    ensures CommaGroups(w + "," + d)
    decreases |w|
  {
    var t := w + "," + d;
    if w == [] {
      assert t == "," + d && t[1..4] == d && t[4..] == [];
    } else {
      CommaGroupsSnoc(w[4..], d);
      assert t[1..4] == w[1..4] && t[4..] == w[4..] + "," + d;
    }
  }

  lemma DigitsValueAppend3(x: string, d: string)
    requires AllDigits(x) && |d| == 3 && AllDigits(d)
    ensures AllDigits(x + d)
    ensures DigitsValue(x + d) == DigitsValue(x) * 1000 + DigitsValue(d)
  {
    DigitsValueSnoc(x, d[0]);
    DigitsValueSnoc(x + [d[0]], d[1]);
    DigitsValueSnoc(x + [d[0]] + [d[1]], d[2]);
    DigitsValueSnoc([], d[0]);
    DigitsValueSnoc([d[0]], d[1]);
    DigitsValueSnoc([d[0], d[1]], d[2]);
    assert [] + [d[0]] == [d[0]] && [d[0]] + [d[1]] == [d[0], d[1]] && [d[0], d[1]] + [d[2]] == d;
    assert x + [d[0]] + [d[1]] + [d[2]] == x + d;
  }

  /** The length of the leading group of an integer part. */
  lemma LeadLength(w: string) returns (k: nat)
    requires IntegerPart(w)
    ensures 1 <= k <= 3 && LeadGroup(w, k)
  {
    k := if LeadGroup(w, 1) then 1 else if LeadGroup(w, 2) then 2 else 3;
  }

  /** The store's grouping is in the language of the integer part. */
  lemma {:induction false} GroupedShape(n: nat)
    ensures IntegerPart(Grouped(n))
  {
    var t := Grouped(n);
    if n < 1000 {
      assert t[..|t|] == t && t[|t|..] == [];
      assert LeadGroup(t, |t|);
    } else {
      var g, d := Grouped(n / 1000), Pad3(n % 1000);
      GroupedShape(n / 1000);
      var k := LeadLength(g);
      CommaGroupsSnoc(g[k..], d);
      assert t[..k] == g[..k] && t[k..] == g[k..] + "," + d;
      assert LeadGroup(t, k);
    }
  }

  /** Removing the separators of the store's grouping gives back the number. */
  lemma {:induction false} GroupedValue(n: nat)
    ensures DigitsValue(StripCommas(Grouped(n))) == n
  {
    if n < 1000 {
      NatTextValue(n);
    } else {
      var g, d := Grouped(n / 1000), Pad3(n % 1000);
      GroupedValue(n / 1000);
      assert Grouped(n) == g + ("," + d);
      StripCommasAppend(g, "," + d);
      StripCommasAppend(",", d);
      assert StripCommas(",") == [];
      assert StripCommas(Grouped(n)) == StripCommas(g) + d;
      DigitsValueAppend3(StripCommas(g), d);
      Pad3Value(n % 1000);
    }
  }

  /** A match begins with a digit. */
  lemma MatchStartsWithDigit(s: string, i: int, j: int)
    requires MatchAt(s, i, j)
    ensures i < |s| && IsDigit(s[i])
  {
    var w := s[i..j][..j - i - 3];
    var k := LeadLength(w);
    assert w[..k][0] == s[i];
  }

  /** Parsing inverts the store's display format: the leading `$` is skipped
      because the search is not anchored. */
  lemma ParseDisplayed(c: nat)
    ensures ParsePrice(Displayed(c)) == Some(c)
  {
    var s := Displayed(c);
    DisplayedToken(c);
    forall i', j' | 0 <= i' < 1 ensures !MatchAt(s, i', j') {
      if MatchAt(s, i', j') {
        MatchStartsWithDigit(s, i', j');
      }
    }
    assert Leftmost(s, 1, |s|);
  }

  /** Everything after the `$` of a displayed price is one match, worth the price. */
  lemma DisplayedToken(c: nat)
    ensures MatchAt(Displayed(c), 1, |Displayed(c)|)
    ensures NumeralCents(Displayed(c)[1..|Displayed(c)|]) == c
  {
    var s, g := Displayed(c), Grouped(c / 100);
    var w := s[1..|s|];
    GroupedShape(c / 100);
    GroupedValue(c / 100);
    assert w == g + "." + [DigitChar(c / 10 % 10), DigitChar(c % 10)];
    assert w[..|w| - 3] == g;
    assert IsNumeral(w);
    CentsDigits(c);
  }

  // ---------------------------------------------------------------------------
  // Examples (main.py:52)

  lemma ParseStoreExample()
    ensures ParsePrice("$1,199.99") == Some(119999)
  {
    assert Displayed(119999) == "$1,199.99";
    ParseDisplayed(119999);
  }

  /** With no word boundaries in the expression, a run of four integer digits
      without a separator is matched from its second digit. */
  lemma ParseUngroupedExample()
    ensures ParsePrice("1234.56") == Some(23456)
  {
    UngroupedLeftmost();
    UngroupedValue();
  }

  lemma UngroupedValue()
    ensures IsNumeral("1234.56"[1..7]) && NumeralCents("1234.56"[1..7]) == 23456
  {
    assert "1234.56"[1..7] == "234.56";
    assert "234.56"[..3] == "234";
    assert StripCommas("234") == "234";
    assert "234"[..2] == "23" && "23"[..1] == "2" && "2"[..0] == "";
  }

  lemma UngroupedLeftmost()
    ensures Leftmost("1234.56", 1, 7)
  {
    var s := "1234.56";
    assert s[1..7] == "234.56" && "234.56"[..3] == "234";
    assert "234"[..3] == "234" && "234"[3..] == "";
    assert LeadGroup("234", 3);
    assert MatchAt(s, 1, 7);
    RunDeterminesMatch(s, 0);
    assert RunEnd(s, 4) == 4;
    assert RunEnd(s, 0) == 4;
    assert s[0..7] == s && s[..4] == "1234";
    NotIntegerPart1234();
  }

  lemma NotIntegerPart1234()
    ensures !IntegerPart("1234")
  {
    var w := "1234";
    assert w[1..] == "234" && w[2..] == "34" && w[3..] == "4";
  }

  lemma ParseNoPriceExamples()
    ensures ParsePrice("999") == None
    ensures ParsePrice("Call for price") == None
  {
    NoPointNoPrice("999");
    NoPointNoPrice("Call for price");
  }
}
