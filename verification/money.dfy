/**
 * The fixed-point number formatting the renderer uses: `f"{v:.2f}"`,
 * `f"{v:,.2f}"` and the printer-safe variant that turns the grouping comma
 * into a space.  Amounts are integers counting hundredths (cents), so the
 * two decimals are exact.
 */
module Money {
  import opened Text
  import opened Wrappers

  predicate IsDigit(c: char) {
    '0' <= c <= '9'
  }

  predicate AllDigits(s: string) {
    forall i :: 0 <= i < |s| ==> IsDigit(s[i])
  }

  function DigitChar(d: nat): (c: char)
    requires d < 10
    ensures IsDigit(c)
  {
    ('0' as int + d) as char
  }

  function DigitValue(c: char): nat
    requires IsDigit(c)
  {
    c as int - '0' as int
  }

  /** `str(n)`: the decimal digits of `n`, at least one. */
  function Digits(n: nat): (s: string)
    ensures 1 <= |s|
    ensures AllDigits(s)
    decreases n
  {
    if n < 10 then [DigitChar(n)] else Digits(n / 10) + [DigitChar(n % 10)]
  }

  /** The number a digit string denotes (`int(s)` for `s` made of digits). */
  function Value(s: string): nat
    requires AllDigits(s)
    decreases |s|
  {
    if s == [] then 0 else Value(s[..|s| - 1]) * 10 + DigitValue(s[|s| - 1])
  }

  /** Reading back the digits of `n` gives `n`. */
  lemma {:induction false} ValueOfDigits(n: nat)
    ensures Value(Digits(n)) == n
    decreases n
  {
    if n >= 10 {
      var s := Digits(n);
      assert s[..|s| - 1] == Digits(n / 10);
      ValueOfDigits(n / 10);
    }
  }

  lemma DigitsOfSmall(n: nat)
    requires n < 100
    ensures |Digits(n)| <= 2
  {
    if n >= 10 {
      assert Digits(n) == Digits(n / 10) + [DigitChar(n % 10)];
    }
  }

  /** `f"{n:0{width}d}"`: the digits of `n`, padded with zeros on the left. */
  function ZeroPad(n: nat, width: nat): (s: string)
    ensures |s| == Max(width, |Digits(n)|)
    ensures AllDigits(s)
  {
    var ds := Digits(n);
    if |ds| >= width then ds else Repeat('0', width - |ds|) + ds
  }

  lemma {:induction false} ValueLeadingZeros(k: nat, s: string)
    requires AllDigits(s)
    ensures AllDigits(Repeat('0', k) + s)
    ensures Value(Repeat('0', k) + s) == Value(s)
    decreases |s|, k
  {
    var z := Repeat('0', k);
    var zs := z + s;
    if s == [] {
      assert zs == z;
      if k > 0 {
        assert z[..k - 1] == Repeat('0', k - 1);
        ValueLeadingZeros(k - 1, "");
        assert Repeat('0', k - 1) + "" == Repeat('0', k - 1);
      }
    } else {
      var init := s[..|s| - 1];
      assert zs[..|zs| - 1] == z + init;
      ValueLeadingZeros(k, init);
    }
  }

  /** Zero padding never changes the number read back. */
  lemma ValueOfZeroPad(n: nat, width: nat)
    ensures Value(ZeroPad(n, width)) == n
  {
    var ds := Digits(n);
    ValueOfDigits(n);
    if |ds| < width {
      ValueLeadingZeros(width - |ds|, ds);
      assert ZeroPad(n, width) == Repeat('0', width - |ds|) + ds;
    } else {
      assert ZeroPad(n, width) == ds;
    }
  }

  /** Groups the digits of `ds` in threes from the right, separated by `sep`. */
  function Group(ds: string, sep: char): (r: string)
    ensures |ds| > 0 ==> |r| > 0 && r[0] == ds[0]
    decreases |ds|
  {
    if |ds| <= 3 then ds else Group(ds[..|ds| - 3], sep) + [sep] + ds[|ds| - 3..]
  }

  /**
   * The shape of a grouping: counting from the right, every fourth
   * character is the separator and no other is, so each separator is
   * followed by exactly three characters of `ds` and the leading group has
   * one to three.  Removing the separators gives `ds` back (`RemoveGroup`).
   */
  lemma {:induction false} GroupShape(ds: string, sep: char)
    requires |ds| > 0 && sep !in ds
    ensures var r := Group(ds, sep);
            && |r| == |ds| + (|ds| - 1) / 3
            && |r| % 4 != 0
            && forall i :: 0 <= i < |r| ==> (r[i] == sep <==> (|r| - i) % 4 == 0)
    decreases |ds|
  {
    var r := Group(ds, sep);
    if |ds| > 3 {
      var hi, lo := ds[..|ds| - 3], ds[|ds| - 3..];
      NotInSplit(ds, |ds| - 3, sep);
      GroupShape(hi, sep);
      var g := Group(hi, sep);
      assert r == g + [sep] + lo;
      forall i | 0 <= i < |r|
        ensures r[i] == sep <==> (|r| - i) % 4 == 0
      {
        if i < |g| {
          assert r[i] == g[i];
          assert (|r| - i) % 4 == (|g| - i) % 4;
        } else if i > |g| {
          assert r[i] == lo[i - |g| - 1];
          assert lo[i - |g| - 1] in lo;
        }
      }
    } else {
      forall i | 0 <= i < |r|
        ensures r[i] != sep
      {
        assert r[i] in ds;
      }
    }
  }

  /** Grouping with `a` and then replacing `a` by `b` is grouping with `b`. */
  lemma {:induction false} ReplaceGroup(ds: string, a: char, b: char)
    requires a !in ds
    ensures Replace(Group(ds, a), a, b) == Group(ds, b)
    decreases |ds|
  {
    if |ds| > 3 {
      var hi, lo := ds[..|ds| - 3], ds[|ds| - 3..];
      NotInSplit(ds, |ds| - 3, a);
      var g := Group(hi, a);
      calc {
        Replace(Group(ds, a), a, b);
      == { ReplaceConcat(g + [a], lo, a, b); }
        Replace(g + [a], a, b) + Replace(lo, a, b);
      == { ReplaceConcat(g, [a], a, b); }
        Replace(g, a, b) + Replace([a], a, b) + Replace(lo, a, b);
      == { ReplaceGroup(hi, a, b); ReplaceAbsent(lo, a, b); }
        Group(hi, b) + [b] + lo;
      }
    } else {
      ReplaceAbsent(ds, a, b);
    }
  }

  /** Deleting the separators from a grouped digit string gives the digits back. */
  lemma {:induction false} RemoveGroup(ds: string, sep: char)
    requires sep !in ds
    ensures Remove(Group(ds, sep), sep) == ds
    decreases |ds|
  {
    if |ds| > 3 {
      var hi, lo := ds[..|ds| - 3], ds[|ds| - 3..];
      NotInSplit(ds, |ds| - 3, sep);
      var g := Group(hi, sep);
      calc {
        Remove(Group(ds, sep), sep);
      == { RemoveConcat(g + [sep], lo, sep); }
        Remove(g + [sep], sep) + Remove(lo, sep);
      == { RemoveConcat(g, [sep], sep); }
        Remove(g, sep) + Remove([sep], sep) + Remove(lo, sep);
      == { RemoveGroup(hi, sep); RemoveAbsent(lo, sep); }
        hi + lo;
      == { assert hi + lo == ds; }
        ds;
      }
    } else {
      RemoveAbsent(ds, sep);
    }
  }

  lemma DigitsHaveNoSeparator(s: string, c: char)
    requires AllDigits(s)
    requires !IsDigit(c)
    ensures c !in s
  {
  }

  /** The minus sign a negative amount is printed with. */
  function Sign(negative: bool): string {
    if negative then "-" else ""
  }

  /**
   * `f"{v:.2f}"` (`grouped` false) or `f"{v:,.2f}"` (`grouped` true) of the
   * amount `hundredths / 100`: optional minus, whole part, point, two digits.
   */
  function Fixed2(hundredths: int, grouped: bool): string {
    var a := if hundredths < 0 then -hundredths else hundredths;
    var whole := Digits(a / 100);
    Sign(hundredths < 0)
    + (if grouped then Group(whole, ',') else whole)
    + "." + ZeroPad(a % 100, 2)
  }

  /** Money as printed on a receipt: `f"{v:,.2f}".replace(",", " ")`. */
  function MoneyText(cents: int): string {
    Replace(Fixed2(cents, true), ',', ' ')
  }

  /**
   * Reads an amount back from its two-decimal text, ignoring grouping
   * spaces; `None` when the text is not of that shape.
   */
  function ParseAmount(s: string): Option<int> {
    if |s| > 0 && s[0] == '-' then
      match ParseUnsigned(s[1..])
      case Some(v) => Some(-(v as int))
      case None => None
    else ParseUnsigned(s)
  }

  /** Digits (possibly space-grouped), a point and exactly two digits. */
  function ParseUnsigned(s: string): Option<nat> {
    if |s| < 4 || s[|s| - 3] != '.' then None
    else
      match (ReadDigits(Remove(s[..|s| - 3], ' ')), ReadDigits(s[|s| - 2..]))
      case (Some(whole), Some(frac)) => Some(whole * 100 + frac)
      case _ => None
  }

  /**
   * The number a non-empty string of digits denotes; `None` for anything
   * else.  Kept apart from `Value` on purpose: it is the independent reader
   * the printed amounts are checked against.
   */
  function ReadDigits(s: string): Option<nat>
    decreases |s|
  {
    if s == [] || !IsDigit(s[|s| - 1]) then None
    else if |s| == 1 then Some(DigitValue(s[0]))
    else
      match ReadDigits(s[..|s| - 1])
      case Some(v) => Some(v * 10 + DigitValue(s[|s| - 1]))
      case None => None
  }

  /** `ReadDigits` accepts exactly the non-empty digit strings and reads their value. */
  lemma {:induction false} ReadDigitsValue(s: string)
    ensures ReadDigits(s).Some? <==> s != [] && AllDigits(s)
    ensures ReadDigits(s).Some? ==> ReadDigits(s).value == Value(s)
    decreases |s|
  {
    if |s| == 1 {
      assert s[..0] == [];
    } else if |s| > 1 {
      var init := s[..|s| - 1];
      ReadDigitsValue(init);
      assert AllDigits(s) <==> AllDigits(init) && IsDigit(s[|s| - 1]) by {
        assert forall i :: 0 <= i < |init| ==> init[i] == s[i];
      }
    }
  }

  /** The printed form of a money amount: sign, space-grouped whole part, two decimals. */
  lemma MoneyTextShape(cents: int)
    ensures var a := if cents < 0 then -cents else cents;
            MoneyText(cents) == Sign(cents < 0) + Group(Digits(a / 100), ' ') + "." + ZeroPad(a % 100, 2)
  {
    var a := if cents < 0 then -cents else cents;
    var sign := Sign(cents < 0);
    var whole := Digits(a / 100);
    var frac := ZeroPad(a % 100, 2);
    DigitsHaveNoSeparator(whole, ',');
    DigitsHaveNoSeparator(frac, ',');
    ReplaceGroup(whole, ',', ' ');
    ReplaceConcat(sign + Group(whole, ',') + ".", frac, ',', ' ');
    ReplaceConcat(sign + Group(whole, ','), ".", ',', ' ');
    ReplaceConcat(sign, Group(whole, ','), ',', ' ');
    ReplaceAbsent(sign, ',', ' ');
    ReplaceAbsent(".", ',', ' ');
    ReplaceAbsent(frac, ',', ' ');
  }

  lemma PointSlices(body: string, f: string)
    requires |f| == 2
    ensures var s := body + "." + f;
            |s| == |body| + 3 && s[|s| - 3] == '.' && s[..|s| - 3] == body && s[|s| - 2..] == f
  {
  }

  lemma ParseUnsignedOfParts(body: string, f: string, whole: nat, frac: nat)
    requires ReadDigits(Remove(body, ' ')) == Some(whole)
    requires |f| == 2 && ReadDigits(f) == Some(frac)
    ensures ParseUnsigned(body + "." + f) == Some(whole * 100 + frac)
  {
    PointSlices(body, f);
  }

  /** A signed money text splits as sign, then the unsigned text. */
  lemma SignedTextAssoc(sign: string, body: string, f: string)
    ensures sign + body + "." + f == sign + (body + "." + f)
  {
  }

  /** An optional leading minus negates what the unsigned reader finds. */
  lemma ParseAmountOfUnsigned(negative: bool, u: string, v: nat)
    requires ParseUnsigned(u) == Some(v)
    requires |u| > 0 && u[0] != '-'
    ensures ParseAmount(Sign(negative) + u) == Some(if negative then -(v as int) else v)
  {
    var m := Sign(negative) + u;
    if negative {
      assert m[0] == '-' && m[1..] == u;
    } else {
      assert m == u;
    }
  }

  /** A reading of the unsigned text extends to the text with its sign. */
  lemma ParseSigned(negative: bool, body: string, f: string, v: nat)
    requires |body| > 0 && body[0] != '-'
    requires ParseUnsigned(body + "." + f) == Some(v)
    ensures ParseAmount(Sign(negative) + body + "." + f) == Some(if negative then -(v as int) else v)
  {
    var u := body + "." + f;
    assert u[0] == body[0];
    ParseAmountOfUnsigned(negative, u, v);
    SignedTextAssoc(Sign(negative), body, f);
  }

  /** The whole part reads back, with or without its grouping spaces. */
  lemma WholeReads(n: nat)
    ensures var ds := Digits(n);
            ReadDigits(Remove(ds, ' ')) == Some(n) && ReadDigits(Remove(Group(ds, ' '), ' ')) == Some(n)
    ensures var g := Group(Digits(n), ' ');
            |g| > 0 && g[0] != '-' && Digits(n)[0] != '-'
  {
    var ds := Digits(n);
    ValueOfDigits(n);
    ReadDigitsValue(ds);
    DigitsHaveNoSeparator(ds, ' ');
    RemoveGroup(ds, ' ');
    RemoveAbsent(ds, ' ');
  }

  /** The two decimals read back. */
  lemma FracReads(n: nat)
    requires n < 100
    ensures |ZeroPad(n, 2)| == 2 && ReadDigits(ZeroPad(n, 2)) == Some(n)
  {
    ValueOfZeroPad(n, 2);
    DigitsOfSmall(n);
    ReadDigitsValue(ZeroPad(n, 2));
  }

  /** The unsigned part of a money text, grouping spaces included, reads back as its value. */
  lemma GroupedReads(whole: nat, frac: nat)
    requires frac < 100
    ensures ParseUnsigned(Group(Digits(whole), ' ') + "." + ZeroPad(frac, 2)) == Some(whole * 100 + frac)
  {
    WholeReads(whole);
    FracReads(frac);
    ParseUnsignedOfParts(Group(Digits(whole), ' '), ZeroPad(frac, 2), whole, frac);
  }

  /** The same without grouping. */
  lemma UngroupedReads(whole: nat, frac: nat)
    requires frac < 100
    ensures ParseUnsigned(Digits(whole) + "." + ZeroPad(frac, 2)) == Some(whole * 100 + frac)
  {
    WholeReads(whole);
    FracReads(frac);
    ParseUnsignedOfParts(Digits(whole), ZeroPad(frac, 2), whole, frac);
  }

  /** Sign, grouped whole part, point and two decimals read back as the signed amount. */
  lemma SignedReads(negative: bool, a: nat)
    ensures ParseAmount(Sign(negative) + Group(Digits(a / 100), ' ') + "." + ZeroPad(a % 100, 2))
            == Some(if negative then -(a as int) else a)
  {
    var whole, frac := a / 100, a % 100;
    assert whole * 100 + frac == a;
    GroupedReads(whole, frac);
    WholeReads(whole);
    ParseSigned(negative, Group(Digits(whole), ' '), ZeroPad(frac, 2), a);
  }

  /** Every printed money amount reads back as the amount it came from. */
  lemma MoneyTextRoundTrip(cents: int)
    ensures ParseAmount(MoneyText(cents)) == Some(cents)
  {
    MoneyTextShape(cents);
    SignedReads(cents < 0, if cents < 0 then -cents else cents);
  }

  /** The ungrouped two-decimal form reads back as well. */
  lemma Fixed2RoundTrip(hundredths: int)
    ensures ParseAmount(Fixed2(hundredths, false)) == Some(hundredths)
  {
    var a := if hundredths < 0 then -hundredths else hundredths;
    var whole, frac := a / 100, a % 100;
    assert whole * 100 + frac == a;
    UngroupedReads(whole, frac);
    WholeReads(whole);
    ParseSigned(hundredths < 0, Digits(whole), ZeroPad(frac, 2), a);
  }

  lemma {:induction false} GroupWithout(c: char, ds: string, sep: char)
    requires c !in ds && c != sep
    ensures c !in Group(ds, sep)
    decreases |ds|
  {
    if |ds| > 3 {
      var hi := ds[..|ds| - 3];
      assert forall i :: 0 <= i < |hi| ==> hi[i] == ds[i];
      GroupWithout(c, hi, sep);
      var lo := ds[|ds| - 3..];
      assert forall i :: 0 <= i < |lo| ==> lo[i] == ds[|ds| - 3 + i];
    }
  }

  /** Formatted amounts hold only digits, the sign, the point and the grouping character. */
  lemma Fixed2Without(c: char, h: int, grouped: bool)
    requires !IsDigit(c) && c != '-' && c != '.' && c != ','
    ensures c !in Fixed2(h, grouped)
  {
    var a := if h < 0 then -h else h;
    DigitsHaveNoSeparator(Digits(a / 100), c);
    DigitsHaveNoSeparator(ZeroPad(a % 100, 2), c);
    GroupWithout(c, Digits(a / 100), ',');
  }

  lemma MoneyTextWithout(c: char, cents: int)
    requires !IsDigit(c) && c != '-' && c != '.' && c != ',' && c != ' '
    ensures c !in MoneyText(cents)
  {
    Fixed2Without(c, cents, true);
  }

  /** Money texts: grouping by a space, a leading minus, zero-padded cents. */
  lemma MoneyTextExamples()
    ensures MoneyText(123450) == "1 234.50"
    ensures MoneyText(-5) == "-0.05"
    ensures MoneyText(3825) == "38.25"
    ensures MoneyText(1175) == "11.75"
  {
    MoneyTextGrouped();
    MoneyTextNegative();
    MoneyTextSmall();
  }

  lemma DigitsOf1234()
    ensures Digits(1234) == "1234"
  {
    assert Digits(1) == "1";
    assert Digits(12) == "12";
    assert Digits(123) == "123";
  }

  lemma MoneyTextGrouped()
    ensures MoneyText(123450) == "1 234.50"
  {
    MoneyTextShape(123450);
    DigitsOf1234();
    assert Group("1234", ' ') == "1 234";
    assert ZeroPad(50, 2) == "50" by {
      assert Digits(50) == "50";
    }
  }

  lemma MoneyTextNegative()
    ensures MoneyText(-5) == "-0.05"
  {
    MoneyTextShape(-5);
    assert Digits(0) == "0" && ZeroPad(5, 2) == "05";
  }

  lemma MoneyTextSmall()
    ensures MoneyText(3825) == "38.25"
    ensures MoneyText(1175) == "11.75"
  {
    MoneyTextShape(3825);
    assert Digits(38) == "38" && Digits(25) == "25";
    MoneyTextShape(1175);
    assert Digits(11) == "11" && Digits(75) == "75";
  }
}
