/**
 * The fixed-width receipt renderer: a pure function from a receipt and a
 * line width to text.  `RenderEntries` builds the renderer's list of
 * entries, each kept as the physical lines it spans (a product's name entry
 * may span several); `Render` joins them with newlines as the renderer does.
 */
module Formatting {
  import opened Text
  import opened Money
  import opened WordWrap
  import opened Domain
  import opened Wrappers

  const Merchant: string := "ФОП Джонсонюк Борис"
  const Thanks: string := "Дякуємо за покупку!"
  const TotalLabel: string := "СУМА"
  const CardLabel: string := "Картка"
  const CashLabel: string := "Готівка"
  const RestLabel: string := "Решта"

  /** Why rendering stops: a name with no words (an `IndexError`), or no creation time. */
  datatype RenderError = NameHasNoWords | NoTimestamp

  /** The unpadded quantity/price text: `f"{quantity:.2f} x {price:,.2f}".replace(",", " ")`. */
  function QuantityPriceText(quantity: int, price: int): string {
    Replace(Fixed2(quantity * 100, false) + " x " + Fixed2(price, true), ',', ' ')
  }

  /**
   * `format_quantity_price_line`: the quantity/price text padded (never
   * cut) to the width.
   */
  function QuantityPriceLine(quantity: int, price: int, width: nat): string {
    LJust(QuantityPriceText(quantity, price), width)
  }

  /**
   * The quantity/price line reads: the quantity with two decimals and no
   * grouping, " x ", the price in money form; both numbers read back.
   */
  lemma QuantityPriceLineReads(quantity: int, price: int, width: nat)
    ensures var r := QuantityPriceLine(quantity, price, width);
            var q := Fixed2(quantity * 100, false);
            var p := MoneyText(price);
            && |r| == Max(|q| + 3 + |p|, width)
            && r[..|q| + 3 + |p|] == q + " x " + p
            && AllChar(r[|q| + 3 + |p|..], ' ')
            && ParseAmount(r[..|q|]) == Some(quantity * 100)
            && ParseAmount(r[|q| + 3..|q| + 3 + |p|]) == Some(price)
  {
    var q := Fixed2(quantity * 100, false);
    var p := Fixed2(price, true);
    var text := QuantityPriceText(quantity, price);
    ReplaceConcat(q + " x ", p, ',', ' ');
    ReplaceConcat(q, " x ", ',', ' ');
    ReplaceAbsent(" x ", ',', ' ');
    Fixed2HasNoComma(quantity * 100);
    ReplaceAbsent(q, ',', ' ');
    assert text == q + " x " + MoneyText(price);
    var r := QuantityPriceLine(quantity, price, width);
    LJustPads(text, width);
    assert r[..|text|] == text;
    assert r[..|q|] == q;
    assert r[|q| + 3..|text|] == MoneyText(price);
    Fixed2RoundTrip(quantity * 100);
    MoneyTextRoundTrip(price);
  }

  lemma Fixed2HasNoComma(h: int)
    ensures ',' !in Fixed2(h, false)
  {
    var a := if h < 0 then -h else h;
    DigitsHaveNoSeparator(Digits(a / 100), ',');
    DigitsHaveNoSeparator(ZeroPad(a % 100, 2), ',');
  }

  /**
   * `caption.ljust(W // 2) + value.rjust(W // 2)`: the two half-width columns
   * of a name's last line and of each totals line.
   */
  function TwoColumns(left: string, right: string, width: nat): (r: string)
    ensures |r| == Max(|left|, width / 2) + Max(|right|, width / 2)
    ensures r[..|left|] == left
    ensures r[|r| - |right|..] == right
  {
    Halves(left, right, width / 2)
  }

  /** The two columns of `TwoColumns`, each `half` characters wide. */
  function Halves(left: string, right: string, half: nat): (r: string)
    ensures |r| == Max(|left|, half) + Max(|right|, half)
    ensures r[..|left|] == left
    ensures r[|r| - |right|..] == right
  {
    var l := LJust(left, half);
    var v := RJust(right, half);
    Glue(left, right, l, v, half);
    l + v
  }

  /** Gluing a left-justified and a right-justified column keeps both texts at the ends. */
  lemma Glue(left: string, right: string, l: string, v: string, half: nat)
    requires |l| == Max(|left|, half) && l[..|left|] == left
    requires |v| == Max(|right|, half) && v[|v| - |right|..] == right
    ensures |l + v| == Max(|left|, half) + Max(|right|, half)
    ensures (l + v)[..|left|] == left
    ensures (l + v)[|l + v| - |right|..] == right
  {
    assert (l + v)[..|left|] == l[..|left|];
    assert (l + v)[|l + v| - |right|..] == v[|v| - |right|..];
  }

  /** When both halves fit, the gap between them is all spaces. */
  lemma TwoColumnsFit(left: string, right: string, width: nat)
    requires |left| <= width / 2 && |right| <= width / 2
    ensures TwoColumns(left, right, width) == left + Repeat(' ', 2 * (width / 2) - |left| - |right|) + right
  {
    HalvesFit(left, right, width / 2);
  }

  lemma HalvesFit(left: string, right: string, h: nat)
    requires |left| <= h && |right| <= h
    ensures Halves(left, right, h) == left + Repeat(' ', 2 * h - |left| - |right|) + right
  {
    var a, b := h - |left|, h - |right|;
    assert PadLength(|left|, h) == a && PadLength(|right|, h) == b;
    RepeatAdd(' ', a, b);
    assert (left + Repeat(' ', a)) + (Repeat(' ', b) + right) == left + (Repeat(' ', a) + Repeat(' ', b)) + right;
  }

  /** `format_total`: a caption on the left, an amount in money form on the right. */
  function TotalLine(caption: string, value: int, width: nat): string {
    TwoColumns(caption, MoneyText(value), width)
  }

  /**
   * A totals line starts with its caption and ends with the amount, which
   * reads back exactly; when both halves fit it is `2 * (W // 2)` long.
   */
  lemma TotalLineReads(caption: string, value: int, width: nat)
    ensures var r := TotalLine(caption, value, width);
            && |caption| <= |r| && r[..|caption|] == caption
            && |MoneyText(value)| <= |r|
            && ParseAmount(r[|r| - |MoneyText(value)|..]) == Some(value)
            && (|caption| <= width / 2 && |MoneyText(value)| <= width / 2 ==> |r| == 2 * (width / 2))
  {
    MoneyTextRoundTrip(value);
    ColumnsRead(caption, MoneyText(value), value, TotalLine(caption, value, width), width);
  }

  /** What a two-column line with a money amount on the right gives back. */
  lemma ColumnsRead(left: string, m: string, value: int, r: string, width: nat)
    requires r == TwoColumns(left, m, width)
    requires ParseAmount(m) == Some(value)
    ensures && |left| <= |r| && r[..|left|] == left
            && |m| <= |r|
            && ParseAmount(r[|r| - |m|..]) == Some(value)
            && (|left| <= width / 2 && |m| <= width / 2 ==> |r| == 2 * (width / 2))
  {
    assert r[|r| - |m|..] == m;
    BothFitLength(|left|, |m|, width / 2);
  }

  /** Two columns that both fit their half make a line of exactly two halves. */
  lemma BothFitLength(a: nat, b: nat, h: nat)
    ensures a <= h && b <= h ==> Max(a, h) + Max(b, h) == 2 * h
  {
  }

  /** The caption of the payment line: "Картка" exactly for card, "Готівка" for anything else. */
  function PaymentLabel(kind: PaymentType): (caption: string)
    ensures caption == CardLabel <==> kind == Card
    ensures caption == CashLabel <==> kind != Card
  {
    if kind == Card then CardLabel else CashLabel
  }

  /**
   * `format_product_name_line` before its final join: the wrapped name
   * lines, the last one laid out like a totals line with the line total in
   * the right column.  A name without words leaves nothing to put the total
   * on, which is the renderer's `IndexError`.
   */
  function NameLines(name: string, total: int, width: nat): (r: Result<seq<string>, RenderError>)
    ensures r.Err? <==> Words(name) == []
    ensures r.Err? ==> r.error == NameHasNoWords
    ensures r.Ok? ==>
              var wrapped := Wrap(Words(name), width / 2);
              && |r.value| == |wrapped| > 0
              && r.value[..|r.value| - 1] == wrapped[..|wrapped| - 1]
              && r.value[|r.value| - 1] == TotalLine(wrapped[|wrapped| - 1], total, width)
  {
    var lines := Wrap(Words(name), width / 2);
    WrapFacts(Words(name), width / 2);
    if |lines| == 0 then Err(NameHasNoWords)
    else Ok(lines[..|lines| - 1] + [TotalLine(lines[|lines| - 1], total, width)])
  }

  /** `created_at.strftime("%d.%m.%Y %H:%M")` */
  function TimestampText(t: Timestamp): string {
    ZeroPad(t.day, 2) + "." + ZeroPad(t.month, 2) + "." + ZeroPad(t.year, 4)
    + " " + ZeroPad(t.hour, 2) + ":" + ZeroPad(t.minute, 2)
  }

  /**
   * For in-range fields the creation time prints as `dd.mm.YYYY HH:MM`:
   * sixteen characters, each field zero-padded and reading back as itself.
   */
  lemma TimestampTextReads(t: Timestamp)
    requires t.day < 100 && t.month < 100 && t.year < 10000 && t.hour < 100 && t.minute < 100
    ensures var r := TimestampText(t);
            && |r| == 16
            && r[2] == '.' && r[5] == '.' && r[10] == ' ' && r[13] == ':'
            && AllDigits(r[0..2]) && Value(r[0..2]) == t.day
            && AllDigits(r[3..5]) && Value(r[3..5]) == t.month
            && AllDigits(r[6..10]) && Value(r[6..10]) == t.year
            && AllDigits(r[11..13]) && Value(r[11..13]) == t.hour
            && AllDigits(r[14..16]) && Value(r[14..16]) == t.minute
  {
    TimestampFields(t, TimestampText(t));
  }

  /** Where the five fields of a `dd.mm.YYYY HH:MM` text sit. */
  lemma TimestampFieldsAt(d: string, mo: string, y: string, h: string, mi: string)
    requires |d| == 2 && |mo| == 2 && |y| == 4 && |h| == 2 && |mi| == 2
    ensures var r := d + "." + mo + "." + y + " " + h + ":" + mi;
            && |r| == 16
            && r[2] == '.' && r[5] == '.' && r[10] == ' ' && r[13] == ':'
            && r[0..2] == d && r[3..5] == mo && r[6..10] == y && r[11..13] == h && r[14..16] == mi
  {
  }

  lemma PaddedWidths(t: Timestamp)
    requires t.day < 100 && t.month < 100 && t.year < 10000 && t.hour < 100 && t.minute < 100
    ensures |ZeroPad(t.day, 2)| == 2 && |ZeroPad(t.month, 2)| == 2 && |ZeroPad(t.year, 4)| == 4
    ensures |ZeroPad(t.hour, 2)| == 2 && |ZeroPad(t.minute, 2)| == 2
  {
    DigitsOfSmall(t.day);
    DigitsOfSmall(t.month);
    DigitsOfSmall(t.hour);
    DigitsOfSmall(t.minute);
    DigitsOfYear(t.year);
  }

  lemma TimestampFields(t: Timestamp, r: string)
    requires t.day < 100 && t.month < 100 && t.year < 10000 && t.hour < 100 && t.minute < 100
    requires r == ZeroPad(t.day, 2) + "." + ZeroPad(t.month, 2) + "." + ZeroPad(t.year, 4)
                  + " " + ZeroPad(t.hour, 2) + ":" + ZeroPad(t.minute, 2)
    ensures |r| == 16
    ensures r[2] == '.' && r[5] == '.' && r[10] == ' ' && r[13] == ':'
    ensures r[0..2] == ZeroPad(t.day, 2) && r[3..5] == ZeroPad(t.month, 2)
    ensures r[6..10] == ZeroPad(t.year, 4)
    ensures r[11..13] == ZeroPad(t.hour, 2) && r[14..16] == ZeroPad(t.minute, 2)
    ensures Value(r[0..2]) == t.day && Value(r[3..5]) == t.month && Value(r[6..10]) == t.year
    ensures Value(r[11..13]) == t.hour && Value(r[14..16]) == t.minute
  {
    PaddedWidths(t);
    TimestampFieldsAt(ZeroPad(t.day, 2), ZeroPad(t.month, 2), ZeroPad(t.year, 4), ZeroPad(t.hour, 2), ZeroPad(t.minute, 2));
    ValueOfZeroPad(t.day, 2);
    ValueOfZeroPad(t.month, 2);
    ValueOfZeroPad(t.year, 4);
    ValueOfZeroPad(t.hour, 2);
    ValueOfZeroPad(t.minute, 2);
  }

  lemma DigitsBelow1000(n: nat)
    requires n < 1000
    ensures |Digits(n)| <= 3
  {
    if n >= 10 {
      var m := n / 10;
      assert m < 100;
      DigitsOfSmall(m);
      assert Digits(n) == Digits(m) + [DigitChar(n % 10)];
    }
  }

  lemma DigitsOfYear(n: nat)
    requires n < 10000
    ensures |Digits(n)| <= 4
  {
    if n >= 10 {
      var m := n / 10;
      assert m < 1000;
      DigitsBelow1000(m);
      assert Digits(n) == Digits(m) + [DigitChar(n % 10)];
    }
  }

  /** The separator between two consecutive products: `"-" * W`. */
  function ProductRule(width: nat): string {
    Repeat('-', width)
  }

  /** The full-width `"=" * W` rule. */
  function HeavyRule(width: nat): string {
    Repeat('=', width)
  }

  /**
   * The product section assembled from pre-rendered pieces: block `i` holds
   * `heads[i]`, the lines `names[i]`, and the rule unless it is the last.
   */
  function Blocks(heads: seq<string>, names: seq<seq<string>>, rule: string): (bs: seq<seq<seq<string>>>)
    requires |heads| == |names|
    ensures |bs| == |heads|
  {
    seq(|heads|, i requires 0 <= i < |heads| =>
      [[heads[i]], names[i]] + (if i == |heads| - 1 then [] else [[rule]]))
  }

  /** `n` blocks flatten to `3 * n - 1` entries, with the rule only between blocks. */
  lemma BlocksLayout(heads: seq<string>, names: seq<seq<string>>, rule: string)
    requires |heads| == |names|
    ensures var body := Flatten(Blocks(heads, names, rule));
            && |body| == (if |heads| == 0 then 0 else 3 * |heads| - 1)
            && forall i :: 0 <= i < |heads| ==>
                 && body[3 * i] == [heads[i]]
                 && body[3 * i + 1] == names[i]
                 && (i < |heads| - 1 ==> body[3 * i + 2] == [rule])
  {
    var bs := Blocks(heads, names, rule);
    assert forall b :: 0 <= b < |bs| - 1 ==> |bs[b]| == 3;
    FlattenLength(bs);
    forall i | 0 <= i < |heads|
      ensures Flatten(bs)[3 * i] == [heads[i]]
      ensures Flatten(bs)[3 * i + 1] == names[i]
      ensures i < |heads| - 1 ==> Flatten(bs)[3 * i + 2] == [rule]
    {
      FlattenAt(bs, i, 0);
      FlattenAt(bs, i, 1);
      if i < |heads| - 1 {
        FlattenAt(bs, i, 2);
      }
    }
  }

  predicate AllNamed(ps: seq<Product>) {
    forall i :: 0 <= i < |ps| ==> Words(ps[i].name) != []
  }

  /** Each product's quantity/price line. */
  function QuantityPriceLines(ps: seq<Product>, width: nat): (qs: seq<string>)
    ensures |qs| == |ps|
    ensures forall i :: 0 <= i < |ps| ==> qs[i] == QuantityPriceLine(ps[i].quantity, ps[i].price, width)
  {
    seq(|ps|, i requires 0 <= i < |ps| => QuantityPriceLine(ps[i].quantity, ps[i].price, width))
  }

  /** Each product's name lines, its line total on the last. */
  function AllNameLines(ps: seq<Product>, width: nat): (ns: seq<seq<string>>)
    requires AllNamed(ps)
    ensures |ns| == |ps|
    ensures forall i :: 0 <= i < |ps| ==> ns[i] == NameLines(ps[i].name, LineTotal(ps[i]), width).value
  {
    seq(|ps|, i requires 0 <= i < |ps| => NameLines(ps[i].name, LineTotal(ps[i]), width).value)
  }

  /** The product section, one block per product in order. */
  function ProductBlocks(ps: seq<Product>, width: nat): (bs: seq<seq<seq<string>>>)
    requires AllNamed(ps)
    ensures |bs| == |ps|
  {
    Blocks(QuantityPriceLines(ps, width), AllNameLines(ps, width), ProductRule(width))
  }

  /**
   * The product section: product `i` contributes its quantity/price line and
   * its name lines, followed by a `-` rule exactly when another product
   * comes after it, so `n` products make `3 * n - 1` entries.
   */
  lemma ProductSectionLayout(ps: seq<Product>, width: nat)
    requires AllNamed(ps)
    ensures var body := Flatten(ProductBlocks(ps, width));
            && |body| == (if |ps| == 0 then 0 else 3 * |ps| - 1)
            && forall i :: 0 <= i < |ps| ==>
                 && body[3 * i] == [QuantityPriceLine(ps[i].quantity, ps[i].price, width)]
                 && body[3 * i + 1] == NameLines(ps[i].name, LineTotal(ps[i]), width).value
                 && (i < |ps| - 1 ==> body[3 * i + 2] == [ProductRule(width)])
  {
    BlocksLayout(QuantityPriceLines(ps, width), AllNameLines(ps, width), ProductRule(width));
  }

  /** The header: the merchant's name centred, then a `=` rule. */
  function Header(width: nat): seq<seq<string>> {
    [[Center(Merchant, width)], [HeavyRule(width)]]
  }

  /**
   * The closing section, in print order: a `=` rule, the total, the payment
   * and the change lines, a `=` rule, the creation time centred and the
   * thanks centred.
   */
  function FooterLines(r: Receipt, t: Timestamp, width: nat): seq<string> {
    [ HeavyRule(width),
      TotalLine(TotalLabel, r.total, width),
      TotalLine(PaymentLabel(r.payment.kind), r.payment.amount, width),
      TotalLine(RestLabel, r.rest, width),
      HeavyRule(width),
      Center(TimestampText(t), width),
      Center(Thanks, width) ]
  }

  /** Each line as an entry of its own. */
  function Singles(lines: seq<string>): (es: seq<seq<string>>)
    ensures |es| == |lines|
    ensures forall i :: 0 <= i < |lines| ==> es[i] == [lines[i]]
  {
    seq(|lines|, i requires 0 <= i < |lines| => [lines[i]])
  }

  function Footer(r: Receipt, t: Timestamp, width: nat): seq<seq<string>> {
    Singles(FooterLines(r, t, width))
  }

  /**
   * The renderer's entries, each as the physical lines it spans.  The
   * products are laid out first, so a name without words stops rendering
   * before the missing creation time is noticed.
   */
  function RenderEntries(r: Receipt, width: nat): (res: Result<seq<seq<string>>, RenderError>)
    ensures res.Err? && res.error == NameHasNoWords <==>
              exists i :: 0 <= i < |r.products| && Words(r.products[i].name) == []
    ensures res.Err? && res.error == NoTimestamp <==> AllNamed(r.products) && r.createdAt.None?
    ensures res.Ok? ==>
              && r.createdAt.Some?
              && res.value == Header(width) + Flatten(ProductBlocks(r.products, width))
                              + Footer(r, r.createdAt.value, width)
  {
    if !AllNamed(r.products) then Err(NameHasNoWords)
    else if r.createdAt.None? then Err(NoTimestamp)
    else Ok(Header(width) + Flatten(ProductBlocks(r.products, width)) + Footer(r, r.createdAt.value, width))
  }

  /** `generate_receipt_text`: the entries joined with newlines, nothing after the last. */
  function Render(r: Receipt, width: nat): (res: Result<string, RenderError>)
    ensures res.Ok? <==> AllNamed(r.products) && r.createdAt.Some?
    ensures res.Err? ==> res.error == (if AllNamed(r.products) then NoTimestamp else NameHasNoWords)
  {
    match RenderEntries(r, width)
    case Err(e) => Err(e)
    case Ok(entries) => Ok(Join("\n", JoinEach("\n", entries)))
  }

  // ---------------------------------------------------------------------
  // The text is the physical lines joined by newlines

  lemma TotalLineNoNewline(caption: string, value: int, width: nat)
    requires '\n' !in caption
    ensures '\n' !in TotalLine(caption, value, width)
  {
    MoneyTextWithout('\n', value);
    PadWithout('\n', caption, width / 2);
    PadWithout('\n', MoneyText(value), width / 2);
  }

  lemma QuantityPriceLineNoNewline(quantity: int, price: int, width: nat)
    ensures '\n' !in QuantityPriceLine(quantity, price, width)
  {
    var q := Fixed2(quantity * 100, false);
    var p := Fixed2(price, true);
    Fixed2Without('\n', quantity * 100, false);
    Fixed2Without('\n', price, true);
    assert '\n' !in q + " x " + p;
    PadWithout('\n', QuantityPriceText(quantity, price), width);
  }

  lemma NameLinesNoNewline(name: string, total: int, width: nat)
    requires Words(name) != []
    ensures forall k :: 0 <= k < |NameLines(name, total, width).value| ==> '\n' !in NameLines(name, total, width).value[k]
  {
    var words := Words(name);
    var gs := Pack(words, width / 2);
    var wrapped := Wrap(words, width / 2);
    WrapIsJoinedPack(words, width / 2);
    PackIsGreedy(words, width / 2);
    FlattenAllWords(gs);
    forall k | 0 <= k < |wrapped|
      ensures '\n' !in wrapped[k]
    {
      assert forall j :: 0 <= j < |gs[k]| ==> IsWord(gs[k][j]);
      JoinWithout('\n', " ", gs[k]);
    }
    TotalLineNoNewline(wrapped[|wrapped| - 1], total, width);
  }

  lemma TimestampTextNoNewline(t: Timestamp)
    ensures '\n' !in TimestampText(t)
  {
    DigitsHaveNoSeparator(ZeroPad(t.day, 2), '\n');
    DigitsHaveNoSeparator(ZeroPad(t.month, 2), '\n');
    DigitsHaveNoSeparator(ZeroPad(t.year, 4), '\n');
    DigitsHaveNoSeparator(ZeroPad(t.hour, 2), '\n');
    DigitsHaveNoSeparator(ZeroPad(t.minute, 2), '\n');
  }

  /** An entry spans at least one physical line and none contains a newline. */
  predicate EntryOk(e: seq<string>) {
    |e| > 0 && forall k :: 0 <= k < |e| ==> '\n' !in e[k]
  }

  lemma HeaderOk(width: nat)
    ensures forall i :: 0 <= i < |Header(width)| ==> EntryOk(Header(width)[i])
  {
    PadWithout('\n', Merchant, width);
    HeavyRuleWithout('\n', width);
    TwoSingleLineEntriesOk(Header(width), Center(Merchant, width), HeavyRule(width));
  }

  lemma HeavyRuleWithout(c: char, width: nat)
    requires c != '='
    ensures c !in HeavyRule(width)
  {
  }

  /** Two one-line entries without newlines are well formed. */
  lemma TwoSingleLineEntriesOk(es: seq<seq<string>>, a: string, b: string)
    requires es == [[a], [b]] && '\n' !in a && '\n' !in b
    ensures forall i :: 0 <= i < |es| ==> EntryOk(es[i])
  {
  }

  lemma LabelsHaveNoNewline(kind: PaymentType)
    ensures '\n' !in Thanks && '\n' !in TotalLabel && '\n' !in RestLabel
    ensures '\n' !in PaymentLabel(kind)
  {
  }

  /** A character missing from each of seven lines is missing from every line of their list. */
  lemma AbsentFromSevenLines(c: char, a0: string, a1: string, a2: string, a3: string, a4: string, a5: string, a6: string)
    requires c !in a0 && c !in a1 && c !in a2 && c !in a3 && c !in a4 && c !in a5 && c !in a6
    ensures forall i :: 0 <= i < 7 ==> c !in [a0, a1, a2, a3, a4, a5, a6][i]
  {
  }

  lemma FooterLinesOk(r: Receipt, t: Timestamp, width: nat)
    ensures forall i :: 0 <= i < |FooterLines(r, t, width)| ==> '\n' !in FooterLines(r, t, width)[i]
  {
    LabelsHaveNoNewline(r.payment.kind);
    PadWithout('\n', Thanks, width);
    TimestampTextNoNewline(t);
    PadWithout('\n', TimestampText(t), width);
    TotalLineNoNewline(TotalLabel, r.total, width);
    TotalLineNoNewline(PaymentLabel(r.payment.kind), r.payment.amount, width);
    TotalLineNoNewline(RestLabel, r.rest, width);
    var a1 := TotalLine(TotalLabel, r.total, width);
    var a2 := TotalLine(PaymentLabel(r.payment.kind), r.payment.amount, width);
    var a3 := TotalLine(RestLabel, r.rest, width);
    var a5 := Center(TimestampText(t), width);
    var a6 := Center(Thanks, width);
    AbsentFromSevenLines('\n', HeavyRule(width), a1, a2, a3, HeavyRule(width), a5, a6);
    assert FooterLines(r, t, width) == [HeavyRule(width), a1, a2, a3, HeavyRule(width), a5, a6];
  }

  lemma SinglesOk(lines: seq<string>)
    requires forall i :: 0 <= i < |lines| ==> '\n' !in lines[i]
    ensures forall i :: 0 <= i < |Singles(lines)| ==> EntryOk(Singles(lines)[i])
  {
  }

  lemma FooterOk(r: Receipt, t: Timestamp, width: nat)
    ensures forall i :: 0 <= i < |Footer(r, t, width)| ==> EntryOk(Footer(r, t, width)[i])
  {
    FooterLinesOk(r, t, width);
    SinglesOk(FooterLines(r, t, width));
  }

  /** Blocks built from newline-free lines hold only well-formed entries. */
  lemma BlocksOk(heads: seq<string>, names: seq<seq<string>>, rule: string)
    requires |heads| == |names|
    requires forall i :: 0 <= i < |heads| ==> '\n' !in heads[i] && EntryOk(names[i])
    requires '\n' !in rule
    ensures forall i :: 0 <= i < |Flatten(Blocks(heads, names, rule))| ==> EntryOk(Flatten(Blocks(heads, names, rule))[i])
  {
    var bs := Blocks(heads, names, rule);
    forall b, j | 0 <= b < |bs| && 0 <= j < |bs[b]|
      ensures EntryOk(bs[b][j])
    {
    }
    FlattenAll(bs, EntryOk);
  }

  lemma RuleWithout(c: char, width: nat)
    requires c != '-'
    ensures c !in ProductRule(width)
  {
  }

  lemma BodyOk(ps: seq<Product>, width: nat)
    requires AllNamed(ps)
    ensures forall i :: 0 <= i < |Flatten(ProductBlocks(ps, width))| ==> EntryOk(Flatten(ProductBlocks(ps, width))[i])
  {
    var qs := QuantityPriceLines(ps, width);
    var ns := AllNameLines(ps, width);
    forall i | 0 <= i < |ps|
      ensures '\n' !in qs[i] && EntryOk(ns[i])
    {
      QuantityPriceLineNoNewline(ps[i].quantity, ps[i].price, width);
      NameLinesNoNewline(ps[i].name, LineTotal(ps[i]), width);
    }
    RuleWithout('\n', width);
    BlocksOk(qs, ns, ProductRule(width));
  }

  lemma ConcatAll<T>(a: seq<T>, b: seq<T>, c: seq<T>, p: T -> bool)
    requires forall i :: 0 <= i < |a| ==> p(a[i])
    requires forall i :: 0 <= i < |b| ==> p(b[i])
    requires forall i :: 0 <= i < |c| ==> p(c[i])
    ensures forall i :: 0 <= i < |a + b + c| ==> p((a + b + c)[i])
  {
  }

  /** Every entry spans at least one line and no line contains a newline. */
  lemma EntriesWellFormed(r: Receipt, width: nat)
    requires AllNamed(r.products) && r.createdAt.Some?
    ensures forall i :: 0 <= i < |RenderEntries(r, width).value| ==> EntryOk(RenderEntries(r, width).value[i])
  {
    HeaderOk(width);
    BodyOk(r.products, width);
    FooterOk(r, r.createdAt.value, width);
    ConcatAll(Header(width), Flatten(ProductBlocks(r.products, width)), Footer(r, r.createdAt.value, width), EntryOk);
  }

  /** Well-formed entries joined entry by entry are their lines joined, and split back into them. */
  lemma JoinedEntries(es: seq<seq<string>>)
    requires |es| > 0
    requires forall i :: 0 <= i < |es| ==> EntryOk(es[i])
    ensures Join("\n", JoinEach("\n", es)) == Join("\n", Flatten(es))
    ensures SplitOn(Join("\n", Flatten(es)), '\n') == Flatten(es)
  {
    JoinJoined("\n", es);
    FlattenAll(es, (l: string) => '\n' !in l);
    assert Flatten(es) == es[0] + Flatten(es[1..]);
    SplitOnJoin(Flatten(es), '\n');
  }

  /**
   * The rendered text is the physical lines joined by single newlines, with
   * no newline after the last; splitting it on newlines gives the lines back.
   */
  lemma RenderIsJoinedLines(r: Receipt, width: nat)
    requires AllNamed(r.products) && r.createdAt.Some?
    ensures var lines := Flatten(RenderEntries(r, width).value);
            && Render(r, width) == Ok(Join("\n", lines))
            && SplitOn(Render(r, width).value, '\n') == lines
  {
    var es := RenderEntries(r, width).value;
    EntriesWellFormed(r, width);
    assert es[0] == Header(width)[0];
    JoinedEntries(es);
  }

  /** One-line entries flatten back to their lines. */
  lemma {:induction false} FlattenSingles(lines: seq<string>)
    ensures Flatten(Singles(lines)) == lines
    decreases |lines|
  {
    if |lines| > 0 {
      assert Singles(lines)[1..] == Singles(lines[1..]);
      FlattenSingles(lines[1..]);
    }
  }

  /** The slip's lines: the header's two, the product section's, then the footer's seven. */
  lemma SlipLines(r: Receipt, width: nat)
    requires AllNamed(r.products) && r.createdAt.Some?
    ensures SplitOn(Render(r, width).value, '\n')
         == [Center(Merchant, width), HeavyRule(width)]
            + Flatten(Flatten(ProductBlocks(r.products, width)))
            + FooterLines(r, r.createdAt.value, width)
  {
    var body := Flatten(ProductBlocks(r.products, width));
    var foot := FooterLines(r, r.createdAt.value, width);
    RenderIsJoinedLines(r, width);
    assert RenderEntries(r, width).value == Header(width) + body + Singles(foot);
    FlattenThree(Header(width), body, Singles(foot));
    FlattenPair(Center(Merchant, width), HeavyRule(width));
    FlattenSingles(foot);
  }

  lemma FlattenThree<T>(a: seq<seq<T>>, b: seq<seq<T>>, c: seq<seq<T>>)
    ensures Flatten(a + b + c) == Flatten(a) + Flatten(b) + Flatten(c)
  {
    FlattenConcat(a + b, c);
    FlattenConcat(a, b);
  }

  lemma FlattenPair<T>(x: T, y: T)
    ensures Flatten([[x], [y]]) == [x, y]
  {
    var xs: seq<seq<T>> := [[x], [y]];
    assert xs[1..] == [[y]] && [[y]][1..] == [];
    assert Flatten([[y]]) == [y] + Flatten([]);
    assert Flatten(xs) == [x] + Flatten([[y]]);
  }

  /** Where the pieces of `[a, b] + body + foot` sit, for a seven-line `foot`. */
  lemma PiecesAt(lines: seq<string>, a: string, b: string, body: seq<string>, foot: seq<string>)
    requires lines == [a, b] + body + foot && |foot| == 7
    ensures |lines| >= 9
    ensures lines[0] == a && lines[1] == b && lines[2 .. |lines| - 7] == body
    ensures lines[|lines| - 7] == foot[0] && lines[|lines| - 6] == foot[1]
    ensures lines[|lines| - 5] == foot[2] && lines[|lines| - 4] == foot[3]
    ensures lines[|lines| - 3] == foot[4] && lines[|lines| - 2] == foot[5]
    ensures lines[|lines| - 1] == foot[6]
  {
  }

  /**
   * The printed slip, line by line: the merchant centred and a `=` rule;
   * then the product section; then a `=` rule, the total, payment and
   * change lines, a `=` rule, the creation time centred and the thanks
   * centred.
   */
  lemma RenderedSlip(r: Receipt, width: nat)
    requires AllNamed(r.products) && r.createdAt.Some?
    ensures var lines := SplitOn(Render(r, width).value, '\n');
            && |lines| >= 9
            && lines[0] == Center(Merchant, width)
            && lines[1] == HeavyRule(width)
            && lines[2 .. |lines| - 7] == Flatten(Flatten(ProductBlocks(r.products, width)))
            && lines[|lines| - 7] == HeavyRule(width)
            && lines[|lines| - 6] == TotalLine(TotalLabel, r.total, width)
            && lines[|lines| - 5] == TotalLine(PaymentLabel(r.payment.kind), r.payment.amount, width)
            && lines[|lines| - 4] == TotalLine(RestLabel, r.rest, width)
            && lines[|lines| - 3] == HeavyRule(width)
            && lines[|lines| - 2] == Center(TimestampText(r.createdAt.value), width)
            && lines[|lines| - 1] == Center(Thanks, width)
  {
    SlipLines(r, width);
    PiecesAt(SplitOn(Render(r, width).value, '\n'), Center(Merchant, width), HeavyRule(width),
             Flatten(Flatten(ProductBlocks(r.products, width))), FooterLines(r, r.createdAt.value, width));
  }

  /** The total and change lines of the test suite's cash receipt on a 32-column slip. */
  lemma TotalsLinesExample()
    ensures TotalLine(TotalLabel, 3825, 32) == TotalLabel + Repeat(' ', 23) + "38.25"
    ensures TotalLine(RestLabel, 1175, 32) == RestLabel + Repeat(' ', 22) + "11.75"
  {
    MoneyTextExamples();
    TwoColumnsFit(TotalLabel, "38.25", 32);
    TwoColumnsFit(RestLabel, "11.75", 32);
  }
}
