/**
 * Receipt entities and the amounts derived from them.  Money is counted in
 * integer cents, so line totals, the receipt total and the change ("rest")
 * are exact.
 */
module Domain {
  import opened Wrappers

  /**
   * A payment type.  The service stores whatever string the caller sent, so
   * besides the two enumerated values any other string can occur.
   */
  datatype PaymentType = Cash | Card | Other(name: string)

  /** The string a payment type stands for (`PaymentType` is a `str` enum). */
  function TypeName(t: PaymentType): string {
    match t
    case Cash => "cash"
    case Card => "card"
    case Other(n) => n
  }

  /** Only one representation per string: `Other` never spells an enumerated value. */
  predicate Canonical(t: PaymentType) {
    t.Other? ==> t.name != "cash" && t.name != "card"
  }

  /** The payment type a raw string denotes; comparison is exact and case-sensitive. */
  function ParseType(s: string): (t: PaymentType)
    ensures Canonical(t)
    ensures TypeName(t) == s
    ensures t == Cash <==> s == "cash"
    ensures t == Card <==> s == "card"
  {
    if s == "cash" then Cash else if s == "card" then Card else Other(s)
  }

  lemma ParseTypeName(t: PaymentType)
    requires Canonical(t)
    ensures ParseType(TypeName(t)) == t
  {
  }

  /** A product line: name, unit price in cents, quantity. */
  datatype Product = Product(name: string, price: int, quantity: int)

  /** `ProductEntity.total` */
  function LineTotal(p: Product): (t: int)
    ensures p.price >= 0 && p.quantity >= 0 ==> t >= 0
    ensures p.quantity == 0 ==> t == 0
  {
    p.price * p.quantity
  }

  /** A payment: amount in cents and type. */
  datatype Payment = Payment(amount: int, kind: PaymentType)

  /** A wall-clock time, to the second. */
  datatype Timestamp = Timestamp(year: nat, month: nat, day: nat, hour: nat, minute: nat, second: nat)

  /** `a >= b` on timestamps: lexicographic on year, month, day, hour, minute, second. */
  predicate NotBefore(a: Timestamp, b: Timestamp) {
    if a.year != b.year then a.year > b.year
    else if a.month != b.month then a.month > b.month
    else if a.day != b.day then a.day > b.day
    else if a.hour != b.hour then a.hour > b.hour
    else if a.minute != b.minute then a.minute > b.minute
    else a.second >= b.second
  }

  /**
   * `NotBefore` is a total order: reflexive, antisymmetric, transitive and
   * total, as `datetime`'s `>=` is on times to the second.
   */
  lemma NotBeforeIsTotalOrder(a: Timestamp, b: Timestamp, c: Timestamp)
    ensures NotBefore(a, a)
    ensures NotBefore(a, b) && NotBefore(b, a) ==> a == b
    ensures NotBefore(a, b) && NotBefore(b, c) ==> NotBefore(a, c)
    ensures NotBefore(a, b) || NotBefore(b, a)
  {
  }

  /** The public identifier (a UUID, as a number). */
  type PublicId = nat

  /**
   * `ReceiptEntity`.  `total` and `rest` are stored fields, filled in by
   * `CalculateTotal`; the identifiers and the creation time are absent
   * until the receipt has been saved.
   */
  datatype Receipt = Receipt(
    userId: int,
    products: seq<Product>,
    payment: Payment,
    total: int,
    rest: int,
    id: Option<nat>,
    publicId: Option<PublicId>,
    createdAt: Option<Timestamp>)

  /** Python's `sum` of the line totals: a left fold starting at 0. */
  function SumTotals(ps: seq<Product>): int {
    if |ps| == 0 then 0 else SumTotals(ps[..|ps| - 1]) + LineTotal(ps[|ps| - 1])
  }

  /** The change due: amount minus total for cash, 0 for every other type. */
  function RestFor(payment: Payment, total: int): (rest: int)
    ensures payment.kind == Cash ==> total + rest == payment.amount
    ensures payment.kind != Cash ==> rest == 0
  {
    if payment.kind == Cash then payment.amount - total else 0
  }

  /** The two rules every computed receipt satisfies. */
  predicate TotalsConsistent(r: Receipt) {
    r.total == SumTotals(r.products) && r.rest == RestFor(r.payment, r.total)
  }

  /** `ReceiptEntity.calculate_total` */
  function CalculateTotal(r: Receipt): (c: Receipt)
    ensures c.total == SumTotals(r.products)
    ensures r.payment.kind == Cash ==> c.rest == r.payment.amount - c.total
    ensures r.payment.kind != Cash ==> c.rest == 0
    ensures TotalsConsistent(c)
    // nothing but total and rest changes
    ensures c.userId == r.userId && c.products == r.products && c.payment == r.payment
    ensures c.id == r.id && c.publicId == r.publicId && c.createdAt == r.createdAt
  {
    var total := SumTotals(r.products);
    r.(total := total, rest := RestFor(r.payment, total))
  }

  /** A second `calculate_total` changes nothing. */
  lemma CalculateTotalIdempotent(r: Receipt)
    ensures CalculateTotal(CalculateTotal(r)) == CalculateTotal(r)
  {
  }

  /** Receipts that already satisfy the rules are fixed points of `calculate_total`. */
  lemma CalculateTotalFixesConsistent(r: Receipt)
    requires TotalsConsistent(r)
    ensures CalculateTotal(r) == r
  {
  }

  lemma {:induction false} SumTotalsConcat(a: seq<Product>, b: seq<Product>)
    ensures SumTotals(a + b) == SumTotals(a) + SumTotals(b)
    decreases |b|
  {
    if |b| == 0 {
      assert a + b == a;
    } else {
      var b' := b[..|b| - 1];
      assert (a + b)[..|a + b| - 1] == a + b';
      SumTotalsConcat(a, b');
    }
  }

  lemma SplitAround<T>(s: seq<T>, j: nat)
    requires j < |s|
    ensures s == (s[..j] + [s[j]]) + s[j + 1..]
  {
  }

  lemma SumTotalsSingleton(p: Product)
    ensures SumTotals([p]) == LineTotal(p)
  {
    assert [p][..0] == [];
  }

  lemma SumTotalsRemove(ps: seq<Product>, j: nat)
    requires j < |ps|
    ensures SumTotals(ps) == SumTotals(ps[..j] + ps[j + 1..]) + LineTotal(ps[j])
  {
    var pre, mid, post := ps[..j], [ps[j]], ps[j + 1..];
    SplitAround(ps, j);
    calc {
      SumTotals(ps);
    == { SumTotalsConcat(pre + mid, post); }
      SumTotals(pre + mid) + SumTotals(post);
    == { SumTotalsConcat(pre, mid); SumTotalsSingleton(ps[j]); }
      SumTotals(pre) + LineTotal(ps[j]) + SumTotals(post);
    == { SumTotalsConcat(pre, post); }
      SumTotals(pre + post) + LineTotal(ps[j]);
    }
  }

  lemma MultisetRemove(qs: seq<Product>, j: nat)
    requires j < |qs|
    ensures multiset(qs[..j] + qs[j + 1..]) == multiset(qs) - multiset{qs[j]}
  {
    assert qs == qs[..j] + [qs[j]] + qs[j + 1..];
    assert multiset(qs) == multiset(qs[..j]) + multiset{qs[j]} + multiset(qs[j + 1..]);
  }

  /** The last product of `ps` occurs in any reordering `qs`. */
  lemma FindLast(ps: seq<Product>, qs: seq<Product>) returns (j: nat)
    requires |ps| > 0 && multiset(ps) == multiset(qs)
    ensures j < |qs| && qs[j] == ps[|ps| - 1]
  {
    var last := ps[|ps| - 1];
    assert last in multiset(ps);
    var k :| 0 <= k < |qs| && qs[k] == last;
    j := k;
  }

  /** Taking the last product of `ps` and a matching one out of `qs` keeps the two reorderings of each other. */
  lemma RemoveMatched(ps: seq<Product>, qs: seq<Product>, j: nat)
    requires |ps| > 0 && multiset(ps) == multiset(qs)
    requires j < |qs| && qs[j] == ps[|ps| - 1]
    ensures multiset(ps[..|ps| - 1]) == multiset(qs[..j] + qs[j + 1..])
  {
    var n := |ps| - 1;
    MultisetRemove(ps, n);
    MultisetRemove(qs, j);
    assert ps[..n] + ps[n + 1..] == ps[..n];
  }

  /** The total does not depend on the order of the products. */
  lemma {:induction false} SumTotalsPermutation(ps: seq<Product>, qs: seq<Product>)
    requires multiset(ps) == multiset(qs)
    ensures SumTotals(ps) == SumTotals(qs)
    decreases |ps|
  {
    if |ps| > 0 {
      var n := |ps| - 1;
      var j := FindLast(ps, qs);
      var rest := qs[..j] + qs[j + 1..];
      RemoveMatched(ps, qs, j);
      SumTotalsPermutation(ps[..n], rest);
      SumTotalsRemove(qs, j);
    } else {
      assert |qs| == |multiset(qs)| == 0;
    }
  }

  /** Reordering the products leaves `calculate_total`'s total and rest unchanged. */
  lemma CalculateTotalOrderIndependent(r: Receipt, ps: seq<Product>)
    requires multiset(ps) == multiset(r.products)
    ensures CalculateTotal(r.(products := ps)).total == CalculateTotal(r).total
    ensures CalculateTotal(r.(products := ps)).rest == CalculateTotal(r).rest
  {
    SumTotalsPermutation(ps, r.products);
  }

  /** Products with non-negative prices and quantities add up to a non-negative total. */
  lemma {:induction false} SumTotalsNonNegative(ps: seq<Product>)
    requires forall i :: 0 <= i < |ps| ==> ps[i].price >= 0 && ps[i].quantity >= 0
    ensures SumTotals(ps) >= 0
    decreases |ps|
  {
    if |ps| > 0 {
      SumTotalsNonNegative(ps[..|ps| - 1]);
    }
  }
}
