/**
 * `ReceiptService`: receipt creation (build, compute totals, save) and the
 * three queries, which hand their arguments to the repository unchanged.
 */
module Service {
  import opened Wrappers
  import opened Domain
  import opened Records
  import opened Mappers
  import opened Repository
  import opened Schemas

  function ProductFrom(p: ProductData): Product {
    Product(p.name, p.price, p.quantity)
  }

  /**
   * The entity `create_receipt` builds before any computation: one product
   * per entry in input order, a single payment, and the dataclass defaults
   * (zero total and rest, no identifiers, no creation time).
   */
  function Build(d: ReceiptData, userId: int): (r: Receipt)
    ensures r.userId == userId && r.total == 0 && r.rest == 0
    ensures r.id.None? && r.publicId.None? && r.createdAt.None?
    ensures |r.products| == |d.products|
    ensures forall i :: 0 <= i < |d.products| ==> r.products[i] == ProductFrom(d.products[i])
    ensures r.payment.amount == d.payment.amount && TypeName(r.payment.kind) == d.payment.kind
  {
    Receipt(userId,
      seq(|d.products|, i requires 0 <= i < |d.products| => ProductFrom(d.products[i])),
      Payment(d.payment.amount, ParseType(d.payment.kind)),
      0, 0, None, None, None)
  }

  /**
   * `create_receipt`.  The database's fresh key, unique public identifier
   * and creation time are the store's `NextId`, the parameter `pid` and the
   * parameter `now`.
   */
  function CreateReceipt(s: Store, d: ReceiptData, userId: int, now: Timestamp, pid: PublicId)
    : (res: Result<(Store, Receipt), StoreError>)
    ensures res.Err? <==> PublicIdUsed(s, pid)
    ensures res.Ok? ==> |res.value.0| == |s| + 1 && res.value.0[..|s|] == s
    ensures res.Ok? ==>
              var r := res.value.1;
              && TotalsConsistent(r)
              && r.id == Some(NextId(s)) && r.publicId == Some(pid) && r.createdAt == Some(now)
              && r.userId == userId
              && |r.products| == |d.products|
              && (forall i :: 0 <= i < |d.products| ==> r.products[i] == ProductFrom(d.products[i]))
              && r.payment.amount == d.payment.amount && TypeName(r.payment.kind) == d.payment.kind
  {
    var e := CalculateTotal(Build(d, userId));
    SaveReturnsEntity(s, e, now, pid);
    Save(s, e, now, pid)
  }

  /** A stored row whose total and rest obey the rules of `calculate_total`. */
  predicate RecordConsistent(rec: Record) {
    TotalsConsistent(ToEntity(rec))
  }

  predicate AllConsistent(s: Store) {
    forall i :: 0 <= i < |s| ==> RecordConsistent(s[i])
  }

  /** Totals are computed before saving, so every row the service writes is consistent. */
  lemma CreateKeepsConsistent(s: Store, d: ReceiptData, userId: int, now: Timestamp, pid: PublicId)
    requires AllConsistent(s)
    requires CreateReceipt(s, d, userId, now, pid).Ok?
    ensures AllConsistent(CreateReceipt(s, d, userId, now, pid).value.0)
  {
    var res := CreateReceipt(s, d, userId, now, pid);
    var t := res.value.0;
    forall i | 0 <= i < |t|
      ensures RecordConsistent(t[i])
    {
      if i < |s| {
        assert t[i] == t[..|s|][i];
      } else {
        assert ToEntity(t[i]) == res.value.1;
      }
    }
  }

  /** The receipt just created is found by its id for its creator and by its public id for anyone. */
  lemma CreatedIsFetchable(s: Store, d: ReceiptData, userId: int, now: Timestamp, pid: PublicId)
    requires WellFormed(s)
    requires CreateReceipt(s, d, userId, now, pid).Ok?
    ensures var (t, r) := CreateReceipt(s, d, userId, now, pid).value;
            && WellFormed(t)
            && GetReceiptById(t, r.id.value, userId) == Some(r)
            && ViewReceiptByPublicId(t, pid) == Some(r)
  {
    var e := CalculateTotal(Build(d, userId));
    var (t, r) := CreateReceipt(s, d, userId, now, pid).value;
    SaveKeepsWellFormed(s, e, now, pid);
    GetByIdFinds(t, |s|);
    GetByPublicIdFinds(t, |s|);
  }

  /** Input that passed validation never produces a negative total. */
  lemma ValidInputHasNonNegativeTotal(s: Store, d: ReceiptData, userId: int, now: Timestamp, pid: PublicId)
    requires Valid(d)
    requires CreateReceipt(s, d, userId, now, pid).Ok?
    ensures CreateReceipt(s, d, userId, now, pid).value.1.total >= 0
  {
    var ps := Build(d, userId).products;
    assert forall i :: 0 <= i < |ps| ==> ps[i].price >= 0 && ps[i].quantity >= 0 by {
      forall i | 0 <= i < |ps|
        ensures ps[i].price >= 0 && ps[i].quantity >= 0
      {
        assert ValidProduct(d.products[i]);
      }
    }
    SumTotalsNonNegative(ps);
  }

  /**
   * The creation example of the test suite, in cents: 10.50 x 2 and
   * 5.75 x 3 paid with 50 in cash make a total of 38.25 and 11.75 change.
   */
  lemma CashExample(now: Timestamp, pid: PublicId)
    ensures var d := ReceiptData([ProductData("Item 1", 1050, 2), ProductData("Item 2", 575, 3)],
                                 PaymentData(5000, "cash"));
            var res := CreateReceipt([], d, 7, now, pid);
            res.Ok? && res.value.1.total == 3825 && res.value.1.rest == 1175
  {
    var d := ReceiptData([ProductData("Item 1", 1050, 2), ProductData("Item 2", 575, 3)],
                         PaymentData(5000, "cash"));
    var ps := Build(d, 7).products;
    assert ps == [Product("Item 1", 1050, 2), Product("Item 2", 575, 3)];
    assert SumTotals(ps[..1]) == 2100;
    assert SumTotals(ps) == 3825;
  }

  /** The same purchase paid by card leaves no change, whatever the amount. */
  lemma CardExample(now: Timestamp, pid: PublicId, amount: int)
    ensures var d := ReceiptData([ProductData("Item 1", 1050, 2), ProductData("Item 2", 575, 3)],
                                 PaymentData(amount, "card"));
            var res := CreateReceipt([], d, 7, now, pid);
            res.Ok? && res.value.1.total == 3825 && res.value.1.rest == 0
  {
    var d := ReceiptData([ProductData("Item 1", 1050, 2), ProductData("Item 2", 575, 3)],
                         PaymentData(amount, "card"));
    var ps := Build(d, 7).products;
    assert ps == [Product("Item 1", 1050, 2), Product("Item 2", 575, 3)];
    assert SumTotals(ps[..1]) == 2100;
    assert SumTotals(ps) == 3825;
  }

  /** `get_receipt_by_id`: the repository's answer, unchanged. */
  function GetReceiptById(s: Store, id: nat, userId: int): (res: Option<Receipt>)
    ensures res.Some? <==> exists i :: 0 <= i < |s| && s[i].id == id && s[i].userId == userId
    ensures res == GetById(s, id, userId)
  {
    GetById(s, id, userId)
  }

  /** `list_receipts`: the repository's page and count, unchanged. */
  function ListReceipts(s: Store, userId: int, limit: nat, offset: nat,
                        createdAfter: Option<Timestamp>, minimumTotal: Option<int>,
                        paymentType: Option<PaymentType>): (res: (seq<Receipt>, nat))
    ensures res.1 == CountSelected(s, Query(userId, createdAfter, minimumTotal, paymentType))
    ensures res == List(s, userId, limit, offset, createdAfter, minimumTotal, paymentType)
  {
    List(s, userId, limit, offset, createdAfter, minimumTotal, paymentType)
  }

  /** `view_receipt_by_public_id`: the repository's answer, unchanged. */
  function ViewReceiptByPublicId(s: Store, pid: PublicId): (res: Option<Receipt>)
    ensures res.Some? <==> PublicIdUsed(s, pid)
    ensures res == GetByPublicId(s, pid)
  {
    GetByPublicId(s, pid)
  }
}
