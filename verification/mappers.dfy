/** The copy from a stored row back to a receipt entity. */
module Mappers {
  import opened Wrappers
  import opened Domain
  import opened Records

  /** A product entity rebuilt from its row; the stored line total is dropped. */
  function ProductOf(sp: StoredProduct): (p: Product)
    ensures p.name == sp.name && p.price == sp.price && p.quantity == sp.quantity
    ensures LineTotal(p) == sp.price * sp.quantity
  {
    Product(sp.name, sp.price, sp.quantity)
  }

  /**
   * `map_receipt_db_to_entity`: identifiers, owner, creation time, total,
   * rest and payment are copied; products are rebuilt in row order.
   */
  function ToEntity(rec: Record): (e: Receipt)
    ensures e.id == Some(rec.id) && e.publicId == Some(rec.publicId)
    ensures e.userId == rec.userId && e.createdAt == Some(rec.createdAt)
    ensures e.total == rec.total && e.rest == rec.rest
    ensures e.payment.amount == rec.paymentAmount && e.payment.kind == rec.paymentType
    ensures |e.products| == |rec.products|
    ensures forall i :: 0 <= i < |rec.products| ==> e.products[i] == ProductOf(rec.products[i])
  {
    Receipt(
      rec.userId,
      seq(|rec.products|, i requires 0 <= i < |rec.products| => ProductOf(rec.products[i])),
      Payment(rec.paymentAmount, rec.paymentType),
      rec.total,
      rec.rest,
      Some(rec.id),
      Some(rec.publicId),
      Some(rec.createdAt))
  }

  /** Two rows that differ at most in their stored product line totals. */
  predicate SameButLineTotals(a: Record, b: Record) {
    && a.(products := []) == b.(products := [])
    && |a.products| == |b.products|
    && forall i :: 0 <= i < |a.products| ==> a.products[i].(total := 0) == b.products[i].(total := 0)
  }

  /** The stored per-product totals never reach the entity: it recomputes them. */
  lemma ToEntityIgnoresLineTotals(a: Record, b: Record)
    requires SameButLineTotals(a, b)
    ensures ToEntity(a) == ToEntity(b)
  {
    var ea, eb := ToEntity(a), ToEntity(b);
    forall i | 0 <= i < |a.products|
      ensures ea.products[i] == eb.products[i]
    {
      assert a.products[i].(total := 0).name == b.products[i].(total := 0).name;
      assert a.products[i].(total := 0).price == b.products[i].(total := 0).price;
      assert a.products[i].(total := 0).quantity == b.products[i].(total := 0).quantity;
    }
    assert ea.products == eb.products;
    assert a.userId == a.(products := []).userId;
  }
}
