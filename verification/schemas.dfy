/**
 * The request body of receipt creation and its field constraints.  Raw
 * fields are optional, since a client may omit any of them; validation
 * either yields complete data or rejects the request.
 */
module Schemas {
  import opened Wrappers

  datatype ProductFields = ProductFields(name: Option<string>, price: Option<int>, quantity: Option<int>)
  datatype PaymentFields = PaymentFields(amount: Option<int>, kind: Option<string>)
  datatype ReceiptFields = ReceiptFields(products: Option<seq<ProductFields>>, payment: Option<PaymentFields>)

  /** Validated data; amounts in cents. */
  datatype ProductData = ProductData(name: string, price: int, quantity: int)
  datatype PaymentData = PaymentData(amount: int, kind: string)
  datatype ReceiptData = ReceiptData(products: seq<ProductData>, payment: PaymentData)

  /** `ProductCreateSchema`: a price of at least zero and a positive quantity. */
  predicate ValidProduct(p: ProductData) {
    p.price >= 0 && p.quantity > 0
  }

  /** `PaymentSchema`: a positive amount; the type may be any string. */
  predicate ValidPayment(p: PaymentData) {
    p.amount > 0
  }

  /** `ReceiptCreateSchema`: any number of products, including none. */
  predicate Valid(d: ReceiptData) {
    (forall i :: 0 <= i < |d.products| ==> ValidProduct(d.products[i])) && ValidPayment(d.payment)
  }

  function ValidateProduct(f: ProductFields): (r: Option<ProductData>)
    ensures r.Some? <==> f.name.Some? && f.price.Some? && f.quantity.Some? && f.price.value >= 0 && f.quantity.value > 0
    ensures r.Some? ==> ValidProduct(r.value)
  {
    if f.name.Some? && f.price.Some? && f.quantity.Some? && f.price.value >= 0 && f.quantity.value > 0
    then Some(ProductData(f.name.value, f.price.value, f.quantity.value))
    else None
  }

  function ValidatePayment(f: PaymentFields): (r: Option<PaymentData>)
    ensures r.Some? <==> f.amount.Some? && f.kind.Some? && f.amount.value > 0
    ensures r.Some? ==> ValidPayment(r.value)
  {
    if f.amount.Some? && f.kind.Some? && f.amount.value > 0
    then Some(PaymentData(f.amount.value, f.kind.value))
    else None
  }

  /** Every entry of the list validates, in order, or the list is rejected. */
  function ValidateProducts(fs: seq<ProductFields>): (r: Option<seq<ProductData>>)
    ensures r.None? <==> exists i :: 0 <= i < |fs| && ValidateProduct(fs[i]).None?
    ensures r.Some? ==> |r.value| == |fs|
    ensures r.Some? ==> forall i :: 0 <= i < |fs| ==> ValidateProduct(fs[i]) == Some(r.value[i])
  {
    if |fs| == 0 then Some([])
    else match (ValidateProduct(fs[0]), ValidateProducts(fs[1..]))
      case (Some(p), Some(ps)) =>
        assert forall i :: 1 <= i < |fs| ==> fs[i] == fs[1..][i - 1];
        Some([p] + ps)
      case (None, _) => None
      case (_, None) =>
        var i :| 0 <= i < |fs[1..]| && ValidateProduct(fs[1..][i]).None?;
        assert ValidateProduct(fs[i + 1]).None?;
        None
  }

  /** Validation of a whole request body. */
  function Validate(f: ReceiptFields): (r: Option<ReceiptData>)
    ensures r.Some? ==> Valid(r.value)
  {
    if f.products.None? || f.payment.None? then None
    else match (ValidateProducts(f.products.value), ValidatePayment(f.payment.value))
      case (Some(ps), Some(pay)) => Some(ReceiptData(ps, pay))
      case _ => None
  }

  /** The request body that carries exactly the given data. */
  function Fields(d: ReceiptData): ReceiptFields {
    ReceiptFields(
      Some(seq(|d.products|, i requires 0 <= i < |d.products| =>
        ProductFields(Some(d.products[i].name), Some(d.products[i].price), Some(d.products[i].quantity)))),
      Some(PaymentFields(Some(d.payment.amount), Some(d.payment.kind))))
  }

  /** A complete body is accepted exactly when its data meet the constraints, and then unchanged. */
  lemma ValidateFields(d: ReceiptData)
    ensures Validate(Fields(d)) == if Valid(d) then Some(d) else None
  {
    var fs := Fields(d).products.value;
    forall i | 0 <= i < |fs|
      ensures ValidateProduct(fs[i]) == if ValidProduct(d.products[i]) then Some(d.products[i]) else None
    {
    }
    if Valid(d) {
      var r := ValidateProducts(fs);
      assert r.Some?;
      assert r.value == d.products;
    } else if !ValidPayment(d.payment) {
    } else {
      var i :| 0 <= i < |d.products| && !ValidProduct(d.products[i]);
      assert ValidateProduct(fs[i]).None?;
    }
  }

  /** Whatever is accepted came from a complete body carrying exactly the result. */
  lemma ValidateComplete(f: ReceiptFields)
    requires Validate(f).Some?
    ensures f == Fields(Validate(f).value)
  {
    var d := Validate(f).value;
    var fs := f.products.value;
    assert |Fields(d).products.value| == |fs|;
    forall i | 0 <= i < |fs|
      ensures Fields(d).products.value[i] == fs[i]
    {
      assert ValidateProduct(fs[i]) == Some(d.products[i]);
    }
    assert Fields(d).products.value == fs;
    assert ValidatePayment(f.payment.value) == Some(d.payment);
    assert Fields(d).payment.value == f.payment.value;
  }

  /** A payment without an amount is rejected. */
  lemma MissingAmountRejected(f: ReceiptFields)
    requires f.payment.Some? && f.payment.value.amount.None?
    ensures Validate(f) == None
  {
  }

  /** An empty product list is valid input. */
  lemma EmptyProductsAccepted(pay: PaymentData)
    requires ValidPayment(pay)
    ensures Validate(Fields(ReceiptData([], pay))) == Some(ReceiptData([], pay))
  {
    ValidateFields(ReceiptData([], pay));
  }
}
