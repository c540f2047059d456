/**
 * The persisted shape of a receipt: one `receipt` row with its
 * `receipt_product` rows.  The database itself is modelled as the sequence
 * of receipt rows in their storage order.
 */
module Records {
  import opened Domain

  /** A `receipt_product` row; `total` is the line total computed at save time. */
  datatype StoredProduct = StoredProduct(name: string, price: int, quantity: int, total: int)

  /**
   * A `receipt` row.  The primary key, the public identifier and the
   * creation time are always present once a row exists.
   */
  datatype Record = Record(
    id: nat,
    publicId: PublicId,
    userId: int,
    createdAt: Timestamp,
    total: int,
    rest: int,
    paymentType: PaymentType,
    paymentAmount: int,
    products: seq<StoredProduct>)

  type Store = seq<Record>

  /** The primary key and the unique public identifier each name at most one row. */
  predicate WellFormed(s: Store) {
    forall i, j :: 0 <= i < j < |s| ==> s[i].id != s[j].id && s[i].publicId != s[j].publicId
  }

  predicate PublicIdUsed(s: Store, pid: PublicId) {
    exists i :: 0 <= i < |s| && s[i].publicId == pid
  }
}
