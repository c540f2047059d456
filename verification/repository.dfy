/**
 * `ReceiptRepository` over an in-memory store: a sequence of rows kept in
 * insertion order, which is also the order queries without `ORDER BY`
 * return them in.
 */
module Repository {
  import opened Wrappers
  import opened Text
  import opened Domain
  import opened Records
  import opened Mappers

  datatype StoreError = DuplicatePublicId

  /** The row `save_receipt` builds from an entity; the product rows keep the line totals. */
  function ToRecord(e: Receipt, id: nat, pid: PublicId, now: Timestamp): (rec: Record)
    ensures rec.id == id && rec.publicId == pid && rec.createdAt == now
    ensures rec.userId == e.userId && rec.total == e.total && rec.rest == e.rest
    ensures rec.paymentType == e.payment.kind && rec.paymentAmount == e.payment.amount
    ensures |rec.products| == |e.products|
    ensures forall i :: 0 <= i < |e.products| ==>
              rec.products[i] == StoredProduct(e.products[i].name, e.products[i].price,
                                               e.products[i].quantity, LineTotal(e.products[i]))
  {
    Record(id, pid, e.userId, now, e.total, e.rest, e.payment.kind, e.payment.amount,
      seq(|e.products|, i requires 0 <= i < |e.products| =>
        StoredProduct(e.products[i].name, e.products[i].price, e.products[i].quantity, LineTotal(e.products[i]))))
  }

  /** Mapping a just-built row back yields the entity, now carrying its identifiers. */
  lemma SaveRoundTrip(e: Receipt, id: nat, pid: PublicId, now: Timestamp)
    ensures ToEntity(ToRecord(e, id, pid, now)) == e.(id := Some(id), publicId := Some(pid), createdAt := Some(now))
  {
    var back := ToEntity(ToRecord(e, id, pid, now));
    assert back.products == e.products;
  }

  /** The primary key the database hands out: one past the largest in use. */
  function NextId(s: Store): (n: nat)
    ensures n > 0
    ensures forall i :: 0 <= i < |s| ==> s[i].id < n
  {
    if |s| == 0 then 1 else Max(NextId(s[..|s| - 1]), s[|s| - 1].id + 1)
  }

  /**
   * `save_receipt`: the row is appended under a fresh id; a public id that
   * is already taken violates the unique constraint and nothing is stored.
   */
  function Save(s: Store, e: Receipt, now: Timestamp, pid: PublicId): (res: Result<(Store, Receipt), StoreError>)
    ensures res.Err? <==> PublicIdUsed(s, pid)
    ensures res.Ok? ==> |res.value.0| == |s| + 1 && res.value.0[..|s|] == s
    ensures res.Ok? ==> res.value.1 == ToEntity(res.value.0[|s|])
  {
    if PublicIdUsed(s, pid) then Err(DuplicatePublicId)
    else
      var rec := ToRecord(e, NextId(s), pid, now);
      assert (s + [rec])[..|s|] == s;
      Ok((s + [rec], ToEntity(rec)))
  }

  /** What `save_receipt` returns is the entity it was given, with id, public id and creation time filled in. */
  lemma SaveReturnsEntity(s: Store, e: Receipt, now: Timestamp, pid: PublicId)
    ensures Save(s, e, now, pid).Ok? ==>
              Save(s, e, now, pid).value.1 == e.(id := Some(NextId(s)), publicId := Some(pid), createdAt := Some(now))
  {
    SaveRoundTrip(e, NextId(s), pid, now);
  }

  /** Saving keeps the primary key and the public identifier unique. */
  lemma SaveKeepsWellFormed(s: Store, e: Receipt, now: Timestamp, pid: PublicId)
    requires WellFormed(s)
    requires Save(s, e, now, pid).Ok?
    ensures WellFormed(Save(s, e, now, pid).value.0)
  {
    var t := Save(s, e, now, pid).value.0;
    assert t == s + [ToRecord(e, NextId(s), pid, now)];
    forall i, j | 0 <= i < j < |t|
      ensures t[i].id != t[j].id && t[i].publicId != t[j].publicId
    {
      if j == |s| {
        assert t[i] == s[i];
      }
    }
  }

  /** The position of the first row the predicate accepts, scanning in store order. */
  function FirstMatch(s: Store, p: Record -> bool): (k: Option<nat>)
    ensures k.None? <==> forall i :: 0 <= i < |s| ==> !p(s[i])
    ensures k.Some? ==> k.value < |s| && p(s[k.value])
    ensures k.Some? ==> forall j :: 0 <= j < k.value ==> !p(s[j])
  {
    if |s| == 0 then None
    else if p(s[0]) then Some(0)
    else match FirstMatch(s[1..], p)
      case None => None
      case Some(k) => Some(k + 1)
  }

  function MatchesIdAndOwner(id: nat, userId: int): Record -> bool {
    (rec: Record) => rec.id == id && rec.userId == userId
  }

  function MatchesPublicId(pid: PublicId): Record -> bool {
    (rec: Record) => rec.publicId == pid
  }

  /**
   * `get_receipt_by_id`: a row is found only when both its id and its owner
   * match.
   */
  function GetById(s: Store, id: nat, userId: int): (res: Option<Receipt>)
    ensures res.Some? <==> exists i :: 0 <= i < |s| && s[i].id == id && s[i].userId == userId
    ensures res.Some? ==> res.value.id == Some(id) && res.value.userId == userId
    ensures res.Some? ==> exists i :: 0 <= i < |s| && res.value == ToEntity(s[i])
  {
    match FirstMatch(s, MatchesIdAndOwner(id, userId))
    case None => None
    case Some(k) => Some(ToEntity(s[k]))
  }

  /** `get_receipt_by_public_id`: matches the public identifier alone, whoever owns the row. */
  function GetByPublicId(s: Store, pid: PublicId): (res: Option<Receipt>)
    ensures res.Some? <==> PublicIdUsed(s, pid)
    ensures res.Some? ==> res.value.publicId == Some(pid)
    ensures res.Some? ==> exists i :: 0 <= i < |s| && res.value == ToEntity(s[i])
  {
    match FirstMatch(s, MatchesPublicId(pid))
    case None => None
    case Some(k) => Some(ToEntity(s[k]))
  }

  /** In a well-formed store every row is found by its id and its owner. */
  lemma GetByIdFinds(s: Store, i: nat)
    requires WellFormed(s) && i < |s|
    ensures GetById(s, s[i].id, s[i].userId) == Some(ToEntity(s[i]))
  {
    var k := FirstMatch(s, MatchesIdAndOwner(s[i].id, s[i].userId));
    assert MatchesIdAndOwner(s[i].id, s[i].userId)(s[i]);
    assert k.Some?;
    assert s[k.value].id == s[i].id;
  }

  /**
   * Owner scoping: asking for another owner's row gives the same answer as
   * asking for a row that does not exist.
   */
  lemma GetByIdOwnerScoped(s: Store, i: nat, userId: int)
    requires WellFormed(s) && i < |s| && userId != s[i].userId
    ensures GetById(s, s[i].id, userId) == None
  {
    forall j | 0 <= j < |s| && s[j].id == s[i].id
      ensures s[j].userId != userId
    {
      assert !(i < j) && !(j < i);
    }
  }

  /** In a well-formed store every row is found by its public identifier. */
  lemma GetByPublicIdFinds(s: Store, i: nat)
    requires WellFormed(s) && i < |s|
    ensures GetByPublicId(s, s[i].publicId) == Some(ToEntity(s[i]))
  {
    var k := FirstMatch(s, MatchesPublicId(s[i].publicId));
    assert MatchesPublicId(s[i].publicId)(s[i]);
    assert k.Some?;
    assert s[k.value].publicId == s[i].publicId;
  }

  /** The arguments of `list_receipts` that choose rows (pagination aside). */
  datatype Query = Query(
    userId: int,
    createdAfter: Option<Timestamp>,
    minimumTotal: Option<int>,
    paymentType: Option<PaymentType>)

  /**
   * The conditions `list_receipts` attaches, in order.  Each optional
   * argument adds its condition only when Python finds it truthy: a zero
   * minimum total and an empty payment-type string add nothing; a
   * timestamp is always truthy.
   */
  function Conditions(q: Query): seq<Record -> bool> {
    var owner := [(rec: Record) => rec.userId == q.userId];
    var after := if q.createdAfter.Some?
      then owner + [(rec: Record) => NotBefore(rec.createdAt, q.createdAfter.value)]
      else owner;
    var minimum := if q.minimumTotal.Some? && q.minimumTotal.value != 0
      then after + [(rec: Record) => rec.total >= q.minimumTotal.value]
      else after;
    if q.paymentType.Some? && TypeName(q.paymentType.value) != ""
      then minimum + [(rec: Record) => rec.paymentType == q.paymentType.value]
      else minimum
  }

  /** A conjunction of filters: every one of them accepts the row. */
  predicate AllHold(cs: seq<Record -> bool>, rec: Record) {
    forall i :: 0 <= i < |cs| ==> cs[i](rec)
  }

  /** What a query admits, stated on the four fields it looks at. */
  predicate Admits(q: Query, userId: int, createdAt: Timestamp, total: int, kind: PaymentType) {
    && userId == q.userId
    && (q.createdAfter.Some? ==> NotBefore(createdAt, q.createdAfter.value))
    && (q.minimumTotal.Some? && q.minimumTotal.value != 0 ==> total >= q.minimumTotal.value)
    && (q.paymentType.Some? && TypeName(q.paymentType.value) != "" ==> kind == q.paymentType.value)
  }

  /** What a query selects, stated directly on the row. */
  predicate Selects(q: Query, rec: Record) {
    Admits(q, rec.userId, rec.createdAt, rec.total, rec.paymentType)
  }

  /** The chained filters select exactly the rows the direct description does. */
  lemma ConditionsSelect(q: Query, rec: Record)
    ensures AllHold(Conditions(q), rec) <==> Selects(q, rec)
  {
    var cs := Conditions(q);
    assert cs[0](rec) <==> rec.userId == q.userId;
    var n := 1;
    if q.createdAfter.Some? {
      assert cs[n](rec) <==> NotBefore(rec.createdAt, q.createdAfter.value);
      n := n + 1;
    }
    if q.minimumTotal.Some? && q.minimumTotal.value != 0 {
      assert cs[n](rec) <==> rec.total >= q.minimumTotal.value;
      n := n + 1;
    }
    if q.paymentType.Some? && TypeName(q.paymentType.value) != "" {
      assert cs[n](rec) <==> rec.paymentType == q.paymentType.value;
      n := n + 1;
    }
    assert |cs| == n;
  }

  /** The rows every condition accepts, in store order. */
  function Filter(s: Store, cs: seq<Record -> bool>): (f: Store)
    ensures |f| <= |s|
    ensures forall i :: 0 <= i < |f| ==> AllHold(cs, f[i])
    ensures forall rec :: rec in f <==> rec in s && AllHold(cs, rec)
  {
    if |s| == 0 then []
    else
      var rest := Filter(s[1..], cs);
      assert forall rec :: rec in s <==> rec == s[0] || rec in s[1..];
      if AllHold(cs, s[0]) then [s[0]] + rest else rest
  }

  /** Filtering one row keeps it exactly when every condition accepts it. */
  lemma FilterSingle(rec: Record, cs: seq<Record -> bool>)
    ensures Filter([rec], cs) == if AllHold(cs, rec) then [rec] else []
  {
    assert [rec][1..] == [];
  }

  /**
   * Filtering distributes over concatenation.  With `FilterSingle` this
   * determines `Filter`: the kept rows stay in store order.
   */
  lemma {:induction false} FilterConcat(a: Store, b: Store, cs: seq<Record -> bool>)
    ensures Filter(a + b, cs) == Filter(a, cs) + Filter(b, cs)
    decreases |a|
  {
    if |a| == 0 {
      assert a + b == b;
    } else {
      assert (a + b)[0] == a[0];
      assert (a + b)[1..] == a[1..] + b;
      FilterConcat(a[1..], b, cs);
    }
  }

  /** How many rows of the store a query selects. */
  function CountSelected(s: Store, q: Query): nat {
    if |s| == 0 then 0 else (if Selects(q, s[0]) then 1 else 0) + CountSelected(s[1..], q)
  }

  /** The filtered sequence holds exactly as many rows as the query selects. */
  lemma {:induction false} FilterCounts(s: Store, q: Query)
    ensures |Filter(s, Conditions(q))| == CountSelected(s, q)
  {
    if |s| > 0 {
      ConditionsSelect(q, s[0]);
      FilterCounts(s[1..], q);
    }
  }

  /** SQL `LIMIT limit OFFSET offset` over an already filtered sequence. */
  function Paginate(f: Store, limit: nat, offset: nat): (p: Store)
    ensures |p| == Min(limit, Max(0, |f| - offset))
    ensures forall i :: 0 <= i < |p| ==> p[i] == f[offset + i]
  {
    if offset >= |f| then [] else f[offset .. Min(|f|, offset + limit)]
  }

  /** Two adjacent pages together are the page that spans both. */
  lemma PagesTile(f: Store, a: nat, b: nat, offset: nat)
    ensures Paginate(f, a, offset) + Paginate(f, b, offset + a) == Paginate(f, a + b, offset)
  {
    var p, q, pq := Paginate(f, a, offset), Paginate(f, b, offset + a), Paginate(f, a + b, offset);
    assert |p + q| == |pq|;
    forall i | 0 <= i < |pq|
      ensures (p + q)[i] == pq[i]
    {
      if i < |p| {
        assert (p + q)[i] == f[offset + i];
      } else {
        assert (p + q)[i] == q[i - |p|] == f[offset + a + (i - |p|)];
      }
    }
  }

  /** Rows mapped to entities, one for one. */
  function Entities(rs: Store): (es: seq<Receipt>)
    ensures |es| == |rs|
    ensures forall i :: 0 <= i < |rs| ==> es[i] == ToEntity(rs[i])
  {
    seq(|rs|, i requires 0 <= i < |rs| => ToEntity(rs[i]))
  }

  lemma EntitiesConcat(a: Store, b: Store)
    ensures Entities(a + b) == Entities(a) + Entities(b)
  {
  }

  /**
   * `list_receipts`: the page of entities and the number of rows the
   * filters select, counted before the page is cut.
   */
  function List(s: Store, userId: int, limit: nat, offset: nat,
                createdAfter: Option<Timestamp>, minimumTotal: Option<int>,
                paymentType: Option<PaymentType>): (res: (seq<Receipt>, nat))
    ensures res.1 == CountSelected(s, Query(userId, createdAfter, minimumTotal, paymentType))
    ensures res.1 == |Filter(s, Conditions(Query(userId, createdAfter, minimumTotal, paymentType)))|
    ensures |res.0| == Min(limit, Max(0, res.1 - offset))
    ensures forall i :: 0 <= i < |res.0| ==>
              res.0[i] == ToEntity(Filter(s, Conditions(Query(userId, createdAfter, minimumTotal, paymentType)))[offset + i])
    ensures forall i :: 0 <= i < |res.0| ==> exists j :: 0 <= j < |s| && res.0[i] == ToEntity(s[j])
    ensures forall i :: 0 <= i < |res.0| ==>
              EntityMeets(Query(userId, createdAfter, minimumTotal, paymentType), res.0[i])
  {
    var q := Query(userId, createdAfter, minimumTotal, paymentType);
    var f := Filter(s, Conditions(q));
    FilterCounts(s, q);
    var page := Paginate(f, limit, offset);
    PageSelected(s, q, limit, offset);
    var es := Entities(page);
    forall i | 0 <= i < |es|
      ensures (exists j :: 0 <= j < |s| && es[i] == ToEntity(s[j])) && EntityMeets(q, es[i])
    {
      SelectedEntity(s, q, page[i]);
    }
    (es, |f|)
  }

  /** Every row on a page is a stored row the query selects. */
  lemma PageSelected(s: Store, q: Query, limit: nat, offset: nat)
    ensures var page := Paginate(Filter(s, Conditions(q)), limit, offset);
            forall i :: 0 <= i < |page| ==> page[i] in s && Selects(q, page[i])
  {
    var f := Filter(s, Conditions(q));
    var page := Paginate(f, limit, offset);
    forall i | 0 <= i < |page|
      ensures page[i] in s && Selects(q, page[i])
    {
      assert page[i] == f[offset + i];
      ConditionsSelect(q, page[i]);
    }
  }

  /** What a listed receipt satisfies, in the receipt's own terms. */
  predicate EntityMeets(q: Query, e: Receipt) {
    e.createdAt.Some? && Admits(q, e.userId, e.createdAt.value, e.total, e.payment.kind)
  }

  lemma SelectedEntity(s: Store, q: Query, rec: Record)
    requires rec in s && Selects(q, rec)
    ensures (exists j :: 0 <= j < |s| && ToEntity(rec) == ToEntity(s[j])) && EntityMeets(q, ToEntity(rec))
  {
  }

  /**
   * Nothing selected is lost: a page starting at the first selected row and
   * long enough to hold the store contains every row the query selects.
   */
  lemma ListIsComplete(s: Store, q: Query, limit: nat, rec: Record)
    requires rec in s && Selects(q, rec) && limit >= |s|
    ensures ToEntity(rec) in List(s, q.userId, limit, 0, q.createdAfter, q.minimumTotal, q.paymentType).0
  {
    var f := Filter(s, Conditions(q));
    ConditionsSelect(q, rec);
    assert rec in f;
    var k :| 0 <= k < |f| && f[k] == rec;
    var page := List(s, q.userId, limit, 0, q.createdAfter, q.minimumTotal, q.paymentType).0;
    assert Paginate(f, limit, 0) == f;
    assert page[k] == ToEntity(rec);
  }

  /** A listed page is the filtered rows' page, mapped to entities. */
  lemma ListIsPage(s: Store, q: Query, limit: nat, offset: nat)
    ensures List(s, q.userId, limit, offset, q.createdAfter, q.minimumTotal, q.paymentType).0
         == Entities(Paginate(Filter(s, Conditions(q)), limit, offset))
  {
    FilterCounts(s, q);
  }

  /**
   * The receipts of the first `n` pages of `limit` rows each, at offsets
   * 0, limit, 2 * limit, and so on, one after another.
   */
  function Pages(s: Store, q: Query, limit: nat, n: nat): seq<Receipt> {
    if n == 0 then []
    else Pages(s, q, limit, n - 1)
         + List(s, q.userId, limit, (n - 1) * limit, q.createdAfter, q.minimumTotal, q.paymentType).0
  }

  lemma {:induction false} PagesArePrefix(s: Store, q: Query, limit: nat, n: nat)
    ensures Pages(s, q, limit, n) == Entities(Paginate(Filter(s, Conditions(q)), n * limit, 0))
  {
    var f := Filter(s, Conditions(q));
    if n == 0 {
      assert Paginate(f, 0, 0) == [];
    } else {
      var m := (n - 1) * limit;
      PagesArePrefix(s, q, limit, n - 1);
      ListIsPage(s, q, limit, m);
      MultipleSucc(n, limit);
      TileEntities(f, m, limit, n * limit);
    }
  }

  lemma TileEntities(f: Store, m: nat, limit: nat, k: nat)
    requires k == m + limit
    ensures Entities(Paginate(f, m, 0)) + Entities(Paginate(f, limit, m)) == Entities(Paginate(f, k, 0))
  {
    EntitiesConcat(Paginate(f, m, 0), Paginate(f, limit, m));
    PagesTile(f, m, limit, 0);
  }

  /** The page after `n - 1` pages of `limit` rows ends at `n * limit`. */
  lemma MultipleSucc(n: nat, limit: nat)
    requires n > 0
    ensures (n - 1) * limit + limit == n * limit
  {
  }

  /**
   * Paging through the listing loses nothing, repeats nothing and keeps the
   * order: once the pages reach the count, together they are every selected
   * row, as entities, in store order.
   */
  lemma PagesCoverSelection(s: Store, q: Query, limit: nat, n: nat)
    requires n * limit >= CountSelected(s, q)
    ensures Pages(s, q, limit, n) == Entities(Filter(s, Conditions(q)))
  {
    var f := Filter(s, Conditions(q));
    PagesArePrefix(s, q, limit, n);
    FilterCounts(s, q);
    assert Paginate(f, n * limit, 0) == f;
  }

  /** A falsy minimum total filters nothing: zero behaves as if it were absent. */
  lemma ListZeroMinimumIsNoFilter(s: Store, userId: int, limit: nat, offset: nat,
                                  createdAfter: Option<Timestamp>, paymentType: Option<PaymentType>)
    ensures List(s, userId, limit, offset, createdAfter, Some(0), paymentType)
         == List(s, userId, limit, offset, createdAfter, None, paymentType)
  {
    assert Conditions(Query(userId, createdAfter, Some(0), paymentType))
        == Conditions(Query(userId, createdAfter, None, paymentType));
  }
}
