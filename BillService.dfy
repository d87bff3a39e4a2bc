/**
 * BillService: creating a bill deducts stock line by line, in request order, inside one
 * transaction, so that either every deduction and the new bill are committed or nothing is.
 */
module BillService {
  import opened Common
  import opened Entities
  import opened Repositories

  /** One requested line: product id and quantity (validated as at least 1 at the boundary). */
  datatype BillDetailRequest = BillDetailRequest(productId: ProductId, quantity: int)

  /**
   * The exceptions createBill raises: the IllegalArgumentExceptions, each by the value its
   * message is built from ("User not found with ID: " + id, "Product not found with ID: " + id,
   * "Product is inactive: " + name, the stock message of subtractStock), and the persistence
   * failure of a bill with two lines for one product.
   */
  datatype BillError =
    | UserNotFound(userId: UserId)
    | ProductNotFound(productId: ProductId)
    | ProductInactive(name: string)
    | NotEnoughStock
    | DuplicateLineKey

  /** One iteration of the loop of createBill, applied to the product rows. */
  function Step(rows: map<ProductId, ProductRow>, request: BillDetailRequest): Result<map<ProductId, ProductRow>, BillError>
  {
    if request.productId !in rows then Err(ProductNotFound(request.productId))
    else
      var row := rows[request.productId];
      if !row.active then Err(ProductInactive(row.name))
      else if !row.HasStock(request.quantity) then Err(NotEnoughStock)
      else Ok(rows[request.productId := row.(stock := row.stock - request.quantity)])
  }

  /** The loop of createBill: the requests in order, stopping at the first one that fails. */
  function ApplyLines(rows: map<ProductId, ProductRow>, requests: seq<BillDetailRequest>): Result<map<ProductId, ProductRow>, BillError>
    decreases |requests|
  {
    if requests == [] then Ok(rows)
    else
      match ApplyLines(rows, requests[..|requests| - 1])
      case Err(e) => Err(e)
      case Ok(before) => Step(before, requests[|requests| - 1])
  }

  /** The bill lines built from the requests, one per request and in the same order. */
  function LinesOf(requests: seq<BillDetailRequest>): (lines: seq<BillLine>)
    ensures |lines| == |requests|
    ensures forall k :: 0 <= k < |requests| ==>
              lines[k].productId == requests[k].productId && lines[k].quantity == requests[k].quantity
  {
    seq(|requests|, k requires 0 <= k < |requests| => BillLine(requests[k].productId, requests[k].quantity))
  }

  /** The total quantity the requests ask of one product. */
  function QuantityOf(requests: seq<BillDetailRequest>, id: ProductId): int
    decreases |requests|
  {
    if requests == [] then 0
    else
      var last := requests[|requests| - 1];
      QuantityOf(requests[..|requests| - 1], id) + (if last.productId == id then last.quantity else 0)
  }

  /** An independent statement of when a request list can be served. */
  ghost predicate Feasible(rows: map<ProductId, ProductRow>, requests: seq<BillDetailRequest>)
  {
    forall k :: 0 <= k < |requests| ==>
      && requests[k].productId in rows
      && rows[requests[k].productId].active
      && QuantityOf(requests, requests[k].productId) <= rows[requests[k].productId].stock
  }

  /** Once a prefix of the requests has failed, the whole list fails with the same error. */
  lemma {:induction false} ApplyLinesErrExtends(rows: map<ProductId, ProductRow>, requests: seq<BillDetailRequest>, k: nat)
    requires k <= |requests| && ApplyLines(rows, requests[..k]).Err?
    ensures ApplyLines(rows, requests) == ApplyLines(rows, requests[..k])
    decreases |requests| - k
  {
    if k == |requests| {
      assert requests[..k] == requests;
    } else {
      var init := requests[..|requests| - 1];
      assert init[..k] == requests[..k];
      ApplyLinesErrExtends(rows, init, k);
    }
  }

  /** The loop changes only stock: same products, and every other column as it was. */
  lemma {:induction false} ApplyLinesOnlyStock(rows: map<ProductId, ProductRow>, requests: seq<BillDetailRequest>)
    requires ApplyLines(rows, requests).Ok?
    ensures var after := ApplyLines(rows, requests).value;
            after.Keys == rows.Keys &&
            forall id :: id in rows ==> after[id] == rows[id].(stock := after[id].stock)
    decreases |requests|
  {
    if requests != [] {
      ApplyLinesOnlyStock(rows, requests[..|requests| - 1]);
    }
  }

  /** On success each product's stock has dropped by the total quantity requested of it. */
  lemma {:induction false} ApplyLinesDeductsTotals(rows: map<ProductId, ProductRow>, requests: seq<BillDetailRequest>)
    requires ApplyLines(rows, requests).Ok?
    ensures var after := ApplyLines(rows, requests).value;
            forall id :: id in rows ==> id in after && after[id].stock == rows[id].stock - QuantityOf(requests, id)
    decreases |requests|
  {
    if requests != [] {
      ApplyLinesDeductsTotals(rows, requests[..|requests| - 1]);
    }
  }

  /** No product ever goes below zero: each deduction is guarded by hasStock. */
  lemma {:induction false} ApplyLinesKeepsStockNonNegative(rows: map<ProductId, ProductRow>, requests: seq<BillDetailRequest>)
    requires forall id :: id in rows ==> rows[id].stock >= 0
    requires ApplyLines(rows, requests).Ok?
    ensures var after := ApplyLines(rows, requests).value;
            forall id :: id in after ==> after[id].stock >= 0
    decreases |requests|
  {
    if requests != [] {
      ApplyLinesKeepsStockNonNegative(rows, requests[..|requests| - 1]);
    }
  }

  lemma QuantityOfNonNegative(requests: seq<BillDetailRequest>, id: ProductId)
    requires forall k :: 0 <= k < |requests| ==> requests[k].quantity >= 0
    ensures QuantityOf(requests, id) >= 0
    decreases |requests|
  {
    if requests != [] {
      QuantityOfNonNegative(requests[..|requests| - 1], id);
    }
  }

  /**
   * With non-negative quantities the loop succeeds exactly when every product exists, is active
   * and has at least the total quantity requested of it: repeated lines of one product are
   * checked against the stock already reduced by the earlier ones.
   */
  lemma {:induction false} ApplyLinesSucceedsIffFeasible(rows: map<ProductId, ProductRow>, requests: seq<BillDetailRequest>)
    requires forall k :: 0 <= k < |requests| ==> requests[k].quantity >= 0
    ensures ApplyLines(rows, requests).Ok? <==> Feasible(rows, requests)
    decreases |requests|
  {
    if requests != [] {
      var n := |requests| - 1;
      var init, last := requests[..n], requests[n];
      assert forall k :: 0 <= k < n ==> init[k] == requests[k];
      ApplyLinesSucceedsIffFeasible(rows, init);
      if Feasible(rows, requests) {
        forall k | 0 <= k < n
          ensures QuantityOf(init, init[k].productId) <= rows[init[k].productId].stock
        {
          assert QuantityOf(requests, init[k].productId) >= QuantityOf(init, init[k].productId);
        }
        assert Feasible(rows, init);
        ApplyLinesDeductsTotals(rows, init);
        ApplyLinesOnlyStock(rows, init);
        assert QuantityOf(requests, last.productId) <= rows[last.productId].stock;
      }
      if ApplyLines(rows, requests).Ok? {
        assert ApplyLines(rows, init).Ok?;
        ApplyLinesDeductsTotals(rows, init);
        ApplyLinesOnlyStock(rows, init);
        var before := ApplyLines(rows, init).value;
        assert last.productId in before && before[last.productId].active;
        assert before[last.productId].stock >= last.quantity;
        forall k | 0 <= k < |requests|
          ensures requests[k].productId in rows && rows[requests[k].productId].active
          ensures QuantityOf(requests, requests[k].productId) <= rows[requests[k].productId].stock
        {
          if k < n {
            assert init[k] == requests[k];
            var id := requests[k].productId;
            if id != last.productId {
              QuantityOfNonNegative(init, id);
            }
          }
        }
      }
    }
  }

  /**
   * The loop fails with `e` exactly when some line fails with `e` against the stock left by
   * all the lines before it, which all succeeded: the first failing line decides the error.
   */
  lemma {:induction false} ApplyLinesFailsAtFirstBadLine(rows: map<ProductId, ProductRow>, requests: seq<BillDetailRequest>, e: BillError)
    ensures ApplyLines(rows, requests) == Err(e) <==>
            exists k :: 0 <= k < |requests| && ApplyLines(rows, requests[..k]).Ok? &&
                        Step(ApplyLines(rows, requests[..k]).value, requests[k]) == Err(e)
    decreases |requests|
  {
    if requests != [] {
      var n := |requests| - 1;
      var init := requests[..n];
      ApplyLinesFailsAtFirstBadLine(rows, init, e);
      assert forall k :: 0 <= k <= n ==> init[..k] == requests[..k];
      if ApplyLines(rows, requests) == Err(e) {
        if ApplyLines(rows, init).Ok? {
          assert requests[..n] == init;
        } else {
          var k :| 0 <= k < n && ApplyLines(rows, init[..k]).Ok? &&
                   Step(ApplyLines(rows, init[..k]).value, init[k]) == Err(e);
          assert requests[k] == init[k];
        }
      }
      if exists k :: 0 <= k < |requests| && ApplyLines(rows, requests[..k]).Ok? &&
                     Step(ApplyLines(rows, requests[..k]).value, requests[k]) == Err(e) {
        var k :| 0 <= k < |requests| && ApplyLines(rows, requests[..k]).Ok? &&
                 Step(ApplyLines(rows, requests[..k]).value, requests[k]) == Err(e);
        if k < n {
          assert init[k] == requests[k];
          assert ApplyLines(rows, init) == Err(e);
        } else {
          assert requests[..k] == init;
        }
      }
    }
  }

  /** Stock 5 and two lines of 3 for the same product: the second line fails and nothing is sold. */
  lemma OverOrderingOneProductFails(name: string, price: real)
    ensures var rows := map[1 := ProductRow(name, price, 5, true)];
            ApplyLines(rows, [BillDetailRequest(1, 3), BillDetailRequest(1, 3)]) == Err(NotEnoughStock) &&
            ApplyLines(rows, [BillDetailRequest(1, 6)]) == Err(NotEnoughStock) &&
            ApplyLines(rows, [BillDetailRequest(1, 3), BillDetailRequest(1, 2)]) == Ok(map[1 := ProductRow(name, price, 0, true)])
  {
    var rows := map[1 := ProductRow(name, price, 5, true)];
    var first := [BillDetailRequest(1, 3)];
    assert first[..0] == [];
    var left := rows[1 := rows[1].(stock := 2)];
    assert left == map[1 := ProductRow(name, price, 2, true)];
    assert ApplyLines(rows, first) == Ok(left);
    assert [BillDetailRequest(1, 3), BillDetailRequest(1, 3)][..1] == first;
    var ok := [BillDetailRequest(1, 3), BillDetailRequest(1, 2)];
    assert ok[..1] == first;
    var empty := left[1 := left[1].(stock := 0)];
    assert empty == map[1 := ProductRow(name, price, 0, true)];
    assert ApplyLines(rows, ok) == Ok(empty);
    assert [BillDetailRequest(1, 6)][..0] == [];
  }

  /**
   * One iteration of the loop of createBill against the store: look the product up, reject an
   * inactive one, then subtractStock. `failure` is the exception raised, if any; a failing line
   * leaves every product row as it was.
   */
  method ProcessLine(db: Database, request: BillDetailRequest) returns (failure: Option<BillError>)
    requires db.Valid()
    modifies db.products.Values
    ensures failure.None? ==> Step(old(db.Rows()), request) == Ok(db.Rows())
    ensures failure.Some? ==> Step(old(db.Rows()), request) == Err(failure.value) && db.Rows() == old(db.Rows())
  {
    if request.productId !in db.products {
      return Some(ProductNotFound(request.productId));
    }
    var product := db.products[request.productId];
    if !product.active {
      return Some(ProductInactive(product.name));
    }
    ghost var before := db.Rows();
    var enough := product.SubtractStock(request.quantity);
    if !enough {
      return Some(NotEnoughStock);
    }
    ghost var row := before[request.productId];
    assert db.Rows() == before[request.productId := row.(stock := row.stock - request.quantity)];
    return None;
  }

  /**
   * The loop of createBill with its rollback: every request in order, and at the first failing
   * one every stock is put back as it was before the loop. On success `lines` holds one bill
   * line per request.
   */
  method DeductAll(db: Database, details: seq<BillDetailRequest>) returns (failure: Option<BillError>, lines: seq<BillLine>)
    requires db.Valid()
    modifies db.products.Values
    ensures failure.None? ==> ApplyLines(old(db.Rows()), details) == Ok(db.Rows()) && lines == LinesOf(details)
    ensures failure.Some? ==> ApplyLines(old(db.Rows()), details) == Err(failure.value) && db.Rows() == old(db.Rows())
  {
    var snapshot := db.Rows();
    lines := [];
    var i := 0;
    while i < |details|
      invariant 0 <= i <= |details|
      invariant ApplyLines(snapshot, details[..i]) == Ok(db.Rows())
      invariant lines == LinesOf(details[..i])
    {
      assert details[..i + 1][..i] == details[..i];
      failure := ProcessLine(db, details[i]);
      if failure.Some? {
        ApplyLinesOnlyStock(snapshot, details[..i]);
        db.RestoreStock(snapshot);
        ApplyLinesErrExtends(snapshot, details, i + 1);
        return;
      }
      lines := lines + [BillLine(details[i].productId, details[i].quantity)];
      i := i + 1;
    }
    assert details[..i] == details;
    return None, lines;
  }

  /**
   * What createBill returns for a known user: the error of the loop; else, when two lines share
   * a key, the failure of the save; else the id of the new bill.
   */
  function Outcome(applied: Result<map<ProductId, ProductRow>, BillError>, distinct: bool, id: BillId): Result<BillId, BillError>
  {
    match applied
    case Err(e) => Err(e)
    case Ok(_) => if distinct then Ok(id) else Err(DuplicateLineKey)
  }

  /**
   * createBill. An unknown user fails before any product is looked up. Otherwise the requests
   * are applied in order; the first failing one aborts the call, and so does a failing save of
   * a bill with two lines for one product. An aborted call rolls the transaction back (no
   * bill, every stock as before). On success the new bill belongs to the user, is active,
   * carries one line per request, and every deduction is committed.
   */
  method CreateBill(db: Database, userId: UserId, details: seq<BillDetailRequest>, now: int) returns (r: Result<BillId, BillError>)
    requires db.Valid()
    modifies db, db.products.Values
    ensures db.Valid()
    ensures db.products == old(db.products) && db.users == old(db.users) && db.roles == old(db.roles)
    ensures userId !in old(db.users) ==> r == Err(UserNotFound(userId))
    ensures userId in old(db.users) ==>
              r == Outcome(ApplyLines(old(db.Rows()), details), DistinctKeys(LinesOf(details)), old(db.nextBillId))
    ensures r.Err? ==> db.Rows() == old(db.Rows()) && db.bills == old(db.bills)
    ensures r.Ok? ==> db.Rows() == ApplyLines(old(db.Rows()), details).value
    ensures r.Ok? ==> db.bills == old(db.bills)[r.value := Bill(now, true, Some(userId), LinesOf(details))]
  {
    if userId !in db.users {
      return Err(UserNotFound(userId));
    }
    var snapshot := db.Rows();
    var failure, lines := DeductAll(db, details);
    if failure.Some? {
      return Err(failure.value);
    }
    var id := db.SaveBill(Bill(now, true, Some(userId), lines));
    if id.None? {
      ApplyLinesOnlyStock(snapshot, details);
      db.RestoreStock(snapshot);
      return Err(DuplicateLineKey);
    }
    return Ok(id.value);
  }

  /** softDelete: the flag update of the bill table; no product row is touched. */
  method SoftDelete(db: Database, billId: BillId)
    requires db.Valid()
    modifies db
    ensures db.Valid()
    ensures db.bills == SoftDeletedBills(old(db.bills), billId)
    ensures db.products == old(db.products) && db.Rows() == old(db.Rows())
    ensures db.users == old(db.users) && db.roles == old(db.roles)
  {
    db.SoftDeleteBill(billId);
  }
}
