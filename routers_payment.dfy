/**
 * The payment router's order life cycle: a buyer opens a pending order for a
 * file that is for sale, and completing a pending order marks it completed and
 * counts one more transaction for the month. Amounts and earnings are not kept.
 */
module PaymentRouter {
  import opened Errors
  import opened Schema
  import opened Db

  /** `file.isPaid && file.price`: a nonzero flag and a nonempty price. */
  predicate ForSale(file: File)
    ensures !ForSale(file) <==> file.isPaid == 0 || file.price.None? || file.price == Some("")
  {
    file.isPaid != 0 && file.price.Some? && file.price.value != ""
  }

  /**
   * The "already own" check of createOrder, as written: it looks up the order
   * whose id equals the file's id, whoever bought it.
   */
  predicate OwnedAsChecked(orders: map<int, PaymentOrder>, fileId: int) {
    fileId in orders && orders[fileId].status == Completed
  }

  /** The check misses a completed purchase of a file whose order id differs from the file id. */
  lemma OwnershipCheckMissesPurchase(orders: map<int, PaymentOrder>, orderId: int, fileId: int)
    requires orderId in orders && orders[orderId].fileId == fileId && orders[orderId].status == Completed
    requires fileId !in orders
    ensures !OwnedAsChecked(orders, fileId)
    ensures exists id :: id in orders && orders[id].fileId == fileId && orders[id].status == Completed
  {
  }

  /** payment.createOrder: a pending order by the caller, sold by the file's uploader. */
  method CreateOrder(db: Store, caller: int, fileId: int, paymentMethod: PaymentMethod) returns (r: Result<int>)
    requires db.Valid() && caller in db.users
    modifies db`orders, db`nextOrderId
    ensures db.Valid()
    ensures fileId !in db.files ==> r == Err(Error(NotFound, "File not found"))
    ensures fileId in db.files && !ForSale(db.files[fileId]) ==> r == Err(Error(BadRequest, "This file is not for sale"))
    ensures fileId in db.files && ForSale(db.files[fileId]) && OwnedAsChecked(old(db.orders), fileId) ==>
      r == Err(Error(BadRequest, "You already own this file"))
    ensures r.Ok? <==> fileId in db.files && ForSale(db.files[fileId]) && !OwnedAsChecked(old(db.orders), fileId)
    ensures r.Ok? ==> r.value == old(db.nextOrderId)
    ensures r.Ok? ==>
      db.orders == old(db.orders)[r.value := PaymentOrder(fileId, caller, db.files[fileId].uploaderId, paymentMethod, Pending, None)]
    ensures r.Err? ==> db.orders == old(db.orders)
  {
    if fileId !in db.files {
      return Err(Error(NotFound, "File not found"));
    }
    var file := db.files[fileId];
    if !ForSale(file) {
      return Err(Error(BadRequest, "This file is not for sale"));
    }
    var existing := db.GetPaymentOrder(fileId);
    if existing.Some? && existing.value.status == Completed {
      return Err(Error(BadRequest, "You already own this file"));
    }
    var orderId := db.CreatePaymentOrder(PaymentOrder(fileId, caller, file.uploaderId, paymentMethod, Pending, None));
    r := Ok(orderId);
  }

  /** payment.getOrder: only the buyer or the seller sees an order. */
  method GetOrder(db: Store, caller: int, orderId: int) returns (r: Result<PaymentOrder>)
    ensures orderId !in db.orders ==> r == Err(Error(NotFound, "Order not found"))
    ensures orderId in db.orders && db.orders[orderId].buyerId != caller && db.orders[orderId].sellerId != caller ==>
      r == Err(Error(Forbidden, "Not authorized to view this order"))
    ensures r.Ok? <==> orderId in db.orders && (db.orders[orderId].buyerId == caller || db.orders[orderId].sellerId == caller)
    ensures r.Ok? ==> r.value == db.orders[orderId]
  {
    var order := db.GetPaymentOrder(orderId);
    if order.None? {
      return Err(Error(NotFound, "Order not found"));
    }
    if order.value.buyerId != caller && order.value.sellerId != caller {
      return Err(Error(Forbidden, "Not authorized to view this order"));
    }
    r := Ok(order.value);
  }

  /** The month's transaction count after one more completed order (a missing month counts 0). */
  function CountAfterOne(counts: map<string, int>, month: string): int {
    (if month in counts then counts[month] else 0) + 1
  }

  /**
   * payment.completeOrder: a pending order becomes completed with its
   * transaction id, and the month counts one more transaction.
   */
  method CompleteOrder(db: Store, orderId: int, transactionId: string, month: string) returns (r: Result<Success>)
    requires db.Valid()
    modifies db`orders, db`transactionCounts
    ensures db.Valid()
    ensures orderId !in old(db.orders) ==> r == Err(Error(NotFound, "Order not found"))
    ensures orderId in old(db.orders) && old(db.orders)[orderId].status != Pending ==>
      r == Err(Error(BadRequest, "Order is not pending"))
    ensures r.Ok? <==> orderId in old(db.orders) && old(db.orders)[orderId].status == Pending
    ensures r.Ok? ==>
      && db.orders == old(db.orders)[orderId := old(db.orders)[orderId].(status := Completed, transactionId := Some(transactionId))]
      && db.transactionCounts == old(db.transactionCounts)[month := CountAfterOne(old(db.transactionCounts), month)]
    ensures r.Err? ==> db.orders == old(db.orders) && db.transactionCounts == old(db.transactionCounts)
  {
    var order := db.GetPaymentOrder(orderId);
    if order.None? {
      return Err(Error(NotFound, "Order not found"));
    }
    if order.value.status != Pending {
      return Err(Error(BadRequest, "Order is not pending"));
    }
    db.UpdatePaymentOrder(orderId, Completed, transactionId);
    var count := if month in db.transactionCounts then db.transactionCounts[month] else 0;
    db.SetTransactionCount(month, count + 1);
    r := Ok(Success);
  }

  /** Completing the same order twice: the second call fails and counts nothing. */
  method CompleteTwice(db: Store, orderId: int, transactionId: string, month: string)
    returns (first: Result<Success>, second: Result<Success>)
    requires db.Valid()
    modifies db`orders, db`transactionCounts
    ensures db.Valid()
    ensures second == if orderId in old(db.orders) then Err(Error(BadRequest, "Order is not pending"))
                      else Err(Error(NotFound, "Order not found"))
    ensures first.Err? ==> db.transactionCounts == old(db.transactionCounts)
    ensures first.Ok? ==>
      db.transactionCounts == old(db.transactionCounts)[month := CountAfterOne(old(db.transactionCounts), month)]
  {
    first := CompleteOrder(db, orderId, transactionId, month);
    second := CompleteOrder(db, orderId, transactionId, month);
  }
}
