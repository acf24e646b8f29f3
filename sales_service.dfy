/** SalesServiceImpl: the reservation / payment state machine over the catalog replica and the
    sale ledger. The clock and the payment-code generator are parameters; the notification to
    Core is an entry appended to a ghost log. */
module SalesServices {
  import opened Common
  import opened JavaText
  import opened Cars
  import opened Sales
  import opened Dto
  import opened Repositories

  /** A reservation holds the car for fifteen minutes. */
  const ReservationSeconds := 15 * 60

  /** Both stores: the catalog replica and the sale ledger with its identity counter. */
  datatype Db = Db(cars: map<int, CarRow>, sales: map<int, SaleRow>, nextSaleId: int)

  /** Every stored sale carries a payment code (the service never stores one without). */
  predicate CodesAssigned(sales: map<int, SaleRow>) {
    forall k | k in sales :: sales[k].paymentCode.Some?
  }

  /** What holds of the stores between two calls of the service. */
  predicate ServiceInvariant(db: Db) {
    CarsKeyed(db.cars) && LedgerInvariant(db.sales, db.nextSaleId) && CodesAssigned(db.sales)
  }

  /** A freshly generated payment code that no stored sale holds yet. */
  predicate CodeUnused(db: Db, code: string) {
    forall k | k in db.sales :: db.sales[k].paymentCode != Some(code)
  }

  /** A reservation that has not expired at `now`. */
  predicate ReservationActive(row: SaleRow, now: int) {
    row.status == Reserved && row.reservedUntil.Some? && row.reservedUntil.value > now
  }

  /** No sharp s or ligature upper-cases into any part of the two outcomes. */
  lemma OutcomeWordsPlain()
    ensures PlainCapitals("PAID") && PlainCapitals("CANCELED")
  {
    CapitalsWithoutSOrF("PAID");
    CapitalsWithoutSOrF("CANCELED");
  }

  /** The upper-cased webhook status, with "" for a null one. It is `PAID` or `CANCELED` exactly
      when the status spells that word in any mix of cases. */
  function StatusKey(status: Option<string>): (key: string)
    ensures status.None? ==> key == []
    ensures key == "PAID" <==> status.Some? && SpellsIgnoringCase(status.value, "PAID")
    ensures key == "CANCELED" <==> status.Some? && SpellsIgnoringCase(status.value, "CANCELED")
  {
    if status.None? then ""
    else
      OutcomeWordsPlain();
      UpperCaseMatches(status.value, "PAID");
      UpperCaseMatches(status.value, "CANCELED");
      UpperCase(status.value)
  }

  /** The two outcomes the gateway sends, spelled in capitals, are their own keys. */
  lemma StatusKeyOfOutcomes()
    ensures StatusKey(Some("PAID")) == "PAID" && StatusKey(Some("CANCELED")) == "CANCELED"
  {
    assert SpellsIgnoringCase("PAID", "PAID");
    assert SpellsIgnoringCase("CANCELED", "CANCELED");
  }

  // ---------------------------------------------------------------------------------------
  // purchase
  // ---------------------------------------------------------------------------------------

  datatype PurchaseStep = PurchaseStep(result: Result<PurchaseResponse>, after: Db)

  /** The sale purchase starts from: the stored one, or a new AVAILABLE sale at the car's price
      that will get the next generated id. */
  function SaleToReserve(db: Db, carId: int): (r: SaleRow)
    requires carId in db.cars
    ensures carId in db.sales ==> r == db.sales[carId]
    ensures carId !in db.sales ==>
      && r.id == db.nextSaleId && r.carId == carId && r.status == Available && r.lockedPrice == db.cars[carId].price
      && r.reservedUntil.None? && r.paymentCode.None? && r.buyerCpf.None? && r.soldAt.None?
  {
    if carId in db.sales then db.sales[carId]
    else SaleRow(db.nextSaleId, carId, Available, db.cars[carId].price, None, None, None, None)
  }

  /** The sale once reserved at `now` under `code`. */
  function Reserve(sale: SaleRow, now: int, code: string): (r: SaleRow)
    ensures ReservationActive(r, now) && r.paymentCode == Some(code)
    ensures r.status == Reserved && r.reservedUntil == Some(now + ReservationSeconds)
    ensures r.id == sale.id && r.carId == sale.carId && r.lockedPrice == sale.lockedPrice
    ensures r.buyerCpf == sale.buyerCpf && r.soldAt == sale.soldAt
  {
    sale.(status := Reserved, reservedUntil := Some(now + ReservationSeconds), paymentCode := Some(code))
  }

  /** purchase(carId) at instant `now` with the generated code `code`. */
  function PurchaseSpec(db: Db, carId: int, now: int, code: string): (s: PurchaseStep)
    requires ServiceInvariant(db)
    ensures ServiceInvariant(s.after)
    ensures s.result.Failure? ==> s.after == db
    ensures s.result == Failure(NotFound) <==> carId !in db.cars
    ensures s.result == Failure(Conflict) <==>
      carId in db.cars && carId in db.sales
      && (db.sales[carId].status == Paid || ReservationActive(db.sales[carId], now))
    ensures s.result.Success? ==>
      && carId in db.cars && carId in s.after.sales
      && s.after.cars == db.cars[carId := db.cars[carId].(sold := true)]
      && s.after.sales == db.sales[carId := s.after.sales[carId]]
      && s.after.sales[carId].status == Reserved
      && s.after.sales[carId].reservedUntil == Some(now + ReservationSeconds)
      && s.after.sales[carId].paymentCode == Some(code)
      && s.after.sales[carId].carId == carId
      && s.result.value == PurchaseResponse(s.after.sales[carId].id, carId, code, now + ReservationSeconds)
    ensures s.result.Success? && carId in db.sales ==>
      && s.after.sales[carId].id == db.sales[carId].id
      && s.after.sales[carId].lockedPrice == db.sales[carId].lockedPrice
      && s.after.sales[carId].buyerCpf == db.sales[carId].buyerCpf
      && s.after.sales[carId].soldAt == db.sales[carId].soldAt
      && s.after.nextSaleId == db.nextSaleId
    ensures s.result.Success? && carId !in db.sales ==>
      && s.after.sales[carId] == SaleRow(db.nextSaleId, carId, Reserved, db.cars[carId].price,
           Some(now + ReservationSeconds), Some(code), None, None)
      && s.after.nextSaleId == db.nextSaleId + 1
  {
    if carId !in db.cars then PurchaseStep(Failure(NotFound), db)
    else
      var sale := SaleToReserve(db, carId);
      if sale.status == Paid || ReservationActive(sale, now) then PurchaseStep(Failure(Conflict), db)
      else
        var row := Reserve(sale, now, code);
        if !Admits(db.sales, row) then PurchaseStep(Failure(StorageRejected), db)
        else
          var nextId := if carId in db.sales then db.nextSaleId else db.nextSaleId + 1;
          AdmittedKeepsLedger(db.sales, db.nextSaleId, row, nextId);
          PurchaseStep(Success(PurchaseResponse(row.id, carId, code, now + ReservationSeconds)),
                       Db(db.cars[carId := db.cars[carId].(sold := true)], db.sales[carId := row], nextId))
  }

  /** The successful branch of purchase, stated on its own. */
  lemma PurchaseSucceeds(db: Db, carId: int, now: int, code: string)
    requires ServiceInvariant(db) && carId in db.cars
    requires !(SaleToReserve(db, carId).status == Paid || ReservationActive(SaleToReserve(db, carId), now))
    requires Admits(db.sales, Reserve(SaleToReserve(db, carId), now, code))
    ensures var row := Reserve(SaleToReserve(db, carId), now, code);
            var nextId := if carId in db.sales then db.nextSaleId else db.nextSaleId + 1;
            PurchaseSpec(db, carId, now, code) ==
              PurchaseStep(Success(PurchaseResponse(row.id, carId, code, now + ReservationSeconds)),
                           Db(db.cars[carId := db.cars[carId].(sold := true)], db.sales[carId := row], nextId))
  {
  }

  /** A sold car, or one whose reservation has not expired, is refused without any change. */
  lemma PurchaseConflicts(db: Db, carId: int, now: int, code: string)
    requires ServiceInvariant(db) && carId in db.cars
    requires SaleToReserve(db, carId).status == Paid || ReservationActive(SaleToReserve(db, carId), now)
    ensures PurchaseSpec(db, carId, now, code) == PurchaseStep(Failure(Conflict), db)
  {
  }

  /** A reserved row the table does not accept leaves both stores as they were. */
  lemma PurchaseStorageRejected(db: Db, carId: int, now: int, code: string)
    requires ServiceInvariant(db) && carId in db.cars
    requires !(SaleToReserve(db, carId).status == Paid || ReservationActive(SaleToReserve(db, carId), now))
    requires !Admits(db.sales, Reserve(SaleToReserve(db, carId), now, code))
    ensures PurchaseSpec(db, carId, now, code) == PurchaseStep(Failure(StorageRejected), db)
  {
  }

  /** A stored sale reserved again under a code no sale holds is a row the table accepts. */
  lemma StoredSaleAdmitsUnusedCode(db: Db, carId: int, now: int, code: string)
    requires ServiceInvariant(db) && carId in db.sales && CodeUnused(db, code)
    ensures Admits(db.sales, Reserve(db.sales[carId], now, code))
  {
    assert db.sales[carId].carId == carId;
  }

  /** With a fresh code the database refuses a reservation only for a new sale whose price does
      not fit locked_price: an existing sale's row always stays admissible. */
  lemma PurchaseRejectedOnlyForUnfitPrice(db: Db, carId: int, now: int, code: string)
    requires ServiceInvariant(db) && CodeUnused(db, code)
    ensures PurchaseSpec(db, carId, now, code).result == Failure(StorageRejected) <==>
      carId in db.cars && carId !in db.sales && !LockedPriceFits(db.cars[carId].price)
  {
  }

  /** A second purchase of the same car before the reservation expires is refused. */
  lemma ReserveTwiceConflicts(db: Db, carId: int, t1: int, t2: int, c1: string, c2: string)
    requires ServiceInvariant(db)
    requires PurchaseSpec(db, carId, t1, c1).result.Success?
    requires t2 < t1 + ReservationSeconds
    ensures PurchaseSpec(PurchaseSpec(db, carId, t1, c1).after, carId, t2, c2).result == Failure(Conflict)
  {
  }

  /** Once the reservation has expired, the car can be reserved again: the same sale row, with
      its id and locked price, gets the new code. */
  lemma ExpiredReservationReclaimed(db: Db, carId: int, t1: int, t2: int, c1: string, c2: string)
    requires ServiceInvariant(db) && CodeUnused(db, c2)
    requires PurchaseSpec(db, carId, t1, c1).result.Success?
    requires t1 + ReservationSeconds <= t2
    ensures var first := PurchaseSpec(db, carId, t1, c1);
            var second := PurchaseSpec(first.after, carId, t2, c2);
            && second.result.Success?
            && second.after.sales[carId].id == first.after.sales[carId].id
            && second.after.sales[carId].lockedPrice == first.after.sales[carId].lockedPrice
            && second.after.sales[carId].paymentCode == Some(c2)
  {
    var first := PurchaseSpec(db, carId, t1, c1);
    var row := Reserve(first.after.sales[carId], t2, c2);
    assert Admits(first.after.sales, row);
  }

  // ---------------------------------------------------------------------------------------
  // handlePaymentWebhook
  // ---------------------------------------------------------------------------------------

  datatype WebhookStep = WebhookStep(outcome: Outcome, after: Db, sent: seq<CarSoldEvent>)

  /** The sale a webhook acts on: the one holding its payment code, whose car is stored. */
  ghost predicate Locates(db: Db, req: PaymentWebhookRequest, k: int) {
    FindByCode(db.sales, req.paymentCode) == Some(k) && db.sales[k].carId in db.cars
  }

  /** The sale once paid: the buyer's CPF from the request, sold at the event instant or at `now`. */
  function PaidSale(sale: SaleRow, req: PaymentWebhookRequest, now: int): (r: SaleRow)
    ensures r.status == Paid && !ReservationActive(r, now) && r.soldAt.Some?
    ensures req.eventAt.Some? ==> r.soldAt == req.eventAt
    ensures req.eventAt.None? ==> r.soldAt == Some(now)
    ensures r.reservedUntil.None?
    ensures r.id == sale.id && r.carId == sale.carId && r.lockedPrice == sale.lockedPrice
    ensures r.paymentCode == sale.paymentCode && r.buyerCpf == req.buyerCpf
  {
    sale.(status := Paid, buyerCpf := req.buyerCpf,
          soldAt := Some(if req.eventAt.Some? then req.eventAt.value else now), reservedUntil := None)
  }

  /** notifyCoreCarSold: the event announcing a paid sale to Core. */
  function SoldEvent(sale: SaleRow): CarSoldEvent
    requires sale.soldAt.Some?
  {
    CarSoldEvent(sale.carId, sale.buyerCpf, sale.soldAt.value, sale.paymentCode)
  }

  /** The sale once canceled. */
  function CanceledSale(sale: SaleRow): (r: SaleRow)
    ensures r.status == Canceled && r.reservedUntil.None?
    ensures r.id == sale.id && r.carId == sale.carId && r.lockedPrice == sale.lockedPrice
    ensures r.paymentCode == sale.paymentCode && r.buyerCpf == sale.buyerCpf && r.soldAt == sale.soldAt
  {
    sale.(status := Canceled, reservedUntil := None)
  }

  /** handlePaymentWebhook(req) at instant `now`. */
  ghost function WebhookSpec(db: Db, req: PaymentWebhookRequest, now: int): (s: WebhookStep)
    requires ServiceInvariant(db)
    ensures ServiceInvariant(s.after)
    ensures s.outcome.Fail? ==> s.after == db && s.sent == []
    ensures s.outcome == Fail(NotFound) <==> forall k :: !Locates(db, req, k)
    ensures s.outcome == Fail(BadRequest) <==>
      (exists k :: Locates(db, req, k)) && StatusKey(req.status) != "PAID" && StatusKey(req.status) != "CANCELED"
    ensures |s.sent| <= 1
  {
    var st := StatusKey(req.status);
    match FindByCode(db.sales, req.paymentCode)
    case None => WebhookStep(Fail(NotFound), db, [])
    case Some(k) =>
      var sale := db.sales[k];
      if sale.carId !in db.cars then WebhookStep(Fail(NotFound), db, [])
      else
        assert Locates(db, req, k);
        if sale.status == Paid && st == "PAID" then WebhookStep(Pass, db, [])
        else if sale.status == Canceled && st == "CANCELED" then WebhookStep(Pass, db, [])
        else if st == "PAID" then
          var row := PaidSale(sale, req, now);
          if !Admits(db.sales, row) then WebhookStep(Fail(StorageRejected), db, [])
          else
            AdmittedKeepsLedger(db.sales, db.nextSaleId, row, db.nextSaleId);
            WebhookStep(Pass, db.(sales := db.sales[k := row]), [SoldEvent(row)])
        else if st == "CANCELED" then
          var row := CanceledSale(sale);
          if !Admits(db.sales, row) then WebhookStep(Fail(StorageRejected), db, [])
          else
            AdmittedKeepsLedger(db.sales, db.nextSaleId, row, db.nextSaleId);
            WebhookStep(Pass, Db(db.cars[k := db.cars[k].(sold := false)], db.sales[k := row], db.nextSaleId), [])
        else WebhookStep(Fail(BadRequest), db, [])
  }

  /** A sale rewritten in place - same id, car, code and locked price - is accepted exactly when
      its CPF fits, and then keeps the ledger's guarantees. */
  lemma SettledRowKeepsLedger(db: Db, k: int, row: SaleRow)
    requires ServiceInvariant(db) && k in db.sales
    requires row.carId == k && row.id == db.sales[k].id
    requires row.paymentCode == db.sales[k].paymentCode && row.lockedPrice == db.sales[k].lockedPrice
    ensures Admits(db.sales, row) <==> CpfFits(row.buyerCpf)
    ensures CpfFits(row.buyerCpf) ==>
      LedgerInvariant(db.sales[k := row], db.nextSaleId) && CodesAssigned(db.sales[k := row])
  {
    assert db.sales[k].carId == k;
    if CpfFits(row.buyerCpf) {
      AdmittedKeepsLedger(db.sales, db.nextSaleId, row, db.nextSaleId);
    }
  }

  /** Both lookups come before the status is read: an unknown payment code fails NotFound
      whatever the status says, even one that is not PAID or CANCELED. */
  lemma WebhookUnknownCodeNotFound(db: Db, req: PaymentWebhookRequest, now: int)
    requires ServiceInvariant(db)
    requires forall k | k in db.sales :: db.sales[k].paymentCode != req.paymentCode
    ensures WebhookSpec(db, req, now) == WebhookStep(Fail(NotFound), db, [])
  {
  }

  /** A sale whose car is missing from the catalog replica fails NotFound, whatever the status. */
  lemma WebhookMissingCarNotFound(db: Db, req: PaymentWebhookRequest, now: int, k: int)
    requires ServiceInvariant(db)
    requires FindByCode(db.sales, req.paymentCode) == Some(k) && db.sales[k].carId !in db.cars
    ensures WebhookSpec(db, req, now) == WebhookStep(Fail(NotFound), db, [])
  {
  }

  /** An outcome the sale already has - PAID on a paid sale, CANCELED on a canceled one - changes
      nothing and notifies nobody. */
  lemma WebhookRepeatIsNoop(db: Db, req: PaymentWebhookRequest, now: int, k: int)
    requires ServiceInvariant(db) && Locates(db, req, k)
    requires || (db.sales[k].status == Paid && StatusKey(req.status) == "PAID")
             || (db.sales[k].status == Canceled && StatusKey(req.status) == "CANCELED")
    ensures WebhookSpec(db, req, now) == WebhookStep(Pass, db, [])
  {
  }

  /** "PAID" (in any case) on a sale not yet paid: the sale is paid by the request's CPF at the
      event instant (or now), the reservation is cleared, the car is not touched and Core is
      notified once - unless the CPF does not fit its column, when nothing happens. */
  lemma WebhookPaidEffects(db: Db, req: PaymentWebhookRequest, now: int, k: int)
    requires ServiceInvariant(db) && Locates(db, req, k)
    requires StatusKey(req.status) == "PAID" && db.sales[k].status != Paid
    ensures var s := WebhookSpec(db, req, now);
            var soldAt := if req.eventAt.Some? then req.eventAt.value else now;
            && s.outcome == (if CpfFits(req.buyerCpf) then Pass else Fail(StorageRejected))
            && (s.outcome == Pass ==>
                  && s.after.cars == db.cars
                  && s.after.nextSaleId == db.nextSaleId
                  && s.after.sales == db.sales[k := db.sales[k].(status := Paid, buyerCpf := req.buyerCpf,
                                                  soldAt := Some(soldAt), reservedUntil := None)]
                  && s.sent == [CarSoldEvent(k, req.buyerCpf, soldAt, db.sales[k].paymentCode)])
  {
  }

  /** "CANCELED" (in any case) on a sale not yet canceled: the sale is canceled, the reservation
      cleared and the car offered again; nobody is notified. */
  lemma WebhookCanceledEffects(db: Db, req: PaymentWebhookRequest, now: int, k: int)
    requires ServiceInvariant(db) && Locates(db, req, k)
    requires StatusKey(req.status) == "CANCELED" && db.sales[k].status != Canceled
    ensures var s := WebhookSpec(db, req, now);
            && s.outcome == Pass && s.sent == [] && s.after.nextSaleId == db.nextSaleId
            && s.after.sales == db.sales[k := db.sales[k].(status := Canceled, reservedUntil := None)]
            && s.after.cars == db.cars[k := db.cars[k].(sold := false)]
  {
  }

  /** A delivered outcome delivered again changes nothing and notifies nobody. */
  lemma WebhookIdempotent(db: Db, req: PaymentWebhookRequest, t1: int, t2: int)
    requires ServiceInvariant(db)
    requires WebhookSpec(db, req, t1).outcome == Pass
    ensures var after := WebhookSpec(db, req, t1).after;
            WebhookSpec(after, req, t2) == WebhookStep(Pass, after, [])
  {
    var after := WebhookSpec(db, req, t1).after;
    var st := StatusKey(req.status);
    var k := FindByCode(db.sales, req.paymentCode).value;
    assert Locates(db, req, k);
    if (db.sales[k].status == Paid && st == "PAID") || (db.sales[k].status == Canceled && st == "CANCELED") {
      WebhookRepeatIsNoop(db, req, t1, k);
    } else if st == "PAID" {
      WebhookPaidEffects(db, req, t1, k);
    } else {
      assert st == "CANCELED";
      WebhookCanceledEffects(db, req, t1, k);
    }
    FindByCodeUnique(after.sales, after.nextSaleId, k);
    assert Locates(after, req, k);
    WebhookRepeatIsNoop(after, req, t2, k);
  }

  /** The status is compared without regard to case: any spelling of PAID acts as "PAID". */
  lemma WebhookStatusAnyCase(db: Db, req: PaymentWebhookRequest, now: int)
    requires ServiceInvariant(db)
    requires req.status.Some? && SpellsIgnoringCase(req.status.value, "PAID")
    ensures WebhookSpec(db, req, now) == WebhookSpec(db, req.(status := Some("PAID")), now)
  {
    StatusKeyOfOutcomes();
    WebhookDependsOnKey(db, req, req.(status := Some("PAID")), now);
  }

  /** The webhook reads its status only through the upper-cased key. */
  lemma WebhookDependsOnKey(db: Db, req1: PaymentWebhookRequest, req2: PaymentWebhookRequest, now: int)
    requires ServiceInvariant(db)
    requires req1.paymentCode == req2.paymentCode && req1.buyerCpf == req2.buyerCpf
    requires req1.eventAt == req2.eventAt && StatusKey(req1.status) == StatusKey(req2.status)
    ensures WebhookSpec(db, req1, now) == WebhookSpec(db, req2, now)
  {
  }

  // ---------------------------------------------------------------------------------------
  // Runs of the state machine
  // ---------------------------------------------------------------------------------------

  /** After a successful purchase the reservation's code locates its sale. */
  lemma ReservedCodeLocates(db: Db, carId: int, now: int, code: string, req: PaymentWebhookRequest)
    requires ServiceInvariant(db) && PurchaseSpec(db, carId, now, code).result.Success?
    requires req.paymentCode == Some(code)
    ensures Locates(PurchaseSpec(db, carId, now, code).after, req, carId)
  {
    var after := PurchaseSpec(db, carId, now, code).after;
    FindByCodeUnique(after.sales, after.nextSaleId, carId);
  }

  /** A paid car cannot be reserved again. */
  lemma PaidCarNotPurchasable(db: Db, carId: int, t1: int, t2: int, t3: int, code: string,
                              code2: string, cpf: Option<string>, eventAt: Option<int>)
    requires ServiceInvariant(db)
    requires PurchaseSpec(db, carId, t1, code).result.Success?
    ensures var reserved := PurchaseSpec(db, carId, t1, code).after;
            var paid := WebhookSpec(reserved, PaymentWebhookRequest(Some(code), Some("PAID"), cpf, eventAt), t2);
            paid.outcome == Pass ==> PurchaseSpec(paid.after, carId, t3, code2).result == Failure(Conflict)
  {
    var reserved := PurchaseSpec(db, carId, t1, code).after;
    var req := PaymentWebhookRequest(Some(code), Some("PAID"), cpf, eventAt);
    ReservedCodeLocates(db, carId, t1, code, req);
    StatusKeyOfOutcomes();
    assert reserved.sales[carId].status == Reserved;
    WebhookPaidEffects(reserved, req, t2, carId);
    var paid := WebhookSpec(reserved, req, t2);
    if paid.outcome == Pass {
      assert paid.after.sales[carId].status == Paid;
      PurchaseConflicts(paid.after, carId, t3, code2);
    }
  }

  /** A canceled reservation frees the car at once: the car is offered again, and the next
      purchase succeeds on the same sale with a new code and flags the car sold again. */
  lemma CanceledCarPurchasable(db: Db, carId: int, t1: int, t2: int, t3: int, code: string,
                               code2: string, eventAt: Option<int>)
    requires ServiceInvariant(db) && CodeUnused(db, code2) && code != code2
    requires PurchaseSpec(db, carId, t1, code).result.Success?
    ensures var reserved := PurchaseSpec(db, carId, t1, code).after;
            var canceled := WebhookSpec(reserved,
              PaymentWebhookRequest(Some(code), Some("CANCELED"), None, eventAt), t2);
            var again := PurchaseSpec(canceled.after, carId, t3, code2);
            && canceled.outcome == Pass
            && carId in canceled.after.cars && !canceled.after.cars[carId].sold
            && again.result.Success?
            && carId in again.after.sales && carId in reserved.sales
            && again.after.sales[carId].id == reserved.sales[carId].id
            && again.after.sales[carId].paymentCode == Some(code2)
            && carId in again.after.cars && again.after.cars[carId].sold
  {
    var reserved := PurchaseSpec(db, carId, t1, code).after;
    var canceled := WebhookSpec(reserved,
      PaymentWebhookRequest(Some(code), Some("CANCELED"), None, eventAt), t2).after;
    CancelAfterPurchase(db, carId, t1, t2, code, code2, eventAt);
    StoredSaleAdmitsUnusedCode(canceled, carId, t3, code2);
    PurchaseSucceeds(canceled, carId, t3, code2);
  }

  /** The state a cancellation leaves after a purchase: the car unsold, the same sale canceled,
      and every code the purchase did not hand out still unused. */
  lemma CancelAfterPurchase(db: Db, carId: int, t1: int, t2: int, code: string, code2: string,
                            eventAt: Option<int>)
    requires ServiceInvariant(db) && CodeUnused(db, code2) && code != code2
    requires PurchaseSpec(db, carId, t1, code).result.Success?
    ensures var reserved := PurchaseSpec(db, carId, t1, code).after;
            var canceled := WebhookSpec(reserved,
              PaymentWebhookRequest(Some(code), Some("CANCELED"), None, eventAt), t2);
            && canceled.outcome == Pass && ServiceInvariant(canceled.after)
            && carId in canceled.after.cars && !canceled.after.cars[carId].sold
            && carId in canceled.after.sales && carId in reserved.sales
            && canceled.after.sales[carId].status == Canceled
            && canceled.after.sales[carId].id == reserved.sales[carId].id
            && CodeUnused(canceled.after, code2)
  {
    var reserved := PurchaseSpec(db, carId, t1, code).after;
    var req := PaymentWebhookRequest(Some(code), Some("CANCELED"), None, eventAt);
    StatusKeyOfOutcomes();
    ReservedCodeLocates(db, carId, t1, code, req);
    WebhookCanceledEffects(reserved, req, t2, carId);
    var canceled := WebhookSpec(reserved, req, t2).after;
    CodeStaysUnused(db, reserved, carId, code2);
    CodeStaysUnused(reserved, canceled, carId, code2);
  }

  /** Rewriting one sale under a code other than `code` keeps `code` unused. */
  lemma CodeStaysUnused(db: Db, db2: Db, k: int, code: string)
    requires CodeUnused(db, code) && k in db2.sales
    requires db2.sales == db.sales[k := db2.sales[k]] && db2.sales[k].paymentCode != Some(code)
    ensures CodeUnused(db2, code)
  {
  }

  /** A payment confirmed after the cancellation still marks the sale paid and notifies Core,
      but leaves the car unsold in the catalog, where it is listed as available. */
  lemma LatePaymentAfterCancel(db: Db, carId: int, t1: int, t2: int, t3: int, code: string,
                               cpf: string, eventAt: Option<int>)
    requires ServiceInvariant(db) && |cpf| <= BuyerCpfLength
    requires PurchaseSpec(db, carId, t1, code).result.Success?
    ensures var reserved := PurchaseSpec(db, carId, t1, code).after;
            var canceled := WebhookSpec(reserved,
              PaymentWebhookRequest(Some(code), Some("CANCELED"), None, eventAt), t2);
            var paid := WebhookSpec(canceled.after,
              PaymentWebhookRequest(Some(code), Some("PAID"), Some(cpf), eventAt), t3);
            && paid.outcome == Pass && |paid.sent| == 1
            && carId in paid.after.sales && paid.after.sales[carId].status == Paid
            && carId in paid.after.cars && !paid.after.cars[carId].sold
  {
    var reserved := PurchaseSpec(db, carId, t1, code).after;
    var cancelReq := PaymentWebhookRequest(Some(code), Some("CANCELED"), None, eventAt);
    StatusKeyOfOutcomes();
    ReservedCodeLocates(db, carId, t1, code, cancelReq);
    WebhookCanceledEffects(reserved, cancelReq, t2, carId);
    var canceled := WebhookSpec(reserved, cancelReq, t2).after;
    FindByCodeUnique(canceled.sales, canceled.nextSaleId, carId);
    var payReq := PaymentWebhookRequest(Some(code), Some("PAID"), Some(cpf), eventAt);
    assert Locates(canceled, payReq, carId);
    StatusKeyOfOutcomes();
    WebhookPaidEffects(canceled, payReq, t3, carId);
  }

  // ---------------------------------------------------------------------------------------
  // The service object
  // ---------------------------------------------------------------------------------------

  class SalesServiceImpl {
    const carRepo: CarRepository
    const saleRepo: SaleRepository
    /** The CarSoldEvent notifications sent to Core, oldest first. */
    ghost var notifications: seq<CarSoldEvent>

    /** The contents of both stores. */
    function State(): Db
      reads carRepo, saleRepo
    {
      Db(carRepo.rows, saleRepo.rows, saleRepo.nextId)
    }

    predicate Valid()
      reads carRepo, saleRepo
    {
      ServiceInvariant(State())
    }

    constructor (carRepo: CarRepository, saleRepo: SaleRepository)
      requires ServiceInvariant(Db(carRepo.rows, saleRepo.rows, saleRepo.nextId))
      ensures this.carRepo == carRepo && this.saleRepo == saleRepo
      ensures Valid() && notifications == []
    {
      this.carRepo := carRepo;
      this.saleRepo := saleRepo;
      notifications := [];
    }

    /** listAvailable: the unsold cars, cheapest first. */
    method ListAvailable() returns (cars: seq<CarRow>)
      requires Valid()
      ensures IsSoldListing(State().cars, false, cars)
    {
      cars := carRepo.FindBySoldOrderByPriceAsc(false);
    }

    /** listSold: the sold cars, cheapest first. */
    method ListSold() returns (cars: seq<CarRow>)
      requires Valid()
      ensures IsSoldListing(State().cars, true, cars)
    {
      cars := carRepo.FindBySoldOrderByPriceAsc(true);
    }

    /** purchase(carId): reserve the car for fifteen minutes under the new payment code. */
    method Purchase(carId: int, now: int, code: string) returns (r: Result<PurchaseResponse>)
      requires Valid()
      modifies carRepo, saleRepo
      ensures Valid()
      ensures PurchaseStep(r, State()) == PurchaseSpec(old(State()), carId, now, code)
    {
      ghost var db := State();
      var found := carRepo.FindById(carId);
      if found.None? {
        return Failure(NotFound);
      }
      var car := found.value;
      var locked := saleRepo.LockByCarId(carId);
      var sale: Sale;
      if locked.None? {
        sale := new Sale();
        sale.carId := Some(carId);
        sale.lockedPrice := Some(car.price);
        sale.status := Some(Available);
      } else {
        sale := locked.value;
      }
      ghost var base := SaleToReserve(db, carId);
      assert sale.HasRequiredColumns() && sale.Pending(db.nextSaleId) == base;
      if sale.status == Some(Paid) {
        PurchaseConflicts(db, carId, now, code);
        return Failure(Conflict);
      }
      if sale.status == Some(Reserved) && sale.reservedUntil.Some? && sale.reservedUntil.value > now {
        PurchaseConflicts(db, carId, now, code);
        return Failure(Conflict);
      }
      r := ReserveSale(car, sale, carId, now, code, db);
    }

    /** The reservation part of purchase: reserve the sale for fifteen minutes under the new
        code, save it, then flag the car sold and save it. */
    method ReserveSale(car: Car, sale: Sale, carId: int, now: int, code: string, ghost db: Db)
      returns (r: Result<PurchaseResponse>)
      requires Valid() && State() == db && carId in db.cars
      requires car.id == Some(carId) && car.Row() == db.cars[carId]
      requires sale.HasRequiredColumns() && sale.Pending(db.nextSaleId) == SaleToReserve(db, carId)
      requires sale.id.Some? <==> carId in db.sales
      requires !(SaleToReserve(db, carId).status == Paid || ReservationActive(SaleToReserve(db, carId), now))
      modifies carRepo, saleRepo, sale, car
      ensures Valid()
      ensures PurchaseStep(r, State()) == PurchaseSpec(db, carId, now, code)
    {
      ghost var row := Reserve(SaleToReserve(db, carId), now, code);
      sale.status := Some(Reserved);
      sale.reservedUntil := Some(now + ReservationSeconds);
      sale.paymentCode := Some(code);
      assert sale.Pending(db.nextSaleId) == row;
      var saved := saleRepo.Save(sale);
      if saved.Fail? {
        PurchaseStorageRejected(db, carId, now, code);
        return Failure(saved.error);
      }
      ghost var nextId := if carId in db.sales then db.nextSaleId else db.nextSaleId + 1;
      assert saleRepo.rows == db.sales[carId := row] && saleRepo.nextId == nextId;
      car.sold := true;
      carRepo.Save(car);
      assert State() == Db(db.cars[carId := db.cars[carId].(sold := true)], db.sales[carId := row], nextId);
      r := Success(PurchaseResponse(sale.id.value, sale.carId.value, sale.paymentCode.value,
                                    sale.reservedUntil.value));
      PurchaseSucceeds(db, carId, now, code);
    }

    /** The PAID branch of handlePaymentWebhook: the sale is marked paid and saved, then Core is
        notified of the sale. The table refuses the row exactly when the CPF is too long. */
    method RecordPayment(sale: Sale, req: PaymentWebhookRequest, now: int, ghost db: Db, ghost k: int)
      returns (r: Outcome)
      requires Valid() && State() == db && k in db.sales
      requires sale.id.Some? && sale.HasRequiredColumns() && sale.Row() == db.sales[k]
      modifies this, saleRepo, sale
      ensures Valid()
      ensures r == (if CpfFits(req.buyerCpf) then Pass else Fail(StorageRejected))
      ensures r.Fail? ==> State() == db && notifications == old(notifications)
      ensures r.Pass? ==>
        && State() == db.(sales := db.sales[k := PaidSale(db.sales[k], req, now)])
        && notifications == old(notifications) + [SoldEvent(PaidSale(db.sales[k], req, now))]
    {
      ghost var paid := PaidSale(db.sales[k], req, now);
      sale.status := Some(Paid);
      sale.buyerCpf := req.buyerCpf;
      sale.soldAt := Some(if req.eventAt.Some? then req.eventAt.value else now);
      sale.reservedUntil := None;
      assert sale.Pending(db.nextSaleId) == paid;
      SettledRowKeepsLedger(db, k, paid);
      r := saleRepo.Save(sale);
      assert carRepo.rows == db.cars;
      if r.Fail? {
        return;
      }
      assert saleRepo.rows == db.sales[k := paid] && saleRepo.nextId == db.nextSaleId;
      assert sale.Row() == paid;
      notifications := notifications
        + [CarSoldEvent(sale.carId.value, sale.buyerCpf, sale.soldAt.value, sale.paymentCode)];
    }

    /** The CANCELED branch of handlePaymentWebhook: the car is offered again and the sale is
        marked canceled; the table always accepts the row. */
    method RecordCancellation(sale: Sale, car: Car, ghost db: Db, ghost k: int) returns (r: Outcome)
      requires Valid() && State() == db && k in db.sales && k in db.cars
      requires sale.id.Some? && sale.HasRequiredColumns() && sale.Row() == db.sales[k]
      requires car.id == Some(k) && car.Row() == db.cars[k]
      modifies carRepo, saleRepo, sale, car
      ensures Valid() && r == Pass
      ensures State() == Db(db.cars[k := db.cars[k].(sold := false)],
                            db.sales[k := CanceledSale(db.sales[k])], db.nextSaleId)
    {
      ghost var canceled := CanceledSale(db.sales[k]);
      sale.status := Some(Canceled);
      sale.reservedUntil := None;
      assert sale.Pending(db.nextSaleId) == canceled;
      SettledRowKeepsLedger(db, k, canceled);
      car.sold := false;
      carRepo.Save(car);
      r := saleRepo.Save(sale);
    }

    /** handlePaymentWebhook(req): settle a reservation as paid or canceled. */
    method HandlePaymentWebhook(req: PaymentWebhookRequest, now: int) returns (r: Outcome)
      requires Valid()
      modifies this, carRepo, saleRepo
      ensures Valid()
      ensures var s := WebhookSpec(old(State()), req, now);
              r == s.outcome && State() == s.after && notifications == old(notifications) + s.sent
    {
      ghost var db := State();
      var st := if req.status.None? then "" else UpperCase(req.status.value);
      var found := saleRepo.FindByPaymentCode(req.paymentCode);
      if found.None? {
        WebhookUnknownCodeNotFound(db, req, now);
        return Fail(NotFound);
      }
      var sale := found.value;
      ghost var k := sale.carId.value;
      FindByCodeUnique(db.sales, db.nextSaleId, k);
      var carFound := carRepo.FindById(sale.carId.value);
      if carFound.None? {
        WebhookMissingCarNotFound(db, req, now, k);
        return Fail(NotFound);
      }
      var car := carFound.value;
      assert Locates(db, req, k) && st == StatusKey(req.status);
      if sale.status == Some(Paid) && st == "PAID" {
        WebhookRepeatIsNoop(db, req, now, k);
        return Pass;
      }
      if sale.status == Some(Canceled) && st == "CANCELED" {
        WebhookRepeatIsNoop(db, req, now, k);
        return Pass;
      }
      if st == "PAID" {
        WebhookPaidEffects(db, req, now, k);
        r := RecordPayment(sale, req, now, db, k);
        return;
      }
      if st == "CANCELED" {
        WebhookCanceledEffects(db, req, now, k);
        r := RecordCancellation(sale, car, db, k);
        return;
      }
      return Fail(BadRequest);
    }
  }
}
