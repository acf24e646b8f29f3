/** The request and response records, and the bean-validation constraints of CarSellRequest. */
module Dto {
  import opened Common
  import opened JavaText

  /** The payment gateway's webhook body; `status` should be "PAID" or "CANCELED" in any case. */
  datatype PaymentWebhookRequest = PaymentWebhookRequest(
    paymentCode: Option<string>,
    status: Option<string>,
    buyerCpf: Option<string>,
    eventAt: Option<int>)

  /** What a successful purchase returns. */
  datatype PurchaseResponse = PurchaseResponse(
    saleId: int,
    carId: int,
    paymentCode: string,
    reservedUntil: int)

  /** The notification sent to Core once a payment is confirmed. */
  datatype CarSoldEvent = CarSoldEvent(
    carId: int,
    buyerCpf: Option<string>,
    soldAt: int,
    paymentCode: Option<string>)

  /** A catalog synchronisation pushed by Core. */
  datatype CarSyncRequest = CarSyncRequest(
    id: int,
    brand: string,
    model: string,
    year: int,
    color: string,
    price: int,
    updatedAt: Option<int>)

  /** CarSellRequest: buyerCpf is @NotBlank and @Pattern("\d{11}"), soldAt is @NotNull. */
  datatype CarSellRequest = CarSellRequest(buyerCpf: Option<string>, soldAt: Option<int>)

  datatype Field = BuyerCpfField | SoldAtField
  datatype Constraint = NotBlank | ElevenDigits | NotNull

  /** One constraint violation: the property path and the constraint it breaks. */
  datatype Violation = Violation(field: Field, constraint: Constraint)

  /** The regular-expression class \d without UNICODE_CHARACTER_CLASS: an ASCII digit. */
  predicate IsAsciiDigit(c: char) {
    '0' <= c <= '9'
  }

  /** A full match of the pattern \d{11}. */
  predicate MatchesElevenDigits(s: string) {
    |s| == 11 && forall i :: 0 <= i < |s| ==> IsAsciiDigit(s[i])
  }

  /** @NotBlank as Hibernate Validator checks it: not null, and not empty once trimmed. */
  predicate NotBlankHolds(s: Option<string>) {
    s.Some? && Trim(s.value) != []
  }

  /** @Pattern accepts null and otherwise demands a full match. */
  predicate PatternHolds(s: Option<string>) {
    s.None? || MatchesElevenDigits(s.value)
  }

  /** Validator.validate(request): the violations reported, one per failing constraint. */
  function Violations(req: CarSellRequest): set<Violation> {
    (if NotBlankHolds(req.buyerCpf) then {} else {Violation(BuyerCpfField, NotBlank)})
    + (if PatternHolds(req.buyerCpf) then {} else {Violation(BuyerCpfField, ElevenDigits)})
    + (if req.soldAt.Some? then {} else {Violation(SoldAtField, NotNull)})
  }

  /** A string of eleven digits is never blank: the pattern implies @NotBlank. */
  lemma ElevenDigitsNotBlank(s: string)
    requires MatchesElevenDigits(s)
    ensures NotBlankHolds(Some(s))
  {
    assert ' ' < s[0];
  }

  /** A request is valid exactly when buyerCpf is eleven ASCII digits and soldAt is present. */
  lemma ValidIff(req: CarSellRequest)
    ensures Violations(req) == {} <==>
      req.buyerCpf.Some? && MatchesElevenDigits(req.buyerCpf.value) && req.soldAt.Some?
  {
    if req.buyerCpf.Some? && MatchesElevenDigits(req.buyerCpf.value) {
      ElevenDigitsNotBlank(req.buyerCpf.value);
    }
    if req.buyerCpf.None? {
      assert Violation(BuyerCpfField, NotBlank) in Violations(req);
    }
  }

  /** Each violation names the property it is about, so a request is reported on buyerCpf
      exactly when buyerCpf breaks a constraint, and on soldAt exactly when soldAt is null. */
  lemma ViolationsByField(req: CarSellRequest)
    ensures (exists v :: v in Violations(req) && v.field == BuyerCpfField) <==>
      !NotBlankHolds(req.buyerCpf) || !PatternHolds(req.buyerCpf)
    ensures (exists v :: v in Violations(req) && v.field == SoldAtField) <==> req.soldAt.None?
  {
    var vs := Violations(req);
    if !NotBlankHolds(req.buyerCpf) {
      assert Violation(BuyerCpfField, NotBlank) in vs;
    }
    if !PatternHolds(req.buyerCpf) {
      assert Violation(BuyerCpfField, ElevenDigits) in vs;
    }
    if req.soldAt.None? {
      assert Violation(SoldAtField, NotNull) in vs;
    }
  }

  /** A blank buyerCpf such as "   " breaks @NotBlank (and the pattern). */
  lemma BlankCpfRejected(soldAt: Option<int>)
    ensures Violation(BuyerCpfField, NotBlank) in Violations(CarSellRequest(Some("   "), soldAt))
    ensures Violation(BuyerCpfField, ElevenDigits) in Violations(CarSellRequest(Some("   "), soldAt))
  {
    var s := "   ";
    assert forall i :: 0 <= i < |s| ==> s[i] <= ' ';
  }

  /** A three-digit buyerCpf such as "123" is not blank but breaks the eleven-digit pattern. */
  lemma ShortCpfRejected(soldAt: Option<int>)
    ensures Violation(BuyerCpfField, ElevenDigits) in Violations(CarSellRequest(Some("123"), soldAt))
    ensures Violation(BuyerCpfField, NotBlank) !in Violations(CarSellRequest(Some("123"), soldAt))
  {
    var s := "123";
    assert ' ' < s[0];
  }

  /** A null soldAt is reported on soldAt. */
  lemma MissingSoldAtRejected(cpf: Option<string>)
    ensures Violation(SoldAtField, NotNull) in Violations(CarSellRequest(cpf, None))
  {
  }
}
