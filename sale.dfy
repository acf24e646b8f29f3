/** The sale ledger (table sales): one row per car, the Sale entity object the service mutates
    with setters, and the constraints the table declares. */
module Sales {
  import opened Common

  /** Sale.Status. */
  datatype Status = Available | Reserved | Paid | Canceled

  /** Status.ordinal(): the position of the constant in its declaration. */
  function Ordinal(s: Status): (n: nat)
    ensures n < 4
  {
    match s
    case Available => 0
    case Reserved => 1
    case Paid => 2
    case Canceled => 3
  }

  /** Status.values(): every constant once, each at its ordinal. */
  function StatusValues(): (vs: seq<Status>)
    ensures |vs| == 4
    ensures forall s: Status :: vs[Ordinal(s)] == s
    ensures forall i, j :: 0 <= i < j < |vs| ==> vs[i] != vs[j]
  {
    [Available, Reserved, Paid, Canceled]
  }

  /** Length of the buyer_cpf column. */
  const BuyerCpfLength := 11

  /** One stored row of sales. car_id, status and locked_price are NOT NULL; the rest may be null. */
  datatype SaleRow = SaleRow(
    id: int,
    carId: int,
    status: Status,
    lockedPrice: int,
    reservedUntil: Option<int>,
    paymentCode: Option<string>,
    buyerCpf: Option<string>,
    soldAt: Option<int>)

  /** locked_price is DECIMAL(12, 2): in cents, at most twelve digits. */
  const LockedPriceLimit := 1_000_000_000_000

  /** A locked_price value the column can hold. */
  predicate LockedPriceFits(price: int) {
    -LockedPriceLimit < price < LockedPriceLimit
  }

  /** A buyer_cpf value the column can hold. */
  predicate CpfFits(cpf: Option<string>) {
    cpf.None? || |cpf.value| <= BuyerCpfLength
  }

  /** What the table guarantees of its rows, keyed by car_id:
      car_id is the key (unique index idx_sale_car), a non-null payment_code belongs to one row
      only (unique index idx_sale_payment), locked_price and buyer_cpf fit their columns, and the
      generated ids are distinct and below the next one the identity column hands out. */
  predicate LedgerInvariant(rows: map<int, SaleRow>, nextId: int) {
    && (forall k | k in rows :: rows[k].carId == k)
    && (forall a, b | a in rows && b in rows && a != b ::
          rows[a].paymentCode.None? || rows[a].paymentCode != rows[b].paymentCode)
    && (forall k | k in rows :: CpfFits(rows[k].buyerCpf))
    && (forall k | k in rows :: LockedPriceFits(rows[k].lockedPrice))
    && (forall k | k in rows :: rows[k].id < nextId)
    && (forall a, b | a in rows && b in rows && a != b :: rows[a].id != rows[b].id)
  }

  /** findByPaymentCode: the car_id of the row holding `code`, if any (a null code matches a row
      whose payment_code is null). */
  ghost function FindByCode(rows: map<int, SaleRow>, code: Option<string>): (k: Option<int>)
    ensures k.Some? ==> k.value in rows && rows[k.value].paymentCode == code
    ensures k.None? ==> forall j | j in rows :: rows[j].paymentCode != code
  {
    if exists j :: j in rows && rows[j].paymentCode == code then
      Some(var j :| j in rows && rows[j].paymentCode == code; j)
    else
      None
  }

  /** Under the unique index, the row holding a payment code is the one findByPaymentCode returns. */
  lemma FindByCodeUnique(rows: map<int, SaleRow>, nextId: int, k: int)
    requires LedgerInvariant(rows, nextId)
    requires k in rows && rows[k].paymentCode.Some?
    ensures FindByCode(rows, rows[k].paymentCode) == Some(k)
  {
    var found := FindByCode(rows, rows[k].paymentCode);
    if found != Some(k) {
      assert found.value in rows && rows[found.value].paymentCode == rows[k].paymentCode;
    }
  }

  /** The Sale entity. Every field is a nullable Java reference; `id` is generated on first save. */
  class Sale {
    var id: Option<int>
    var carId: Option<int>
    var status: Option<Status>
    var lockedPrice: Option<int>
    var reservedUntil: Option<int>
    var paymentCode: Option<string>
    var buyerCpf: Option<string>
    var soldAt: Option<int>

    /** The NOT NULL columns the application must fill before saving. */
    predicate HasRequiredColumns()
      reads this
    {
      carId.Some? && status.Some? && lockedPrice.Some?
    }

    /** The persisted form of this entity. */
    function Row(): (r: SaleRow)
      reads this
      requires id.Some? && HasRequiredColumns()
      ensures r.id == id.value && r.carId == carId.value && r.status == status.value
      ensures Some(r.lockedPrice) == lockedPrice && r.reservedUntil == reservedUntil
      ensures r.paymentCode == paymentCode && r.buyerCpf == buyerCpf && r.soldAt == soldAt
    {
      SaleRow(id.value, carId.value, status.value, lockedPrice.value,
              reservedUntil, paymentCode, buyerCpf, soldAt)
    }

    /** The row saving this entity stores: under its own id, or under `nextId`, the value the
        identity column hands out next, when it has none yet. */
    function Pending(nextId: int): (r: SaleRow)
      reads this
      requires HasRequiredColumns()
      ensures id.Some? ==> r == Row()
      ensures r.id == (if id.Some? then id.value else nextId)
      ensures r.carId == carId.value && r.status == status.value && r.lockedPrice == lockedPrice.value
      ensures r.reservedUntil == reservedUntil && r.paymentCode == paymentCode
      ensures r.buyerCpf == buyerCpf && r.soldAt == soldAt
    {
      SaleRow(if id.None? then nextId else id.value, carId.value, status.value, lockedPrice.value,
              reservedUntil, paymentCode, buyerCpf, soldAt)
    }

    /** new Sale(): every field null. */
    constructor ()
      ensures id.None? && carId.None? && status.None? && lockedPrice.None?
      ensures reservedUntil.None? && paymentCode.None? && buyerCpf.None? && soldAt.None?
    {
      id, carId, status, lockedPrice := None, None, None, None;
      reservedUntil, paymentCode, buyerCpf, soldAt := None, None, None, None;
    }

    /** The entity the repository materialises from a stored row. */
    constructor Load(row: SaleRow)
      ensures id == Some(row.id) && HasRequiredColumns() && Row() == row
    {
      id, carId, status, lockedPrice := Some(row.id), Some(row.carId), Some(row.status), Some(row.lockedPrice);
      reservedUntil, paymentCode, buyerCpf, soldAt := row.reservedUntil, row.paymentCode, row.buyerCpf, row.soldAt;
    }
  }
}
