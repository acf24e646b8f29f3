/** The two Spring Data repositories, as stores of rows. findById and the locking lookup
    materialise a fresh entity from the stored row; save writes the entity's row back, and the
    database refuses a row that breaks a column constraint. */
module Repositories {
  import opened Common
  import opened Cars
  import opened Sales

  /** car_view is keyed by the car's own id. */
  predicate CarsKeyed(rows: map<int, CarRow>) {
    forall k | k in rows :: rows[k].id == k
  }

  /** Ascending price order, as ORDER BY price ASC returns it. */
  predicate SortedByPrice(cars: seq<CarRow>) {
    forall i, j :: 0 <= i < j < |cars| ==> cars[i].price <= cars[j].price
  }

  /** findBySoldIsFalseOrderByPriceAsc / findBySoldIsTrueOrderByPriceAsc: every stored car whose
      sold flag is `sold`, each once, cheapest first (the order among equal prices is the database's). */
  predicate IsSoldListing(rows: map<int, CarRow>, sold: bool, cars: seq<CarRow>) {
    && SortedByPrice(cars)
    && (forall i :: 0 <= i < |cars| ==> cars[i].id in rows && rows[cars[i].id] == cars[i] && cars[i].sold == sold)
    && (forall k | k in rows && rows[k].sold == sold :: rows[k] in cars)
    && (forall i, j :: 0 <= i < j < |cars| ==> cars[i].id != cars[j].id)
  }

  /** `k` is a cheapest car among `keys`. */
  predicate IsCheapest(k: int, keys: set<int>, rows: map<int, CarRow>)
    requires keys <= rows.Keys
  {
    k in keys && forall j | j in keys :: rows[k].price <= rows[j].price
  }

  /** Among any non-empty set of stored cars there is a cheapest one. */
  lemma {:induction false} CheapestExists(keys: set<int>, rows: map<int, CarRow>)
    requires exists k :: k in keys
    requires keys <= rows.Keys
    ensures exists k :: IsCheapest(k, keys, rows)
  {
    var x :| x in keys;
    var rest := keys - {x};
    if exists j :: j in rest {
      CheapestExists(rest, rows);
      var m :| IsCheapest(m, rest, rows);
      if rows[x].price <= rows[m].price {
        assert IsCheapest(x, keys, rows);
      } else {
        assert IsCheapest(m, keys, rows);
      }
    } else {
      forall j | j in keys ensures j == x {
        assert j !in rest;
      }
      assert IsCheapest(x, keys, rows);
    }
  }

  /** CarRepository: the catalog replica. */
  class CarRepository {
    var rows: map<int, CarRow>

    predicate Valid()
      reads this
    {
      CarsKeyed(rows)
    }

    constructor (rows: map<int, CarRow>)
      requires CarsKeyed(rows)
      ensures this.rows == rows && Valid()
    {
      this.rows := rows;
    }

    /** findById: a fresh entity holding the stored row, or nothing. */
    method FindById(id: int) returns (car: Option<Car>)
      requires Valid()
      ensures car.None? <==> id !in rows
      ensures car.Some? ==> fresh(car.value) && car.value.id == Some(id) && car.value.Row() == rows[id]
    {
      if id in rows {
        var c := new Car.Load(rows[id]);
        return Some(c);
      }
      return None;
    }

    /** save: inserts or overwrites the row under the entity's id. */
    method Save(car: Car)
      requires Valid() && car.id.Some?
      modifies this
      ensures Valid()
      ensures rows == old(rows)[car.id.value := car.Row()]
    {
      rows := rows[car.id.value := car.Row()];
    }

    /** The derived sold-flag queries, ordered by price: a selection of the cheapest remaining car. */
    method FindBySoldOrderByPriceAsc(sold: bool) returns (cars: seq<CarRow>)
      requires Valid()
      ensures IsSoldListing(rows, sold, cars)
    {
      var remaining := set k | k in rows && rows[k].sold == sold;
      cars := [];
      while exists k :: k in remaining
        invariant ListedSoFar(rows, sold, remaining, cars)
        decreases remaining
      {
        CheapestExists(remaining, rows);
        var k :| IsCheapest(k, remaining, rows);
        ListingGrows(rows, sold, remaining, cars, k);
        cars := cars + [rows[k]];
        remaining := remaining - {k};
      }
      ListingComplete(rows, sold, remaining, cars);
    }
  }

  /** The selection so far: `cars` lists, cheapest first, the matching cars no longer in
      `remaining`, each once and none dearer than a car still remaining. */
  predicate ListedSoFar(rows: map<int, CarRow>, sold: bool, remaining: set<int>, cars: seq<CarRow>) {
    && remaining <= rows.Keys
    && (forall k | k in remaining :: rows[k].sold == sold)
    && SortedByPrice(cars)
    && (forall i :: 0 <= i < |cars| ==>
          cars[i].id in rows && rows[cars[i].id] == cars[i] && cars[i].sold == sold && cars[i].id !in remaining)
    && (forall k | k in rows && rows[k].sold == sold :: k in remaining || rows[k] in cars)
    && (forall i, k :: 0 <= i < |cars| && k in remaining ==> cars[i].price <= rows[k].price)
    && (forall i, j :: 0 <= i < j < |cars| ==> cars[i].id != cars[j].id)
  }

  /** Moving a cheapest remaining car to the end of the listing keeps the selection invariant. */
  lemma ListingGrows(rows: map<int, CarRow>, sold: bool, remaining: set<int>, cars: seq<CarRow>, k: int)
    requires CarsKeyed(rows) && ListedSoFar(rows, sold, remaining, cars)
    requires IsCheapest(k, remaining, rows)
    ensures ListedSoFar(rows, sold, remaining - {k}, cars + [rows[k]])
  {
    GrowsInOrder(rows, sold, remaining, cars, k);
    GrowsWithStoredRows(rows, sold, remaining, cars, k);
    GrowsCovering(rows, sold, remaining, cars, k);
  }

  /** The appended car is no cheaper than those listed and no dearer than those remaining. */
  lemma GrowsInOrder(rows: map<int, CarRow>, sold: bool, remaining: set<int>, cars: seq<CarRow>, k: int)
    requires ListedSoFar(rows, sold, remaining, cars) && IsCheapest(k, remaining, rows)
    ensures SortedByPrice(cars + [rows[k]])
    ensures forall i, j :: 0 <= i < |cars + [rows[k]]| && j in remaining - {k} ==>
      (cars + [rows[k]])[i].price <= rows[j].price
  {
    var next := cars + [rows[k]];
    forall i, j | 0 <= i < j < |next| ensures next[i].price <= next[j].price {
      assert next[i] == cars[i];
      if j < |cars| {
        assert next[j] == cars[j];
      }
    }
  }

  /** The appended car is the stored row, matches the flag, leaves `remaining`, and is not
      listed yet. */
  lemma GrowsWithStoredRows(rows: map<int, CarRow>, sold: bool, remaining: set<int>, cars: seq<CarRow>, k: int)
    requires CarsKeyed(rows) && ListedSoFar(rows, sold, remaining, cars) && IsCheapest(k, remaining, rows)
    ensures var next := cars + [rows[k]];
      && (forall i :: 0 <= i < |next| ==>
            next[i].id in rows && rows[next[i].id] == next[i] && next[i].sold == sold && next[i].id !in remaining - {k})
      && (forall i, j :: 0 <= i < j < |next| ==> next[i].id != next[j].id)
  {
    var next := cars + [rows[k]];
    assert forall i :: 0 <= i < |cars| ==> next[i] == cars[i];
    assert next[|cars|] == rows[k];
  }

  /** Every matching car is still either remaining or listed. */
  lemma GrowsCovering(rows: map<int, CarRow>, sold: bool, remaining: set<int>, cars: seq<CarRow>, k: int)
    requires ListedSoFar(rows, sold, remaining, cars) && IsCheapest(k, remaining, rows)
    ensures forall j | j in rows && rows[j].sold == sold :: j in remaining - {k} || rows[j] in cars + [rows[k]]
  {
    var next := cars + [rows[k]];
    forall j | j in rows && rows[j].sold == sold ensures j in remaining - {k} || rows[j] in next {
      if j == k {
        assert next[|cars|] == rows[j];
      } else if j !in remaining {
        var i :| 0 <= i < |cars| && cars[i] == rows[j];
        assert next[i] == rows[j];
      }
    }
  }

  /** With nothing remaining, the selection is the complete listing. */
  lemma ListingComplete(rows: map<int, CarRow>, sold: bool, remaining: set<int>, cars: seq<CarRow>)
    requires ListedSoFar(rows, sold, remaining, cars)
    requires !exists k :: k in remaining
    ensures IsSoldListing(rows, sold, cars)
  {
  }

  /** Whether the table accepts `row` beside the rows it holds under other car ids: locked_price
      and buyer_cpf fit their columns and no other row holds its payment code. */
  predicate Admits(rows: map<int, SaleRow>, row: SaleRow) {
    && LockedPriceFits(row.lockedPrice)
    && CpfFits(row.buyerCpf)
    && (row.paymentCode.Some? ==>
          forall k | k in rows && k != row.carId :: rows[k].paymentCode != row.paymentCode)
  }

  /** Writing an admitted row under its car id keeps the table's guarantees. */
  lemma AdmittedKeepsLedger(rows: map<int, SaleRow>, nextId: int, row: SaleRow, newNextId: int)
    requires LedgerInvariant(rows, nextId) && Admits(rows, row)
    requires row.id < newNextId && nextId <= newNextId
    requires row.carId in rows ==> rows[row.carId].id == row.id
    requires row.carId !in rows ==> nextId <= row.id
    ensures LedgerInvariant(rows[row.carId := row], newNextId)
  {
    var r := rows[row.carId := row];
    forall a, b | a in r && b in r && a != b
      ensures r[a].paymentCode.None? || r[a].paymentCode != r[b].paymentCode
    {
      if a == row.carId {
        assert r[a] == row;
      } else if b == row.carId {
        assert r[b] == row;
      }
    }
  }

  /** SaleRepository: the sale ledger, keyed by car_id, with the identity column's next value. */
  class SaleRepository {
    var rows: map<int, SaleRow>
    var nextId: int

    predicate Valid()
      reads this
    {
      LedgerInvariant(rows, nextId)
    }

    constructor (rows: map<int, SaleRow>, nextId: int)
      requires LedgerInvariant(rows, nextId)
      ensures this.rows == rows && this.nextId == nextId && Valid()
    {
      this.rows := rows;
      this.nextId := nextId;
    }

    /** lockByCarId: the sale of a car, as a fresh entity, or nothing. */
    method LockByCarId(carId: int) returns (sale: Option<Sale>)
      requires Valid()
      ensures sale.None? <==> carId !in rows
      ensures sale.Some? ==>
        fresh(sale.value) && sale.value.id == Some(rows[carId].id) && sale.value.HasRequiredColumns()
        && sale.value.Row() == rows[carId]
    {
      if carId in rows {
        var s := new Sale.Load(rows[carId]);
        return Some(s);
      }
      return None;
    }

    /** findByPaymentCode: the sale holding `code`, as a fresh entity, or nothing when no row
        holds it. */
    method FindByPaymentCode(code: Option<string>) returns (sale: Option<Sale>)
      requires Valid()
      ensures sale.None? <==> forall k | k in rows :: rows[k].paymentCode != code
      ensures sale.Some? ==>
        && fresh(sale.value) && sale.value.id.Some? && sale.value.HasRequiredColumns()
        && sale.value.carId.value in rows && sale.value.Row() == rows[sale.value.carId.value]
        && sale.value.paymentCode == code
    {
      if exists k :: k in rows && rows[k].paymentCode == code {
        var k :| k in rows && rows[k].paymentCode == code;
        var s := new Sale.Load(rows[k]);
        return Some(s);
      }
      return None;
    }

    /** save: a sale without an id is inserted and gets the next generated id; a sale with an id
        overwrites its own row. The database refuses (StorageRejected, nothing written) a row with a
        null NOT NULL column, a second row for the same car, a duplicate payment code, or a
        locked_price or buyer_cpf too wide for its column. */
    method Save(sale: Sale) returns (r: Outcome)
      requires Valid()
      requires sale.id.Some? ==>
        sale.carId.Some? && sale.carId.value in rows && rows[sale.carId.value].id == sale.id.value
      modifies this, sale
      ensures Valid()
      ensures r == (if old(sale.HasRequiredColumns())
                       && (old(sale.id).None? ==> old(sale.carId.value) !in old(rows))
                       && Admits(old(rows), old(sale.Pending(nextId)))
                    then Pass else Fail(StorageRejected))
      ensures r.Fail? ==> unchanged(this, sale)
      ensures r.Pass? ==>
        && sale.id.Some? && sale.HasRequiredColumns() && sale.Row() == old(sale.Pending(nextId))
        && rows == old(rows)[sale.carId.value := sale.Row()]
        && nextId == (if old(sale.id).None? then old(nextId) + 1 else old(nextId))
    {
      if !sale.HasRequiredColumns() {
        return Fail(StorageRejected);
      }
      var row := sale.Pending(nextId);
      if sale.id.None? && row.carId in rows {
        return Fail(StorageRejected);
      }
      if !Admits(rows, row) {
        return Fail(StorageRejected);
      }
      var newNextId := if sale.id.None? then nextId + 1 else nextId;
      AdmittedKeepsLedger(rows, nextId, row, newNextId);
      sale.id := Some(row.id);
      rows := rows[row.carId := row];
      nextId := newNextId;
      r := Pass;
    }
  }
}
