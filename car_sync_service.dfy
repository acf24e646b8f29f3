/** CarSyncServiceImpl: Core pushes a car and the replica finds or creates it, overwrites every
    attribute and offers it for sale again. */
module CarSync {
  import opened Common
  import opened Cars
  import opened Dto
  import opened Repositories

  /** The row upsert stores for `req` at instant `now`: the request's attributes, unsold, stamped
      with the service's own clock. */
  function SyncedRow(req: CarSyncRequest, now: int): CarRow {
    CarRow(req.id, req.brand, req.model, req.year, req.color, req.price, false, now)
  }

  /** The catalog after upsert(req) at instant `now`. */
  function Upserted(rows: map<int, CarRow>, req: CarSyncRequest, now: int): (r: map<int, CarRow>)
    ensures r.Keys == rows.Keys + {req.id}
    ensures req.id in r && !r[req.id].sold && r[req.id].updatedAt == now
    ensures forall k | k in rows && k != req.id :: r[k] == rows[k]
  {
    rows[req.id := SyncedRow(req, now)]
  }

  /** A car Core has not pushed before is added: exactly one more row. */
  lemma UpsertAddsOne(rows: map<int, CarRow>, req: CarSyncRequest, now: int)
    requires req.id !in rows
    ensures |Upserted(rows, req, now).Keys| == |rows.Keys| + 1
  {
    assert rows.Keys !! {req.id};
  }

  /** A car already replicated is overwritten in place: no second row appears. */
  lemma UpsertAddsNoneWhenPresent(rows: map<int, CarRow>, req: CarSyncRequest, now: int)
    requires req.id in rows
    ensures |Upserted(rows, req, now).Keys| == |rows.Keys|
  {
    assert Upserted(rows, req, now).Keys == rows.Keys;
  }

  /** The stored row carries the request's attributes under the request's id, whatever was
      stored before. */
  lemma UpsertStoresRequest(rows: map<int, CarRow>, req: CarSyncRequest, now: int)
    ensures var r := Upserted(rows, req, now)[req.id];
            r.id == req.id && r.brand == req.brand && r.model == req.model && r.year == req.year
            && r.color == req.color && r.price == req.price
  {
  }

  /** Pushing the same request twice is pushing it once, up to the timestamp of the last push. */
  lemma UpsertIdempotent(rows: map<int, CarRow>, req: CarSyncRequest, t1: int, t2: int)
    ensures Upserted(Upserted(rows, req, t1), req, t2) == Upserted(rows, req, t2)
  {
  }

  /** The timestamp Core sends is ignored: updatedAt is the replica's clock. */
  lemma UpsertIgnoresRequestTimestamp(rows: map<int, CarRow>, req: CarSyncRequest, now: int,
                                      sentAt: Option<int>)
    ensures Upserted(rows, req.(updatedAt := sentAt), now) == Upserted(rows, req, now)
  {
  }

  /** A sold car is put back on sale: upsert does not go through Car.update, so the guard that
      refuses to edit a sold car does not apply. */
  lemma UpsertReopensSoldCar(rows: map<int, CarRow>, req: CarSyncRequest, now: int)
    requires req.id in rows && rows[req.id].sold
    ensures !Upserted(rows, req, now)[req.id].sold
    ensures Upserted(rows, req, now)[req.id].price == req.price
  {
  }

  /** The replica stays keyed by car id. */
  lemma UpsertKeepsKeyed(rows: map<int, CarRow>, req: CarSyncRequest, now: int)
    requires CarsKeyed(rows)
    ensures CarsKeyed(Upserted(rows, req, now))
  {
  }

  class CarSyncServiceImpl {
    const carRepo: CarRepository

    constructor (carRepo: CarRepository)
      ensures this.carRepo == carRepo
    {
      this.carRepo := carRepo;
    }

    /** upsert(req): find the car by id or start a new one, overwrite every attribute, stamp it
        with `now`, mark it unsold and save it. */
    method Upsert(req: CarSyncRequest, now: int)
      requires carRepo.Valid()
      modifies carRepo
      ensures carRepo.Valid()
      ensures carRepo.rows == Upserted(old(carRepo.rows), req, now)
    {
      var found := carRepo.FindById(req.id);
      var car: Car;
      if found.Some? {
        car := found.value;
      } else {
        car := new Car.Empty();
      }
      car.id := Some(req.id);
      car.brand := req.brand;
      car.model := req.model;
      car.year := req.year;
      car.color := req.color;
      car.price := req.price;
      car.updatedAt := now;
      car.sold := false;
      assert car.Row() == SyncedRow(req, now);
      carRepo.Save(car);
    }
  }
}
