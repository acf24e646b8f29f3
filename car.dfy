/** The catalog replica's vehicle (table car_view): the stored row and the entity object whose
    guarded mutators refuse to edit a sold car. Prices are integer cents, instants integer seconds. */
module Cars {
  import opened Common

  /** One stored row of car_view; every column but `sold` is NOT NULL. */
  datatype CarRow = CarRow(
    id: int,
    brand: string,
    model: string,
    year: int,
    color: string,
    price: int,
    sold: bool,
    updatedAt: int)

  /** The Car entity. `id` is null until the caller assigns the external identity. */
  class Car {
    var id: Option<int>
    var brand: string
    var model: string
    var year: int
    var color: string
    var price: int
    var sold: bool
    var updatedAt: int

    /** The persisted form of this entity. */
    function Row(): (r: CarRow)
      reads this
      requires id.Some?
      ensures r.id == id.value && r.sold == sold && r.price == price
    {
      CarRow(id.value, brand, model, year, color, price, sold, updatedAt)
    }

    /** The no-argument constructor used by the catalog upsert. Java leaves every column null;
        the upsert overwrites all of them before saving, so empty values stand in for null. */
    constructor Empty()
      ensures id == None && !sold
    {
      id, brand, model, year, color, price, sold, updatedAt := None, "", "", 0, "", 0, false, 0;
    }

    /** Car(brand, model, year, color, price): an unsold car stamped with the current instant. */
    constructor (brand: string, model: string, year: int, color: string, price: int, now: int)
      ensures this.id == None
      ensures this.brand == brand && this.model == model && this.year == year
      ensures this.color == color && this.price == price
      ensures !this.sold && this.updatedAt == now
    {
      this.id := None;
      this.brand, this.model, this.year, this.color, this.price := brand, model, year, color, price;
      this.sold := false;
      this.updatedAt := now;
    }

    /** The entity the repository materialises from a stored row. */
    constructor Load(row: CarRow)
      ensures id == Some(row.id) && Row() == row
    {
      id, brand, model, year, color, price, sold, updatedAt :=
        Some(row.id), row.brand, row.model, row.year, row.color, row.price, row.sold, row.updatedAt;
    }

    /** update(...): refused with Conflict once the car is sold; otherwise overwrites the five
        catalog attributes and stamps updatedAt, leaving id and sold alone. */
    method Update(brand: string, model: string, year: int, color: string, price: int, now: int)
      returns (r: Outcome)
      modifies this
      ensures r == (if old(sold) then Fail(Conflict) else Pass)
      ensures r.Fail? ==> unchanged(this)
      ensures r.Pass? ==>
        && this.brand == brand && this.model == model && this.year == year
        && this.color == color && this.price == price && this.updatedAt == now
        && this.id == old(this.id) && !this.sold
    {
      if sold {
        return Fail(Conflict);
      }
      this.brand := brand;
      this.model := model;
      this.year := year;
      this.color := color;
      this.price := price;
      this.updatedAt := now;
      r := Pass;
    }

    /** markAsSold(): refused with Conflict when already sold; otherwise sets sold and nothing else. */
    method MarkAsSold() returns (r: Outcome)
      modifies this
      ensures r == (if old(sold) then Fail(Conflict) else Pass)
      ensures sold
      ensures id == old(id) && brand == old(brand) && model == old(model) && year == old(year)
      ensures color == old(color) && price == old(price) && updatedAt == old(updatedAt)
    {
      if sold {
        return Fail(Conflict);
      }
      sold := true;
      r := Pass;
    }
  }

  /** Marking a car sold twice in a row always fails the second time, and the first call
      succeeds exactly when the car was unsold. */
  method MarkAsSoldTwice(car: Car) returns (first: Outcome, second: Outcome)
    modifies car
    ensures first == (if old(car.sold) then Fail(Conflict) else Pass)
    ensures second == Fail(Conflict)
    ensures car.sold
  {
    first := car.MarkAsSold();
    second := car.MarkAsSold();
  }

  /** A sold car can no longer be edited: marking it sold makes every later update fail. */
  method UpdateAfterSale(car: Car, brand: string, model: string, year: int, color: string,
                         price: int, now: int) returns (r: Outcome)
    modifies car
    ensures r == Fail(Conflict)
    ensures car.sold && car.id == old(car.id)
    ensures car.brand == old(car.brand) && car.model == old(car.model) && car.year == old(car.year)
    ensures car.color == old(car.color) && car.price == old(car.price)
    ensures car.updatedAt == old(car.updatedAt)
  {
    var _ := car.MarkAsSold();
    r := car.Update(brand, model, year, color, price, now);
  }
}
