/** The car catalog router. The catalog is shared by all users: no procedure here is owner-scoped. */
module CarRouter {
  import opened Domain
  import opened Text
  import opened Paging
  import opened Schema
  import opened Database

  // ---------------------------------------------------------------------------------------------
  // Filters

  /** `{ contains: q, mode: "insensitive" }` on brand, model or version; a null version matches nothing. */
  predicate SearchHit(c: Car, q: string) {
    ContainsInsensitive(c.brand, q) || ContainsInsensitive(c.model, q)
    || (c.version.Some? && ContainsInsensitive(c.version.value, q))
  }

  /** The `where` that getAll builds: exactly the brand when one is given and non-empty, and the search
      term when that is non-empty. */
  predicate Listed(c: Car, brand: Option<string>, searchTerm: Option<string>) {
    (TruthyText(brand) ==> c.brand == brand.value)
    && (TruthyText(searchTerm) ==> SearchHit(c, searchTerm.value))
  }

  /** The rows getAll pages through, in the store's order. */
  function ListedRows(t: Tables, brand: Option<string>, searchTerm: Option<string>, order: seq<int>): (rows: seq<int>)
    ensures forall id :: id in rows <==> id in order && id in t.cars && Listed(t.cars[id], brand, searchTerm)
    ensures Distinct(order) ==> Distinct(rows)
    ensures InOrder(rows, order)
  {
    Filter(order, id => id in t.cars && Listed(t.cars[id], brand, searchTerm))
  }

  // ---------------------------------------------------------------------------------------------
  // Queries

  datatype ListInput = ListInput(limit: Option<int>, cursor: Option<int>, brand: Option<string>,
                                 searchTerm: Option<string>)

  /** getAll: `limit + 1` rows from the cursor row on, the extra one popped into `nextCursor`. */
  method GetAll(db: Store, input: ListInput, order: seq<int>) returns (r: Result<Page>)
    ensures r.Err? <==> ResolveLimit(input.limit, 50, 100).None?
    ensures r.Err? ==> r.error == InvalidInput
    ensures r.Ok? ==>
              var limit := ResolveLimit(input.limit, 50, 100).value;
              var rows := ListedRows(db.State(), input.brand, input.searchTerm, order);
              var fetched := Window(rows, input.cursor, limit);
              r.value == Paginate(rows, input.cursor, limit)
              && |r.value.items| <= limit
              && (forall id :: id in r.value.items ==> id in db.cars && Listed(db.cars[id], input.brand, input.searchTerm))
              && (r.value.nextCursor.Some? <==> |fetched| == limit + 1)
              && (r.value.nextCursor.Some? ==> r.value.items + [r.value.nextCursor.value] == fetched)
  {
    var limit := ResolveLimit(input.limit, 50, 100);
    if limit.None? {
      return Err(InvalidInput);
    }
    var rows := ListedRows(db.State(), input.brand, input.searchTerm, order);
    var fetched := Window(rows, input.cursor, limit.value);
    var page := PopExtra(fetched, limit.value);
    r := Ok(page);
  }

  /** Following `nextCursor` from the first page of getAll visits every listed car once, in the store's
      order; with a brand filter every one of them has exactly that brand. */
  lemma {:induction false} ListingReadsAll(t: Tables, brand: Option<string>, searchTerm: Option<string>,
                                           order: seq<int>, limit: nat)
    requires Valid(t) && IsScan(order, t.cars.Keys) && 1 <= limit
    ensures var rows := ListedRows(t, brand, searchTerm, order);
            Follow(rows, None, limit, |rows| + 1) == rows
            && (forall id :: id in rows <==> id in t.cars && Listed(t.cars[id], brand, searchTerm))
            && (TruthyText(brand) ==> forall id :: id in rows ==> t.cars[id].brand == brand.value)
  {
    var rows := ListedRows(t, brand, searchTerm, order);
    assert NoZeroId(rows) by {
      forall x | x in rows ensures x != 0 {
        assert x in t.cars;
      }
    }
    FollowAll(rows, limit);
  }

  /** The car with the opportunities that reference it (`include: { opportunities }`). */
  datatype CarDetail = CarDetail(car: Car, opportunities: set<int>)

  /** getById. */
  function GetById(t: Tables, id: int): (r: Result<CarDetail>)
    ensures r.Ok? <==> id in t.cars
    ensures r.Err? ==> r.error == NotFound(CarRow)
    ensures r.Ok? ==> r.value.car == t.cars[id] && r.value.opportunities == OpportunitiesOfCar(t, id)
  {
    if id in t.cars then Ok(CarDetail(t.cars[id], OpportunitiesOfCar(t, id))) else Err(NotFound(CarRow))
  }

  /** getByBrand: brand matched as a case-insensitive substring. */
  function GetByBrand(t: Tables, brand: string, order: seq<int>): (r: seq<int>)
    ensures forall id :: id in r <==> id in order && id in t.cars && ContainsInsensitive(t.cars[id].brand, brand)
  {
    Filter(order, id => id in t.cars && ContainsInsensitive(t.cars[id].brand, brand))
  }

  /** getModelsByBrand: brand matched exactly. */
  function GetModelsByBrand(t: Tables, brand: string, order: seq<int>): (r: seq<int>)
    ensures forall id :: id in r <==> id in order && id in t.cars && t.cars[id].brand == brand
  {
    Filter(order, id => id in t.cars && t.cars[id].brand == brand)
  }

  /** Whatever getModelsByBrand lists, getByBrand lists too: an exact match is also a case-insensitive
      substring match. */
  lemma ModelsWithinByBrand(t: Tables, brand: string, order: seq<int>, order': seq<int>)
    requires IsScan(order, t.cars.Keys) && IsScan(order', t.cars.Keys)
    ensures forall id :: id in GetModelsByBrand(t, brand, order) ==> id in GetByBrand(t, brand, order')
  {
    forall id | id in GetModelsByBrand(t, brand, order) ensures id in GetByBrand(t, brand, order') {
      ContainsItself(brand);
    }
  }

  /** getByBrand is not exact: a catalog with a "Fiat" answers "fi" and "FIAT" on getByBrand and neither on
      getModelsByBrand. */
  lemma ByBrandIsLooser()
    ensures var t := Empty.(cars := map[1 := Car("Fiat", "Uno", None, None)], nextId := 2);
            GetByBrand(t, "FIAT", [1]) == [1] && GetModelsByBrand(t, "FIAT", [1]) == []
            && GetByBrand(t, "fi", [1]) == [1] && GetModelsByBrand(t, "fi", [1]) == []
  {
    var t := Empty.(cars := map[1 := Car("Fiat", "Uno", None, None)], nextId := 2);
    FiatMatches("FIAT");
    FiatMatches("fi");
    assert 1 in GetByBrand(t, "FIAT", [1]) && 1 in GetByBrand(t, "fi", [1]);
  }

  lemma FiatMatches(q: string)
    requires q == "FIAT" || q == "fi"
    ensures ContainsInsensitive("Fiat", q)
  {
    assert LowerText("Fiat") == "fiat";
    if q == "FIAT" {
      assert LowerText(q) == "fiat";
      assert "fiat" <= "fiat"[0..];
    } else {
      assert LowerText(q) == "fi";
      assert "fi" <= "fiat"[0..];
    }
  }

  /** The brand column of the given catalog rows. */
  function Brands(t: Tables, ids: seq<int>): (r: seq<string>)
    requires forall i | 0 <= i < |ids| :: ids[i] in t.cars
    ensures |r| == |ids|
    ensures forall i | 0 <= i < |ids| :: r[i] == t.cars[ids[i]].brand
  {
    if ids == [] then [] else [t.cars[ids[0]].brand] + Brands(t, ids[1..])
  }

  /** getBrands: every brand of the catalog once, ascending (`distinct: ["brand"]`, `orderBy: { brand: "asc" }`). */
  function GetBrands(t: Tables, order: seq<int>): (r: seq<string>)
    ensures StrictlyAscending(r)
    ensures forall b :: b in r <==> exists id | id in order && id in t.cars :: t.cars[id].brand == b
  {
    var ids := Filter(order, id => id in t.cars);
    assert forall i | 0 <= i < |ids| :: ids[i] in t.cars by {
      forall i | 0 <= i < |ids| ensures ids[i] in t.cars {
        assert ids[i] in ids;
      }
    }
    var column := Brands(t, ids);
    assert forall b :: b in column <==> exists id | id in order && id in t.cars :: t.cars[id].brand == b by {
      forall b ensures b in column <==> exists id | id in order && id in t.cars :: t.cars[id].brand == b {
        if b in column {
          var i :| 0 <= i < |column| && column[i] == b;
          assert ids[i] in ids;
        }
        if exists id | id in order && id in t.cars :: t.cars[id].brand == b {
          var id :| id in order && id in t.cars && t.cars[id].brand == b;
          assert id in ids;
          var i :| 0 <= i < |ids| && ids[i] == id;
          assert column[i] == b;
        }
      }
    }
    AscendingDistinct(column)
  }

  /** The list of brands is the catalog's set of brands in ascending order, whatever order the store
      enumerated the rows in. */
  lemma {:induction false} BrandsFromCatalog(t: Tables, order: seq<int>, order': seq<int>)
    requires IsScan(order, t.cars.Keys) && IsScan(order', t.cars.Keys)
    ensures forall b :: b in GetBrands(t, order) <==> exists id | id in t.cars :: t.cars[id].brand == b
    ensures GetBrands(t, order) == GetBrands(t, order')
  {
    var r, r' := GetBrands(t, order), GetBrands(t, order');
    forall b ensures b in r <==> b in r' {
      if b in r {
        var id :| id in order && id in t.cars && t.cars[id].brand == b;
        assert id in order';
      }
      if b in r' {
        var id :| id in order' && id in t.cars && t.cars[id].brand == b;
        assert id in order;
      }
    }
    AscendingUnique(r, r');
  }

  /** The catalog rows that match a search, in the store's order. */
  function SearchRows(t: Tables, query: string, order: seq<int>): (rows: seq<int>)
    ensures forall id :: id in rows <==> id in order && id in t.cars && SearchHit(t.cars[id], query)
  {
    Filter(order, id => id in t.cars && SearchHit(t.cars[id], query))
  }

  /** search: the first `limit` matches (1..20, default 10) for a non-empty query. */
  function Search(t: Tables, query: string, limit: Option<int>, order: seq<int>): (r: Result<seq<int>>)
    ensures r.Err? <==> query == "" || ResolveLimit(limit, 10, 20).None?
    ensures r.Err? ==> r.error == InvalidInput
    ensures r.Ok? ==>
              var all := SearchRows(t, query, order);
              var n := ResolveLimit(limit, 10, 20).value;
              |r.value| == Min(|all|, n) && r.value == all[..|r.value|]
              && (forall id :: id in r.value ==> id in t.cars && SearchHit(t.cars[id], query))
  {
    var n := ResolveLimit(limit, 10, 20);
    if query == "" || n.None? then Err(InvalidInput)
    else
      var all := SearchRows(t, query, order);
      var page := Take(all, n.value);
      assert forall id :: id in page ==> id in all;
      Ok(page)
  }

  /** getStats' `totalCars`. */
  function TotalCars(t: Tables): (n: nat)
    ensures n == 0 <==> t.cars == map[]
  {
    |t.cars|
  }

  // ---------------------------------------------------------------------------------------------
  // create

  datatype NewCar = NewCar(brand: string, model: string, version: Option<string>, year: Option<int>)

  /** The input schema of create: non-empty brand and model, a year in 1900..2100 when given. */
  predicate NewCarOk(input: NewCar) {
    input.brand != "" && input.model != "" && (input.year.Some? ==> YearInRange(input.year.value))
  }

  function CreateOutcome(t: Tables, input: NewCar): (o: Outcome<int>)
    ensures o.result.Err? ==> o.after == t
  {
    var car := Car(input.brand, input.model, input.version, input.year);
    if !NewCarOk(input) then Outcome(Err(InvalidInput), t)
    else if TupleTaken(t, car, None) then Outcome(Err(Duplicate(CarRow)), t)
    else Outcome(Ok(t.nextId), t.(cars := t.cars[t.nextId := car], nextId := t.nextId + 1))
  }

  /** create is refused exactly when the catalog already holds the same brand, model, version and year,
      an absent version or year matching an absent one; a car that differs in any one field is
      accepted. A created car is read back as given, nulls included, with no opportunities, and the
      catalog grows by one. */
  lemma CreateEffect(t: Tables, input: NewCar)
    requires Valid(t)
    ensures var o := CreateOutcome(t, input);
            var car := Car(input.brand, input.model, input.version, input.year);
            (o.result == Err(Duplicate(CarRow)) <==> NewCarOk(input) && exists id | id in t.cars :: t.cars[id] == car)
            && (o.result.Ok? <==> NewCarOk(input) && forall id | id in t.cars ::
                  t.cars[id].brand != car.brand || t.cars[id].model != car.model
                  || t.cars[id].version != car.version || t.cars[id].year != car.year)
            && (o.result.Ok? ==> GetById(o.after, o.result.value) == Ok(CarDetail(car, {}))
                                 && TotalCars(o.after) == TotalCars(t) + 1)
            && Valid(o.after)
  {
    var o := CreateOutcome(t, input);
    if o.result.Ok? {
      var id := t.nextId;
      assert id !in t.cars;
      assert OpportunitiesOfCar(o.after, id) == {} by {
        forall x | x in o.after.opportunities ensures o.after.opportunities[x].carModelId != Some(id) {
          assert x in t.opportunities;
        }
      }
    }
  }

  method Create(db: Store, input: NewCar) returns (r: Result<int>)
    requires db.Valid()
    modifies db
    ensures db.Valid()
    ensures Outcome(r, db.State()) == CreateOutcome(old(db.State()), input)
  {
    if !NewCarOk(input) {
      return Err(InvalidInput);
    }
    var car := Car(input.brand, input.model, input.version, input.year);
    if TupleTaken(db.State(), car, None) {
      return Err(Duplicate(CarRow));
    }
    CreateEffect(db.State(), input);
    var id := db.nextId;
    db.cars := db.cars[id := car];
    db.nextId := id + 1;
    r := Ok(id);
  }

  // ---------------------------------------------------------------------------------------------
  // update

  datatype CarChanges = CarChanges(id: int, brand: Option<string>, model: Option<string>,
                                   version: Patch<string>, year: Patch<int>)

  /** The input schema of update: a given brand or model is non-empty, a given year in range. */
  predicate ChangesOk(ch: CarChanges) {
    (ch.brand.Some? ==> ch.brand.value != "") && (ch.model.Some? ==> ch.model.value != "")
    && (ch.year.Set? ==> YearInRange(ch.year.value))
  }

  /** `updateData.brand || updateData.model || version !== undefined || year !== undefined`. */
  predicate AnySupplied(ch: CarChanges) {
    TruthyText(ch.brand) || TruthyText(ch.model) || !ch.version.Keep? || !ch.year.Keep?
  }

  /** The car the update would leave: each supplied field, else the current value. */
  function Resulting(c: Car, ch: CarChanges): (r: Car)
    ensures r.brand == (if ch.brand.Some? then ch.brand.value else c.brand)
    ensures r.model == (if ch.model.Some? then ch.model.value else c.model)
    ensures r.version == Patched(ch.version, c.version) && r.year == Patched(ch.year, c.year)
    ensures !AnySupplied(ch) && ChangesOk(ch) ==> r == c
  {
    Car(Or(ch.brand, c.brand), Or(ch.model, c.model), Patched(ch.version, c.version), Patched(ch.year, c.year))
  }

  function UpdateOutcome(t: Tables, ch: CarChanges): (o: Outcome<Car>)
    ensures o.result.Err? ==> o.after == t
  {
    if !ChangesOk(ch) then Outcome(Err(InvalidInput), t)
    else if ch.id !in t.cars then Outcome(Err(NotFound(CarRow)), t)
    else
      var car := Resulting(t.cars[ch.id], ch);
      if AnySupplied(ch) && TupleTaken(t, car, Some(ch.id)) then Outcome(Err(Duplicate(CarRow)), t)
      else Outcome(Ok(car), t.(cars := t.cars[ch.id := car]))
  }

  /** update fails not-found on a missing id; it fails as a duplicate exactly when another car already
      is the resulting tuple (the `AnySupplied` guard makes no difference in a valid store); otherwise
      it rewrites that one car. */
  lemma UpdateEffect(t: Tables, ch: CarChanges)
    requires Valid(t)
    ensures var o := UpdateOutcome(t, ch);
            (ChangesOk(ch) && ch.id !in t.cars ==> o.result == Err(NotFound(CarRow)))
            && (o.result == Err(Duplicate(CarRow)) <==>
                  ChangesOk(ch) && ch.id in t.cars
                  && exists j | j in t.cars :: j != ch.id && t.cars[j] == Resulting(t.cars[ch.id], ch))
            && (o.result.Ok? ==> o.after == t.(cars := t.cars[ch.id := Resulting(t.cars[ch.id], ch)]))
            && Valid(o.after)
  {
    var o := UpdateOutcome(t, ch);
    if ChangesOk(ch) && ch.id in t.cars && !AnySupplied(ch) {
      var car := t.cars[ch.id];
      assert Resulting(car, ch) == car;
      assert forall j | j in t.cars && j != ch.id :: t.cars[j] != car;
    }
  }

  /** An update that supplies no field skips the duplicate search and hands back the stored car;
      the store is left as it was. */
  lemma UpdateNothingSupplied(t: Tables, ch: CarChanges)
    requires ChangesOk(ch) && ch.id in t.cars && !AnySupplied(ch)
    ensures UpdateOutcome(t, ch) == Outcome(Ok(t.cars[ch.id]), t)
  {
    assert t.cars[ch.id := t.cars[ch.id]] == t.cars;
  }

  method Update(db: Store, ch: CarChanges) returns (r: Result<Car>)
    requires db.Valid()
    modifies db
    ensures db.Valid()
    ensures Outcome(r, db.State()) == UpdateOutcome(old(db.State()), ch)
  {
    if !ChangesOk(ch) {
      return Err(InvalidInput);
    }
    if ch.id !in db.cars {
      return Err(NotFound(CarRow));
    }
    var car := Resulting(db.cars[ch.id], ch);
    if AnySupplied(ch) && TupleTaken(db.State(), car, Some(ch.id)) {
      return Err(Duplicate(CarRow));
    }
    UpdateEffect(db.State(), ch);
    db.cars := db.cars[ch.id := car];
    r := Ok(car);
  }

  // ---------------------------------------------------------------------------------------------
  // delete

  function DeleteOutcome(t: Tables, id: int): (o: Outcome<Car>)
    ensures o.result.Err? ==> o.after == t
  {
    if id !in t.cars then Outcome(Err(NotFound(CarRow)), t)
    else
      var linked := |OpportunitiesOfCar(t, id)|;
      if linked > 0 then Outcome(Err(InUse(CarRow, linked)), t)
      else Outcome(Ok(t.cars[id]), t.(cars := t.cars - {id}))
  }

  /** delete is refused with the number of linked opportunities while there are any; otherwise it
      removes exactly that car, a later getById fails not-found and the catalog shrinks by one. */
  lemma DeleteEffect(t: Tables, id: int)
    requires Valid(t)
    ensures var o := DeleteOutcome(t, id);
            (id !in t.cars ==> o.result == Err(NotFound(CarRow)))
            && (id in t.cars && OpportunitiesOfCar(t, id) != {} ==>
                  o.result == Err(InUse(CarRow, |OpportunitiesOfCar(t, id)|)))
            && (o.result.Ok? <==> id in t.cars && OpportunitiesOfCar(t, id) == {})
            && (o.result.Ok? ==> o.after == t.(cars := t.cars - {id})
                                 && GetById(o.after, id) == Err(NotFound(CarRow))
                                 && TotalCars(o.after) == TotalCars(t) - 1)
            && Valid(o.after)
  {
    var o := DeleteOutcome(t, id);
    if o.result.Ok? {
      assert forall x | x in t.opportunities :: t.opportunities[x].carModelId != Some(id) by {
        forall x | x in t.opportunities ensures t.opportunities[x].carModelId != Some(id) {
          assert x !in OpportunitiesOfCar(t, id);
        }
      }
    }
  }

  method Delete(db: Store, id: int) returns (r: Result<Car>)
    requires db.Valid()
    modifies db
    ensures db.Valid()
    ensures Outcome(r, db.State()) == DeleteOutcome(old(db.State()), id)
  {
    if id !in db.cars {
      return Err(NotFound(CarRow));
    }
    var linked := |OpportunitiesOfCar(db.State(), id)|;
    if linked > 0 {
      return Err(InUse(CarRow, linked));
    }
    DeleteEffect(db.State(), id);
    r := Ok(db.cars[id]);
    db.cars := db.cars - {id};
  }
}
