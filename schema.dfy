/** The relational store as a value: the four tables the routers read and write, the id allocator,
    and the integrity invariant that every router mutation keeps. */
module Schema {
  import opened Domain

  /** The clients, opportunities, notes and car catalog, keyed by id, and the next id to hand out. */
  datatype Tables = Tables(clients: map<int, Client>, opportunities: map<int, Opportunity>,
                           notes: map<int, Note>, cars: map<int, Car>, nextId: int)

  /** What a mutation answers and the tables it leaves behind. */
  datatype Outcome<T> = Outcome(result: Result<T>, after: Tables)

  const Empty: Tables := Tables(map[], map[], map[], map[], 1)

  /** Ids are handed out from 1 upwards and every stored id is below the next one. */
  predicate IdsAllocated(t: Tables) {
    1 <= t.nextId
    && (forall id | id in t.clients :: 1 <= id < t.nextId)
    && (forall id | id in t.opportunities :: 1 <= id < t.nextId)
    && (forall id | id in t.notes :: 1 <= id < t.nextId)
    && (forall id | id in t.cars :: 1 <= id < t.nextId)
  }

  /** The fields the input schemas constrain: non-empty names and labels, a well-formed email, a year
      in range. */
  predicate ClientOk(c: Client) {
    c.name != "" && (c.email.Some? ==> ValidEmail(c.email.value))
  }

  predicate OpportunityOk(o: Opportunity) {
    o.carLabel != ""
  }

  predicate NoteOk(n: Note) {
    n.title != "" && n.content != ""
  }

  predicate CarOk(c: Car) {
    c.brand != "" && c.model != "" && (c.year.Some? ==> YearInRange(c.year.value))
  }

  predicate RowsOk(t: Tables) {
    (forall id | id in t.clients :: ClientOk(t.clients[id]))
    && (forall id | id in t.opportunities :: OpportunityOk(t.opportunities[id]))
    && (forall id | id in t.notes :: NoteOk(t.notes[id]))
    && (forall id | id in t.cars :: CarOk(t.cars[id]))
  }

  /** An opportunity names an existing client and, when it has one, an existing car; a note names an
      existing opportunity. */
  predicate ForeignKeys(t: Tables) {
    (forall id | id in t.opportunities :: t.opportunities[id].clientId in t.clients)
    && (forall id | id in t.opportunities ::
          t.opportunities[id].carModelId.Some? ==> t.opportunities[id].carModelId.value in t.cars)
    && (forall id | id in t.notes :: t.notes[id].opportunityId in t.opportunities)
  }

  /** Two clients of one owner that carry the same email. */
  predicate SameEmail(a: Client, b: Client) {
    a.createdById == b.createdById && a.email.Some? && a.email == b.email
  }

  /** No owner has two clients with the same email. */
  predicate EmailsUnique(t: Tables) {
    forall i, j | i in t.clients && j in t.clients && i != j :: !SameEmail(t.clients[i], t.clients[j])
  }

  /** No two catalog entries share brand, model, version and year (an absent version or year compares
      equal to an absent one). */
  predicate CarsUnique(t: Tables) {
    forall i, j | i in t.cars && j in t.cars && i != j :: t.cars[i] != t.cars[j]
  }

  predicate Valid(t: Tables) {
    IdsAllocated(t) && RowsOk(t) && ForeignKeys(t) && EmailsUnique(t) && CarsUnique(t)
  }

  /** Some client of `user` other than `except` has exactly this email. */
  predicate EmailTaken(t: Tables, user: UserId, email: string, except: Option<int>) {
    exists id | id in t.clients ::
      (except.None? || id != except.value) && t.clients[id].createdById == user
      && t.clients[id].email == Some(email)
  }

  /** Some catalog entry other than `except` is exactly this car. */
  predicate TupleTaken(t: Tables, car: Car, except: Option<int>) {
    exists id | id in t.cars :: (except.None? || id != except.value) && t.cars[id] == car
  }

  /** The opportunities that reference a client. */
  function OpportunitiesOfClient(t: Tables, clientId: int): (s: set<int>)
    ensures forall o :: o in s <==> o in t.opportunities && t.opportunities[o].clientId == clientId
  {
    set o | o in t.opportunities && t.opportunities[o].clientId == clientId
  }

  /** The opportunities that reference a catalog entry. */
  function OpportunitiesOfCar(t: Tables, carId: int): (s: set<int>)
    ensures forall o :: o in s <==> o in t.opportunities && t.opportunities[o].carModelId == Some(carId)
  {
    set o | o in t.opportunities && t.opportunities[o].carModelId == Some(carId)
  }

  /** The notes attached to an opportunity. */
  function NotesOfOpportunity(t: Tables, opportunityId: int): (s: set<int>)
    ensures forall n :: n in s <==> n in t.notes && t.notes[n].opportunityId == opportunityId
  {
    set n | n in t.notes && t.notes[n].opportunityId == opportunityId
  }

  /** Leaving a row out of the email search changes the answer only through that row: the email
      is taken by anyone exactly when it is taken by a row other than `id` or by `id` itself. */
  lemma EmailTakenExcept(t: Tables, user: UserId, email: string, id: int)
    ensures EmailTaken(t, user, email, None) <==>
              EmailTaken(t, user, email, Some(id))
              || (id in t.clients && t.clients[id].createdById == user && t.clients[id].email == Some(email))
  {
  }

  /** The same for the catalog search: a car is taken by anyone exactly when it is taken by an entry
      other than `id` or is entry `id` itself. */
  lemma TupleTakenExcept(t: Tables, car: Car, id: int)
    ensures TupleTaken(t, car, None) <==> TupleTaken(t, car, Some(id)) || (id in t.cars && t.cars[id] == car)
  {
  }
}
