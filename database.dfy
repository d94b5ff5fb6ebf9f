/** The store the routers reach through `ctx.db`: its tables are fields that each mutation reassigns. */
module Database {
  import opened Domain
  import opened Schema

  class Store {
    var clients: map<int, Client>
    var opportunities: map<int, Opportunity>
    var notes: map<int, Note>
    var cars: map<int, Car>
    var nextId: int

    /** The tables as a value. */
    function State(): Tables
      reads this
    {
      Tables(clients, opportunities, notes, cars, nextId)
    }

    predicate Valid()
      reads this
    {
      Schema.Valid(State())
    }

    /** A fresh, empty store. */
    constructor ()
      ensures Valid() && State() == Empty
    {
      clients, opportunities, notes, cars, nextId := map[], map[], map[], map[], 1;
    }
  }
}
