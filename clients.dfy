/** The clients router: every procedure is scoped to the caller's own clients. */
module ClientsRouter {
  import opened Domain
  import opened Text
  import opened Paging
  import opened Schema
  import opened Tenancy
  import opened Database

  // ---------------------------------------------------------------------------------------------
  // Lookups and filters

  /** `verifyClientAccess`: the client when the caller owns it; a missing id and someone else's id
      give the same NotFound. */
  function VerifyClientAccess(t: Tables, id: int, user: UserId): (r: Result<Client>)
    ensures r.Ok? <==> OwnsClient(t, user, id)
    ensures r.Ok? ==> id in t.clients && r.value == t.clients[id] && r.value.createdById == user
    ensures r.Err? ==> r.error == NotFound(ClientRow)
  {
    if id in t.clients && t.clients[id].createdById == user then Ok(t.clients[id])
    else Err(NotFound(ClientRow))
  }

  /** `{ contains: q, mode: "insensitive" }` on name, email or phone; a null column matches nothing. */
  predicate SearchHit(c: Client, q: string) {
    ContainsInsensitive(c.name, q)
    || (c.email.Some? && ContainsInsensitive(c.email.value, q))
    || (c.phone.Some? && ContainsInsensitive(c.phone.value, q))
  }

  /** The `where` that getAll builds: the caller's clients, of the given urgency when one is given,
      and matching the search term when that is non-empty. */
  predicate Listed(c: Client, user: UserId, urgency: Option<Urgency>, searchTerm: Option<string>) {
    c.createdById == user
    && (urgency.Some? ==> c.urgency == urgency.value)
    && (TruthyText(searchTerm) ==> SearchHit(c, searchTerm.value))
  }

  /** The caller's clients (`getUserClientsWhere`) in the store's order. */
  function OwnedClients(t: Tables, user: UserId, order: seq<int>): (rows: seq<int>)
    ensures forall id :: id in rows <==> id in order && OwnsClient(t, user, id)
    ensures forall i | 0 <= i < |rows| :: OwnsClient(t, user, rows[i])
    ensures Distinct(order) ==> Distinct(rows)
    ensures InOrder(rows, order)
  {
    Filter(order, id => OwnsClient(t, user, id))
  }

  /** The rows getAll pages through, in the store's order. */
  function ListedRows(t: Tables, user: UserId, urgency: Option<Urgency>, searchTerm: Option<string>,
                      order: seq<int>): (rows: seq<int>)
    ensures forall id :: id in rows <==>
              id in order && id in t.clients && Listed(t.clients[id], user, urgency, searchTerm)
    ensures Distinct(order) ==> Distinct(rows)
    ensures InOrder(rows, order)
  {
    Filter(order, id => id in t.clients && Listed(t.clients[id], user, urgency, searchTerm))
  }

  // ---------------------------------------------------------------------------------------------
  // Queries

  datatype ListInput = ListInput(limit: Option<int>, cursor: Option<int>, urgency: Option<Urgency>,
                                 searchTerm: Option<string>)

  /** getAll: `limit + 1` rows from the cursor row on, the extra one popped into `nextCursor`. */
  method GetAll(db: Store, user: UserId, input: ListInput, order: seq<int>) returns (r: Result<Page>)
    ensures r.Err? <==> ResolveLimit(input.limit, 50, 100).None?
    ensures r.Err? ==> r.error == InvalidInput
    ensures r.Ok? ==>
              var limit := ResolveLimit(input.limit, 50, 100).value;
              var rows := ListedRows(db.State(), user, input.urgency, input.searchTerm, order);
              var fetched := Window(rows, input.cursor, limit);
              r.value == Paginate(rows, input.cursor, limit)
              && |r.value.items| <= limit
              && (forall id :: id in r.value.items ==>
                    id in db.clients && Listed(db.clients[id], user, input.urgency, input.searchTerm))
              && (r.value.nextCursor.Some? <==> |fetched| == limit + 1)
              && (r.value.nextCursor.Some? ==> r.value.items + [r.value.nextCursor.value] == fetched)
  {
    var limit := ResolveLimit(input.limit, 50, 100);
    if limit.None? {
      return Err(InvalidInput);
    }
    var rows := ListedRows(db.State(), user, input.urgency, input.searchTerm, order);
    var fetched := Window(rows, input.cursor, limit.value);
    var page := PopExtra(fetched, limit.value);
    r := Ok(page);
  }

  /** Following `nextCursor` from the first page of getAll visits every listed client once, in the
      store's order: exactly the caller's clients that pass the filters. */
  lemma {:induction false} ListingReadsAll(t: Tables, user: UserId, urgency: Option<Urgency>,
                                           searchTerm: Option<string>, order: seq<int>, limit: nat)
    requires Valid(t) && IsScan(order, t.clients.Keys) && 1 <= limit
    ensures var rows := ListedRows(t, user, urgency, searchTerm, order);
            Follow(rows, None, limit, |rows| + 1) == rows
            && (forall id :: id in rows <==> OwnsClient(t, user, id) && Listed(t.clients[id], user, urgency, searchTerm))
  {
    var rows := ListedRows(t, user, urgency, searchTerm, order);
    assert NoZeroId(rows) by {
      forall x | x in rows ensures x != 0 {
        assert x in t.clients;
      }
    }
    FollowAll(rows, limit);
  }

  /** The client with its opportunities (`include: { opportunities }`). */
  datatype ClientDetail = ClientDetail(client: Client, opportunities: set<int>)

  /** getById. */
  function GetById(t: Tables, user: UserId, id: int): (r: Result<ClientDetail>)
    ensures r.Ok? <==> OwnsClient(t, user, id)
    ensures r.Err? ==> r.error == NotFound(ClientRow)
    ensures r.Ok? ==> id in t.clients && r.value.client == t.clients[id]
                      && r.value.opportunities == OpportunitiesOfClient(t, id)
  {
    if id in t.clients && t.clients[id].createdById == user then
      Ok(ClientDetail(t.clients[id], OpportunitiesOfClient(t, id)))
    else Err(NotFound(ClientRow))
  }

  /** getByUrgency. */
  function GetByUrgency(t: Tables, user: UserId, urgency: Urgency, order: seq<int>): (r: seq<int>)
    ensures forall id :: id in r <==> id in order && OwnsClient(t, user, id) && t.clients[id].urgency == urgency
    ensures Distinct(order) ==> Distinct(r)
  {
    Filter(order, id => OwnsClient(t, user, id) && t.clients[id].urgency == urgency)
  }

  /** getUrgent: the caller's HIGH-urgency clients. */
  function GetUrgent(t: Tables, user: UserId, order: seq<int>): (r: seq<int>)
    ensures forall id :: id in r <==> id in order && OwnsClient(t, user, id) && t.clients[id].urgency == HIGH
  {
    GetByUrgency(t, user, HIGH, order)
  }

  /** The caller's clients that match a search, in the store's order. */
  function SearchRows(t: Tables, user: UserId, query: string, order: seq<int>): (rows: seq<int>)
    ensures forall id :: id in rows <==> id in order && OwnsClient(t, user, id) && SearchHit(t.clients[id], query)
  {
    Filter(order, id => OwnsClient(t, user, id) && SearchHit(t.clients[id], query))
  }

  /** search: the first `limit` matches (1..20, default 10) for a non-empty query. */
  function Search(t: Tables, user: UserId, query: string, limit: Option<int>, order: seq<int>): (r: Result<seq<int>>)
    ensures r.Err? <==> query == "" || ResolveLimit(limit, 10, 20).None?
    ensures r.Err? ==> r.error == InvalidInput
    ensures r.Ok? ==>
              var all := SearchRows(t, user, query, order);
              var n := ResolveLimit(limit, 10, 20).value;
              |r.value| == Min(|all|, n) && r.value == all[..|r.value|]
              && (forall id :: id in r.value ==> OwnsClient(t, user, id) && SearchHit(t.clients[id], query))
  {
    var n := ResolveLimit(limit, 10, 20);
    if query == "" || n.None? then Err(InvalidInput)
    else
      var all := SearchRows(t, user, query, order);
      var page := Take(all, n.value);
      assert forall id :: id in page ==> id in all;
      Ok(page)
  }

  // ---------------------------------------------------------------------------------------------
  // create

  datatype NewClient = NewClient(name: string, email: Option<string>, phone: Option<string>,
                                 urgency: Option<Urgency>)

  /** The input schema of create: a non-empty name and, when given, a well-formed email. */
  predicate NewClientOk(input: NewClient) {
    input.name != "" && (input.email.Some? ==> ValidEmail(input.email.value))
  }

  /** create as a transition of the tables. */
  function CreateOutcome(t: Tables, user: UserId, input: NewClient): (o: Outcome<int>)
    ensures o.result.Err? ==> o.after == t
  {
    if !NewClientOk(input) then Outcome(Err(InvalidInput), t)
    else if TruthyText(input.email) && EmailTaken(t, user, input.email.value, None) then
      Outcome(Err(Duplicate(ClientRow)), t)
    else
      var c := Client(input.name, input.email, input.phone, Or(input.urgency, NORMAL), user);
      Outcome(Ok(t.nextId), t.(clients := t.clients[t.nextId := c], nextId := t.nextId + 1))
  }

  /** A valid email is never empty, so `if (input.email)` tests exactly whether one was given. */
  lemma ValidEmailTruthy(e: Option<string>)
    requires e.Some? ==> ValidEmail(e.value)
    ensures TruthyText(e) <==> e.Some?
  {
    if e.Some? {
      assert '@' in e.value;
    }
  }

  /** A duplicate email blocks create exactly when a client of the same owner already has it; the
      same email under another owner does not. */
  lemma CreateConflict(t: Tables, user: UserId, input: NewClient)
    ensures var o := CreateOutcome(t, user, input);
            (o.result == Err(Duplicate(ClientRow)) <==>
               NewClientOk(input) && input.email.Some?
               && exists id | id in t.clients :: t.clients[id].createdById == user && t.clients[id].email == input.email)
            && (o.result.Err? ==> o.after == t)
  {
    if NewClientOk(input) {
      ValidEmailTruthy(input.email);
    }
  }

  /** A created client belongs to the caller, has urgency NORMAL unless another was asked for, and is
      read back by getById with no opportunities yet. */
  lemma CreateThenGet(t: Tables, user: UserId, input: NewClient)
    requires Valid(t)
    ensures var o := CreateOutcome(t, user, input);
            o.result.Ok? ==>
              GetById(o.after, user, o.result.value) ==
              Ok(ClientDetail(Client(input.name, input.email, input.phone, Or(input.urgency, NORMAL), user), {}))
  {
    var o := CreateOutcome(t, user, input);
    if o.result.Ok? {
      var id := o.result.value;
      assert id == t.nextId;
      assert OpportunitiesOfClient(o.after, id) == {} by {
        forall x | x in o.after.opportunities ensures o.after.opportunities[x].clientId != id {
          assert t.opportunities[x].clientId in t.clients;
        }
      }
    }
  }

  lemma CreateKeepsValid(t: Tables, user: UserId, input: NewClient)
    requires Valid(t)
    ensures Valid(CreateOutcome(t, user, input).after)
  {
    var o := CreateOutcome(t, user, input);
    if o.result.Ok? {
      var id := t.nextId;
      var c := o.after.clients[id];
      ValidEmailTruthy(input.email);
      assert forall j | j in t.clients :: !SameEmail(c, t.clients[j]) && !SameEmail(t.clients[j], c);
    }
  }

  method Create(db: Store, user: UserId, input: NewClient) returns (r: Result<int>)
    requires db.Valid()
    modifies db
    ensures db.Valid()
    ensures Outcome(r, db.State()) == CreateOutcome(old(db.State()), user, input)
  {
    if !NewClientOk(input) {
      return Err(InvalidInput);
    }
    if TruthyText(input.email) && EmailTaken(db.State(), user, input.email.value, None) {
      return Err(Duplicate(ClientRow));
    }
    CreateKeepsValid(db.State(), user, input);
    var id := db.nextId;
    db.clients := db.clients[id := Client(input.name, input.email, input.phone, Or(input.urgency, NORMAL), user)];
    db.nextId := id + 1;
    r := Ok(id);
  }

  // ---------------------------------------------------------------------------------------------
  // update, updateUrgency

  datatype ClientChanges = ClientChanges(id: int, name: Option<string>, email: Patch<string>,
                                         phone: Patch<string>, urgency: Option<Urgency>)

  /** The input schema of update: a given name is non-empty and a given email well-formed. */
  predicate ChangesOk(ch: ClientChanges) {
    (ch.name.Some? ==> ch.name.value != "") && (ch.email.Set? ==> ValidEmail(ch.email.value))
  }

  /** The row after `data: updateData`: supplied fields replace, left-out fields stay. */
  function Apply(c: Client, ch: ClientChanges): (r: Client)
    ensures r.createdById == c.createdById
    ensures r.name == (if ch.name.Some? then ch.name.value else c.name)
    ensures r.email == Patched(ch.email, c.email) && r.phone == Patched(ch.phone, c.phone)
    ensures r.urgency == (if ch.urgency.Some? then ch.urgency.value else c.urgency)
  {
    Client(Or(ch.name, c.name), Patched(ch.email, c.email), Patched(ch.phone, c.phone),
           Or(ch.urgency, c.urgency), c.createdById)
  }

  function UpdateOutcome(t: Tables, user: UserId, ch: ClientChanges): (o: Outcome<Client>)
    ensures o.result.Err? ==> o.after == t
  {
    if !ChangesOk(ch) then Outcome(Err(InvalidInput), t)
    else match VerifyClientAccess(t, ch.id, user)
      case Err(e) => Outcome(Err(e), t)
      case Ok(c) =>
        if ch.email.Set? && EmailTaken(t, user, ch.email.value, Some(ch.id)) then
          Outcome(Err(Duplicate(ClientRow)), t)
        else
          var c' := Apply(c, ch);
          Outcome(Ok(c'), t.(clients := t.clients[ch.id := c']))
  }

  /** update refuses a malformed change as InvalidInput, answers NotFound for a client the caller does
      not own, conflicts only with another client of the same owner, and otherwise succeeds and
      rewrites that one row, keeping its id and owner. */
  lemma UpdateEffect(t: Tables, user: UserId, ch: ClientChanges)
    ensures var o := UpdateOutcome(t, user, ch);
            (o.result.Ok? <==> ChangesOk(ch) && OwnsClient(t, user, ch.id)
                               && !(ch.email.Set? && EmailTaken(t, user, ch.email.value, Some(ch.id))))
            && (!ChangesOk(ch) ==> o.result == Err(InvalidInput))
            && (ChangesOk(ch) && !OwnsClient(t, user, ch.id) ==> o.result == Err(NotFound(ClientRow)))
            && (o.result == Err(Duplicate(ClientRow)) <==>
                  ChangesOk(ch) && OwnsClient(t, user, ch.id) && ch.email.Set?
                  && exists j | j in t.clients :: j != ch.id && t.clients[j].createdById == user
                                                  && t.clients[j].email == Some(ch.email.value))
            && (o.result.Ok? ==>
                  o.after == t.(clients := t.clients[ch.id := Apply(t.clients[ch.id], ch)])
                  && o.result.value.createdById == user)
  {
  }

  /** Writing back a client's own email is not a conflict. */
  lemma UpdateOwnEmail(t: Tables, user: UserId, ch: ClientChanges)
    requires Valid(t) && ChangesOk(ch) && OwnsClient(t, user, ch.id)
    requires ch.email.Set? && t.clients[ch.id].email == Some(ch.email.value)
    ensures UpdateOutcome(t, user, ch).result.Ok?
  {
  }

  lemma UpdateKeepsValid(t: Tables, user: UserId, ch: ClientChanges)
    requires Valid(t)
    ensures Valid(UpdateOutcome(t, user, ch).after)
  {
    var o := UpdateOutcome(t, user, ch);
    if o.result.Ok? {
      var c' := o.after.clients[ch.id];
      assert forall j | j in t.clients && j != ch.id :: !SameEmail(c', t.clients[j]) && !SameEmail(t.clients[j], c');
    }
  }

  method Update(db: Store, user: UserId, ch: ClientChanges) returns (r: Result<Client>)
    requires db.Valid()
    modifies db
    ensures db.Valid()
    ensures Outcome(r, db.State()) == UpdateOutcome(old(db.State()), user, ch)
  {
    if !ChangesOk(ch) {
      return Err(InvalidInput);
    }
    var access := VerifyClientAccess(db.State(), ch.id, user);
    if access.Err? {
      return Err(access.error);
    }
    if ch.email.Set? && EmailTaken(db.State(), user, ch.email.value, Some(ch.id)) {
      return Err(Duplicate(ClientRow));
    }
    UpdateKeepsValid(db.State(), user, ch);
    var c := Apply(access.value, ch);
    db.clients := db.clients[ch.id := c];
    r := Ok(c);
  }

  function UpdateUrgencyOutcome(t: Tables, user: UserId, id: int, urgency: Urgency): (o: Outcome<Client>)
    ensures o.result.Err? ==> o.after == t
  {
    match VerifyClientAccess(t, id, user)
    case Err(e) => Outcome(Err(e), t)
    case Ok(c) => Outcome(Ok(c.(urgency := urgency)), t.(clients := t.clients[id := c.(urgency := urgency)]))
  }

  /** updateUrgency on an owned client changes its urgency and nothing else; on any other id it is
      NotFound. */
  lemma UpdateUrgencyEffect(t: Tables, user: UserId, id: int, urgency: Urgency)
    requires Valid(t)
    ensures var o := UpdateUrgencyOutcome(t, user, id, urgency);
            (o.result.Ok? <==> OwnsClient(t, user, id))
            && (o.result.Err? ==> o.result.error == NotFound(ClientRow))
            && (o.result.Ok? ==> o.after.clients[id] == t.clients[id].(urgency := urgency)
                                 && o.after.clients.Keys == t.clients.Keys
                                 && o.after.(clients := t.clients) == t)
            && Valid(o.after)
  {
    var o := UpdateUrgencyOutcome(t, user, id, urgency);
    if o.result.Ok? {
      var c' := o.after.clients[id];
      assert forall j | j in t.clients && j != id :: !SameEmail(c', t.clients[j]) && !SameEmail(t.clients[j], c') by {
        forall j | j in t.clients && j != id ensures !SameEmail(c', t.clients[j]) && !SameEmail(t.clients[j], c') {
          assert !SameEmail(t.clients[id], t.clients[j]) && !SameEmail(t.clients[j], t.clients[id]);
        }
      }
    }
  }

  method UpdateUrgency(db: Store, user: UserId, id: int, urgency: Urgency) returns (r: Result<Client>)
    requires db.Valid()
    modifies db
    ensures db.Valid()
    ensures Outcome(r, db.State()) == UpdateUrgencyOutcome(old(db.State()), user, id, urgency)
  {
    var access := VerifyClientAccess(db.State(), id, user);
    if access.Err? {
      return Err(access.error);
    }
    UpdateUrgencyEffect(db.State(), user, id, urgency);
    var c := access.value.(urgency := urgency);
    db.clients := db.clients[id := c];
    r := Ok(c);
  }

  // ---------------------------------------------------------------------------------------------
  // delete

  function DeleteOutcome(t: Tables, user: UserId, id: int): (o: Outcome<()>)
    ensures o.result.Err? ==> o.after == t
  {
    if !(id in t.clients && t.clients[id].createdById == user) then Outcome(Err(NotFound(ClientRow)), t)
    else
      var linked := |OpportunitiesOfClient(t, id)|;
      if linked > 0 then Outcome(Err(InUse(ClientRow, linked)), t)
      else Outcome(Ok(()), t.(clients := t.clients - {id}))
  }

  /** delete is refused with the number of linked opportunities while there are any, and otherwise
      removes exactly that client; a later getById answers NotFound. */
  lemma DeleteEffect(t: Tables, user: UserId, id: int)
    requires Valid(t)
    ensures var o := DeleteOutcome(t, user, id);
            (!OwnsClient(t, user, id) ==> o.result == Err(NotFound(ClientRow)))
            && (OwnsClient(t, user, id) && OpportunitiesOfClient(t, id) != {} ==>
                  o.result == Err(InUse(ClientRow, |OpportunitiesOfClient(t, id)|)))
            && (o.result.Ok? <==> OwnsClient(t, user, id) && OpportunitiesOfClient(t, id) == {})
            && (o.result.Ok? ==> o.after.clients == t.clients - {id} && o.after.(clients := t.clients) == t
                                 && GetById(o.after, user, id) == Err(NotFound(ClientRow)))
            && Valid(o.after)
  {
    var o := DeleteOutcome(t, user, id);
    if o.result.Ok? {
      assert forall x | x in t.opportunities :: t.opportunities[x].clientId != id by {
        forall x | x in t.opportunities ensures t.opportunities[x].clientId != id {
          assert x !in OpportunitiesOfClient(t, id);
        }
      }
    }
  }

  method Delete(db: Store, user: UserId, id: int) returns (r: Result<()>)
    requires db.Valid()
    modifies db
    ensures db.Valid()
    ensures Outcome(r, db.State()) == DeleteOutcome(old(db.State()), user, id)
  {
    if !(id in db.clients && db.clients[id].createdById == user) {
      return Err(NotFound(ClientRow));
    }
    var linked := |OpportunitiesOfClient(db.State(), id)|;
    if linked > 0 {
      return Err(InUse(ClientRow, linked));
    }
    DeleteEffect(db.State(), user, id);
    db.clients := db.clients - {id};
    r := Ok(());
  }

  // ---------------------------------------------------------------------------------------------
  // Tenant isolation

  /** Every client of another owner is still there, unchanged, and no client of another owner appeared. */
  predicate OthersKept(t: Tables, t': Tables, user: UserId) {
    (forall id | id in t.clients && t.clients[id].createdById != user ::
       id in t'.clients && t'.clients[id] == t.clients[id])
    && (forall id | id in t'.clients && t'.clients[id].createdById != user ::
          id in t.clients && t.clients[id] == t'.clients[id])
  }

  /** No client mutation of one user touches what another user owns: create adds a row of the
      caller, update, updateUrgency and delete change only a row the caller owns. */
  lemma CreateKeepsOthers(t: Tables, user: UserId, input: NewClient)
    requires Valid(t)
    ensures OthersKept(t, CreateOutcome(t, user, input).after, user)
  {
  }

  lemma UpdateKeepsOthers(t: Tables, user: UserId, ch: ClientChanges)
    ensures OthersKept(t, UpdateOutcome(t, user, ch).after, user)
  {
  }

  lemma UpdateUrgencyKeepsOthers(t: Tables, user: UserId, id: int, urgency: Urgency)
    ensures OthersKept(t, UpdateUrgencyOutcome(t, user, id, urgency).after, user)
  {
  }

  lemma DeleteKeepsOthers(t: Tables, user: UserId, id: int)
    ensures OthersKept(t, DeleteOutcome(t, user, id).after, user)
  {
  }

  // ---------------------------------------------------------------------------------------------
  // getStats

  datatype ClientStats = ClientStats(total: nat, byUrgency: map<Urgency, nat>, withOpportunities: nat,
                                     withoutOpportunities: nat, totalOpportunities: nat)

  /** How many of `rows` have urgency `u`. */
  function UrgencyCount(t: Tables, rows: seq<int>, u: Urgency): (n: nat)
    requires forall i | 0 <= i < |rows| :: rows[i] in t.clients
    ensures n <= |rows|
  {
    if rows == [] then 0
    else UrgencyCount(t, rows[..|rows| - 1], u) + (if t.clients[rows[|rows| - 1]].urgency == u then 1 else 0)
  }

  /** How many of `rows` have at least one opportunity. */
  function WithOpportunities(t: Tables, rows: seq<int>): (n: nat)
    requires forall i | 0 <= i < |rows| :: rows[i] in t.clients
    ensures n <= |rows|
  {
    if rows == [] then 0
    else WithOpportunities(t, rows[..|rows| - 1]) + (if |OpportunitiesOfClient(t, rows[|rows| - 1])| > 0 then 1 else 0)
  }

  /** The opportunities of `rows`, added up. */
  function OpportunityTotal(t: Tables, rows: seq<int>): (n: nat)
    requires forall i | 0 <= i < |rows| :: rows[i] in t.clients
    ensures n >= WithOpportunities(t, rows)
  {
    if rows == [] then 0
    else OpportunityTotal(t, rows[..|rows| - 1]) + |OpportunitiesOfClient(t, rows[|rows| - 1])|
  }

  /** Every client falls in exactly one urgency bucket. */
  lemma {:induction false} UrgencyBucketsAddUp(t: Tables, rows: seq<int>)
    requires forall i | 0 <= i < |rows| :: rows[i] in t.clients
    ensures UrgencyCount(t, rows, LOW) + UrgencyCount(t, rows, NORMAL) + UrgencyCount(t, rows, HIGH) == |rows|
  {
    if rows != [] {
      UrgencyBucketsAddUp(t, rows[..|rows| - 1]);
    }
  }

  /** The counting pass of getStats (`clients.forEach`) over the caller's clients. */
  method CountClients(t: Tables, rows: seq<int>) returns (s: ClientStats)
    requires forall i | 0 <= i < |rows| :: rows[i] in t.clients
    ensures s.total == |rows|
    ensures s.byUrgency.Keys == {LOW, NORMAL, HIGH}
    ensures forall u :: u in s.byUrgency ==> s.byUrgency[u] == UrgencyCount(t, rows, u)
    ensures s.withOpportunities == WithOpportunities(t, rows)
    ensures s.totalOpportunities == OpportunityTotal(t, rows)
    ensures s.byUrgency[LOW] + s.byUrgency[NORMAL] + s.byUrgency[HIGH] == s.total
    ensures s.withOpportunities + s.withoutOpportunities == s.total
  {
    var byUrgency: map<Urgency, nat> := map[LOW := 0, NORMAL := 0, HIGH := 0];
    var withOpportunities, withoutOpportunities, totalOpportunities := 0, 0, 0;
    var i := 0;
    while i < |rows|
      invariant 0 <= i <= |rows|
      invariant byUrgency.Keys == {LOW, NORMAL, HIGH}
      invariant forall u :: u in byUrgency ==> byUrgency[u] == UrgencyCount(t, rows[..i], u)
      invariant withOpportunities == WithOpportunities(t, rows[..i])
      invariant withOpportunities + withoutOpportunities == i
      invariant totalOpportunities == OpportunityTotal(t, rows[..i])
    {
      assert rows[..i + 1][..i] == rows[..i];
      var u := t.clients[rows[i]].urgency;
      var linked := |OpportunitiesOfClient(t, rows[i])|;
      assert u in byUrgency by {
        assert u == LOW || u == NORMAL || u == HIGH;
      }
      byUrgency := byUrgency[u := byUrgency[u] + 1];
      totalOpportunities := totalOpportunities + linked;
      if linked > 0 {
        withOpportunities := withOpportunities + 1;
      } else {
        withoutOpportunities := withoutOpportunities + 1;
      }
      i := i + 1;
    }
    assert rows[..i] == rows;
    UrgencyBucketsAddUp(t, rows);
    s := ClientStats(|rows|, byUrgency, withOpportunities, withoutOpportunities, totalOpportunities);
  }

  /** Over a full scan of the table, the caller's clients in scan order are as many as the caller has. */
  lemma OwnedClientsCount(t: Tables, user: UserId, order: seq<int>)
    requires IsScan(order, t.clients.Keys)
    ensures |OwnedClients(t, user, order)| == |set id | id in t.clients && t.clients[id].createdById == user|
  {
    var rows := OwnedClients(t, user, order);
    DistinctSize(rows);
    forall x ensures x in rows <==> x in t.clients && t.clients[x].createdById == user {
      assert x in order <==> x in t.clients.Keys;
    }
    assert (set x | x in rows) == set id | id in t.clients && t.clients[id].createdById == user;
  }

  /** getStats: one pass over the caller's clients, counting per urgency and per opportunity count. */
  method GetStats(db: Store, user: UserId, order: seq<int>) returns (s: ClientStats)
    ensures var rows := OwnedClients(db.State(), user, order);
            s.total == |rows|
            && s.byUrgency.Keys == {LOW, NORMAL, HIGH}
            && (forall u :: u in s.byUrgency ==> s.byUrgency[u] == UrgencyCount(db.State(), rows, u))
            && s.withOpportunities == WithOpportunities(db.State(), rows)
            && s.totalOpportunities == OpportunityTotal(db.State(), rows)
    ensures IsScan(order, db.clients.Keys) ==>
              s.total == |set id | id in db.clients && db.clients[id].createdById == user|
    ensures s.byUrgency[LOW] + s.byUrgency[NORMAL] + s.byUrgency[HIGH] == s.total
    ensures s.withOpportunities + s.withoutOpportunities == s.total
  {
    var t := db.State();
    var rows := OwnedClients(t, user, order);
    s := CountClients(t, rows);
    if IsScan(order, t.clients.Keys) {
      OwnedClientsCount(t, user, order);
    }
  }
}
