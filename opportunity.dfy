/** The opportunities router: an opportunity is reached only through a client the caller owns. */
module OpportunityRouter {
  import opened Domain
  import opened Paging
  import opened Schema
  import opened Tenancy
  import opened Database

  // ---------------------------------------------------------------------------------------------
  // Queries

  /** The `where` that getAll builds: opportunities of the caller's clients, narrowed by stage and
      urgency when given and by client when the client id is truthy. */
  predicate Listed(t: Tables, user: UserId, id: int, stage: Option<Stage>, urgency: Option<Urgency>,
                   clientId: Option<int>) {
    OwnsOpportunity(t, user, id)
    && (stage.Some? ==> t.opportunities[id].stage == stage.value)
    && (urgency.Some? ==> t.opportunities[id].urgency == urgency.value)
    && (Truthy(clientId) ==> t.opportunities[id].clientId == clientId.value)
  }

  /** The rows getAll pages through, in the store's order. */
  function ListedRows(t: Tables, user: UserId, stage: Option<Stage>, urgency: Option<Urgency>,
                      clientId: Option<int>, order: seq<int>): (rows: seq<int>)
    ensures forall id :: id in rows <==> id in order && Listed(t, user, id, stage, urgency, clientId)
    ensures Distinct(order) ==> Distinct(rows)
    ensures InOrder(rows, order)
  {
    Filter(order, id => Listed(t, user, id, stage, urgency, clientId))
  }

  datatype ListInput = ListInput(stage: Option<Stage>, urgency: Option<Urgency>, clientId: Option<int>,
                                 limit: Option<int>, cursor: Option<int>)

  /** getAll: `limit + 1` rows from the cursor row on, the extra one popped into `nextCursor`. */
  method GetAll(db: Store, user: UserId, input: ListInput, order: seq<int>) returns (r: Result<Page>)
    ensures r.Err? <==> ResolveLimit(input.limit, 50, 100).None?
    ensures r.Err? ==> r.error == InvalidInput
    ensures r.Ok? ==>
              var limit := ResolveLimit(input.limit, 50, 100).value;
              var rows := ListedRows(db.State(), user, input.stage, input.urgency, input.clientId, order);
              var fetched := Window(rows, input.cursor, limit);
              r.value == Paginate(rows, input.cursor, limit)
              && |r.value.items| <= limit
              && (forall id :: id in r.value.items ==>
                    Listed(db.State(), user, id, input.stage, input.urgency, input.clientId))
              && (r.value.nextCursor.Some? <==> |fetched| == limit + 1)
              && (r.value.nextCursor.Some? ==> r.value.items + [r.value.nextCursor.value] == fetched)
  {
    var limit := ResolveLimit(input.limit, 50, 100);
    if limit.None? {
      return Err(InvalidInput);
    }
    var rows := ListedRows(db.State(), user, input.stage, input.urgency, input.clientId, order);
    var fetched := Window(rows, input.cursor, limit.value);
    var page := PopExtra(fetched, limit.value);
    r := Ok(page);
  }

  /** Following `nextCursor` from the first page of getAll visits every listed opportunity once, in the
      store's order; a client id of 0 filters nothing. */
  lemma {:induction false} ListingReadsAll(t: Tables, user: UserId, stage: Option<Stage>, urgency: Option<Urgency>,
                                           clientId: Option<int>, order: seq<int>, limit: nat)
    requires Valid(t) && IsScan(order, t.opportunities.Keys) && 1 <= limit
    ensures var rows := ListedRows(t, user, stage, urgency, clientId, order);
            Follow(rows, None, limit, |rows| + 1) == rows
            && (forall id :: id in rows <==> Listed(t, user, id, stage, urgency, clientId))
            && (clientId == Some(0) ==> rows == ListedRows(t, user, stage, urgency, None, order))
  {
    var rows := ListedRows(t, user, stage, urgency, clientId, order);
    assert NoZeroId(rows) by {
      forall x | x in rows ensures x != 0 {
        assert x in t.opportunities;
      }
    }
    FollowAll(rows, limit);
    if clientId == Some(0) {
      FilterSame(order, id => Listed(t, user, id, stage, urgency, clientId), id => Listed(t, user, id, stage, urgency, None));
    }
  }

  /** The opportunity with its notes (`include: { notes }`). */
  datatype OpportunityDetail = OpportunityDetail(opportunity: Opportunity, notes: set<int>)

  /** getById. */
  function GetById(t: Tables, user: UserId, id: int): (r: Result<OpportunityDetail>)
    ensures r.Ok? <==> OwnsOpportunity(t, user, id)
    ensures r.Err? ==> r.error == NotFound(OpportunityRow)
    ensures r.Ok? ==> r.value.opportunity == t.opportunities[id] && r.value.notes == NotesOfOpportunity(t, id)
  {
    if OwnsOpportunity(t, user, id) then Ok(OpportunityDetail(t.opportunities[id], NotesOfOpportunity(t, id)))
    else Err(NotFound(OpportunityRow))
  }

  /** getByClient: NotFound unless the caller owns the client, then all of that client's opportunities. */
  function GetByClient(t: Tables, user: UserId, clientId: int, order: seq<int>): (r: Result<seq<int>>)
    ensures r.Ok? <==> OwnsClient(t, user, clientId)
    ensures r.Err? ==> r.error == NotFound(ClientRow)
    ensures r.Ok? ==> forall id :: id in r.value <==>
              id in order && id in t.opportunities && t.opportunities[id].clientId == clientId
    ensures r.Ok? ==> forall id :: id in r.value ==> OwnsOpportunity(t, user, id)
  {
    if !OwnsClient(t, user, clientId) then Err(NotFound(ClientRow))
    else Ok(Filter(order, id => id in t.opportunities && t.opportunities[id].clientId == clientId))
  }

  // ---------------------------------------------------------------------------------------------
  // create

  datatype NewOpportunity = NewOpportunity(clientId: int, carLabel: string, carModelId: Option<int>,
                                           stage: Option<Stage>, urgency: Option<Urgency>)

  function CreateOutcome(t: Tables, user: UserId, input: NewOpportunity): (o: Outcome<int>)
    ensures o.result.Err? ==> o.after == t
  {
    if input.carLabel == "" then Outcome(Err(InvalidInput), t)
    else if !OwnsClient(t, user, input.clientId) then Outcome(Err(NotFound(ClientRow)), t)
    else if Truthy(input.carModelId) && input.carModelId.value !in t.cars then Outcome(Err(NotFound(CarRow)), t)
    else if input.carModelId.Some? && input.carModelId.value !in t.cars then
      // a car id of 0 is falsy, so the router skips its own lookup and the store refuses the row
      Outcome(Err(ForeignKeyViolation), t)
    else
      var o := Opportunity(input.clientId, input.carLabel, input.carModelId, Or(input.stage, LEAD), Or(input.urgency, NORMAL));
      Outcome(Ok(t.nextId), t.(opportunities := t.opportunities[t.nextId := o], nextId := t.nextId + 1))
  }

  /** create refuses an empty car label as InvalidInput, fails NotFound for a client that is missing or not the caller's, and for a truthy car id
      that names no car (the car lookup is not owner-scoped). A new opportunity starts at LEAD with
      NORMAL urgency unless told otherwise, links the given client, has no notes, and the store stays
      valid. */
  lemma CreateEffect(t: Tables, user: UserId, input: NewOpportunity)
    requires Valid(t)
    ensures var o := CreateOutcome(t, user, input);
            (input.carLabel == "" ==> o.result == Err(InvalidInput))
            && (input.carLabel != "" && !OwnsClient(t, user, input.clientId) ==> o.result == Err(NotFound(ClientRow)))
            && ((input.carLabel != "" && OwnsClient(t, user, input.clientId) && Truthy(input.carModelId)
                 && input.carModelId.value !in t.cars) ==> o.result == Err(NotFound(CarRow)))
            && (o.result.Ok? <==> input.carLabel != "" && OwnsClient(t, user, input.clientId)
                                  && (input.carModelId.Some? ==> input.carModelId.value in t.cars))
            && (o.result.Ok? ==>
                  GetById(o.after, user, o.result.value) ==
                  Ok(OpportunityDetail(Opportunity(input.clientId, input.carLabel, input.carModelId,
                                                   Or(input.stage, LEAD), Or(input.urgency, NORMAL)), {})))
            && Valid(o.after)
  {
    var o := CreateOutcome(t, user, input);
    if o.result.Ok? {
      var id := t.nextId;
      assert NotesOfOpportunity(o.after, id) == {} by {
        forall n | n in o.after.notes ensures o.after.notes[n].opportunityId != id {
          assert t.notes[n].opportunityId in t.opportunities;
        }
      }
    }
  }

  /** A car id of 0 is falsy, so create skips its check, and the store's foreign key then refuses it. */
  lemma CreateWithCarZero(t: Tables, user: UserId, input: NewOpportunity)
    requires Valid(t) && input.carLabel != "" && OwnsClient(t, user, input.clientId)
    requires input.carModelId == Some(0)
    ensures CreateOutcome(t, user, input).result == Err(ForeignKeyViolation)
  {
    assert 0 !in t.cars;
  }

  method Create(db: Store, user: UserId, input: NewOpportunity) returns (r: Result<int>)
    requires db.Valid()
    modifies db
    ensures db.Valid()
    ensures Outcome(r, db.State()) == CreateOutcome(old(db.State()), user, input)
  {
    if input.carLabel == "" {
      return Err(InvalidInput);
    }
    if !(input.clientId in db.clients && db.clients[input.clientId].createdById == user) {
      return Err(NotFound(ClientRow));
    }
    if Truthy(input.carModelId) && input.carModelId.value !in db.cars {
      return Err(NotFound(CarRow));
    }
    if input.carModelId.Some? && input.carModelId.value !in db.cars {
      return Err(ForeignKeyViolation);
    }
    CreateEffect(db.State(), user, input);
    var id := db.nextId;
    db.opportunities := db.opportunities[id := Opportunity(input.clientId, input.carLabel, input.carModelId,
                                                           Or(input.stage, LEAD), Or(input.urgency, NORMAL))];
    db.nextId := id + 1;
    r := Ok(id);
  }

  // ---------------------------------------------------------------------------------------------
  // update, updateStage

  /** The update input. It has no client id, so an update never moves an opportunity to another client. */
  datatype OpportunityChanges = OpportunityChanges(id: int, carLabel: Option<string>, carModelId: Patch<int>,
                                                   stage: Option<Stage>, urgency: Option<Urgency>)

  function Apply(o: Opportunity, ch: OpportunityChanges): (r: Opportunity)
    ensures r.clientId == o.clientId
    ensures r.carLabel == (if ch.carLabel.Some? then ch.carLabel.value else o.carLabel)
    ensures r.carModelId == Patched(ch.carModelId, o.carModelId)
    ensures r.stage == (if ch.stage.Some? then ch.stage.value else o.stage)
    ensures r.urgency == (if ch.urgency.Some? then ch.urgency.value else o.urgency)
  {
    Opportunity(o.clientId, Or(ch.carLabel, o.carLabel), Patched(ch.carModelId, o.carModelId),
                Or(ch.stage, o.stage), Or(ch.urgency, o.urgency))
  }

  function UpdateOutcome(t: Tables, user: UserId, ch: OpportunityChanges): (o: Outcome<Opportunity>)
    ensures o.result.Err? ==> o.after == t
  {
    if ch.carLabel.Some? && ch.carLabel.value == "" then Outcome(Err(InvalidInput), t)
    else if !OwnsOpportunity(t, user, ch.id) then Outcome(Err(NotFound(OpportunityRow)), t)
    else if ch.carModelId.Set? && ch.carModelId.value !in t.cars then Outcome(Err(NotFound(CarRow)), t)
    else
      var o := Apply(t.opportunities[ch.id], ch);
      Outcome(Ok(o), t.(opportunities := t.opportunities[ch.id := o]))
  }

  /** update fails NotFound when the opportunity is not reached through a client of the caller, and
      when a car id is given (0 included) that names no car. On success only that opportunity changes,
      it keeps its client, so the caller still owns it, and the store stays valid. */
  lemma UpdateEffect(t: Tables, user: UserId, ch: OpportunityChanges)
    requires Valid(t)
    ensures var o := UpdateOutcome(t, user, ch);
            (o.result.Ok? <==> !(ch.carLabel.Some? && ch.carLabel.value == "") && OwnsOpportunity(t, user, ch.id)
                               && (ch.carModelId.Set? ==> ch.carModelId.value in t.cars))
            && (!(ch.carLabel.Some? && ch.carLabel.value == "") && !OwnsOpportunity(t, user, ch.id) ==>
                  o.result == Err(NotFound(OpportunityRow)))
            && ((!(ch.carLabel.Some? && ch.carLabel.value == "") && OwnsOpportunity(t, user, ch.id)
                 && ch.carModelId.Set? && ch.carModelId.value !in t.cars) ==> o.result == Err(NotFound(CarRow)))
            && (o.result.Ok? ==>
                  o.after == t.(opportunities := t.opportunities[ch.id := Apply(t.opportunities[ch.id], ch)])
                  && o.result.value.clientId == t.opportunities[ch.id].clientId
                  && OwnsOpportunity(o.after, user, ch.id))
            && Valid(o.after)
  {
  }

  method Update(db: Store, user: UserId, ch: OpportunityChanges) returns (r: Result<Opportunity>)
    requires db.Valid()
    modifies db
    ensures db.Valid()
    ensures Outcome(r, db.State()) == UpdateOutcome(old(db.State()), user, ch)
  {
    if ch.carLabel.Some? && ch.carLabel.value == "" {
      return Err(InvalidInput);
    }
    if !OwnsOpportunity(db.State(), user, ch.id) {
      return Err(NotFound(OpportunityRow));
    }
    if ch.carModelId.Set? && ch.carModelId.value !in db.cars {
      return Err(NotFound(CarRow));
    }
    UpdateEffect(db.State(), user, ch);
    var o := Apply(db.opportunities[ch.id], ch);
    db.opportunities := db.opportunities[ch.id := o];
    r := Ok(o);
  }

  function UpdateStageOutcome(t: Tables, user: UserId, id: int, stage: Stage): (o: Outcome<Opportunity>)
    ensures o.result.Err? ==> o.after == t
  {
    if !OwnsOpportunity(t, user, id) then Outcome(Err(NotFound(OpportunityRow)), t)
    else
      var o := t.opportunities[id].(stage := stage);
      Outcome(Ok(o), t.(opportunities := t.opportunities[id := o]))
  }

  /** updateStage moves an owned opportunity from any stage to any stage and changes nothing else. */
  lemma UpdateStageEffect(t: Tables, user: UserId, id: int, stage: Stage)
    requires Valid(t)
    ensures var o := UpdateStageOutcome(t, user, id, stage);
            (o.result.Ok? <==> OwnsOpportunity(t, user, id))
            && (o.result.Err? ==> o.result.error == NotFound(OpportunityRow))
            && (o.result.Ok? ==> o.after.opportunities[id] == t.opportunities[id].(stage := stage)
                                 && o.after.opportunities.Keys == t.opportunities.Keys
                                 && o.after.(opportunities := t.opportunities) == t
                                 && GetById(o.after, user, id).Ok?)
            && Valid(o.after)
  {
  }

  method UpdateStage(db: Store, user: UserId, id: int, stage: Stage) returns (r: Result<Opportunity>)
    requires db.Valid()
    modifies db
    ensures db.Valid()
    ensures Outcome(r, db.State()) == UpdateStageOutcome(old(db.State()), user, id, stage)
  {
    if !OwnsOpportunity(db.State(), user, id) {
      return Err(NotFound(OpportunityRow));
    }
    UpdateStageEffect(db.State(), user, id, stage);
    var o := db.opportunities[id].(stage := stage);
    db.opportunities := db.opportunities[id := o];
    r := Ok(o);
  }

  // ---------------------------------------------------------------------------------------------
  // delete

  /** The notes table without the notes of one opportunity: `notes.deleteMany({ where: { opportunityId } })`. */
  function WithoutNotesOf(notes: map<int, Note>, opportunityId: int): (r: map<int, Note>)
    ensures forall n :: n in r <==> n in notes && notes[n].opportunityId != opportunityId
    ensures forall n | n in r :: r[n] == notes[n]
  {
    map n | n in notes && notes[n].opportunityId != opportunityId :: notes[n]
  }

  function DeleteOutcome(t: Tables, user: UserId, id: int): (o: Outcome<Opportunity>)
    ensures o.result.Err? ==> o.after == t
  {
    if !OwnsOpportunity(t, user, id) then Outcome(Err(NotFound(OpportunityRow)), t)
    else
      Outcome(Ok(t.opportunities[id]),
              t.(notes := WithoutNotesOf(t.notes, id), opportunities := t.opportunities - {id}))
  }

  /** delete removes the opportunity and every note attached to it, and nothing else: other notes and
      opportunities are untouched and the store stays valid. */
  lemma DeleteEffect(t: Tables, user: UserId, id: int)
    requires Valid(t)
    ensures var o := DeleteOutcome(t, user, id);
            (o.result.Ok? <==> OwnsOpportunity(t, user, id))
            && (o.result.Err? ==> o.result.error == NotFound(OpportunityRow))
            && (o.result.Ok? ==>
                  o.after.opportunities == t.opportunities - {id}
                  && o.after.notes.Keys == t.notes.Keys - NotesOfOpportunity(t, id)
                  && (forall n | n in o.after.notes :: o.after.notes[n] == t.notes[n])
                  && o.after.clients == t.clients && o.after.cars == t.cars
                  && GetById(o.after, user, id) == Err(NotFound(OpportunityRow)))
            && Valid(o.after)
  {
  }

  method Delete(db: Store, user: UserId, id: int) returns (r: Result<Opportunity>)
    requires db.Valid()
    modifies db
    ensures db.Valid()
    ensures Outcome(r, db.State()) == DeleteOutcome(old(db.State()), user, id)
  {
    if !OwnsOpportunity(db.State(), user, id) {
      return Err(NotFound(OpportunityRow));
    }
    DeleteEffect(db.State(), user, id);
    r := Ok(db.opportunities[id]);
    db.notes := WithoutNotesOf(db.notes, id);
    db.opportunities := db.opportunities - {id};
  }

  // ---------------------------------------------------------------------------------------------
  // getStats

  datatype OpportunityStats = OpportunityStats(total: nat, byStage: map<Stage, nat>, byUrgency: map<Urgency, nat>)

  /** The opportunities of the caller's clients in the store's order. */
  function OwnedOpportunities(t: Tables, user: UserId, order: seq<int>): (rows: seq<int>)
    ensures forall id :: id in rows <==> id in order && OwnsOpportunity(t, user, id)
    ensures forall i | 0 <= i < |rows| :: rows[i] in t.opportunities
    ensures InOrder(rows, order)
  {
    var rows := Filter(order, id => OwnsOpportunity(t, user, id));
    assert forall i | 0 <= i < |rows| :: rows[i] in rows;
    rows
  }

  function StageCount(t: Tables, rows: seq<int>, st: Stage): (n: nat)
    requires forall i | 0 <= i < |rows| :: rows[i] in t.opportunities
    ensures n <= |rows|
  {
    if rows == [] then 0
    else StageCount(t, rows[..|rows| - 1], st) + (if t.opportunities[rows[|rows| - 1]].stage == st then 1 else 0)
  }

  function UrgencyCount(t: Tables, rows: seq<int>, u: Urgency): (n: nat)
    requires forall i | 0 <= i < |rows| :: rows[i] in t.opportunities
    ensures n <= |rows|
  {
    if rows == [] then 0
    else UrgencyCount(t, rows[..|rows| - 1], u) + (if t.opportunities[rows[|rows| - 1]].urgency == u then 1 else 0)
  }

  /** Every opportunity falls in exactly one stage bucket and exactly one urgency bucket. */
  lemma {:induction false} BucketsAddUp(t: Tables, rows: seq<int>)
    requires forall i | 0 <= i < |rows| :: rows[i] in t.opportunities
    ensures StageCount(t, rows, LEAD) + StageCount(t, rows, CONTACTED) + StageCount(t, rows, CLOSED_WON)
            + StageCount(t, rows, CLOSED_LOST) == |rows|
    ensures UrgencyCount(t, rows, LOW) + UrgencyCount(t, rows, NORMAL) + UrgencyCount(t, rows, HIGH) == |rows|
  {
    if rows != [] {
      BucketsAddUp(t, rows[..|rows| - 1]);
    }
  }

  /** Over a full scan of the table, the caller's opportunities in scan order are as many as the
      caller has. */
  lemma OwnedOpportunitiesCount(t: Tables, user: UserId, order: seq<int>)
    requires IsScan(order, t.opportunities.Keys)
    ensures |OwnedOpportunities(t, user, order)| == |set id | id in t.opportunities && OwnsOpportunity(t, user, id)|
  {
    var rows := OwnedOpportunities(t, user, order);
    DistinctSize(rows);
    forall x ensures x in rows <==> x in t.opportunities && OwnsOpportunity(t, user, x) {
      assert x in order <==> x in t.opportunities.Keys;
    }
    assert (set x | x in rows) == set id | id in t.opportunities && OwnsOpportunity(t, user, id);
  }

  /** getStats: every stage and urgency bucket is set to 0 first, then each of the caller's
      opportunities adds one to its stage and to its urgency. */
  method GetStats(db: Store, user: UserId, order: seq<int>) returns (s: OpportunityStats)
    ensures var rows := OwnedOpportunities(db.State(), user, order);
            s.total == |rows|
            && (forall st :: st in s.byStage && s.byStage[st] == StageCount(db.State(), rows, st))
            && (forall u :: u in s.byUrgency && s.byUrgency[u] == UrgencyCount(db.State(), rows, u))
    ensures IsScan(order, db.opportunities.Keys) ==>
              s.total == |set id | id in db.opportunities && OwnsOpportunity(db.State(), user, id)|
    ensures s.byStage[LEAD] + s.byStage[CONTACTED] + s.byStage[CLOSED_WON] + s.byStage[CLOSED_LOST] == s.total
    ensures s.byUrgency[LOW] + s.byUrgency[NORMAL] + s.byUrgency[HIGH] == s.total
  {
    var t := db.State();
    var rows := OwnedOpportunities(t, user, order);
    var byStage: map<Stage, nat> := map[];
    var k := 0;
    while k < |AllStages|
      invariant 0 <= k <= |AllStages|
      invariant forall j | 0 <= j < k :: AllStages[j] in byStage
      invariant forall st | st in byStage :: byStage[st] == 0
    {
      byStage := byStage[AllStages[k] := 0];
      k := k + 1;
    }
    var byUrgency: map<Urgency, nat> := map[];
    k := 0;
    while k < |AllUrgencies|
      invariant 0 <= k <= |AllUrgencies|
      invariant forall j | 0 <= j < k :: AllUrgencies[j] in byUrgency
      invariant forall u | u in byUrgency :: byUrgency[u] == 0
    {
      byUrgency := byUrgency[AllUrgencies[k] := 0];
      k := k + 1;
    }
    assert forall st :: st in byStage by {
      forall st ensures st in byStage {
        match st {
          case LEAD => assert AllStages[0] == st;
          case CONTACTED => assert AllStages[1] == st;
          case CLOSED_WON => assert AllStages[2] == st;
          case CLOSED_LOST => assert AllStages[3] == st;
        }
      }
    }
    assert forall u :: u in byUrgency by {
      forall u ensures u in byUrgency {
        match u {
          case LOW => assert AllUrgencies[0] == u;
          case NORMAL => assert AllUrgencies[1] == u;
          case HIGH => assert AllUrgencies[2] == u;
        }
      }
    }
    var i := 0;
    while i < |rows|
      invariant 0 <= i <= |rows|
      invariant forall st :: st in byStage && byStage[st] == StageCount(t, rows[..i], st)
      invariant forall u :: u in byUrgency && byUrgency[u] == UrgencyCount(t, rows[..i], u)
    {
      assert rows[..i + 1][..i] == rows[..i];
      var o := t.opportunities[rows[i]];
      byStage := byStage[o.stage := byStage[o.stage] + 1];
      byUrgency := byUrgency[o.urgency := byUrgency[o.urgency] + 1];
      i := i + 1;
    }
    assert rows[..i] == rows;
    BucketsAddUp(t, rows);
    if IsScan(order, t.opportunities.Keys) {
      OwnedOpportunitiesCount(t, user, order);
    }
    s := OpportunityStats(|rows|, byStage, byUrgency);
  }
}
