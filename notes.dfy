/** The notes router: a note is reached only through its opportunity's client, owned by the caller. */
module NotesRouter {
  import opened Domain
  import opened Text
  import opened Paging
  import opened Schema
  import opened Tenancy
  import opened Database

  // ---------------------------------------------------------------------------------------------
  // Access checks

  /** `verifyOpportunityAccess`: the opportunity when it belongs to a client of the caller. */
  function VerifyOpportunityAccess(t: Tables, opportunityId: int, user: UserId): (r: Result<Opportunity>)
    ensures r.Ok? <==> OwnsOpportunity(t, user, opportunityId)
    ensures r.Ok? ==> r.value == t.opportunities[opportunityId]
    ensures r.Err? ==> r.error == NotFound(OpportunityRow)
  {
    if OwnsOpportunity(t, user, opportunityId) then Ok(t.opportunities[opportunityId])
    else Err(NotFound(OpportunityRow))
  }

  /** `verifyNoteAccess`, which is also getById: the note when its opportunity's client is the caller's. */
  function VerifyNoteAccess(t: Tables, noteId: int, user: UserId): (r: Result<Note>)
    ensures r.Ok? <==> OwnsNote(t, user, noteId)
    ensures r.Ok? ==> r.value == t.notes[noteId]
    ensures r.Err? ==> r.error == NotFound(NoteRow)
  {
    if OwnsNote(t, user, noteId) then Ok(t.notes[noteId]) else Err(NotFound(NoteRow))
  }

  // ---------------------------------------------------------------------------------------------
  // Listings

  /** `{ contains: q, mode: "insensitive" }` on title or content. */
  predicate SearchHit(n: Note, q: string) {
    ContainsInsensitive(n.title, q) || ContainsInsensitive(n.content, q)
  }

  /** The notes of one opportunity, in the store's order (`where: { opportunityId }`). */
  function NotesOf(t: Tables, opportunityId: int, order: seq<int>): (rows: seq<int>)
    ensures forall n :: n in rows <==> n in order && n in t.notes && t.notes[n].opportunityId == opportunityId
    ensures Distinct(order) ==> Distinct(rows)
    ensures InOrder(rows, order)
  {
    Filter(order, n => n in t.notes && t.notes[n].opportunityId == opportunityId)
  }

  datatype ByOpportunityInput = ByOpportunityInput(opportunityId: int, limit: Option<int>, cursor: Option<int>)

  /** getByOpportunity: NotFound unless the caller owns the opportunity, then one page of its notes. */
  method GetByOpportunity(db: Store, user: UserId, input: ByOpportunityInput, order: seq<int>) returns (r: Result<Page>)
    ensures ResolveLimit(input.limit, 50, 100).None? ==> r == Err(InvalidInput)
    ensures ResolveLimit(input.limit, 50, 100).Some? && !OwnsOpportunity(db.State(), user, input.opportunityId) ==>
              r == Err(NotFound(OpportunityRow))
    ensures r.Ok? <==> ResolveLimit(input.limit, 50, 100).Some? && OwnsOpportunity(db.State(), user, input.opportunityId)
    ensures r.Ok? ==>
              var limit := ResolveLimit(input.limit, 50, 100).value;
              var rows := NotesOf(db.State(), input.opportunityId, order);
              var fetched := Window(rows, input.cursor, limit);
              r.value == Paginate(rows, input.cursor, limit)
              && |r.value.items| <= limit
              && (forall n :: n in r.value.items ==> n in db.notes && db.notes[n].opportunityId == input.opportunityId)
              && (r.value.nextCursor.Some? <==> |fetched| == limit + 1)
              && (r.value.nextCursor.Some? ==> r.value.items + [r.value.nextCursor.value] == fetched)
  {
    var limit := ResolveLimit(input.limit, 50, 100);
    if limit.None? {
      return Err(InvalidInput);
    }
    var access := VerifyOpportunityAccess(db.State(), input.opportunityId, user);
    if access.Err? {
      return Err(access.error);
    }
    var rows := NotesOf(db.State(), input.opportunityId, order);
    var fetched := Window(rows, input.cursor, limit.value);
    var page := PopExtra(fetched, limit.value);
    r := Ok(page);
  }

  /** Following `nextCursor` through getByOpportunity reads every note of the opportunity once, in order. */
  lemma {:induction false} ByOpportunityReadsAll(t: Tables, opportunityId: int, order: seq<int>, limit: nat)
    requires Valid(t) && IsScan(order, t.notes.Keys) && 1 <= limit
    ensures var rows := NotesOf(t, opportunityId, order);
            Follow(rows, None, limit, |rows| + 1) == rows
            && (forall n :: n in rows <==> n in NotesOfOpportunity(t, opportunityId))
  {
    var rows := NotesOf(t, opportunityId, order);
    assert NoZeroId(rows) by {
      forall x | x in rows ensures x != 0 {
        assert x in t.notes;
      }
    }
    FollowAll(rows, limit);
  }

  /** The `where` that getAll builds: the caller's notes (`getUserNotesWhere`), of one opportunity when
      its id is truthy, matching the search term when that is non-empty. */
  predicate Listed(t: Tables, user: UserId, n: int, opportunityId: Option<int>, searchTerm: Option<string>) {
    OwnsNote(t, user, n)
    && (Truthy(opportunityId) ==> t.notes[n].opportunityId == opportunityId.value)
    && (TruthyText(searchTerm) ==> SearchHit(t.notes[n], searchTerm.value))
  }

  function ListedRows(t: Tables, user: UserId, opportunityId: Option<int>, searchTerm: Option<string>,
                      order: seq<int>): (rows: seq<int>)
    ensures forall n :: n in rows <==> n in order && Listed(t, user, n, opportunityId, searchTerm)
    ensures Distinct(order) ==> Distinct(rows)
    ensures InOrder(rows, order)
  {
    Filter(order, n => Listed(t, user, n, opportunityId, searchTerm))
  }

  datatype ListInput = ListInput(limit: Option<int>, cursor: Option<int>, opportunityId: Option<int>,
                                 searchTerm: Option<string>)

  /** getAll: one page of the caller's notes, 20 by default. */
  method GetAll(db: Store, user: UserId, input: ListInput, order: seq<int>) returns (r: Result<Page>)
    ensures r.Err? <==> ResolveLimit(input.limit, 20, 100).None?
    ensures r.Err? ==> r.error == InvalidInput
    ensures r.Ok? ==>
              var limit := ResolveLimit(input.limit, 20, 100).value;
              var rows := ListedRows(db.State(), user, input.opportunityId, input.searchTerm, order);
              var fetched := Window(rows, input.cursor, limit);
              r.value == Paginate(rows, input.cursor, limit)
              && |r.value.items| <= limit
              && (forall n :: n in r.value.items ==> Listed(db.State(), user, n, input.opportunityId, input.searchTerm))
              && (r.value.nextCursor.Some? <==> |fetched| == limit + 1)
              && (r.value.nextCursor.Some? ==> r.value.items + [r.value.nextCursor.value] == fetched)
  {
    var limit := ResolveLimit(input.limit, 20, 100);
    if limit.None? {
      return Err(InvalidInput);
    }
    var rows := ListedRows(db.State(), user, input.opportunityId, input.searchTerm, order);
    var fetched := Window(rows, input.cursor, limit.value);
    var page := PopExtra(fetched, limit.value);
    r := Ok(page);
  }

  /** Following `nextCursor` through getAll filtered by an opportunity reads exactly the notes of that
      opportunity, and only when the caller owns it: another user's opportunity lists nothing. */
  lemma {:induction false} ListingReadsAll(t: Tables, user: UserId, opportunityId: int, order: seq<int>, limit: nat)
    requires Valid(t) && IsScan(order, t.notes.Keys) && 1 <= limit && opportunityId != 0
    ensures var rows := ListedRows(t, user, Some(opportunityId), None, order);
            Follow(rows, None, limit, |rows| + 1) == rows
            && (forall n :: n in rows <==> OwnsOpportunity(t, user, opportunityId) && n in NotesOfOpportunity(t, opportunityId))
  {
    var rows := ListedRows(t, user, Some(opportunityId), None, order);
    assert NoZeroId(rows) by {
      forall x | x in rows ensures x != 0 {
        assert x in t.notes;
      }
    }
    FollowAll(rows, limit);
  }

  /** The caller's notes that match a search, in the store's order. */
  function SearchRows(t: Tables, user: UserId, query: string, order: seq<int>): (rows: seq<int>)
    ensures forall n :: n in rows <==> n in order && OwnsNote(t, user, n) && SearchHit(t.notes[n], query)
  {
    Filter(order, n => OwnsNote(t, user, n) && SearchHit(t.notes[n], query))
  }

  /** search: the first `limit` matches (1..50, default 20) for a non-empty query. */
  function Search(t: Tables, user: UserId, query: string, limit: Option<int>, order: seq<int>): (r: Result<seq<int>>)
    ensures r.Err? <==> query == "" || ResolveLimit(limit, 20, 50).None?
    ensures r.Err? ==> r.error == InvalidInput
    ensures r.Ok? ==>
              var all := SearchRows(t, user, query, order);
              var n := ResolveLimit(limit, 20, 50).value;
              |r.value| == Min(|all|, n) && r.value == all[..|r.value|]
              && (forall id :: id in r.value ==> OwnsNote(t, user, id) && SearchHit(t.notes[id], query))
  {
    var n := ResolveLimit(limit, 20, 50);
    if query == "" || n.None? then Err(InvalidInput)
    else
      var all := SearchRows(t, user, query, order);
      var page := Take(all, n.value);
      assert forall id :: id in page ==> id in all;
      Ok(page)
  }

  // ---------------------------------------------------------------------------------------------
  // create

  datatype NewNote = NewNote(opportunityId: int, title: string, content: string)

  function CreateOutcome(t: Tables, user: UserId, input: NewNote): (o: Outcome<int>)
    ensures o.result.Err? ==> o.after == t
  {
    if input.title == "" || input.content == "" then Outcome(Err(InvalidInput), t)
    else match VerifyOpportunityAccess(t, input.opportunityId, user)
      case Err(e) => Outcome(Err(e), t)
      case Ok(_) =>
        var n := Note(input.opportunityId, input.title, input.content);
        Outcome(Ok(t.nextId), t.(notes := t.notes[t.nextId := n], nextId := t.nextId + 1))
  }

  /** create needs an opportunity the caller owns through its client; otherwise NotFound and no note.
      A created note is read back by getById and listed under its opportunity. */
  lemma CreateEffect(t: Tables, user: UserId, input: NewNote, order: seq<int>)
    requires Valid(t)
    ensures var o := CreateOutcome(t, user, input);
            (input.title != "" && input.content != "" && !OwnsOpportunity(t, user, input.opportunityId) ==>
               o.result == Err(NotFound(OpportunityRow)))
            && (o.result.Ok? <==> input.title != "" && input.content != "" && OwnsOpportunity(t, user, input.opportunityId))
            && (o.result.Ok? ==>
                  VerifyNoteAccess(o.after, o.result.value, user) == Ok(Note(input.opportunityId, input.title, input.content))
                  && o.after.notes == t.notes[o.result.value := Note(input.opportunityId, input.title, input.content)]
                  && o.result.value !in t.notes
                  && (o.result.value in order ==> o.result.value in NotesOf(o.after, input.opportunityId, order)))
            && Valid(o.after)
  {
  }

  method Create(db: Store, user: UserId, input: NewNote) returns (r: Result<int>)
    requires db.Valid()
    modifies db
    ensures db.Valid()
    ensures Outcome(r, db.State()) == CreateOutcome(old(db.State()), user, input)
  {
    if input.title == "" || input.content == "" {
      return Err(InvalidInput);
    }
    var access := VerifyOpportunityAccess(db.State(), input.opportunityId, user);
    if access.Err? {
      return Err(access.error);
    }
    CreateEffect(db.State(), user, input, []);
    var id := db.nextId;
    db.notes := db.notes[id := Note(input.opportunityId, input.title, input.content)];
    db.nextId := id + 1;
    r := Ok(id);
  }

  // ---------------------------------------------------------------------------------------------
  // update, delete

  datatype NoteChanges = NoteChanges(id: int, title: Option<string>, content: Option<string>)

  /** The input schema of update: a title or content, when given, is not empty. */
  predicate ChangesOk(ch: NoteChanges) {
    (ch.title.Some? ==> ch.title.value != "") && (ch.content.Some? ==> ch.content.value != "")
  }

  function UpdateOutcome(t: Tables, user: UserId, ch: NoteChanges): (o: Outcome<Note>)
    ensures o.result.Err? ==> o.after == t
  {
    if !ChangesOk(ch) then
      Outcome(Err(InvalidInput), t)
    else match VerifyNoteAccess(t, ch.id, user)
      case Err(e) => Outcome(Err(e), t)
      case Ok(n) =>
        var n' := n.(title := Or(ch.title, n.title), content := Or(ch.content, n.content));
        Outcome(Ok(n'), t.(notes := t.notes[ch.id := n']))
  }

  /** update rejects an empty title or content, answers NotFound for a note the caller does not
      reach through opportunity and client, and otherwise changes title and content alone: the note
      stays on its opportunity, and a left-out field keeps its value. */
  lemma UpdateEffect(t: Tables, user: UserId, ch: NoteChanges)
    requires Valid(t)
    ensures var o := UpdateOutcome(t, user, ch);
            (o.result.Ok? <==> ChangesOk(ch) && OwnsNote(t, user, ch.id))
            && (!ChangesOk(ch) ==> o.result == Err(InvalidInput))
            && (ChangesOk(ch) && !OwnsNote(t, user, ch.id) ==> o.result == Err(NotFound(NoteRow)))
            && (o.result.Ok? ==>
                  o.after.notes == t.notes[ch.id := o.result.value]
                  && o.after.(notes := t.notes) == t
                  && o.result.value.opportunityId == t.notes[ch.id].opportunityId
                  && o.result.value.title == (if ch.title.Some? then ch.title.value else t.notes[ch.id].title)
                  && o.result.value.content == (if ch.content.Some? then ch.content.value else t.notes[ch.id].content))
            && Valid(o.after)
  {
  }

  method Update(db: Store, user: UserId, ch: NoteChanges) returns (r: Result<Note>)
    requires db.Valid()
    modifies db
    ensures db.Valid()
    ensures Outcome(r, db.State()) == UpdateOutcome(old(db.State()), user, ch)
  {
    if !ChangesOk(ch) {
      return Err(InvalidInput);
    }
    var access := VerifyNoteAccess(db.State(), ch.id, user);
    if access.Err? {
      return Err(access.error);
    }
    UpdateEffect(db.State(), user, ch);
    var n := access.value.(title := Or(ch.title, access.value.title), content := Or(ch.content, access.value.content));
    db.notes := db.notes[ch.id := n];
    r := Ok(n);
  }

  function DeleteOutcome(t: Tables, user: UserId, id: int): (o: Outcome<Note>)
    ensures o.result.Err? ==> o.after == t
  {
    match VerifyNoteAccess(t, id, user)
    case Err(e) => Outcome(Err(e), t)
    case Ok(n) => Outcome(Ok(n), t.(notes := t.notes - {id}))
  }

  /** delete removes exactly one note of the caller; getByOpportunity no longer lists it. */
  lemma DeleteEffect(t: Tables, user: UserId, id: int, order: seq<int>)
    requires Valid(t)
    ensures var o := DeleteOutcome(t, user, id);
            (o.result.Ok? <==> OwnsNote(t, user, id))
            && (o.result.Err? ==> o.result.error == NotFound(NoteRow))
            && (o.result.Ok? ==>
                  o.after == t.(notes := t.notes - {id})
                  && id !in NotesOf(o.after, t.notes[id].opportunityId, order)
                  && VerifyNoteAccess(o.after, id, user) == Err(NotFound(NoteRow)))
            && Valid(o.after)
  {
  }

  method Delete(db: Store, user: UserId, id: int) returns (r: Result<Note>)
    requires db.Valid()
    modifies db
    ensures db.Valid()
    ensures Outcome(r, db.State()) == DeleteOutcome(old(db.State()), user, id)
  {
    var access := VerifyNoteAccess(db.State(), id, user);
    if access.Err? {
      return Err(access.error);
    }
    DeleteEffect(db.State(), user, id, []);
    db.notes := db.notes - {id};
    r := Ok(access.value);
  }

  // ---------------------------------------------------------------------------------------------
  // deleteMany

  /** The distinct notes among `ids` that the caller owns: the rows the ownership `findMany` returns. */
  function OwnedAmong(t: Tables, user: UserId, ids: seq<int>): (s: set<int>)
    ensures forall n :: n in s <==> n in ids && OwnsNote(t, user, n)
  {
    set n | n in ids && OwnsNote(t, user, n)
  }

  /** The ownership query finds one row per id exactly when the ids are pairwise different and each
      names a note the caller owns. */
  lemma {:induction false} OwnedAmongSize(t: Tables, user: UserId, ids: seq<int>)
    ensures |OwnedAmong(t, user, ids)| <= |ids|
    ensures |OwnedAmong(t, user, ids)| == |ids| <==> Distinct(ids) && forall n | n in ids :: OwnsNote(t, user, n)
  {
    if ids != [] {
      var init, x := ids[..|ids| - 1], ids[|ids| - 1];
      assert ids == init + [x];
      OwnedAmongSize(t, user, init);
      var a, b := OwnedAmong(t, user, init), OwnedAmong(t, user, ids);
      assert forall n :: n in ids <==> n in init || n == x;
      if OwnsNote(t, user, x) {
        assert b == a + {x};
      } else {
        assert b == a;
      }
      assert Distinct(ids) <==> Distinct(init) && x !in init by {
        if Distinct(ids) {
          forall i, j | 0 <= i < j < |init| ensures init[i] != init[j] {
            assert ids[i] == init[i] && ids[j] == init[j];
          }
        }
        if Distinct(init) && x !in init {
          forall i, j | 0 <= i < j < |ids| ensures ids[i] != ids[j] {
            if j == |ids| - 1 {
              assert ids[i] == init[i];
            } else {
              assert ids[i] == init[i] && ids[j] == init[j];
            }
          }
        }
      }
      if x in a {
        assert |b| == |a|;
      }
    }
  }

  /** `notes.deleteMany({ where: { id: { in: ids } } })` on the table. */
  function WithoutIds(notes: map<int, Note>, ids: seq<int>): (r: map<int, Note>)
    ensures forall n :: n in r <==> n in notes && n !in ids
    ensures forall n | n in r :: r[n] == notes[n]
  {
    map n | n in notes && n !in ids :: notes[n]
  }

  function DeleteManyOutcome(t: Tables, user: UserId, ids: seq<int>): (o: Outcome<nat>)
    ensures o.result.Err? ==> o.after == t
  {
    if ids == [] then Outcome(Err(InvalidInput), t)
    else if |OwnedAmong(t, user, ids)| != |ids| then Outcome(Err(Forbidden), t)
    else
      var removed := set n | n in t.notes && n in ids;
      Outcome(Ok(|removed|), t.(notes := WithoutIds(t.notes, ids)))
  }

  /** deleteMany is all or nothing: an empty list is InvalidInput; when any id is missing, not the caller's or given twice it answers
      Forbidden and deletes nothing; otherwise it deletes exactly those notes and counts one per id. */
  lemma DeleteManyEffect(t: Tables, user: UserId, ids: seq<int>)
    requires Valid(t)
    ensures var o := DeleteManyOutcome(t, user, ids);
            (o.result.Ok? <==> ids != [] && Distinct(ids) && forall n | n in ids :: OwnsNote(t, user, n))
            && (ids == [] ==> o.result == Err(InvalidInput) && o.after == t)
            && (ids != [] && !o.result.Ok? ==> o.result == Err(Forbidden) && o.after == t)
            && (o.result.Ok? ==>
                  o.result.value == |ids|
                  && o.after.notes.Keys == t.notes.Keys - (set n | n in ids)
                  && o.after.(notes := t.notes) == t)
            && Valid(o.after)
  {
    OwnedAmongSize(t, user, ids);
    var o := DeleteManyOutcome(t, user, ids);
    if o.result.Ok? {
      assert (set n | n in t.notes && n in ids) == OwnedAmong(t, user, ids);
    }
  }

  method DeleteMany(db: Store, user: UserId, ids: seq<int>) returns (r: Result<nat>)
    requires db.Valid()
    modifies db
    ensures db.Valid()
    ensures Outcome(r, db.State()) == DeleteManyOutcome(old(db.State()), user, ids)
  {
    if ids == [] {
      return Err(InvalidInput);
    }
    var found := OwnedAmong(db.State(), user, ids);
    if |found| != |ids| {
      return Err(Forbidden);
    }
    DeleteManyEffect(db.State(), user, ids);
    var removed := set n | n in db.notes && n in ids;
    db.notes := WithoutIds(db.notes, ids);
    r := Ok(|removed|);
  }
}
