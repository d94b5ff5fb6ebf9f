/** Ownership scoping. A client belongs to the user who created it (`getUserClientsWhere`); an
    opportunity is visible through its client and a note through its opportunity's client
    (`getUserNotesWhere`). A relation filter on a row that is missing matches nothing. */
module Tenancy {
  import opened Domain
  import opened Schema

  predicate OwnsClient(t: Tables, user: UserId, id: int) {
    id in t.clients && t.clients[id].createdById == user
  }

  predicate OwnsOpportunity(t: Tables, user: UserId, id: int) {
    id in t.opportunities && OwnsClient(t, user, t.opportunities[id].clientId)
  }

  predicate OwnsNote(t: Tables, user: UserId, id: int) {
    id in t.notes && OwnsOpportunity(t, user, t.notes[id].opportunityId)
  }

  /** The user a client belongs to: its creator, and nobody else. */
  function ClientOwner(t: Tables, id: int): (u: UserId)
    requires id in t.clients
    ensures OwnsClient(t, u, id)
    ensures forall v :: OwnsClient(t, v, id) ==> v == u
  {
    t.clients[id].createdById
  }

  /** In a consistent store every opportunity is visible to exactly one user, the owner of its
      client. */
  function OpportunityOwner(t: Tables, id: int): (u: UserId)
    requires Valid(t) && id in t.opportunities
    ensures OwnsOpportunity(t, u, id)
    ensures forall v :: OwnsOpportunity(t, v, id) ==> v == u
  {
    ClientOwner(t, t.opportunities[id].clientId)
  }

  /** In a consistent store every note is visible to exactly one user, through its opportunity's
      client. */
  function NoteOwner(t: Tables, id: int): (u: UserId)
    requires Valid(t) && id in t.notes
    ensures OwnsNote(t, u, id)
    ensures forall v :: OwnsNote(t, v, id) ==> v == u
  {
    OpportunityOwner(t, t.notes[id].opportunityId)
  }
}
