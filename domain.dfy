/** Entities, enumerations, error kinds and the input checks (zod schemas) shared by the four routers. */
module Domain {

  datatype Option<T> = None | Some(value: T)

  /** The four tables of the relational store. */
  datatype Entity = ClientRow | OpportunityRow | NoteRow | CarRow

  /** The error outcomes of the routers, tagged by meaning.
      clients.ts and notes.ts throw coded TRPCErrors; car.ts and opportunity.ts throw plain Errors
      whose message says the same thing. */
  datatype Error =
    | NotFound(entity: Entity)             // NOT_FOUND, or "... não encontrado(a)"
    | Duplicate(entity: Entity)            // CONFLICT on a client email, or "já está cadastrado" for a car
    | InUse(entity: Entity, linked: nat)   // delete refused: `linked` opportunities still reference the row
    | Forbidden                            // deleteMany with ids that are missing or not owned
    | InvalidInput                         // rejected by the input schema before the procedure runs
    | ForeignKeyViolation                  // the store's foreign-key constraint refused the write

  datatype Result<T> = Ok(value: T) | Err(error: Error)

  datatype Urgency = LOW | NORMAL | HIGH

  /** The stages that the routers name; the schema's full funnel is not part of this model. */
  datatype Stage = LEAD | CONTACTED | CLOSED_WON | CLOSED_LOST

  const AllUrgencies: seq<Urgency> := [LOW, NORMAL, HIGH]
  const AllStages: seq<Stage> := [LEAD, CONTACTED, CLOSED_WON, CLOSED_LOST]

  type UserId = string

  datatype Client = Client(name: string, email: Option<string>, phone: Option<string>,
                           urgency: Urgency, createdById: UserId)

  datatype Opportunity = Opportunity(clientId: int, carLabel: string, carModelId: Option<int>,
                                     stage: Stage, urgency: Urgency)

  datatype Note = Note(opportunityId: int, title: string, content: string)

  datatype Car = Car(brand: string, model: string, version: Option<string>, year: Option<int>)

  /** A field of an update input that is `.nullable().optional()`: left out, explicitly null, or a value. */
  datatype Patch<T> = Keep | SetNull | Set(value: T)

  /** The stored value after a patch: `undefined` keeps it, `null` clears it, a value replaces it. */
  function Patched<T>(p: Patch<T>, current: Option<T>): (r: Option<T>)
    ensures p.Keep? ==> r == current
    ensures p.SetNull? ==> r.None?
    ensures p.Set? ==> r == Some(p.value)
  {
    match p
    case Keep => current
    case SetNull => None
    case Set(v) => Some(v)
  }

  /** An `.optional()` field of an update input: the new value, or the current one when left out. */
  function Or<T>(o: Option<T>, current: T): T {
    if o.Some? then o.value else current
  }

  /** JavaScript truthiness of an optional number: `undefined` and `0` are both falsy. */
  predicate Truthy(n: Option<int>) {
    n.Some? && n.value != 0
  }

  /** JavaScript truthiness of an optional string: `undefined` and "" are both falsy. */
  predicate TruthyText(s: Option<string>) {
    s.Some? && s.value != ""
  }

  function CountChar(s: string, c: char): (n: nat)
    ensures n <= |s|
    ensures n == 0 <==> c !in s
  {
    if s == [] then 0 else (if s[0] == c then 1 else 0) + CountChar(s[1..], c)
  }

  /** The address shape that `z.string().email()` accepts, approximated: one '@' with text on both sides. */
  predicate ValidEmail(s: string) {
    CountChar(s, '@') == 1 && s[0] != '@' && s[|s| - 1] != '@'
  }

  /** `z.number().min(1900).max(2100)` on a car year. */
  predicate YearInRange(y: int) {
    1900 <= y <= 2100
  }

  /** A page size as zod resolves it: `default(def)` when left out, rejected outside 1..max. */
  function ResolveLimit(limit: Option<int>, def: nat, max: nat): (r: Option<nat>)
    requires 1 <= def <= max
    ensures limit.None? ==> r == Some(def)
    ensures limit.Some? ==> (r.Some? <==> 1 <= limit.value <= max)
    ensures r.Some? ==> 1 <= r.value <= max
    ensures r.Some? && limit.Some? ==> r.value == limit.value
  {
    match limit
    case None => Some(def)
    case Some(n) => if 1 <= n <= max then Some(n) else None
  }
}
