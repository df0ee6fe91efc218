/** The records of the CRM (users, clients, contracts, events), the store
    that holds them and the notification log. A record's id is its key in
    the store; timestamps are integers supplied by the caller; amounts are
    reals, since the controllers only store and compare them. */
module Models {
  import opened Wrappers

  /** `UserRole`. */
  datatype Role = Management | Commercial | Support

  /** The value of a `UserRole` member. */
  function RoleName(r: Role): (s: string)
    ensures |s| > 0
  {
    match r
    case Management => "management"
    case Commercial => "commercial"
    case Support => "support"
  }

  /** `UserRole(value)`: `None` is the `ValueError` of an unknown value. */
  function ParseRole(s: string): (r: Option<Role>)
    ensures r.Some? <==> s == "management" || s == "commercial" || s == "support"
    ensures r.Some? ==> RoleName(r.value) == s
  {
    if s == "management" then Some(Management)
    else if s == "commercial" then Some(Commercial)
    else if s == "support" then Some(Support)
    else None
  }

  /** `UserRole(member.value)` is the member. */
  lemma RoleNameRoundTrip(r: Role)
    ensures ParseRole(RoleName(r)) == Some(r)
  {
  }

  datatype User = User(username: string, email: string, passwordHash: string, role: Role)

  datatype Client = Client(
    fullName: string, email: string, phone: Option<string>, companyName: Option<string>,
    creationDate: int, lastContactDate: int, commercialContactId: Option<int>)

  /** `status` is the text `"true"` once signed and `"false"` before. */
  datatype Contract = Contract(
    totalAmount: real, remainingAmount: real, creationDate: int, status: string,
    clientId: Option<int>)

  datatype Event = Event(
    dateStart: Option<int>, dateEnd: Option<int>, location: Option<string>,
    attendees: Option<int>, notes: Option<string>, contractId: Option<int>,
    supportContactId: Option<int>)

  /** What the session token carries: the caller's id and role. */
  datatype Identity = Identity(id: int, role: string)

  /** The content of the database: one table per record type, and for each
      table the id its next insertion receives. */
  datatype Store = Store(
    users: map<int, User>, clients: map<int, Client>,
    contracts: map<int, Contract>, events: map<int, Event>,
    nextUserId: int, nextClientId: int, nextContractId: int, nextEventId: int)

  /** Every id in use is below its table's next id. */
  predicate WellFormed(s: Store) {
    && (forall id :: id in s.users ==> id < s.nextUserId)
    && (forall id :: id in s.clients ==> id < s.nextClientId)
    && (forall id :: id in s.contracts ==> id < s.nextContractId)
    && (forall id :: id in s.events ==> id < s.nextEventId)
  }

  /** The database session the controllers share. */
  class Database {
    var users: map<int, User>
    var clients: map<int, Client>
    var contracts: map<int, Contract>
    var events: map<int, Event>
    var nextUserId: int
    var nextClientId: int
    var nextContractId: int
    var nextEventId: int

    function Content(): Store
      reads this
    {
      Store(users, clients, contracts, events, nextUserId, nextClientId, nextContractId, nextEventId)
    }

    ghost predicate Valid()
      reads this
    {
      WellFormed(Content())
    }

    constructor ()
      ensures Valid()
      ensures Content() == Store(map[], map[], map[], map[], 1, 1, 1, 1)
    {
      users, clients, contracts, events := map[], map[], map[], map[];
      nextUserId, nextClientId, nextContractId, nextEventId := 1, 1, 1, 1;
    }
  }

  /** The messages sent to the monitoring service, oldest first. */
  class Monitor {
    ghost var log: seq<string>

    constructor ()
      ensures log == []
    {
      log := [];
    }
  }
}
