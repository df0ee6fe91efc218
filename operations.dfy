/** What each controller operation does to the database, as a function of
    the content before it: the reply the caller gets, the content after it,
    and the messages sent to monitoring. The controller classes are proved
    to do exactly this. */
module Operations {
  import opened Wrappers
  import opened PyStr
  import opened Models
  import opened Permissions
  import opened Updates

  /** The tuple a controller method returns, or the exception it raises.
      `Done` carries the id of the record created, changed or deleted. */
  datatype Reply = Done(id: int, message: string) | Refused(message: string) | Raised(exception: string)

  datatype Effect = Effect(store: Store, reply: Reply, notes: seq<string>)

  /** A `list_*` result: the rows returned, keyed by id, or the refusal. */
  datatype Listing<T> = Listed(rows: map<int, T>) | Unlisted(message: string)

  const ValueError: string := "ValueError"
  /** A commit that breaks the unique constraint on a user's username or email. */
  const IntegrityError: string := "IntegrityError"

  const UserCreated: string := "Utilisateur créé avec succès."
  const UserUpdated: string := "Utilisateur mis à jour."
  const UserDeleted: string := "Utilisateur supprimé."
  const ClientCreated: string := "Client créé avec succès."
  const ClientUpdated: string := "Client mis à jour."
  const ContractCreated: string := "Contrat créé avec succès."
  const ContractUpdated: string := "Contrat mis à jour."
  const EventCreated: string := "Événement créé avec succès."
  const EventUpdated: string := "Événement mis à jour."

  function UserCreatedNote(username: string, role: string): string {
    "Nouveau collaborateur créé : " + username + " (" + role + ")"
  }

  function UserUpdatedNote(userId: int): string {
    "Collaborateur modifié : ID " + IntToString(userId)
  }

  function ContractSignedNote(contractId: int): string {
    "Contrat " + IntToString(contractId) + " SIGNÉ !"
  }

  /** The effect of checks that did not pass: nothing changes. */
  function Stop(s: Store, g: Gate): (r: Effect)
    requires g != Allow
    ensures r.store == s && r.notes == [] && !r.reply.Done?
  {
    if g.Deny? then Effect(s, Refused(g.message), []) else Effect(s, Raised(g.exception), [])
  }

  /** Another user than `userId` already has this username or email. */
  predicate Clashes(users: map<int, User>, userId: Option<int>, username: string, email: string) {
    exists id :: id in users && Some(id) != userId && (users[id].username == username || users[id].email == email)
  }

  // ---------------------------------------------------------------------------
  // UserController
  // ---------------------------------------------------------------------------

  /** `create_user`: the new user gets the next id and the hash of the
      password; one notification names them. */
  function CreateUserOp(s: Store, who: Option<Identity>, username: string, email: string,
                        password: string, role: string, hash: string -> string): (r: Effect)
    ensures !r.reply.Done? ==> r.store == s && r.notes == []
    ensures r.reply.Done? <==>
      CreateUserGate(who, s.users, username) == Allow && ParseRole(role).Some?
      && !Clashes(s.users, None, username, email)
    ensures WellFormed(s) ==> WellFormed(r.store)
  {
    var g := CreateUserGate(who, s.users, username);
    if g != Allow then Stop(s, g)
    else
      match ParseRole(role)
      case None => Effect(s, Raised(ValueError), [])
      case Some(rl) =>
        if Clashes(s.users, None, username, email) then Effect(s, Raised(IntegrityError), [])
        else
          var id := s.nextUserId;
          Effect(s.(users := s.users[id := User(username, email, hash(password), rl)], nextUserId := id + 1),
                 Done(id, UserCreated), [UserCreatedNote(username, role)])
  }

  /** `update_user`: the keyword loop, then the commit. */
  function UpdateUserOp(s: Store, who: Option<Identity>, userId: int, args: seq<UserArg>,
                        hash: string -> string): (r: Effect)
    ensures !r.reply.Done? ==> r.store == s && r.notes == []
    ensures r.reply.Done? <==>
      UserRecordGate(who, s.users, userId) == Allow && !HasBadRole(args)
      && !Clashes(s.users, Some(userId), UpdatedUser(s.users[userId], args, hash).username,
                  UpdatedUser(s.users[userId], args, hash).email)
    ensures WellFormed(s) ==> WellFormed(r.store)
  {
    var g := UserRecordGate(who, s.users, userId);
    if g != Allow then Stop(s, g)
    else
      UserArgsEffect(s.users[userId], args, hash);
      match ApplyUserArgs(s.users[userId], args, hash)
      case None => Effect(s, Raised(ValueError), [])
      case Some(u) =>
        if Clashes(s.users, Some(userId), u.username, u.email) then Effect(s, Raised(IntegrityError), [])
        else Effect(s.(users := s.users[userId := u]), Done(userId, UserUpdated), [UserUpdatedNote(userId)])
  }

  /** Deleting a user clears the references to them (the default of the
      relationships, which have no delete cascade). */
  function UnassignClients(clients: map<int, Client>, userId: int): (r: map<int, Client>)
    ensures r.Keys == clients.Keys
    ensures forall id :: id in r ==> r[id].commercialContactId != Some(userId)
    ensures forall id :: id in clients && clients[id].commercialContactId != Some(userId) ==> r[id] == clients[id]
    ensures forall id :: id in clients ==> r[id].(commercialContactId := clients[id].commercialContactId) == clients[id]
  {
    map id | id in clients ::
      if clients[id].commercialContactId == Some(userId) then clients[id].(commercialContactId := None)
      else clients[id]
  }

  function UnassignEvents(events: map<int, Event>, userId: int): (r: map<int, Event>)
    ensures r.Keys == events.Keys
    ensures forall id :: id in r ==> r[id].supportContactId != Some(userId)
    ensures forall id :: id in events && events[id].supportContactId != Some(userId) ==> r[id] == events[id]
    ensures forall id :: id in events ==> r[id].(supportContactId := events[id].supportContactId) == events[id]
  {
    map id | id in events ::
      if events[id].supportContactId == Some(userId) then events[id].(supportContactId := None)
      else events[id]
  }

  /** `delete_user`. */
  function DeleteUserOp(s: Store, who: Option<Identity>, userId: int): (r: Effect)
    ensures !r.reply.Done? ==> r.store == s && r.notes == []
    ensures r.reply.Done? <==> UserRecordGate(who, s.users, userId) == Allow
    ensures r.notes == []
    ensures WellFormed(s) ==> WellFormed(r.store)
  {
    var g := UserRecordGate(who, s.users, userId);
    if g != Allow then Stop(s, g)
    else
      Effect(s.(users := s.users - {userId},
                clients := UnassignClients(s.clients, userId),
                events := UnassignEvents(s.events, userId)),
             Done(userId, UserDeleted), [])
  }

  /** `list_users`. */
  function ListUsersOp(s: Store, who: Option<Identity>): (r: Listing<User>)
    ensures r.Listed? <==> who.Some?
    ensures r.Listed? ==> r.rows == s.users
  {
    var g := ListGate(who);
    if g != Allow then Unlisted(g.message) else Listed(s.users)
  }

  // ---------------------------------------------------------------------------
  // ClientController
  // ---------------------------------------------------------------------------

  /** `list_clients`. */
  function ListClientsOp(s: Store, who: Option<Identity>): (r: Listing<Client>)
    ensures r.Listed? <==> who.Some?
    ensures r.Listed? ==> r.rows == s.clients
  {
    var g := ListGate(who);
    if g != Allow then Unlisted(g.message) else Listed(s.clients)
  }

  /** `create_client`: the caller becomes the commercial contact; both dates
      are the time of creation. */
  function CreateClientOp(s: Store, who: Option<Identity>, fullName: string, email: string,
                          phone: Option<string>, companyName: Option<string>, now: int): (r: Effect)
    ensures !r.reply.Done? ==> r.store == s
    ensures r.reply.Done? <==> CreateClientGate(who) == Allow
    ensures r.notes == []
    ensures WellFormed(s) ==> WellFormed(r.store)
  {
    var g := CreateClientGate(who);
    if g != Allow then Stop(s, g)
    else
      var id := s.nextClientId;
      Effect(s.(clients := s.clients[id := Client(fullName, email, phone, companyName, now, now, Some(who.value.id))],
                nextClientId := id + 1),
             Done(id, ClientCreated), [])
  }

  /** `update_client`: the keyword loop, then the last contact date. */
  function UpdateClientOp(s: Store, who: Option<Identity>, clientId: int, args: seq<ClientArg>, now: int): (r: Effect)
    ensures !r.reply.Done? ==> r.store == s
    ensures r.reply.Done? <==> UpdateClientGate(who, s.clients, clientId) == Allow
    ensures r.notes == []
    ensures WellFormed(s) ==> WellFormed(r.store)
  {
    var g := UpdateClientGate(who, s.clients, clientId);
    if g != Allow then Stop(s, g)
    else
      var c := ApplyClientArgs(s.clients[clientId], args).(lastContactDate := now);
      Effect(s.(clients := s.clients[clientId := c]), Done(clientId, ClientUpdated), [])
  }

  // ---------------------------------------------------------------------------
  // ContractController
  // ---------------------------------------------------------------------------

  /** The `filter_signed` test of `list_contracts`. */
  predicate SignedFilter(filterSigned: Option<bool>, c: Contract) {
    filterSigned.None? || c.status == (if filterSigned.value then "true" else "false")
  }

  /** The `filter_paid` test: `False` keeps what is still owed, `True` what
      is fully paid. */
  predicate PaidFilter(filterPaid: Option<bool>, c: Contract) {
    match filterPaid
    case None => true
    case Some(paid) => if paid then c.remainingAmount == 0.0 else c.remainingAmount > 0.0
  }

  /** `list_contracts`. */
  function ListContractsOp(s: Store, who: Option<Identity>, filterSigned: Option<bool>,
                           filterPaid: Option<bool>): (r: Listing<Contract>)
    ensures r.Listed? <==> who.Some?
    ensures r.Listed? ==> forall id :: id in r.rows ==> id in s.contracts && r.rows[id] == s.contracts[id]
  {
    var g := ListGate(who);
    if g != Allow then Unlisted(g.message)
    else
      Listed(map id | id in s.contracts && SignedFilter(filterSigned, s.contracts[id])
                                        && PaidFilter(filterPaid, s.contracts[id]) :: s.contracts[id])
  }

  /** `create_contract`: a new contract is never signed. */
  function CreateContractOp(s: Store, who: Option<Identity>, clientId: int,
                            totalAmount: real, remainingAmount: real, now: int): (r: Effect)
    ensures !r.reply.Done? ==> r.store == s
    ensures r.reply.Done? <==> CreateContractGate(who, s.clients, clientId) == Allow
    ensures r.notes == []
    ensures WellFormed(s) ==> WellFormed(r.store)
  {
    var g := CreateContractGate(who, s.clients, clientId);
    if g != Allow then Stop(s, g)
    else
      var id := s.nextContractId;
      Effect(s.(contracts := s.contracts[id := Contract(totalAmount, remainingAmount, now, "false", Some(clientId))],
                nextContractId := id + 1),
             Done(id, ContractCreated), [])
  }

  /** `update_contract`: the keyword loop, then the signature notification. */
  function UpdateContractOp(s: Store, who: Option<Identity>, contractId: int, args: seq<ContractArg>): (r: Effect)
    ensures !r.reply.Done? ==> r.store == s && r.notes == []
    ensures r.reply.Done? <==> UpdateContractGate(who, s.clients, s.contracts, contractId) == Allow
    ensures r.reply == Raised(AttributeError) <==> UpdateContractGate(who, s.clients, s.contracts, contractId).Fault?
    ensures WellFormed(s) ==> WellFormed(r.store)
  {
    var g := UpdateContractGate(who, s.clients, s.contracts, contractId);
    if g != Allow then Stop(s, g)
    else
      var (c, signed) := ApplyContractArgs(s.contracts[contractId], args);
      Effect(s.(contracts := s.contracts[contractId := c]), Done(contractId, ContractUpdated),
             if signed then [ContractSignedNote(contractId)] else [])
  }

  // ---------------------------------------------------------------------------
  // EventController
  // ---------------------------------------------------------------------------

  /** `list_events`: `filter_no_support` keeps the events without support,
      `filter_my_events` those assigned to the caller. */
  function ListEventsOp(s: Store, who: Option<Identity>, filterNoSupport: bool, filterMyEvents: bool): (r: Listing<Event>)
    ensures r.Listed? <==> who.Some?
    ensures r.Listed? ==> forall id :: id in r.rows ==> id in s.events && r.rows[id] == s.events[id]
  {
    var g := ListGate(who);
    if g != Allow then Unlisted(g.message)
    else
      Listed(map id | id in s.events
                      && (filterNoSupport ==> s.events[id].supportContactId.None?)
                      && (filterMyEvents ==> s.events[id].supportContactId == Some(who.value.id)) :: s.events[id])
  }

  /** `create_event`: the event belongs to the contract and has no support yet. */
  function CreateEventOp(s: Store, who: Option<Identity>, contractId: int, dateStart: Option<int>,
                         dateEnd: Option<int>, location: Option<string>, attendees: Option<int>,
                         notes: Option<string>): (r: Effect)
    ensures !r.reply.Done? ==> r.store == s
    ensures r.reply.Done? <==> CreateEventGate(who, s.clients, s.contracts, contractId) == Allow
    ensures r.notes == []
    ensures WellFormed(s) ==> WellFormed(r.store)
  {
    var g := CreateEventGate(who, s.clients, s.contracts, contractId);
    if g != Allow then Stop(s, g)
    else
      var id := s.nextEventId;
      Effect(s.(events := s.events[id := Event(dateStart, dateEnd, location, attendees, notes, Some(contractId), None)],
                nextEventId := id + 1),
             Done(id, EventCreated), [])
  }

  /** `update_event`: the keyword loop. */
  function UpdateEventOp(s: Store, who: Option<Identity>, eventId: int, args: seq<EventArg>): (r: Effect)
    ensures !r.reply.Done? ==> r.store == s
    ensures r.reply.Done? <==> UpdateEventGate(who, s.events, eventId) == Allow
    ensures r.notes == []
    ensures WellFormed(s) ==> WellFormed(r.store)
  {
    var g := UpdateEventGate(who, s.events, eventId);
    if g != Allow then Stop(s, g)
    else
      Effect(s.(events := s.events[eventId := ApplyEventArgs(s.events[eventId], args)]), Done(eventId, EventUpdated), [])
  }

  // ---------------------------------------------------------------------------
  // Properties
  // ---------------------------------------------------------------------------

  /** A created user holds the hash of the password, never anything else,
      and exactly one notification is sent. */
  lemma CreateUserStoresHash(s: Store, who: Option<Identity>, username: string, email: string,
                             password: string, role: string, hash: string -> string)
    requires WellFormed(s)
    requires CreateUserOp(s, who, username, email, password, role, hash).reply.Done?
    ensures var r := CreateUserOp(s, who, username, email, password, role, hash);
      && r.reply.id !in s.users
      && r.store.users == s.users[r.reply.id := User(username, email, hash(password), ParseRole(role).value)]
      && r.notes == [UserCreatedNote(username, role)]
      && r.store.clients == s.clients && r.store.contracts == s.contracts && r.store.events == s.events
  {
  }

  /** A refused `update_user` leaves the user untouched; an accepted one
      writes the fields the keyword loop sets and nothing in other records. */
  lemma UpdateUserTouchesOneRecord(s: Store, who: Option<Identity>, userId: int, args: seq<UserArg>,
                                   hash: string -> string)
    ensures var r := UpdateUserOp(s, who, userId, args, hash);
      r.reply.Done? ==>
        && r.store.users == s.users[userId := UpdatedUser(s.users[userId], args, hash)]
        && r.store.clients == s.clients && r.store.contracts == s.contracts && r.store.events == s.events
        && r.notes == [UserUpdatedNote(userId)]
  {
    if UserRecordGate(who, s.users, userId) == Allow {
      UserArgsEffect(s.users[userId], args, hash);
    }
  }

  /** After `delete_user`, nothing refers to the deleted user. */
  lemma DeleteUserLeavesNoReference(s: Store, who: Option<Identity>, userId: int)
    requires DeleteUserOp(s, who, userId).reply.Done?
    ensures var t := DeleteUserOp(s, who, userId).store;
      && userId in s.users && t.users == s.users - {userId}
      && (forall id :: id in t.clients ==> t.clients[id].commercialContactId != Some(userId))
      && (forall id :: id in t.events ==> t.events[id].supportContactId != Some(userId))
      && t.contracts == s.contracts
  {
  }

  /** A created client belongs to its creator and is new. */
  lemma CreateClientOwnedByCaller(s: Store, who: Option<Identity>, fullName: string, email: string,
                                  phone: Option<string>, companyName: Option<string>, now: int)
    requires WellFormed(s)
    requires CreateClientOp(s, who, fullName, email, phone, companyName, now).reply.Done?
    ensures var r := CreateClientOp(s, who, fullName, email, phone, companyName, now);
      && who.Some? && who.value.role == "commercial"
      && r.reply.id !in s.clients && r.reply.id in r.store.clients
      && r.store.clients[r.reply.id].commercialContactId == Some(who.value.id)
      && r.store.clients[r.reply.id].lastContactDate == now
  {
  }

  /** An accepted `update_client` writes the last truthy value of each
      field, refreshes the last contact date and changes nothing else. */
  lemma UpdateClientFields(s: Store, who: Option<Identity>, clientId: int, args: seq<ClientArg>, now: int)
    requires UpdateClientOp(s, who, clientId, args, now).reply.Done?
    ensures var r := UpdateClientOp(s, who, clientId, args, now);
      var c := s.clients[clientId];
      && r.store.clients == s.clients[clientId := c.(
           fullName := ClientValue(args, FullNameKey).GetOr(c.fullName),
           email := ClientValue(args, ClientEmailKey).GetOr(c.email),
           phone := if ClientValue(args, PhoneKey).Some? then ClientValue(args, PhoneKey) else c.phone,
           companyName := if ClientValue(args, CompanyNameKey).Some? then ClientValue(args, CompanyNameKey) else c.companyName,
           lastContactDate := now)]
      && r.store.users == s.users && r.store.contracts == s.contracts && r.store.events == s.events
  {
    ClientArgsEffect(s.clients[clientId], args);
  }

  /** A created contract is unsigned and points at its client. */
  lemma CreateContractUnsigned(s: Store, who: Option<Identity>, clientId: int,
                               totalAmount: real, remainingAmount: real, now: int)
    requires CreateContractOp(s, who, clientId, totalAmount, remainingAmount, now).reply.Done?
    ensures var r := CreateContractOp(s, who, clientId, totalAmount, remainingAmount, now);
      && r.reply.id in r.store.contracts
      && r.store.contracts[r.reply.id].status == "false"
      && r.store.contracts[r.reply.id].clientId == Some(clientId) && clientId in s.clients
  {
  }

  /** With a keyword dictionary, `update_contract` sends the signature
      notification exactly when it succeeds, the new status is `"true"` and
      the old one was not. */
  lemma UpdateContractNotifiesSignature(s: Store, who: Option<Identity>, contractId: int, args: seq<ContractArg>)
    requires DistinctContractKeys(args)
    ensures var r := UpdateContractOp(s, who, contractId, args);
      r.notes == [ContractSignedNote(contractId)] <==>
        && r.reply.Done?
        && LastSome(args, StatusGiven) == Some("true")
        && s.contracts[contractId].status != "true"
    ensures var r := UpdateContractOp(s, who, contractId, args);
      r.notes == [] || r.notes == [ContractSignedNote(contractId)]
  {
    if UpdateContractGate(who, s.clients, s.contracts, contractId) == Allow {
      ContractSignedFlag(s.contracts[contractId], args);
    }
  }

  /** The `--signed` flag of the command line signs an unsigned contract and
      notifies once; signing a signed contract again sends nothing. */
  lemma SigningFlagNotifiesOnce(s: Store, who: Option<Identity>, contractId: int)
    requires UpdateContractGate(who, s.clients, s.contracts, contractId) == Allow
    ensures var r := UpdateContractOp(s, who, contractId, [StatusArg(Some(StatusFlag(true)))]);
      && r.store.contracts[contractId].status == "true"
      && (r.notes == [ContractSignedNote(contractId)] <==> s.contracts[contractId].status != "true")
  {
    var args := [StatusArg(Some(StatusFlag(true)))];
    assert args[..0] == [];
    ContractArgsFields(s.contracts[contractId], args);
  }

  /** An accepted `update_contract` writes the last value given for each
      field, the status lower-cased, and changes no other record. */
  lemma UpdateContractFields(s: Store, who: Option<Identity>, contractId: int, args: seq<ContractArg>)
    requires UpdateContractOp(s, who, contractId, args).reply.Done?
    ensures var r := UpdateContractOp(s, who, contractId, args);
      var c := s.contracts[contractId];
      && r.store.contracts == s.contracts[contractId := c.(
           totalAmount := LastSome(args, TotalAmountGiven).GetOr(c.totalAmount),
           remainingAmount := LastSome(args, RemainingAmountGiven).GetOr(c.remainingAmount),
           status := LastSome(args, StatusGiven).GetOr(c.status))]
      && r.store.users == s.users && r.store.clients == s.clients && r.store.events == s.events
  {
    ContractArgsFields(s.contracts[contractId], args);
  }

  /** An accepted `update_event` writes the last non-`None` value given for
      each field, whoever the caller, and changes no other record. */
  lemma UpdateEventFields(s: Store, who: Option<Identity>, eventId: int, args: seq<EventArg>)
    requires UpdateEventOp(s, who, eventId, args).reply.Done?
    ensures var r := UpdateEventOp(s, who, eventId, args);
      var e := s.events[eventId];
      && r.store.events == s.events[eventId := e.(
           supportContactId := if LastSome(args, SupportGiven).Some? then LastSome(args, SupportGiven) else e.supportContactId,
           location := if LastSome(args, LocationGiven).Some? then LastSome(args, LocationGiven) else e.location,
           attendees := if LastSome(args, AttendeesGiven).Some? then LastSome(args, AttendeesGiven) else e.attendees,
           notes := if LastSome(args, NotesGiven).Some? then LastSome(args, NotesGiven) else e.notes)]
      && r.store.users == s.users && r.store.clients == s.clients && r.store.contracts == s.contracts
  {
    EventArgsEffect(s.events[eventId], args);
  }

  /** Support may change exactly the events assigned to them, and the
      values written include falsy ones. */
  lemma UpdateEventBySupport(s: Store, who: Identity, eventId: int, args: seq<EventArg>)
    requires who.role == "support" && eventId in s.events
    ensures UpdateEventOp(s, Some(who), eventId, args).reply.Done? <==> AssignedTo(who, s.events[eventId])
    ensures UpdateEventOp(s, Some(who), eventId, args).reply.Done? ==>
      UpdateEventOp(s, Some(who), eventId, args).store.events[eventId].attendees ==
        (if LastSome(args, AttendeesGiven).Some? then LastSome(args, AttendeesGiven) else s.events[eventId].attendees)
  {
    EventArgsEffect(s.events[eventId], args);
  }

  /** Asking for the unassigned events and for one's own at once returns
      nothing: no event is both. */
  lemma ListEventsBothFiltersEmpty(s: Store, who: Identity)
    ensures ListEventsOp(s, Some(who), true, true) == Listed(map[])
  {
    var r := ListEventsOp(s, Some(who), true, true);
    assert forall id :: id !in r.rows;
    assert r.rows.Keys == {};
  }

  /** Without filters, `list_contracts` returns the whole table. */
  lemma ListContractsUnfiltered(s: Store, who: Identity)
    ensures ListContractsOp(s, Some(who), None, None) == Listed(s.contracts)
  {
    var rows := ListContractsOp(s, Some(who), None, None).rows;
    assert forall id :: id in s.contracts ==> SignedFilter(None, s.contracts[id]) && PaidFilter(None, s.contracts[id]);
    assert rows.Keys == s.contracts.Keys;
  }

  /** Which contracts `list_contracts` returns: `filter_signed` keeps those
      whose status is the text of the flag, `filter_paid = True` those with
      nothing left to pay and `False` those with something left; a contract
      meeting every filter given is always listed. */
  lemma ListContractsFilters(s: Store, who: Identity, filterSigned: Option<bool>, filterPaid: Option<bool>, id: int)
    ensures var rows := ListContractsOp(s, Some(who), filterSigned, filterPaid).rows;
      id in rows <==>
        && id in s.contracts
        && (filterSigned == Some(true) ==> s.contracts[id].status == "true")
        && (filterSigned == Some(false) ==> s.contracts[id].status == "false")
        && (filterPaid == Some(true) ==> s.contracts[id].remainingAmount == 0.0)
        && (filterPaid == Some(false) ==> s.contracts[id].remainingAmount > 0.0)
  {
  }

  /** Without filters, `list_events` returns the whole table. */
  lemma ListEventsUnfiltered(s: Store, who: Identity)
    ensures ListEventsOp(s, Some(who), false, false) == Listed(s.events)
  {
  }

  /** Which events `list_events` returns: `filter_no_support` keeps those
      without a support contact, `filter_my_events` those assigned to the
      caller; an event meeting every filter given is always listed. */
  lemma ListEventsFilters(s: Store, who: Identity, filterNoSupport: bool, filterMyEvents: bool, id: int)
    ensures var rows := ListEventsOp(s, Some(who), filterNoSupport, filterMyEvents).rows;
      id in rows <==>
        && id in s.events
        && (filterNoSupport ==> s.events[id].supportContactId.None?)
        && (filterMyEvents ==> s.events[id].supportContactId == Some(who.id))
  {
  }

  /** For support, "my events" lists exactly the events `update_event` lets
      them change. */
  lemma MyEventsAreUpdatable(s: Store, who: Identity, id: int)
    requires who.role == "support"
    ensures id in ListEventsOp(s, Some(who), false, true).rows <==> UpdateEventGate(Some(who), s.events, id) == Allow
  {
  }

  /** Listing by payment splits the contracts: the paid and the unpaid
      lists are disjoint, and together they hold every contract whose
      remaining amount is not negative. */
  lemma ListContractsPaidSplit(s: Store, who: Identity, filterSigned: Option<bool>)
    ensures var paid := ListContractsOp(s, Some(who), filterSigned, Some(true)).rows;
      var unpaid := ListContractsOp(s, Some(who), filterSigned, Some(false)).rows;
      var all := ListContractsOp(s, Some(who), filterSigned, None).rows;
      && paid.Keys !! unpaid.Keys
      && (forall id :: id in all && all[id].remainingAmount >= 0.0 ==> id in paid || id in unpaid)
  {
    var paid := ListContractsOp(s, Some(who), filterSigned, Some(true)).rows;
    var unpaid := ListContractsOp(s, Some(who), filterSigned, Some(false)).rows;
    var all := ListContractsOp(s, Some(who), filterSigned, None).rows;
    forall id | id in all && all[id].remainingAmount >= 0.0
      ensures id in paid || id in unpaid
    {
      assert SignedFilter(filterSigned, s.contracts[id]);
    }
    forall id | id in paid
      ensures id !in unpaid
    {
      assert s.contracts[id].remainingAmount == 0.0;
    }
  }
}
