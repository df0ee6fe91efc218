/** Who may do what: the ordered checks each controller operation runs
    before it touches the database, and the permission matrix they amount
    to. The caller is the identity of the session token, `None` when nobody
    is logged in. */
module Permissions {
  import opened Wrappers
  import opened Models

  /** The verdict of an operation's checks: go ahead, refuse with a message,
      or fail with an exception (reading `contract.client` when the contract
      has no client raises `AttributeError`). */
  datatype Gate = Allow | Deny(message: string) | Fault(exception: string)

  const AttributeError: string := "AttributeError"

  const LoginRequired: string := "Vous devez être connecté."
  const LoginNeeded: string := "Connexion requise."
  const ManagementOnly: string := "Accès refusé. Réservé à l'équipe GESTION."
  const UserNotFound: string := "Utilisateur non trouvé."
  const CommercialCreatesClients: string := "Seuls les COMMERCIAUX peuvent créer des clients."
  const CommercialUpdatesClients: string := "Seuls les COMMERCIAUX peuvent modifier des clients."
  const ClientNotFound: string := "Client non trouvé."
  const NotYourClient: string := "Vous ne pouvez modifier que VOS propres clients."
  const ManagementCreatesContracts: string := "Seule l'équipe GESTION peut créer des contrats."
  const ClientMissing: string := "Client introuvable."
  const ContractMissing: string := "Contrat introuvable."
  const ContractRightRefused: string :=
    "Droit refusé. Vous n'êtes ni Gestionnaire, ni le Commercial responsable."
  const CommercialCreatesEvents: string := "Seule l'équipe COMMERCIAL peut créer des événements."
  const ContractNotSigned: string := "Impossible de créer un événement pour un contrat NON SIGNÉ."
  const NotYourEventClient: string := "Vous ne pouvez créer des événements que pour vos propres clients."
  const EventMissing: string := "Événement introuvable."
  const NotYourEvent: string := "Vous ne pouvez modifier que les événements qui vous sont assignés."
  const RoleCannotUpdateEvents: string := "Votre rôle ne vous permet pas de modifier les événements."

  /** The `username` already in use. */
  function UserExists(username: string): string {
    "L'utilisateur '" + username + "' existe déjà."
  }

  // ---------------------------------------------------------------------------
  // The permission matrix
  // ---------------------------------------------------------------------------

  datatype Action =
    | CreateUser | UpdateUser | DeleteUser | ListUsers
    | CreateClient | UpdateClient | ListClients
    | CreateContract | UpdateContract | ListContracts
    | CreateEvent | UpdateEvent | ListEvents

  /** How far a role's right to an action reaches. */
  datatype Reach = Nothing | Own | Everything

  /** The matrix of the three departments: management runs the staff and the
      contracts and may touch any event; a commercial creates clients and acts
      on their own clients, their contracts and their events; support acts on
      the events assigned to them; any logged-in user may list. A role outside
      the three departments may only list. */
  function Grant(role: string, a: Action): Reach {
    if a in {ListUsers, ListClients, ListContracts, ListEvents} then Everything
    else if role == "management" then
      (if a in {CreateUser, UpdateUser, DeleteUser, CreateContract, UpdateContract, UpdateEvent}
       then Everything else Nothing)
    else if role == "commercial" then
      (if a == CreateClient then Everything
       else if a in {UpdateClient, UpdateContract, CreateEvent} then Own else Nothing)
    else if role == "support" then
      (if a == UpdateEvent then Own else Nothing)
    else Nothing
  }

  /** The matrix allows `who` the action on a record it `owns` or not. */
  predicate Permitted(who: Identity, a: Action, owns: bool) {
    Grant(who.role, a) == Everything || (Grant(who.role, a) == Own && owns)
  }

  /** The client record is in the caller's portfolio. */
  predicate OwnsClient(who: Identity, c: Client) {
    c.commercialContactId == Some(who.id)
  }

  /** The contract's client exists and is in the caller's portfolio. */
  predicate OwnsContract(who: Identity, clients: map<int, Client>, c: Contract) {
    c.clientId.Some? && c.clientId.value in clients && OwnsClient(who, clients[c.clientId.value])
  }

  /** The event is assigned to the caller. */
  predicate AssignedTo(who: Identity, e: Event) {
    e.supportContactId == Some(who.id)
  }

  // ---------------------------------------------------------------------------
  // The checks, in the order each operation runs them
  // ---------------------------------------------------------------------------

  /** `UserController._check_permission`. */
  function CheckManagement(who: Option<Identity>): (g: Gate)
    ensures g == Allow <==> who.Some? && Permitted(who.value, CreateUser, false)
    ensures g != Allow ==> g.Deny?
  {
    if who.None? then Deny(LoginRequired)
    else if who.value.role != "management" then Deny(ManagementOnly)
    else Allow
  }

  /** The checks of `create_user`: permission, then a free username. */
  function CreateUserGate(who: Option<Identity>, users: map<int, User>, username: string): (g: Gate)
    ensures g == Allow <==>
      who.Some? && Permitted(who.value, CreateUser, false)
      && !exists id :: id in users && users[id].username == username
    ensures !g.Fault?
  {
    var p := CheckManagement(who);
    if p != Allow then p
    else if exists id :: id in users && users[id].username == username then Deny(UserExists(username))
    else Allow
  }

  /** The checks of `update_user` and `delete_user`: permission, then the user. */
  function UserRecordGate(who: Option<Identity>, users: map<int, User>, userId: int): (g: Gate)
    ensures g == Allow <==> who.Some? && Permitted(who.value, UpdateUser, false) && userId in users
    ensures g == Allow <==> who.Some? && Permitted(who.value, DeleteUser, false) && userId in users
    ensures !g.Fault?
  {
    var p := CheckManagement(who);
    if p != Allow then p
    else if userId !in users then Deny(UserNotFound)
    else Allow
  }

  /** The check of every `list_*` method: a caller is logged in. */
  function ListGate(who: Option<Identity>): (g: Gate)
    ensures g == Allow <==> who.Some? && Permitted(who.value, ListUsers, false)
    ensures g == Allow <==> who.Some? && Permitted(who.value, ListEvents, false)
    ensures g != Allow ==> g == Deny(LoginRequired)
  {
    if who.None? then Deny(LoginRequired) else Allow
  }

  /** The check of `create_client`. */
  function CreateClientGate(who: Option<Identity>): (g: Gate)
    ensures g == Allow <==> who.Some? && Permitted(who.value, CreateClient, false)
    ensures g != Allow ==> g == Deny(CommercialCreatesClients)
  {
    if who.None? || who.value.role != "commercial" then Deny(CommercialCreatesClients) else Allow
  }

  /** The checks of `update_client`: role, then the client, then ownership. */
  function UpdateClientGate(who: Option<Identity>, clients: map<int, Client>, clientId: int): (g: Gate)
    ensures g == Allow <==>
      who.Some? && clientId in clients && Permitted(who.value, UpdateClient, OwnsClient(who.value, clients[clientId]))
    ensures !g.Fault?
  {
    if who.None? || who.value.role != "commercial" then Deny(CommercialUpdatesClients)
    else if clientId !in clients then Deny(ClientNotFound)
    else if clients[clientId].commercialContactId != Some(who.value.id) then Deny(NotYourClient)
    else Allow
  }

  /** The checks of `create_contract`: role, then the client. */
  function CreateContractGate(who: Option<Identity>, clients: map<int, Client>, clientId: int): (g: Gate)
    ensures g == Allow <==> who.Some? && Permitted(who.value, CreateContract, false) && clientId in clients
    ensures !g.Fault?
  {
    if who.None? || who.value.role != "management" then Deny(ManagementCreatesContracts)
    else if clientId !in clients then Deny(ClientMissing)
    else Allow
  }

  /** The checks of `update_contract`: login, then the contract, then the
      role; a commercial's ownership is read through `contract.client`, which
      fails when the contract has no client. */
  function UpdateContractGate(who: Option<Identity>, clients: map<int, Client>,
                              contracts: map<int, Contract>, contractId: int): (g: Gate)
    ensures g == Allow <==>
      who.Some? && contractId in contracts
      && Permitted(who.value, UpdateContract, OwnsContract(who.value, clients, contracts[contractId]))
    ensures g.Fault? <==>
      who.Some? && who.value.role == "commercial" && contractId in contracts
      && !(contracts[contractId].clientId.Some? && contracts[contractId].clientId.value in clients)
  {
    if who.None? then Deny(LoginNeeded)
    else if contractId !in contracts then Deny(ContractMissing)
    else
      var c := contracts[contractId];
      var isManagement := who.value.role == "management";
      var isCommercial := who.value.role == "commercial";
      if isCommercial && !(c.clientId.Some? && c.clientId.value in clients) then Fault(AttributeError)
      else
        var isOwner := isCommercial && clients[c.clientId.value].commercialContactId == Some(who.value.id);
        if !(isManagement || isOwner) then Deny(ContractRightRefused)
        else Allow
  }

  /** The checks of `create_event`: role, then the contract, then its
      signature, then ownership of its client. */
  function CreateEventGate(who: Option<Identity>, clients: map<int, Client>,
                           contracts: map<int, Contract>, contractId: int): (g: Gate)
    ensures g == Allow <==>
      who.Some? && contractId in contracts && contracts[contractId].status == "true"
      && Permitted(who.value, CreateEvent, OwnsContract(who.value, clients, contracts[contractId]))
    ensures g.Fault? <==>
      who.Some? && who.value.role == "commercial" && contractId in contracts
      && contracts[contractId].status == "true"
      && !(contracts[contractId].clientId.Some? && contracts[contractId].clientId.value in clients)
  {
    if who.None? || who.value.role != "commercial" then Deny(CommercialCreatesEvents)
    else if contractId !in contracts then Deny(ContractMissing)
    else if contracts[contractId].status != "true" then Deny(ContractNotSigned)
    else
      var c := contracts[contractId];
      if !(c.clientId.Some? && c.clientId.value in clients) then Fault(AttributeError)
      else if clients[c.clientId.value].commercialContactId != Some(who.value.id) then Deny(NotYourEventClient)
      else Allow
  }

  /** The checks of `update_event`: login, then the event, then the role;
      support must be assigned to the event. */
  function UpdateEventGate(who: Option<Identity>, events: map<int, Event>, eventId: int): (g: Gate)
    ensures g == Allow <==>
      who.Some? && eventId in events && Permitted(who.value, UpdateEvent, AssignedTo(who.value, events[eventId]))
    ensures !g.Fault?
  {
    if who.None? then Deny(LoginNeeded)
    else if eventId !in events then Deny(EventMissing)
    else if who.value.role == "management" then Allow
    else if who.value.role == "support" then
      (if events[eventId].supportContactId != Some(who.value.id) then Deny(NotYourEvent) else Allow)
    else Deny(RoleCannotUpdateEvents)
  }

  // ---------------------------------------------------------------------------
  // The order of the checks
  // ---------------------------------------------------------------------------

  /** The user controller checks the caller before it looks anything up: a
      refused caller gets the same answer whatever the users table holds. */
  lemma UserPermissionBeforeLookup(who: Option<Identity>, users: map<int, User>, username: string, userId: int)
    requires CheckManagement(who) != Allow
    ensures CreateUserGate(who, users, username) == CheckManagement(who)
    ensures UserRecordGate(who, users, userId) == CheckManagement(who)
    ensures CheckManagement(who) == Deny(LoginRequired) || CheckManagement(who) == Deny(ManagementOnly)
  {
  }

  /** A signed contract is required before ownership is looked at: the
      owner of an unsigned contract is refused with the "not signed" message. */
  lemma UnsignedContractRefusedToOwner(who: Identity, clients: map<int, Client>,
                                        contracts: map<int, Contract>, contractId: int)
    requires who.role == "commercial" && contractId in contracts
    requires OwnsContract(who, clients, contracts[contractId])
    requires contracts[contractId].status != "true"
    ensures CreateEventGate(Some(who), clients, contracts, contractId) == Deny(ContractNotSigned)
  {
  }

  /** `update_contract` looks the contract up before it checks the role:
      any logged-in caller, support included, learns that an id is unused. */
  lemma UpdateContractLookupBeforeRole(who: Identity, clients: map<int, Client>,
                                       contracts: map<int, Contract>, contractId: int)
    requires contractId !in contracts
    ensures UpdateContractGate(Some(who), clients, contracts, contractId) == Deny(ContractMissing)
  {
  }

  /** Support is never allowed to change a contract, and a commercial only
      one of their own clients' contracts. */
  lemma UpdateContractByRole(who: Identity, clients: map<int, Client>,
                             contracts: map<int, Contract>, contractId: int)
    requires contractId in contracts
    ensures who.role == "support" ==>
      UpdateContractGate(Some(who), clients, contracts, contractId) == Deny(ContractRightRefused)
    ensures who.role == "management" ==>
      UpdateContractGate(Some(who), clients, contracts, contractId) == Allow
    ensures who.role == "commercial" && !OwnsContract(who, clients, contracts[contractId]) ==>
      UpdateContractGate(Some(who), clients, contracts, contractId) != Allow
  {
  }

    /** `update_client` checks the role first, then looks the client up, then
      checks its owner: each failed check has its own refusal. */
  lemma UpdateClientCheckOrder(who: Option<Identity>, clients: map<int, Client>, clientId: int)
    ensures who.None? || who.value.role != "commercial" ==>
      UpdateClientGate(who, clients, clientId) == Deny(CommercialUpdatesClients)
    ensures who.Some? && who.value.role == "commercial" && clientId !in clients ==>
      UpdateClientGate(who, clients, clientId) == Deny(ClientNotFound)
    ensures who.Some? && who.value.role == "commercial" && clientId in clients
            && !OwnsClient(who.value, clients[clientId]) ==>
      UpdateClientGate(who, clients, clientId) == Deny(NotYourClient)
  {
  }

  /** `create_contract` checks the role before it looks the client up. */
  lemma CreateContractCheckOrder(who: Option<Identity>, clients: map<int, Client>, clientId: int)
    ensures who.None? || who.value.role != "management" ==>
      CreateContractGate(who, clients, clientId) == Deny(ManagementCreatesContracts)
    ensures who.Some? && who.value.role == "management" && clientId !in clients ==>
      CreateContractGate(who, clients, clientId) == Deny(ClientMissing)
  {
  }

  /** `update_event` checks the login, then looks the event up, then the role:
      support is refused on events not assigned to them, other roles but
      management on every event. */
  lemma UpdateEventCheckOrder(who: Option<Identity>, events: map<int, Event>, eventId: int)
    ensures who.None? ==> UpdateEventGate(who, events, eventId) == Deny(LoginNeeded)
    ensures who.Some? && eventId !in events ==> UpdateEventGate(who, events, eventId) == Deny(EventMissing)
    ensures who.Some? && who.value.role == "support" && eventId in events
            && !AssignedTo(who.value, events[eventId]) ==>
      UpdateEventGate(who, events, eventId) == Deny(NotYourEvent)
    ensures who.Some? && who.value.role != "management" && who.value.role != "support" && eventId in events ==>
      UpdateEventGate(who, events, eventId) == Deny(RoleCannotUpdateEvents)
  {
  }

/** The matrix grants nothing outside the three departments except lists. */
  lemma UnknownRoleOnlyLists(who: Identity, a: Action, owns: bool)
    requires who.role !in {"management", "commercial", "support"}
    requires Permitted(who, a, owns)
    ensures a in {ListUsers, ListClients, ListContracts, ListEvents}
  {
  }
}
