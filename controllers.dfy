/** The four controllers. Each method runs its checks, updates the records
    in place and commits, and is proved to do exactly what the matching
    function of `Operations` describes: same reply, same content afterwards,
    same monitoring messages. The caller's identity, the clock and the
    password hash are inputs. */
module Controllers {
  import opened Wrappers
  import opened Models
  import opened Permissions
  import opened Updates
  import opened Operations

  class UserController {
    const db: Database
    const monitor: Monitor
    /** `hash_password`: argon2 with a random salt, an input here. */
    const hash: string -> string

    constructor (db: Database, monitor: Monitor, hash: string -> string)
      ensures this.db == db && this.monitor == monitor && this.hash == hash
    {
      this.db := db;
      this.monitor := monitor;
      this.hash := hash;
    }

    method CreateUser(who: Option<Identity>, username: string, email: string, password: string, role: string)
      returns (r: Reply)
      requires db.Valid()
      modifies db, monitor
      ensures db.Valid()
      ensures var e := CreateUserOp(old(db.Content()), who, username, email, password, role, hash);
        db.Content() == e.store && r == e.reply && monitor.log == old(monitor.log) + e.notes
    {
      var g := CreateUserGate(who, db.users, username);
      if g != Allow {
        return Stop(db.Content(), g).reply;
      }
      var passwordHash := hash(password);
      var parsed := ParseRole(role);
      if parsed.None? {
        return Raised(ValueError);
      }
      if Clashes(db.users, None, username, email) {
        return Raised(IntegrityError);
      }
      var id := db.nextUserId;
      db.users := db.users[id := User(username, email, passwordHash, parsed.value)];
      db.nextUserId := id + 1;
      monitor.log := monitor.log + [UserCreatedNote(username, role)];
      r := Done(id, UserCreated);
    }

    method UpdateUser(who: Option<Identity>, userId: int, args: seq<UserArg>) returns (r: Reply)
      requires db.Valid()
      modifies db, monitor
      ensures db.Valid()
      ensures var e := UpdateUserOp(old(db.Content()), who, userId, args, hash);
        db.Content() == e.store && r == e.reply && monitor.log == old(monitor.log) + e.notes
    {
      var g := UserRecordGate(who, db.users, userId);
      if g != Allow {
        return Stop(db.Content(), g).reply;
      }
      var u := db.users[userId];
      ghost var u0 := u;
      var i := 0;
      while i < |args|
        invariant 0 <= i <= |args|
        invariant ApplyUserArgs(u0, args[..i], hash) == Some(u)
      {
        var a := args[i];
        assert args[..i + 1][..i] == args[..i];
        if a.value.Some? && a.value.value != "" {
          match a.key
          case UsernameKey =>
            u := u.(username := a.value.value);
          case UserEmailKey =>
            u := u.(email := a.value.value);
          case PasswordKey =>
            u := u.(passwordHash := hash(a.value.value));
          case RoleKey =>
            var parsed := ParseRole(a.value.value);
            if parsed.None? {
              BadRoleRaises(u0, args, hash, i);
              return Raised(ValueError);
            }
            u := u.(role := parsed.value);
        }
        i := i + 1;
      }
      assert args[..|args|] == args;
      if Clashes(db.users, Some(userId), u.username, u.email) {
        return Raised(IntegrityError);
      }
      db.users := db.users[userId := u];
      monitor.log := monitor.log + [UserUpdatedNote(userId)];
      r := Done(userId, UserUpdated);
    }

    method DeleteUser(who: Option<Identity>, userId: int) returns (r: Reply)
      requires db.Valid()
      modifies db
      ensures db.Valid()
      ensures var e := DeleteUserOp(old(db.Content()), who, userId);
        db.Content() == e.store && r == e.reply
    {
      var g := UserRecordGate(who, db.users, userId);
      if g != Allow {
        return Stop(db.Content(), g).reply;
      }
      db.users := db.users - {userId};
      db.clients := UnassignClients(db.clients, userId);
      db.events := UnassignEvents(db.events, userId);
      r := Done(userId, UserDeleted);
    }
  }

  class ClientController {
    const db: Database

    constructor (db: Database)
      ensures this.db == db
    {
      this.db := db;
    }

    method CreateClient(who: Option<Identity>, fullName: string, email: string,
                        phone: Option<string>, companyName: Option<string>, now: int) returns (r: Reply)
      requires db.Valid()
      modifies db
      ensures db.Valid()
      ensures var e := CreateClientOp(old(db.Content()), who, fullName, email, phone, companyName, now);
        db.Content() == e.store && r == e.reply
    {
      var g := CreateClientGate(who);
      if g != Allow {
        return Stop(db.Content(), g).reply;
      }
      var id := db.nextClientId;
      db.clients := db.clients[id := Client(fullName, email, phone, companyName, now, now, Some(who.value.id))];
      db.nextClientId := id + 1;
      r := Done(id, ClientCreated);
    }

    method UpdateClient(who: Option<Identity>, clientId: int, args: seq<ClientArg>, now: int) returns (r: Reply)
      requires db.Valid()
      modifies db
      ensures db.Valid()
      ensures var e := UpdateClientOp(old(db.Content()), who, clientId, args, now);
        db.Content() == e.store && r == e.reply
    {
      var g := UpdateClientGate(who, db.clients, clientId);
      if g != Allow {
        return Stop(db.Content(), g).reply;
      }
      var c := db.clients[clientId];
      ghost var c0 := c;
      var i := 0;
      while i < |args|
        invariant 0 <= i <= |args|
        invariant ApplyClientArgs(c0, args[..i]) == c
      {
        var a := args[i];
        assert args[..i + 1][..i] == args[..i];
        if a.value.Some? && a.value.value != "" {
          match a.key
          case FullNameKey => c := c.(fullName := a.value.value);
          case ClientEmailKey => c := c.(email := a.value.value);
          case PhoneKey => c := c.(phone := a.value);
          case CompanyNameKey => c := c.(companyName := a.value);
        }
        i := i + 1;
      }
      assert args[..|args|] == args;
      c := c.(lastContactDate := now);
      db.clients := db.clients[clientId := c];
      r := Done(clientId, ClientUpdated);
    }
  }

  class ContractController {
    const db: Database
    const monitor: Monitor

    constructor (db: Database, monitor: Monitor)
      ensures this.db == db && this.monitor == monitor
    {
      this.db := db;
      this.monitor := monitor;
    }

    method CreateContract(who: Option<Identity>, clientId: int, totalAmount: real, remainingAmount: real, now: int)
      returns (r: Reply)
      requires db.Valid()
      modifies db
      ensures db.Valid()
      ensures var e := CreateContractOp(old(db.Content()), who, clientId, totalAmount, remainingAmount, now);
        db.Content() == e.store && r == e.reply
    {
      var g := CreateContractGate(who, db.clients, clientId);
      if g != Allow {
        return Stop(db.Content(), g).reply;
      }
      var id := db.nextContractId;
      db.contracts := db.contracts[id := Contract(totalAmount, remainingAmount, now, "false", Some(clientId))];
      db.nextContractId := id + 1;
      r := Done(id, ContractCreated);
    }

    method UpdateContract(who: Option<Identity>, contractId: int, args: seq<ContractArg>) returns (r: Reply)
      requires db.Valid()
      modifies db, monitor
      ensures db.Valid()
      ensures var e := UpdateContractOp(old(db.Content()), who, contractId, args);
        db.Content() == e.store && r == e.reply && monitor.log == old(monitor.log) + e.notes
    {
      var g := UpdateContractGate(who, db.clients, db.contracts, contractId);
      if g != Allow {
        return Stop(db.Content(), g).reply;
      }
      var c := db.contracts[contractId];
      ghost var c0 := c;
      var contractWasSigned := false;
      var i := 0;
      while i < |args|
        invariant 0 <= i <= |args|
        invariant ApplyContractArgs(c0, args[..i]) == (c, contractWasSigned)
      {
        assert args[..i + 1][..i] == args[..i];
        match args[i] {
          case TotalAmountArg(v) =>
            if v.Some? { c := c.(totalAmount := v.value); }
          case RemainingAmountArg(v) =>
            if v.Some? { c := c.(remainingAmount := v.value); }
          case StatusArg(v) =>
            if v.Some? {
              var value := StatusString(v.value);
              if value == "true" && c.status != "true" {
                contractWasSigned := true;
              }
              c := c.(status := value);
            }
        }
        i := i + 1;
      }
      assert args[..|args|] == args;
      db.contracts := db.contracts[contractId := c];
      if contractWasSigned {
        monitor.log := monitor.log + [ContractSignedNote(contractId)];
      }
      r := Done(contractId, ContractUpdated);
    }
  }

  class EventController {
    const db: Database

    constructor (db: Database)
      ensures this.db == db
    {
      this.db := db;
    }

    method CreateEvent(who: Option<Identity>, contractId: int, dateStart: Option<int>, dateEnd: Option<int>,
                       location: Option<string>, attendees: Option<int>, notes: Option<string>) returns (r: Reply)
      requires db.Valid()
      modifies db
      ensures db.Valid()
      ensures var e := CreateEventOp(old(db.Content()), who, contractId, dateStart, dateEnd, location, attendees, notes);
        db.Content() == e.store && r == e.reply
    {
      var g := CreateEventGate(who, db.clients, db.contracts, contractId);
      if g != Allow {
        return Stop(db.Content(), g).reply;
      }
      var id := db.nextEventId;
      db.events := db.events[id := Event(dateStart, dateEnd, location, attendees, notes, Some(contractId), None)];
      db.nextEventId := id + 1;
      r := Done(id, EventCreated);
    }

    method UpdateEvent(who: Option<Identity>, eventId: int, args: seq<EventArg>) returns (r: Reply)
      requires db.Valid()
      modifies db
      ensures db.Valid()
      ensures var e := UpdateEventOp(old(db.Content()), who, eventId, args);
        db.Content() == e.store && r == e.reply
    {
      var g := UpdateEventGate(who, db.events, eventId);
      if g != Allow {
        return Stop(db.Content(), g).reply;
      }
      var ev := db.events[eventId];
      ghost var e0 := ev;
      var i := 0;
      while i < |args|
        invariant 0 <= i <= |args|
        invariant ApplyEventArgs(e0, args[..i]) == ev
      {
        assert args[..i + 1][..i] == args[..i];
        match args[i] {
          case SupportContactArg(v) => if v.Some? { ev := ev.(supportContactId := v); }
          case LocationArg(v) => if v.Some? { ev := ev.(location := v); }
          case AttendeesArg(v) => if v.Some? { ev := ev.(attendees := v); }
          case NotesArg(v) => if v.Some? { ev := ev.(notes := v); }
        }
        i := i + 1;
      }
      assert args[..|args|] == args;
      db.events := db.events[eventId := ev];
      r := Done(eventId, EventUpdated);
    }
  }
}
