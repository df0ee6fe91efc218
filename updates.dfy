/** The keyword arguments of the `update_*` methods and what their
    `setattr` loops do to a record. Keyword arguments arrive in call order;
    a value the caller leaves out is `None`. The four loops differ in which
    values they skip: `update_user` and `update_client` skip every falsy
    value (`None` and `""`), `update_contract` and `update_event` skip only
    `None`. */
module Updates {
  import opened Wrappers
  import opened PyStr
  import opened Models

  // ---------------------------------------------------------------------------
  // The reference: the last value given for a field
  // ---------------------------------------------------------------------------

  /** The last `Some` among `f(xs[0]), ..., f(xs[|xs| - 1])`. */
  function LastSome<A, T>(xs: seq<A>, f: A -> Option<T>): (r: Option<T>)
    ensures r.None? <==> forall i :: 0 <= i < |xs| ==> f(xs[i]).None?
    ensures r.Some? ==> exists i :: 0 <= i < |xs| && f(xs[i]) == r && forall j :: i < j < |xs| ==> f(xs[j]).None?
  {
    if xs == [] then None
    else if f(xs[|xs| - 1]).Some? then f(xs[|xs| - 1])
    else LastSome(xs[..|xs| - 1], f)
  }

  /** Python truthiness of an optional string. */
  predicate Truthy(v: Option<string>) {
    v.Some? && v.value != ""
  }

  // ---------------------------------------------------------------------------
  // update_user
  // ---------------------------------------------------------------------------

  datatype UserKey = UsernameKey | UserEmailKey | PasswordKey | RoleKey
  datatype UserArg = UserArg(key: UserKey, value: Option<string>)

  /** The value `update_user` writes for `k`: the last truthy one. */
  function UserValue(args: seq<UserArg>, k: UserKey): Option<string> {
    LastSome(args, (a: UserArg) => if a.key == k && Truthy(a.value) then a.value else None)
  }

  /** One turn of the loop: falsy values are skipped, a password is hashed,
      a role goes through `UserRole` (`None` is its `ValueError`). */
  function UserStep(u: User, a: UserArg, hash: string -> string): Option<User> {
    if !Truthy(a.value) then Some(u)
    else
      match a.key
      case UsernameKey => Some(u.(username := a.value.value))
      case UserEmailKey => Some(u.(email := a.value.value))
      case PasswordKey => Some(u.(passwordHash := hash(a.value.value)))
      case RoleKey =>
        match ParseRole(a.value.value)
        case None => None
        case Some(r) => Some(u.(role := r))
  }

  /** The whole loop, one argument after the other. */
  function ApplyUserArgs(u: User, args: seq<UserArg>, hash: string -> string): Option<User> {
    if args == [] then Some(u)
    else
      match ApplyUserArgs(u, args[..|args| - 1], hash)
      case None => None
      case Some(v) => UserStep(v, args[|args| - 1], hash)
  }

  /** Some truthy role value is not a member of `UserRole`. */
  predicate HasBadRole(args: seq<UserArg>) {
    exists i :: 0 <= i < |args| && args[i].key == RoleKey && Truthy(args[i].value)
      && ParseRole(args[i].value.value).None?
  }

  /** What `update_user` leaves in the record: each field holds the last
      truthy value given for it, the password as its hash, and keeps its old
      value when none was given. */
  function UpdatedUser(u: User, args: seq<UserArg>, hash: string -> string): User {
    var name := UserValue(args, UsernameKey);
    var email := UserValue(args, UserEmailKey);
    var password := UserValue(args, PasswordKey);
    var role := UserValue(args, RoleKey);
    User(name.GetOr(u.username), email.GetOr(u.email),
         if password.Some? then hash(password.value) else u.passwordHash,
         if role.Some? then ParseRole(role.value).GetOr(u.role) else u.role)
  }

  /** The loop raises exactly when a role value is unknown; otherwise it
      leaves the record `UpdatedUser` describes. */
  lemma {:induction false} UserArgsEffect(u: User, args: seq<UserArg>, hash: string -> string)
    ensures ApplyUserArgs(u, args, hash).None? <==> HasBadRole(args)
    ensures !HasBadRole(args) ==> ApplyUserArgs(u, args, hash) == Some(UpdatedUser(u, args, hash))
  {
    if args != [] {
      var init, a := args[..|args| - 1], args[|args| - 1];
      UserArgsEffect(u, init, hash);
      BadRoleSnoc(args);
      forall k
        ensures UserValue(args, k) == if a.key == k && Truthy(a.value) then a.value else UserValue(init, k)
      {
      }
    }
  }

  lemma BadRoleSnoc(args: seq<UserArg>)
    requires args != []
    ensures var init, a := args[..|args| - 1], args[|args| - 1];
      HasBadRole(args) <==> HasBadRole(init) || (a.key == RoleKey && Truthy(a.value) && ParseRole(a.value.value).None?)
  {
    var init := args[..|args| - 1];
    if HasBadRole(init) {
      var i :| 0 <= i < |init| && init[i].key == RoleKey && Truthy(init[i].value) && ParseRole(init[i].value.value).None?;
      assert args[i] == init[i];
    }
    if HasBadRole(args) {
      var i :| 0 <= i < |args| && args[i].key == RoleKey && Truthy(args[i].value) && ParseRole(args[i].value.value).None?;
      if i < |init| { assert init[i] == args[i]; }
    }
  }

  /** One unknown role value anywhere makes the loop raise. */
  lemma BadRoleRaises(u: User, args: seq<UserArg>, hash: string -> string, i: nat)
    requires i < |args| && args[i].key == RoleKey && Truthy(args[i].value)
    requires ParseRole(args[i].value.value).None?
    ensures ApplyUserArgs(u, args, hash) == None
  {
    UserArgsEffect(u, args, hash);
  }

  /** Falsy values change nothing: `update_user` with every value `None` or
      `""` gives the record back. */
  lemma FalsyUserArgsChangeNothing(u: User, args: seq<UserArg>, hash: string -> string)
    requires forall i :: 0 <= i < |args| ==> !Truthy(args[i].value)
    ensures ApplyUserArgs(u, args, hash) == Some(u)
  {
    UserArgsEffect(u, args, hash);
    assert !HasBadRole(args);
  }

  /** A new password is stored as its hash, not as given. */
  lemma PasswordStoredHashed(u: User, args: seq<UserArg>, hash: string -> string, p: string)
    requires UserValue(args, PasswordKey) == Some(p) && !HasBadRole(args)
    ensures ApplyUserArgs(u, args, hash).Some?
    ensures ApplyUserArgs(u, args, hash).value.passwordHash == hash(p)
  {
    UserArgsEffect(u, args, hash);
  }

  // ---------------------------------------------------------------------------
  // update_client
  // ---------------------------------------------------------------------------

  datatype ClientKey = FullNameKey | ClientEmailKey | PhoneKey | CompanyNameKey
  datatype ClientArg = ClientArg(key: ClientKey, value: Option<string>)

  /** The value `update_client` writes for `k`: the last truthy one. */
  function ClientValue(args: seq<ClientArg>, k: ClientKey): Option<string> {
    LastSome(args, (a: ClientArg) => if a.key == k && Truthy(a.value) then a.value else None)
  }

  /** One turn of the loop: falsy values are skipped. */
  function ClientStep(c: Client, a: ClientArg): Client {
    if !Truthy(a.value) then c
    else
      match a.key
      case FullNameKey => c.(fullName := a.value.value)
      case ClientEmailKey => c.(email := a.value.value)
      case PhoneKey => c.(phone := a.value)
      case CompanyNameKey => c.(companyName := a.value)
  }

  function ApplyClientArgs(c: Client, args: seq<ClientArg>): Client {
    if args == [] then c else ClientStep(ApplyClientArgs(c, args[..|args| - 1]), args[|args| - 1])
  }

  /** The four fields take their last truthy value, or keep their own; the
      dates and the commercial contact are not arguments and stay. */
  lemma {:induction false} ClientArgsEffect(c: Client, args: seq<ClientArg>)
    ensures ApplyClientArgs(c, args) == c.(
      fullName := ClientValue(args, FullNameKey).GetOr(c.fullName),
      email := ClientValue(args, ClientEmailKey).GetOr(c.email),
      phone := if ClientValue(args, PhoneKey).Some? then ClientValue(args, PhoneKey) else c.phone,
      companyName := if ClientValue(args, CompanyNameKey).Some? then ClientValue(args, CompanyNameKey) else c.companyName)
  {
    if args != [] {
      var init, a := args[..|args| - 1], args[|args| - 1];
      ClientArgsEffect(c, init);
      forall k
        ensures ClientValue(args, k) == if a.key == k && Truthy(a.value) then a.value else ClientValue(init, k)
      {
      }
      match a.key
      case FullNameKey =>
      case ClientEmailKey =>
      case PhoneKey =>
      case CompanyNameKey =>
    }
  }

  // ---------------------------------------------------------------------------
  // update_contract
  // ---------------------------------------------------------------------------

  /** What a `status` argument may be: text, or the flag the command line
      passes (`True`). */
  datatype StatusValue = StatusText(text: string) | StatusFlag(flag: bool)

  /** `str(value).lower()`. */
  function StatusString(v: StatusValue): (s: string)
    ensures v.StatusFlag? ==> (s == "true" <==> v.flag)
  {
    match v
    case StatusText(t) => Lower(t)
    case StatusFlag(b) => if b then "true" else "false"
  }

  datatype ContractArg =
    | TotalAmountArg(amount: Option<real>)
    | RemainingAmountArg(amount: Option<real>)
    | StatusArg(status: Option<StatusValue>)

  function TotalAmountGiven(a: ContractArg): Option<real> {
    if a.TotalAmountArg? then a.amount else None
  }

  function RemainingAmountGiven(a: ContractArg): Option<real> {
    if a.RemainingAmountArg? then a.amount else None
  }

  /** The status a `status` argument writes, already lower-cased. */
  function StatusGiven(a: ContractArg): Option<string> {
    if a.StatusArg? && a.status.Some? then Some(StatusString(a.status.value)) else None
  }

  /** One turn of the loop: `None` is skipped; a status is lower-cased, and
      raises the "just signed" flag when it is `"true"` and the status it
      replaces is not. */
  function ContractStep(c: Contract, signed: bool, a: ContractArg): (Contract, bool) {
    match a
    case TotalAmountArg(v) => (if v.Some? then c.(totalAmount := v.value) else c, signed)
    case RemainingAmountArg(v) => (if v.Some? then c.(remainingAmount := v.value) else c, signed)
    case StatusArg(v) =>
      if v.None? then (c, signed)
      else
        var s := StatusString(v.value);
        (c.(status := s), signed || (s == "true" && c.status != "true"))
  }

  function ApplyContractArgs(c: Contract, args: seq<ContractArg>): (Contract, bool) {
    if args == [] then (c, false)
    else
      var prev := ApplyContractArgs(c, args[..|args| - 1]);
      ContractStep(prev.0, prev.1, args[|args| - 1])
  }

  /** The keys of a keyword dictionary are distinct: at most one argument of
      each kind. */
  predicate DistinctContractKeys(args: seq<ContractArg>) {
    forall i, j :: 0 <= i < j < |args| ==>
      !(args[i].TotalAmountArg? && args[j].TotalAmountArg?)
      && !(args[i].RemainingAmountArg? && args[j].RemainingAmountArg?)
      && !(args[i].StatusArg? && args[j].StatusArg?)
  }

  /** Each field takes the last value given for it. */
  lemma {:induction false} ContractArgsFields(c: Contract, args: seq<ContractArg>)
    ensures ApplyContractArgs(c, args).0 == c.(
      totalAmount := LastSome(args, TotalAmountGiven).GetOr(c.totalAmount),
      remainingAmount := LastSome(args, RemainingAmountGiven).GetOr(c.remainingAmount),
      status := LastSome(args, StatusGiven).GetOr(c.status))
  {
    if args != [] {
      var init, a := args[..|args| - 1], args[|args| - 1];
      ContractArgsFields(c, init);
      assert LastSome(args, TotalAmountGiven) ==
        if TotalAmountGiven(a).Some? then TotalAmountGiven(a) else LastSome(init, TotalAmountGiven);
      assert LastSome(args, RemainingAmountGiven) ==
        if RemainingAmountGiven(a).Some? then RemainingAmountGiven(a) else LastSome(init, RemainingAmountGiven);
      assert LastSome(args, StatusGiven) ==
        if StatusGiven(a).Some? then StatusGiven(a) else LastSome(init, StatusGiven);
      match a {
        case TotalAmountArg(_) =>
        case RemainingAmountArg(_) =>
        case StatusArg(_) =>
      }
    }
  }

  /** For a keyword dictionary, the contract is reported as just signed
      exactly when the new status is `"true"` and the old one was not. */
  lemma {:induction false} ContractSignedFlag(c: Contract, args: seq<ContractArg>)
    requires DistinctContractKeys(args)
    ensures ApplyContractArgs(c, args).1 <==> LastSome(args, StatusGiven) == Some("true") && c.status != "true"
  {
    if args != [] {
      var init := args[..|args| - 1];
      var a := args[|args| - 1];
      assert DistinctContractKeys(init);
      ContractSignedFlag(c, init);
      ContractArgsFields(c, init);
      if a.StatusArg? {
        forall i | 0 <= i < |init|
          ensures StatusGiven(init[i]).None?
        {
          assert init[i] == args[i];
        }
      }
    }
  }

  // ---------------------------------------------------------------------------
  // update_event
  // ---------------------------------------------------------------------------

  datatype EventArg =
    | SupportContactArg(contact: Option<int>)
    | LocationArg(location: Option<string>)
    | AttendeesArg(attendees: Option<int>)
    | NotesArg(notes: Option<string>)

  function SupportGiven(a: EventArg): Option<int> { if a.SupportContactArg? then a.contact else None }
  function LocationGiven(a: EventArg): Option<string> { if a.LocationArg? then a.location else None }
  function AttendeesGiven(a: EventArg): Option<int> { if a.AttendeesArg? then a.attendees else None }
  function NotesGiven(a: EventArg): Option<string> { if a.NotesArg? then a.notes else None }

  /** One turn of the loop: only `None` is skipped. */
  function EventStep(e: Event, a: EventArg): Event {
    match a
    case SupportContactArg(v) => if v.Some? then e.(supportContactId := v) else e
    case LocationArg(v) => if v.Some? then e.(location := v) else e
    case AttendeesArg(v) => if v.Some? then e.(attendees := v) else e
    case NotesArg(v) => if v.Some? then e.(notes := v) else e
  }

  function ApplyEventArgs(e: Event, args: seq<EventArg>): Event {
    if args == [] then e else EventStep(ApplyEventArgs(e, args[..|args| - 1]), args[|args| - 1])
  }

  /** Each field takes the last value given for it; dates and the contract
      are not arguments and stay. */
  lemma {:induction false} EventArgsEffect(e: Event, args: seq<EventArg>)
    ensures ApplyEventArgs(e, args) == e.(
      supportContactId := if LastSome(args, SupportGiven).Some? then LastSome(args, SupportGiven) else e.supportContactId,
      location := if LastSome(args, LocationGiven).Some? then LastSome(args, LocationGiven) else e.location,
      attendees := if LastSome(args, AttendeesGiven).Some? then LastSome(args, AttendeesGiven) else e.attendees,
      notes := if LastSome(args, NotesGiven).Some? then LastSome(args, NotesGiven) else e.notes)
  {
    if args != [] {
      EventArgsEffect(e, args[..|args| - 1]);
    }
  }

  /** Unlike `update_user`, `update_event` writes falsy values: zero
      attendees and an empty location are stored. */
  lemma EventWritesFalsyValues(e: Event)
    ensures ApplyEventArgs(e, [AttendeesArg(Some(0))]).attendees == Some(0)
    ensures ApplyEventArgs(e, [LocationArg(Some(""))]).location == Some("")
  {
    assert [AttendeesArg(Some(0))][..0] == [];
    assert [LocationArg(Some(""))][..0] == [];
  }

  /** ... whereas `update_user` skips an empty value. */
  lemma UserSkipsEmptyValue(u: User, hash: string -> string)
    ensures ApplyUserArgs(u, [UserArg(UsernameKey, Some(""))], hash) == Some(u)
  {
    assert [UserArg(UsernameKey, Some(""))][..0] == [];
  }
}
