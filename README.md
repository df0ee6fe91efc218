# Epic Events CRM: input sanitiser and controller rules in Dafny

This project models two parts of the Epic Events CRM, a command-line tool for an
event company's staff:

- **The input sanitiser** (`InputSanitizer` and `sanitize_input`):
  - `sanitize_string`: strip, truncate to `max_length`, HTML-escape, drop control characters, then replace each entry of `DANGEROUS_CHARS` by `_`, case-insensitively and in list order;
  - `sanitize_sql_like`;
  - the validators for email, phone, username, password and integer, with their French messages;
  - the dispatch of `sanitize_input` on the field type.
- **The four controllers** (`UserController`, `ClientController`, `ContractController`, `EventController`). Each operation runs an ordered series of checks:
  - is someone logged in;
  - is their role allowed;
  - does the record exist;
  - does the caller own it (or, for an event, is the contract signed).

  It then updates the record in place through a `setattr` loop over its keyword arguments, commits, and may send a monitoring message.

Modules (one file each):

- `Wrappers`: `Option`.
- `PyStr`: Python's `strip`, ASCII `lower`, `str(int)` and `int(str)`.
- `Sanitizer`: the sanitiser.
- `Models`: records, the store, the `Database` and `Monitor` classes.
- `Permissions`:
  - the checks of each operation as functions returning `Allow`, `Deny(message)` or `Fault(exception)`;
  - the permission matrix `Grant`/`Permitted` they are proved against.
- `Updates`: what each `setattr` loop does to a record. Each loop is a fold (`Apply*Args`), proved equal to a reference: every field takes the last value given for it (`LastSome`).
- `Operations`: each controller operation as a function from the store before to the reply, the store after and the monitoring messages.
- `Controllers`: the four classes. Each method:
  - runs the checks;
  - loops over the keyword arguments with invariants tied to the fold;
  - assigns the database fields in place;
  - is proved to leave exactly the content, reply and log the matching `Operations` function describes.

`SanitizeString` and `SanitizeSqlLike` are methods that reassign the value step by step, as the source does. They are proved equal to the functions `Sanitized` and `LikeEscape`, about which the safety, length and round-trip lemmas are stated.

Points where the code differs from what its documentation suggests. The model follows the code:

- `validate_phone` strips the number before matching (sanitizer.py:98), so separators count toward the 8–20 characters and surrounding blanks do not. A non-empty all-blank number strips to `""` and is rejected; only the empty string is accepted as "no phone" (`BlankPhoneRejected`).
- The email is stripped and lower-cased before matching. The username pattern allows `-`. Passwords are capped at 128 characters.
- Truncation runs before escaping, so the output of `sanitize_string` can be longer than `max_length` (`EscapingCanExceedMaxLength`).
- Replacing `sp_` after `xp_` can leave a fresh `xp_` (`DenylistCanCreateXp`), so absence of `xp_` or `sp_` is not claimed.
- `update_contract` looks the contract up before checking the role. For a commercial caller it reads `contract.client`, which raises `AttributeError` when the contract has no client. That is modelled as `Fault`/`Raised`. `create_event` does the same after its signature check.
- `delete_user` relies on the relationships' default behaviour, which sets the deleted user's clients' `commercial_contact_id` and events' `support_contact_id` to null. It is modelled that way.

## Model

| member | source | states |
|---|---|---|
| PyStr.StripCharacterised | sanitizer.py:40 | `strip()` keeps the contiguous piece of the input between surrounding whitespace; everything cut is whitespace; the result neither starts nor ends with whitespace |
| PyStr.StripIdempotent | sanitizer.py:40 | stripping twice is stripping once |
| PyStr.ParseIntOfIntToString | sanitizer.py:205 | `int(str(n)) == n` for every integer, with no limit on the number of digits (see Left out) |
| Sanitizer.HtmlEscapeRoundTrip | sanitizer.py:47 | unescaping the five entities of `html.escape` gives back the text |
| Sanitizer.HtmlEscape | sanitizer.py:47 | the escaped text has no `<`, `>`, `"` or `'`, is at least as long, and equals the input when nothing is escapable |
| Sanitizer.DropControl | sanitizer.py:50 | the result keeps only characters of the input, none of them a control character other than LF, CR and tab |
| Sanitizer.SanitizeString | sanitizer.py:24-58 | the method returns exactly `Sanitized(value, max_length, allow_special)` (`""` for an empty value), and its output is `Safe` |
| Sanitizer.DenylistPass | sanitizer.py:53-56 | the guarded `re.sub` loop equals the fold `Neutralize` over the list |
| Sanitizer.ReplaceAbsentIsIdentity | sanitizer.py:54-56 | the `dangerous.lower() in value.lower()` guard skips only replacements that would change nothing |
| Sanitizer.SanitizedIsSafe | sanitizer.py:20-56 | for every input and either `allow_special`, the output has no `<`, `>`, `"`, `'`, `\`, `/`, `;`, no `--` and no control character other than LF, CR, tab |
| Sanitizer.NeutralizeRemovesChar | sanitizer.py:53-56 | a listed single non-letter character other than `_` is absent after the pass |
| Sanitizer.NeutralizeRemovesDoubleDash | sanitizer.py:53-56 | with `--` in the list, no `--` remains after the pass, since later passes only insert `_` |
| Sanitizer.SanitizedLengthBound | sanitizer.py:43-56 | if escaping adds nothing (`allow_special`, or none of `& < > " '` in the stripped text once truncated), the output is at most `max_length` long |
| Sanitizer.TruncationKeepsBound | sanitizer.py:43-47 | `"abc<"` with `max_length = 3` loses its `<` to the cut and stays within three characters |
| Sanitizer.EscapingCanExceedMaxLength | sanitizer.py:43-47 | `sanitize_string("<", 1)` is `"&lt_"`: four characters for a limit of one |
| Sanitizer.SanitizedCleanInputIsStripped | sanitizer.py:40-56 | an input with nothing to escape, drop or replace that fits in `max_length` once stripped comes back stripped and otherwise unchanged |
| Sanitizer.DenylistCanCreateXp | sanitizer.py:20-56 | `"xpsp_"` becomes `"xp_"`: the `sp_` pass creates an `xp_` after the `xp_` pass has run |
| Sanitizer.SanitizeSqlLike | sanitizer.py:219-237 | the three chained `replace` calls equal the one-pass escape `LikeEscape`; `""` gives `""` |
| Sanitizer.LikeReplaceChain | sanitizer.py:233-235 | the backslashes added by the first `replace` are not touched by the other two |
| Sanitizer.LikeEscapeRoundTrip | sanitizer.py:233-235 | unescaping the escaped pattern gives back the text |
| Sanitizer.LikeEscapeLength | sanitizer.py:233-235 | output length is input length plus the number of `\`, `%` and `_` |
| Sanitizer.LikeEscapeGuardsWildcards | sanitizer.py:234-235 | every `%` and `_` of the output is preceded by a backslash |
| Sanitizer.MatchesRepeat | sanitizer.py:16-17 | on text without a trailing newline, a full match of `^[cls]{lo,hi}$` holds exactly when the length is in range and every character is in the class; Python's `$` also matches before a final `\n`, so `"abc\n"` matches the username pattern where `MatchesRepeat` is false, but every caller strips the text first and the validators are unaffected |
| Sanitizer.ValidateEmail | sanitizer.py:61-82 | the error is `None` exactly when the email is accepted |
| Sanitizer.EmailAcceptedShape | sanitizer.py:74-82 | an accepted email, normalised, is at most 255 characters, has no upper-case letter, exactly one `@` not in first position, and ends with a dot and two or more lower-case letters |
| Sanitizer.EmailAcceptedShort | sanitizer.py:71-82 | `a@b.co` is accepted |
| Sanitizer.EmailAcceptedPlus | sanitizer.py:71-82 | `j+k@x.fr` is accepted |
| Sanitizer.EmailRejectedNoAt | sanitizer.py:79-80 | `not-an-email` is rejected |
| Sanitizer.EmailRejectedNoDot | sanitizer.py:79-80 | `user@domain` is rejected |
| Sanitizer.EmailNormalizationStable | sanitizer.py:254-256 | the normalised email `sanitize_input` returns is accepted again and normalises to itself |
| Sanitizer.ValidatePhone | sanitizer.py:85-103 | accepted exactly when the phone is empty or strips to 8–20 characters among digits, whitespace, `- + ( ) .`; error `None` exactly on acceptance |
| Sanitizer.BlankPhoneRejected | sanitizer.py:95-101 | a non-empty all-blank phone is rejected with the phone message |
| Sanitizer.ValidateUsername | sanitizer.py:106-124 | accepted exactly when the stripped username has 3–50 characters among ASCII letters, digits, `_`, `-`; the empty one gets the "empty" message |
| Sanitizer.ValidatePassword | sanitizer.py:127-154 | accepted exactly when 8–128 characters with an upper-case letter, a lower-case letter and a digit; too short and too long get their own messages |
| Sanitizer.ValidateInteger | sanitizer.py:189-216 | accepted exactly when the text parses and the value is within bounds; an accepted value is `int(value)` (after stripping text) and lies within bounds; the minimum's message wins over the maximum's |
| Sanitizer.IntegerTextRoundTrip | sanitizer.py:201-213 | the decimal text of an in-range integer is accepted with that value |
| Sanitizer.SanitizeInput | sanitizer.py:240-282 | email, phone, username and password are accepted, with the same error, exactly when their validator accepts, and come back stripped and lower-cased, stripped, stripped and unmodified; amount is its validator's outcome; integer is `validate_integer` with bounds 0 and 999999 unless given; any other type is accepted with `sanitize_string(value, max_length or 255, allow_special or False)`, which is `Safe`; error `None` exactly when valid |
| Sanitizer.StrippedFieldStable | sanitizer.py:258-264 | the stripped phone or username returned is accepted again and strips to itself |
| Models.ParseRole | models.py:8-11 | `UserRole(value)` succeeds exactly for the three department names and gives back the member with that value |
| Models.RoleNameRoundTrip | models.py:8-11 | `UserRole(member.value)` is the member |
| Models.Database.constructor | models.py:13-74 | an empty database is well formed |
| Permissions.CheckManagement | controllers.py:13-22 | allowed exactly for a logged-in caller whose role the matrix lets manage users; otherwise a refusal |
| Permissions.CreateUserGate | controllers.py:24-32 | allowed exactly for management when no user has the username |
| Permissions.UserRecordGate | controllers.py:58-65 | allowed exactly for management on an existing user |
| Permissions.ListGate | controllers.py:50-56 | every list is allowed exactly to a logged-in caller; otherwise "Vous devez être connecté." |
| Permissions.CreateClientGate | controllers.py:109-114 | allowed exactly for the commercial role |
| Permissions.UpdateClientGate | controllers.py:129-143 | allowed exactly for a commercial who is the client's contact, on an existing client |
| Permissions.CreateContractGate | controllers.py:186-196 | allowed exactly for management on an existing client |
| Permissions.UpdateContractGate | controllers.py:209-228 | allowed exactly for management, or a commercial owning the contract's client; `AttributeError` exactly when a commercial's contract has no client |
| Permissions.CreateEventGate | controllers.py:274-290 | allowed exactly for a commercial owning the client of a signed contract; `AttributeError` exactly when that signed contract has no client |
| Permissions.UpdateEventGate | controllers.py:305-329 | allowed exactly for management on any event and support on their assigned events |
| Permissions.UserPermissionBeforeLookup | controllers.py:24-28 | a refused caller gets the same answer whatever the users table holds |
| Permissions.UnsignedContractRefusedToOwner | controllers.py:281-290 | the owner of an unsigned contract is refused with the "NON SIGNÉ" message |
| Permissions.UpdateContractLookupBeforeRole | controllers.py:210-216 | any logged-in caller asking for a missing contract is told it is missing |
| Permissions.UpdateContractByRole | controllers.py:218-228 | support is always refused, management always allowed, a non-owning commercial never allowed |
| Permissions.UpdateClientCheckOrder | controllers.py:132-143 | the role is checked first, then existence, then ownership: a non-commercial always gets the commercial-only refusal, a commercial "Client non trouvé." for a missing client and the "VOS propres clients" refusal for another's |
| Permissions.CreateContractCheckOrder | controllers.py:189-196 | the role is checked before the client: a non-manager is refused as such even for a missing client |
| Permissions.UpdateEventCheckOrder | controllers.py:306-329 | login, then lookup, then role: nobody logged in gets "Connexion requise.", a missing event "Événement introuvable." for any role, support on another's event and every other role but management their own refusals |
| Permissions.UnknownRoleOnlyLists | controllers.py:13-22 | a role outside the three departments is granted nothing but the lists |
| Updates.LastSome | controllers.py:68-75 | `None` exactly when every value is `None`; otherwise a value after which every one is `None` |
| Updates.UserArgsEffect | controllers.py:68-75 | the `update_user` loop raises exactly when a truthy role value is unknown, and otherwise leaves each field at its last truthy value (the password hashed) |
| Updates.BadRoleRaises | controllers.py:72-73 | one unknown truthy role value anywhere makes the loop raise |
| Updates.FalsyUserArgsChangeNothing | controllers.py:69 | falsy values (`None`, `""`) leave the user unchanged |
| Updates.PasswordStoredHashed | controllers.py:70-71 | a new password is stored as its hash |
| Updates.UserSkipsEmptyValue | controllers.py:69 | an empty string does not overwrite a user field |
| Updates.ClientArgsEffect | controllers.py:146-148 | each client field takes its last truthy value; dates and contact stay |
| Updates.StatusString | controllers.py:236 | `str(True).lower()` is `"true"` and `str(False).lower()` is not |
| Updates.ContractArgsFields | controllers.py:233-240 | each contract field takes the last non-`None` value given, the status lower-cased |
| Updates.ContractSignedFlag | controllers.py:231-240 | with distinct keys, `contract_was_signed` ends up set exactly when the new status is `"true"` and the old one was not |
| Updates.EventArgsEffect | controllers.py:332-334 | each event field takes the last non-`None` value given |
| Updates.EventWritesFalsyValues | controllers.py:333-334 | a falsy value such as `attendees = 0` is written |
| Operations.Stop | controllers.py:26-28 | a refusal changes nothing and sends nothing |
| Operations.CreateUserOp | controllers.py:24-48 | succeeds exactly when allowed, the role is known and no other user has the username or email; otherwise nothing changes; keeps the store well formed |
| Operations.UpdateUserOp | controllers.py:58-83 | succeeds exactly when allowed, no role value is unknown and the new username/email clash with no other user; otherwise nothing changes |
| Operations.UnassignClients | controllers.py:94-95 | same clients; none left pointing at the deleted user; the other users' clients unchanged and every other field of each client kept |
| Operations.UnassignEvents | controllers.py:94-95 | same events; none left assigned to the deleted user; the other users' events unchanged and every other field of each event kept |
| Operations.DeleteUserOp | controllers.py:85-96 | succeeds exactly when allowed; otherwise nothing changes; no notification |
| Operations.ListUsersOp | controllers.py:50-56 | lists every user exactly when someone is logged in |
| Operations.ListClientsOp | controllers.py:103-107 | lists every client exactly when someone is logged in |
| Operations.CreateClientOp | controllers.py:109-127 | succeeds exactly for a commercial; otherwise nothing changes |
| Operations.UpdateClientOp | controllers.py:129-153 | succeeds exactly when the update gate allows; otherwise nothing changes |
| Operations.ListContractsOp | controllers.py:160-184 | lists exactly when logged in, and only stored contracts, unchanged |
| Operations.CreateContractOp | controllers.py:186-207 | succeeds exactly for management on an existing client; otherwise nothing changes |
| Operations.UpdateContractOp | controllers.py:209-250 | succeeds exactly when the gate allows; raises exactly on the missing client; otherwise nothing changes and nothing is sent |
| Operations.ListEventsOp | controllers.py:257-272 | lists exactly when logged in, and only stored events, unchanged |
| Operations.CreateEventOp | controllers.py:274-303 | succeeds exactly when the gate allows; otherwise nothing changes |
| Operations.UpdateEventOp | controllers.py:305-337 | succeeds exactly when the gate allows; otherwise nothing changes |
| Operations.CreateUserStoresHash | controllers.py:34-48 | the new user has a fresh id and holds the password's hash; exactly one "Nouveau collaborateur créé" message; other tables unchanged |
| Operations.UpdateUserTouchesOneRecord | controllers.py:63-83 | a successful update changes only that user, as the loop describes, and sends one message |
| Operations.DeleteUserLeavesNoReference | controllers.py:94-96 | the user existed and only that user is removed; afterwards no client or event refers to them; contracts unchanged |
| Operations.CreateClientOwnedByCaller | controllers.py:109-127 | a created client is new, and its commercial contact is the commercial who created it |
| Operations.UpdateClientFields | controllers.py:145-153 | a successful update writes the last truthy values, refreshes `last_contact_date`, and touches nothing else |
| Operations.CreateContractUnsigned | controllers.py:193-207 | a created contract has status `"false"` and belongs to an existing client |
| Operations.UpdateContractNotifiesSignature | controllers.py:231-248 | with distinct keys, the "SIGNÉ" message is sent exactly when the update succeeds, the new status is `"true"` and the old was not; at most one message |
| Operations.SigningFlagNotifiesOnce | controllers.py:233-248 | signing with the flag sets status `"true"`, and notifies exactly when the contract was not yet signed |
| Operations.UpdateContractFields | controllers.py:233-248 | an accepted update writes the last value given for each contract field, the status lower-cased, and no other record |
| Operations.UpdateEventFields | controllers.py:331-336 | an accepted update, by any allowed caller, writes the last non-`None` value given for each event field, and no other record |
| Operations.UpdateEventBySupport | controllers.py:322-334 | support updates exactly their assigned events, and `attendees` takes the last value given, falsy or not |
| Operations.ListEventsBothFiltersEmpty | controllers.py:265-270 | asking for unassigned events that are also one's own returns nothing |
| Operations.ListContractsUnfiltered | controllers.py:160-184 | with no filter, the listing is the whole contracts table |
| Operations.ListContractsFilters | controllers.py:170-184 | a contract is listed exactly when it is stored and meets each filter given: status `"true"`/`"false"` for `filter_signed`, remaining amount `== 0` for `filter_paid=True` and `> 0` for `False` |
| Operations.ListEventsUnfiltered | controllers.py:257-272 | with no filter, the listing is the whole events table |
| Operations.ListEventsFilters | controllers.py:264-272 | an event is listed exactly when it is stored and meets each filter given: no support contact for `filter_no_support`, the caller as support contact for `filter_my_events` |
| Operations.MyEventsAreUpdatable | controllers.py:268-270 | for support, "my events" lists exactly the events `update_event` lets them change |
| Operations.ListContractsPaidSplit | controllers.py:178-182 | the paid and unpaid lists are disjoint and together hold every contract with a non-negative remaining amount |
| Controllers.UserController.CreateUser | controllers.py:24-48 | leaves exactly the content, reply and messages of `CreateUserOp`, and the store well formed |
| Controllers.UserController.UpdateUser | controllers.py:58-83 | the `setattr` loop, with the early `ValueError`, leaves exactly what `UpdateUserOp` describes |
| Controllers.UserController.DeleteUser | controllers.py:85-96 | leaves exactly what `DeleteUserOp` describes |
| Controllers.ClientController.CreateClient | controllers.py:109-127 | leaves exactly what `CreateClientOp` describes |
| Controllers.ClientController.UpdateClient | controllers.py:129-153 | the `setattr` loop then the date refresh leave exactly what `UpdateClientOp` describes |
| Controllers.ContractController.CreateContract | controllers.py:186-207 | leaves exactly what `CreateContractOp` describes |
| Controllers.ContractController.UpdateContract | controllers.py:209-250 | the loop with its `contract_was_signed` flag leaves exactly the content and messages `UpdateContractOp` describes |
| Controllers.EventController.CreateEvent | controllers.py:274-303 | leaves exactly what `CreateEventOp` describes |
| Controllers.EventController.UpdateEvent | controllers.py:305-337 | the `setattr` loop leaves exactly what `UpdateEventOp` describes |

## Left out

- `validate_amount` (sanitizer.py:157-186) parses floats and rounds to two decimals. `SanitizeInput` takes its outcome as a parameter for the `amount` type, and contract amounts are `real`s that are only stored and compared.
- Unicode: `lower()`, `isupper`/`islower`/`isdigit`, `\d` and the letter classes are ASCII only. `strip()` and `\s` use Python's whitespace set. The case-insensitive match of `re.sub` folds `ſ` (U+017F) to `s` where `.lower()` does not; that difference is not modelled.
- `int()` of text accepts an optional sign, digits and single underscores between digits; non-ASCII digits are not modelled.
- Sanitizer.ValidateInteger: a `str` or `int` argument is modelled; other arguments are not (a float is truncated, bytes are parsed, `None` raises `TypeError`).
- PyStr.ParseInt, PyStr.IntToString, PyStr.ParseIntOfIntToString: the conversions have no digit limit. Since Python 3.11 (and 3.10.7, 3.9.14) CPython refuses by default to convert between `int` and `str` beyond 4300 digits. There `validate_integer` on longer text returns "Format numérique invalide." where the model parses the number (and reports it above the maximum), a bound of more than 4300 digits makes the message f-strings raise, and `str(n)` raises for |n| ≥ 10^4300.
- Password hashing (argon2 with a random salt) is the function-valued field `hash` of `UserController`. Tokens, the `.session` file and `get_current_user_info` are replaced by the `Option<Identity>` parameter.
- `datetime.now()` and the server-side `now()` defaults are the `now` parameter.
- The SQLAlchemy session is the `Database` class:
  - `add`/`commit` are field assignments;
  - new ids are the next value of a per-table counter;
  - a commit that breaks the unique username/email constraint is the `Raised(IntegrityError)` reply, with nothing persisted;
  - other database errors (missing foreign keys, null violations) are not modelled.
- Operations.CreateUserOp: when `UserRole(role)` raises, the hashing it follows has no visible effect and is not modelled.
- `sentry_sdk.capture_message` is an append to the ghost `log` of `Monitor`; the level is not recorded.
- Keyword arguments: each `update_*` method takes a sequence of typed arguments, in call order. The keys are those the command line passes:
  - `update_user`: username, email, password, role;
  - `update_client`: full name, email, phone, company;
  - `update_contract`: total, remaining amount, status;
  - `update_event`: support contact, location, attendees, notes.

  Arbitrary `setattr` keys (such as `id`) are not modelled.
- Updates.ContractSignedFlag and Operations.UpdateContractNotifiesSignature require distinct keys, as a Python keyword dictionary has. `ContractArgsFields` and the controller method hold for any sequence.
- The `list_*` methods return rows keyed by id: `list_users` and `list_clients` the whole table, `list_contracts` and `list_events` the rows their filters keep. Row order and rendering (tables printed by the command-line layer) are not modelled.
- `create_superuser.py`, `init_db.py`, `epicevents.py` (command dispatch, rendering, monitoring setup), `session.py` and `utils.py` are not part of this model.
