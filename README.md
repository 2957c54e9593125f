# fastapi-starter: authentication and request admission, in Dafny

This project models the core of the FastAPI starter service:

- **Rate limiter.** The per-client sliding-window limiter in front of every route.
- **Tokens.** Issuing and checking access and refresh tokens.
- **Current-user guards.** The dependencies that resolve and check the caller.
- **Directory adapter.** Search-then-bind authentication against an LDAP server.
- **Login.** It consults the directory first and falls back to issuing tokens for the submitted username.
- **Item and user endpoints.** Their placeholder handlers: search, pagination, defaulting and the owner-or-superuser rule.
- **Settings.** The two comma-separated settings lists and the database URL choice.

Each source file is one module:

| module | file | source |
|---|---|---|
| `RateLimit` | middleware.dfy | app/core/middleware.py (`RateLimitMiddleware`) |
| `Jwt` | jwt.dfy | the `jose.jwt` encode/decode pair, abstracted |
| `Security` | security.dfy | app/utils/security.py |
| `Ldap` | ldap.dfy | app/utils/ldap.py |
| `Auth` | auth.dfy | app/api/v1/endpoints/auth.py |
| `Items` | items.dfy | app/api/v1/endpoints/items.py |
| `Users` | users.dfy | app/api/v1/endpoints/users.py |
| `Config` | config.dfy | app/core/config.py |
| `Database` | database.dfy | `get_database_url` of app/utils/database.py |
| `Schemas` | schemas.dfy | the records of app/schemas |
| `Text`, `Wrappers` | text.dfy, wrappers.dfy | Python `str` methods; `Option` / `Result` |

### How each part is modelled

**Rate limiter.** It is a class, `RateLimit.RateLimiter`.
- The `clients` field maps each client key to its list of timestamps.
- `Dispatch` updates that map in place.
- `Dispatch` is proved equal to the pure `RateLimit.Step`, and the purge loop `PurgeWindow` equal to the filter `Recent`.
- The lemmas over request sequences show two things. No window ever exceeds `calls` entries. For requests in time order, at most `calls` requests of one client are admitted within the `period` seconds ending at any instant at or after the last request; applied to a prefix of the requests, this bounds every earlier window too.

**Signed tokens.** A token is the claim set it carries, together with the key and algorithm that signed it. Decoding applies the same claim checks as the library for the claims this service issues:
- `exp` must be a number not in the past;
- `sub` must be a string.

**Directory.** It is an oracle value. It says what each ldap3 step returns or which class of exception it raises. The adapter's own logic is modelled on top of it:
- its early exits;
- the choice of bind for the search;
- `str.format` of the filter template;
- the attribute fallbacks;
- the `except` clauses.

**Current user.** `get_current_user` builds a `User`, whose `email` field is an `EmailStr`. That field stores the validated address in normal form, not the raw text. `Schemas.NormalEmail` computes that form:
- it unwraps `Display Name <address>`;
- it strips surrounding whitespace;
- it checks the address shape;
- it lower-cases the domain, keeping the local part.

`Schemas.ValidEmail` holds exactly when `NormalEmail` succeeds. The user's email, and so the subject of the pair `/refresh` mints, is that normal form. A token that verifies but whose subject is not an address makes the dependency fail with an uncaught validation error (500). Two such subjects arise from login: a plain login name with the directory off, and the directory fallback `username@unknown`.

**Time.** `time.time()` and `datetime.utcnow()` become an integer `now` parameter, in whole seconds.

## Model

| member | source | states |
|---|---|---|
| RateLimit.ClientKey | app/core/middleware.py:64 | no contract of its own: a one-line definition, the request's host or `"unknown"` without a client, used by `StepSpec` |
| RateLimit.Recent | app/core/middleware.py:72-77 | the purged window keeps exactly the timestamps with `now - t < period` and is no longer than before |
| RateLimit.RecentAppend | app/core/middleware.py:73-77 | purging distributes over concatenation, so survivors keep their relative order |
| RateLimit.RecentTwice | app/core/middleware.py:73-77 | purging at an earlier instant and then a later one equals purging at the later one |
| RateLimit.PurgeWindow | app/core/middleware.py:73-77 | the comprehension's loop returns exactly `Recent` of the stored list |
| RateLimit.Step | app/core/middleware.py:66-68 | health paths pass through with the map unchanged; every request preserves the capacity invariant |
| RateLimit.StepSpec | app/core/middleware.py:64-97 | for a governed path only the caller's key changes; the request is rejected iff its purged window has `>= calls` entries, and a rejection still stores the purged window and carries `calls` and `period` for the 429 message; on admission `now` is appended at the end, `limit` is `calls`, remaining is `calls - len` and lies in `[0, calls)`, reset is `now + period`; the response is never a pass-through |
| RateLimit.RateLimiter.constructor | app/core/middleware.py:56-60 | the limiter starts with the given `calls` and `period` (defaults 100 and 60) and an empty map |
| RateLimit.RateLimiter.Dispatch | app/core/middleware.py:62-99 | the new map and the response are those of `Step` on the old map, and the capacity invariant is kept |
| RateLimit.RunWithinCapacity | app/core/middleware.py:73-89 | starting from an empty map, after any sequence of requests no client's list has more than `calls` entries |
| RateLimit.RunKeepsCapacity | app/core/middleware.py:73-89 | any sequence of requests preserves the capacity invariant |
| RateLimit.SlidingWindowBound | app/core/middleware.py:72-89 | for requests in time order, at most `calls` of one client's requests are admitted within `period` seconds ending at or after the last one |
| RateLimit.WindowTracksAdmissions | app/core/middleware.py:72-89 | the stored window, purged at any later instant, equals the purged list of admitted arrival times |
| RateLimit.StepTracks | app/core/middleware.py:73-89 | one request keeps the stored window in step with the admitted times |
| RateLimit.ThreePerMinute | app/core/middleware.py:73-97 | with capacity 3 per 60 s, three requests are admitted, a fourth at +30 s is rejected, and one at +60 s is admitted again |
| Jwt.Decode | app/utils/security.py:73-75 | decoding succeeds iff the token was signed with the key under an allowed algorithm and its `exp` and `sub` claims pass, and then yields the claims |
| Jwt.DecodeEncode | app/utils/security.py:46-75 | encode then decode with the same key returns the claims until `exp`; after it, or under another key, decoding fails |
| Security.Expiry | app/utils/security.py:38-60 | the expiry is `now + delta` for a non-zero delta, otherwise `now` plus the configured default (a zero delta is falsy) |
| Security.TokenClaims | app/utils/security.py:36-62 | the claims are the caller's plus `exp` and `type`, which override same-named keys |
| Security.CreateAccessToken | app/utils/security.py:33-49 | an access token signed with the configured key and algorithm, holding the caller's claims plus `type = "access"` and `exp` |
| Security.CreateRefreshToken | app/utils/security.py:52-66 | the same for `type = "refresh"` with a default of `REFRESH_TOKEN_EXPIRE_DAYS` days |
| Security.VerifyToken | app/utils/security.py:69-85 | returns data iff decoding succeeds, `sub` is present and `type` equals the expected kind (default `"access"`); the email is the `sub` claim; any failure is `None` |
| Security.CreatedTokenRoundTrip | app/utils/security.py:69-85 | for claims with a string `sub` and none of `aud`, `nbf`, `iat`, `jti`, a created token verifies as its own kind with the caller's `sub` until expiry, never as the other kind, and not after expiry |
| Security.MissingSubjectRejected | app/utils/security.py:77-81 | a token without `sub` never verifies |
| Security.GetCurrentUser | app/utils/security.py:88-113 | 401 "Could not validate credentials" iff the token does not verify as an access token; a verified subject that is not an email address fails building the `User` (500); otherwise an active non-superuser whose email is the normal form (`NormalEmail`) of the token's subject |
| Security.CurrentUserEmailIsNormal | app/utils/security.py:106-113 | the principal's email is a fixed point of `NormalEmail`: validating it again gives it back |
| Security.GetCurrentActiveUser | app/utils/security.py:116-122 | rejects (400) exactly the inactive user and otherwise passes the user through |
| Security.GetCurrentActiveSuperuser | app/utils/security.py:125-133 | rejects (400) exactly the non-superuser and otherwise passes the user through |
| Security.SuperuserGuardAlwaysRejects | app/utils/security.py:106-133 | since `get_current_user` never yields a superuser, the superuser guard rejects every token (or `get_current_user` already failed with 401 or 500) |
| Security.AuthenticateUser | app/utils/security.py:136-157 | a user is returned iff the pair is `test@example.com` / `testpassword`, and it carries that email |
| Ldap.CreateLdapServer | app/utils/ldap.py:22-57 | a missing server setting raises the adapter's connection error; with SSL on, a TLS setup fault propagates unchanged; otherwise a constructor fault becomes the adapter's connection error ("Failed to create LDAP server…"); success, with the settings' host, port, SSL flag and timeout, exactly when none of these happens |
| Ldap.SearchBind | app/utils/ldap.py:72-81 | the search binds as the service account iff both bind DN and bind password are set, otherwise anonymously |
| Ldap.FormatFilter | app/utils/ldap.py:84 | no contract of its own: `template.format(username=...)` over doubled braces and `{username}`; `FormatRendersTemplate`, `FormatTemplatePrefix` and `FormatEscaped` state what it yields on well-formed templates, and `StrayBraceRejected` that every other brace makes it fail |
| Ldap.FormatRendersTemplate | app/utils/ldap.py:84 | formatting a template made of literal text (braces doubled) and `{username}` placeholders yields the text with the username substituted |
| Ldap.FormatTemplatePrefix | app/utils/ldap.py:84 | a well-formed template prefix formats to its rendering, followed by whatever the rest formats to |
| Ldap.FormatEscaped | app/utils/ldap.py:84 | escaped literal text formats back to itself, ahead of whatever follows |
| Ldap.StrayBraceRejected | app/utils/ldap.py:84 | after any well-formed prefix, a `}` that is not doubled, or a `{` that is neither doubled nor the start of `{username}`, makes formatting fail |
| Ldap.UserInfoOf | app/utils/ldap.py:102-121 | email is the attribute or `username@unknown`, full name the attribute or the username, and username the input |
| Ldap.SearchLdapUser | app/utils/ldap.py:60-123 | a failing search connection raises its fault; an unformattable filter raises the format error; a failing search raises its fault; no entry gives `None`; a hit gives the first entry's DN and information, searched with the formatted filter under the base DN |
| Ldap.MapException | app/utils/ldap.py:180-185 | only a non-bind `LDAPException` becomes `LDAPConnectionError`; bind errors and everything else become `LDAPAuthenticationError` |
| Ldap.AuthenticateLdapUser | app/utils/ldap.py:126-185 | disabled raises `LDAPAuthenticationError` first; an empty username or password is `None`; a server, search or bind fault is raised as `MapException` of it; no hit or a refused bind is `None`; a hit whose DN accepts the password returns that entry's information |
| Ldap.EmptyCredentialsSkipDirectory | app/utils/ldap.py:150-151 | with an empty username or password the outcome does not depend on the directory |
| Ldap.AuthenticatedMeansUserBind | app/utils/ldap.py:153-178 | success implies the directory is enabled, credentials are non-empty, a search hit exists and the bind as its DN with the password succeeded, and the information comes from that entry |
| Ldap.UserBindAuthenticates | app/utils/ldap.py:153-178 | conversely, a hit whose DN accepts the password authenticates with that entry's information |
| Ldap.NegativeAnswersAreNone | app/utils/ldap.py:158-173 | no search hit, or a refused user bind, gives `None` rather than an error |
| Ldap.MissingServerIsAuthenticationError | app/utils/ldap.py:153-185 | a missing server setting surfaces as `LDAPAuthenticationError` |
| Ldap.TestLdapConnection | app/utils/ldap.py:188-205 | true iff the server is built and the anonymous bind returns true; false on any exception |
| Auth.IssueTokens | app/api/v1/endpoints/auth.py:129-142 | the pair holds an access token with `sub`, `exp = now + minutes`, `type = "access"` and a refresh token with `exp = now + days`, `type = "refresh"`, token type `"bearer"` |
| Auth.LoginSubject | app/api/v1/endpoints/auth.py:76-117 | the subject is the submitted username when the directory is off, the directory's email on success, and the username on `None` or either directory error |
| Auth.Login | app/api/v1/endpoints/auth.py:68-142 | login always returns a bearer pair whose two tokens carry the same subject, `LoginSubject` |
| Auth.LoginTokensVerify | app/api/v1/endpoints/auth.py:68-142 | the login pair verifies: the access token as access until it expires, the refresh token as refresh, neither as the other kind |
| Auth.PairVerifies | app/api/v1/endpoints/auth.py:129-142 | the same facts for any pair the handlers mint |
| Auth.LocalLoginIgnoresPassword | app/api/v1/endpoints/auth.py:119-142 | with the directory off, the password has no effect on the result |
| Auth.RefreshTokens | app/api/v1/endpoints/auth.py:152-166 | the refresh handler's pair is the pair minted for the current user's email |
| Auth.RefreshEndpoint | app/api/v1/endpoints/auth.py:145-166 | `/refresh` fails with 401 iff the bearer token is not a valid access token, and with 500 when its subject is not an email address; otherwise it mints a pair for the normal form of its subject |
| Auth.RefreshAcceptsOnlyAccessTokens | app/api/v1/endpoints/auth.py:145-146 | a login refresh token is refused by `/refresh` (401); the live access token of the same pair gets a fresh pair for the normal form of the same subject when the subject is an email address, and 500 when it is not |
| Auth.RefreshKeepsSubject | app/api/v1/endpoints/auth.py:145-166 | the live access token of a pair `/refresh` returned refreshes again, to a pair for the same address: normalisation changes a subject at most once |
| Auth.PlainUsernameCannotRefresh | app/api/v1/endpoints/auth.py:119-146 | with the directory off, a login name without `@` gets tokens whose live access token `/refresh` answers with 500 |
| Auth.FallbackAddressCannotRefresh | app/api/v1/endpoints/auth.py:87-146 | a directory login whose entry has no email attribute gets the subject `username@unknown`, whose live access token `/refresh` answers with 500 |
| Auth.Register | app/api/v1/endpoints/auth.py:30-65 | register echoes email and full name with id 1, active, and the fixed creation time |
| Auth.LoginAsWritten | app/api/v1/endpoints/auth.py:79 | reading `LDAP_ENABLED` from the settings object fails when the settings class does not declare it |
| Auth.LoginAsWrittenAlwaysFails | app/api/v1/endpoints/auth.py:79 | every call of login as written fails with the missing attribute |
| Items.MockItems | app/api/v1/endpoints/items.py:29-46 | two sample items with ids 1 and 2, owned by the caller |
| Items.FilterByTitle | app/api/v1/endpoints/items.py:50-52 | keeps exactly the items whose lower-cased title contains the lower-cased term |
| Items.FilterAppend | app/api/v1/endpoints/items.py:50-52 | filtering distributes over concatenation, so order is preserved |
| Items.Search | app/api/v1/endpoints/items.py:49-52 | a `None` or empty term does not filter; any other term filters by title |
| Items.Page | app/api/v1/endpoints/items.py:55 | the slice `[skip:skip+limit]` has length `min(limit, n - skip)` (0 past the end) and is the contiguous run starting at `skip` |
| Items.ReadItems | app/api/v1/endpoints/items.py:15-55 | exactly `min(limit, n - skip)` items of the filtered list (none past its end), each at its offset `skip + i`; all owned by the caller and all matching a non-empty term |
| Items.FirstPageUnfiltered | app/api/v1/endpoints/items.py:29-55 | with no term, a first page of at least 2 holds both sample items |
| Items.SearchIgnoresCase | app/api/v1/endpoints/items.py:51 | searching for a term or its lower-cased form gives the same items |
| Items.SearchSecondSample | app/api/v1/endpoints/items.py:29-55 | searching for `ITEM 2` returns exactly the second sample item |
| Items.CreateItem | app/api/v1/endpoints/items.py:58-75 | the payload's title and description with id 999, owned by the caller |
| Items.ReadItem | app/api/v1/endpoints/items.py:78-105 | the item carries the requested id, is owned by the caller, and its title `Item <id>` reads back to the id |
| Items.UpdateItem | app/api/v1/endpoints/items.py:108-139 | given title and description when truthy, otherwise `Updated Item <id>` (which reads back to the id) and `Updated description for item <id>`; owned by the caller |
| Users.MayAccess | app/api/v1/endpoints/users.py:79 | no contract of its own: the caller may use an id that is its own or any id as a superuser; `SameRuleForReadAndUpdate` states that read and update both apply exactly this rule |
| Users.ReadUsers | app/api/v1/endpoints/users.py:14-42 | the two sample users, ids 1 and 2, whatever `skip` and `limit` |
| Users.CreateUser | app/api/v1/endpoints/users.py:45-69 | echoes email and full name with id 999 and active |
| Users.ReadUser | app/api/v1/endpoints/users.py:72-98 | 403 "Not enough permissions" iff the id is not the caller's and the caller is not a superuser; otherwise the record has the requested id |
| Users.UpdateUser | app/api/v1/endpoints/users.py:101-129 | the same 403 rule; email and name are the given values when truthy, otherwise `updated@example.com` and `Updated User` |
| Users.SameRuleForReadAndUpdate | app/api/v1/endpoints/users.py:110-113 | read and update refuse exactly the same callers; one's own id is always allowed and a superuser may use any id |
| Config.KeptPieces | app/core/config.py:89 | the kept entries are clean (non-empty, stripped, comma-free) and every piece whose strip is non-empty is kept |
| Config.KeptPiecesAppend | app/core/config.py:89 | keeping distributes over concatenation, so entries keep the order of the pieces |
| Config.KeptPiecesClean | app/core/config.py:89 | already clean pieces are all kept unchanged |
| Config.CommaList | app/core/config.py:88-90 | an empty text gives `[]`; every entry is clean; every piece between commas whose strip is non-empty contributes that strip; every entry is the strip of some piece (order and repetitions: `CommaListKept`, `CommaListPiece`, `CommaListConcat`) |
| Config.CommaListKept | app/core/config.py:89 | the list is exactly the kept strips of the comma-separated pieces, in their order |
| Config.CommaListPiece | app/core/config.py:89 | a comma-free text gives its strip alone, or nothing when the strip is empty |
| Config.CommaListConcat | app/core/config.py:89 | the entries of `a,b` are the entries of `a` followed by those of `b`, so order and repetitions are kept |
| Config.KeptPiecesSources | app/core/config.py:89 | every kept entry is the strip of one of the pieces |
| Config.CorsOrigins | app/core/config.py:85-90 | `BACKEND_CORS_ORIGINS`: empty text gives `[]`; the entries are clean, include the strip of every non-blank piece of the text, and are all such strips; the list is the comma list of its text, so order and repetitions follow `CommaListConcat` |
| Config.AllowedHosts | app/core/config.py:92-97 | `ALLOWED_HOSTS`: the same properties over its own text, and the list is the comma list of that text |
| Config.CommaListJoin | app/core/config.py:89 | joining clean entries with commas and reading them back gives the same list |
| Config.DefaultOrigins | app/core/config.py:47-51 | the default origins are `http://localhost:3000` and `http://localhost:8080` |
| Config.DefaultHosts | app/core/config.py:52-56 | the default hosts are `localhost` and `127.0.0.1` |
| Database.GetDatabaseUrl | app/utils/database.py:13-35 | unset gives the SQLite default of the mode; sync mode and URLs with an async driver are unchanged; URLs mentioning neither postgresql nor sqlite are unchanged |
| Database.AsyncPostgresConversion | app/utils/database.py:28-31 | `postgresql://…` becomes `postgresql+asyncpg://…` in async mode |
| Database.AsyncSqliteConversion | app/utils/database.py:32-33 | `sqlite://…` not mentioning postgresql becomes `sqlite+aiosqlite://…` in async mode |
| Database.DefaultsAgree | app/utils/database.py:17-33 | converting the sync default for async mode gives the async default |
| Database.AsyncPostgresRemovesScheme | app/utils/database.py:25-31 | in async mode a URL without an async driver that mentions postgresql keeps no `postgresql://` anywhere |
| Database.AsyncpgCannotRecreate | app/utils/database.py:29-31 | `postgresql+asyncpg://` neither holds `postgresql://` nor starts one that following text completes, and `p` opens `postgresql://` only |
| Database.AsyncSqliteStillMentionsScheme | app/utils/database.py:32-33 | a converted `sqlite://` URL still contains `sqlite://`, inside `sqlite+aiosqlite://` |
| Database.PostgresTestTakesPrecedence | app/utils/database.py:28-33 | a URL mentioning postgresql without `postgresql://` is returned unchanged, even a SQLite one |
| Schemas.OrElse | app/api/v1/endpoints/users.py:125-126 | `value or fallback`: the value when it is set and non-empty, else the fallback |
| Schemas.Unwrap | app/schemas/user.py:13 | the text validated is the `<…>` part of `name <address>`, or the whole input; either way it uses only the input's characters (`UnwrapDisplayName` states the unwrapping) |
| Schemas.Bracketed | app/schemas/user.py:13 | the non-empty single-line part between the first `<` and a final `>`, after a display name; it uses only the input's characters |
| Schemas.BracketedAt | app/schemas/user.py:13 | when the first `<` is at `m` and the text ends in `>`, the bracketed part is what lies between them |
| Schemas.UnwrapDisplayName | app/schemas/user.py:13 | `name <addr>`, with a display name of name characters and a non-empty single-line address, unwraps to `addr` |
| Schemas.SameValidatedText | app/schemas/user.py:13 | two inputs that leave the same text after unwrapping and stripping validate alike |
| Schemas.DisplayNameAddress | app/schemas/user.py:13 | `name <local@domain>` is accepted as `local@` followed by the lower-cased domain |
| Schemas.PaddedAddress | app/schemas/user.py:13 | an address padded with whitespace is accepted as the address with its domain lower-cased |
| Schemas.NormalEmail | app/schemas/user.py:13 | on success the stripped, unwrapped text has the address shape, and the stored value is its local part, `@`, and its lower-cased domain |
| Schemas.ValidEmail | app/schemas/user.py:13 | no contract of its own: `EmailStr` accepts exactly the texts `NormalEmail` succeeds on; `NoAtIsNotEmail`, `UnknownDomainIsNotEmail` and `AddressIsEmail` state which texts those are |
| Schemas.NormalAddress | app/schemas/user.py:13 | a bare address of address characters is accepted and stored with only its domain lower-cased |
| Schemas.NormalEmailIdempotent | app/schemas/user.py:13 | validating a stored address again gives it back unchanged |
| Schemas.NoAtIsNotEmail | app/schemas/user.py:13 | a string without `@` is not an email address |
| Schemas.UnknownDomainIsNotEmail | app/utils/ldap.py:118 | the fallback `username@unknown` is never an email address, whatever whitespace the username carries |
| Schemas.AddressIsEmail | app/schemas/user.py:13 | `local@name.top` with non-empty parts free of separators, whitespace and angle brackets is an email address, stored with `name.top` lower-cased |
| Schemas.MockAddressIsEmail | app/utils/security.py:148 | the demonstration address `test@example.com` is an email address, already in normal form |
| Text.Strip | app/core/config.py:89 | the result is the slice of the input left between a whitespace-only prefix and a whitespace-only suffix; it is trimmed, empty iff the input is all whitespace, and uses only the input's characters |
| Text.StripNoSpace | app/core/config.py:89 | a string without whitespace strips to itself |
| Text.StripKeepsTail | app/utils/ldap.py:118 | stripping `p + q`, with `q` non-empty and not whitespace at either end, removes only the leading whitespace of `p` |
| Text.StripTrimmed | app/core/config.py:89 | stripping a trimmed string changes nothing |
| Text.Split | app/core/config.py:89 | at least one piece, none containing the separator |
| Text.JoinSplit | app/core/config.py:89 | joining the pieces of a split with the separator restores the text |
| Text.SplitJoin | app/core/config.py:89 | splitting a join of separator-free pieces restores the pieces |
| Text.SplitSuffix | app/utils/ldap.py:118 | splitting `p + sep + rest`, `rest` separator-free, gives the pieces of `p` followed by `rest` |
| Text.Lower | app/api/v1/endpoints/items.py:51 | lower-casing keeps the length, maps each character, and leaves no ASCII capital |
| Text.LowerIdempotent | app/api/v1/endpoints/items.py:51 | lower-casing twice is lower-casing once |
| Text.SplitLower | app/schemas/user.py:13 | splitting the lower-cased text on a non-letter gives the lower-cased pieces |
| Text.IndexOf | app/schemas/user.py:13 | the index of the first occurrence of a character that occurs |
| Text.IndexOfUnique | app/schemas/user.py:13 | an index holding the character with none before it is the index found |
| Text.TrailingSpaceUnique | app/core/config.py:89 | a whitespace suffix of length `k` not preceded by whitespace is the trailing whitespace |
| Text.StripPadded | app/schemas/user.py:13 | a trimmed non-empty text padded with whitespace on both sides strips back to itself |
| Text.StripFrom | app/core/config.py:89 | a text ending in a non-space character loses only its leading whitespace |
| Text.SplitConcat | app/core/config.py:89 | splitting `a + sep + b` gives the pieces of `a` followed by the pieces of `b` |
| Text.ContainsAt | app/api/v1/endpoints/items.py:51 | `sub in s` holds iff `sub` occurs at some index of `s` |
| Text.ReplaceAll | app/utils/database.py:29-33 | no contract of its own: `str.replace`, left to right and non-overlapping; `ReplaceAbsent` states that an absent pattern changes nothing, `ReplaceLeftmost` that the text before the leftmost occurrence is kept and that occurrence replaced, and `ReplaceRemoves` when no occurrence is left |
| Text.ReplaceAbsent | app/utils/database.py:29-33 | replacing a pattern that does not occur changes nothing |
| Text.ReplaceAtFront | app/utils/database.py:29-33 | a leading occurrence is replaced and replacement continues on the rest |
| Text.OccursShift | app/utils/database.py:29-33 | an occurrence after a prefix is an occurrence in the text that follows it |
| Text.LeftmostOccurrence | app/utils/database.py:29-33 | a text containing the pattern splits as `a + pattern + b` with no earlier occurrence inside `a + pattern` |
| Text.ReplaceLeftmost | app/utils/database.py:29-33 | with the leftmost occurrence after `a`, the result is `a`, then the replacement, then the rest processed |
| Text.ReplaceRemoves | app/utils/database.py:29-33 | no occurrence of the pattern is left when its first character does not recur in it and the replacement can neither hold nor begin an occurrence |
| Text.ParseIntToString | app/api/v1/endpoints/items.py:100 | the decimal text of any integer parses back to it |

## Left out

- Time is integer seconds. Float `time.time()`, `datetime.utcnow()` and the `int(...)` truncation of the reset header are therefore not modelled.
- The limiter's shared map under concurrent requests is not modelled: each `dispatch` runs whole, so the window length read after `call_next` is the one just stored.
- The rest of `call_next` is not modelled. Only what the limiter itself answers is modelled.
- The logging, timing and security-header middleware are left out: they do wall-clock timing, logging and constant headers.
- Signing and encoding of tokens are replaced by the abstract codec.
- Registered claims other than `exp` and `sub` (`nbf`, `iat`, `aud`, …) are not modelled, since this service never issues them.
- bcrypt hashing and verification (`get_password_hash`, `verify_password`) are foreign calls. `register` discards the hash, so nothing depends on it.
- ldap3 network I/O and the TLS context are replaced by the directory oracle.
- `unbind()` is taken never to raise.
- FormatFilter: every replacement field other than `{username}` is treated as a format error. This drops forms `str.format` accepts: a format spec (`{username:>10}`), a conversion (`{username!r}`, `{username!s}`, `{username!a}`) and an index or attribute access (`{username[0]}`, `{username.upper}`). Positional fields such as `{0}` raise in Python as well.
- `str.lower` and `str.strip` are modelled over ASCII letters and the Latin-1 whitespace characters only.
- CreateLdapServer: the text of the constructor's exception, which the adapter appends to "Failed to create LDAP server: ", is not modelled. The directory oracle reports only the class of a fault, and the message reaches no caller: the error is mapped to `LDAPAuthenticationError`.
- NormalEmail: a simplified form of pydantic's `EmailStr`. The model checks one `@`, a non-empty local part, at least two non-empty domain labels, and no whitespace or angle brackets. It unwraps only unquoted ASCII display names and lower-cases only ASCII letters. Not modelled: quoted display names, non-ASCII word characters in names, Unicode normalisation, IDNA, length limits, the validator's character set for local parts, and reserved domain names. `ValidEmail` and the lemmas about both inherit the same simplification.
- The length constraints of the pydantic request schemas, and `EmailStr` on request bodies, are not modelled: the framework validates such input before any handler runs. Request bodies are taken as already validated, with any email in normal form.
- Query validation is not modelled either. The `skip >= 0` and `1 <= limit <= 1000` bounds appear as preconditions.
- `/me`, `delete_item` and `delete_user` are not modelled. `/me` formats a clock value, and the two deletes return nothing.
- Engine and session creation in app/utils/database.py are not modelled; neither are app/api/health.py, app/core/app.py, the router or the development scripts. These are framework wiring and I/O.
- The code has no UPN (domain-suffix) bind strategy; a rejection carries no retry-after header; idle client keys are never evicted; the local login path never checks the password and never fails; `/refresh` accepts only access tokens, because it resolves the caller through `get_current_user`.

## Findings

| source | as written | input that shows it | evidently intended | confidence | as-written member | corrected member |
|---|---|---|---|---|---|---|
| app/api/v1/endpoints/auth.py:79 | `login` reads `settings.LDAP_ENABLED`, but the `Settings` class (app/core/config.py:12-97) declares no `LDAP_*` attribute, so the lookup raises `AttributeError` before any token is built | any login form, e.g. username `alice`, password `secret` | read the directory flag and the other directory settings from a configuration that declares them, then choose the subject as the handler describes | not executed | Auth.LoginAsWrittenAlwaysFails | Auth.Login |

The same undeclared settings are read by app/utils/ldap.py. As a result, `test_ldap_connection` returns `False` under the application settings: the `AttributeError` is caught by its catch-all clause. The model gives the adapter its own `Ldap.DirectoryConfig` record. `Auth.Login` is the corrected login, and `Auth.LoginTokensVerify` proves that its tokens authenticate the chosen subject.
