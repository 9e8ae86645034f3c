# User-management backend: token validation, route policy and user store

This Dafny project models the decision logic of a Spring Boot user-management
backend. The backend exposes CRUD on `/users` and guards it with signed bearer
tokens (JWT) and a role-based route policy. The model covers four things:

- **Token front end** (`token_check.dfy`, module `TokenCheck`). This is
  `UserServiceImpl.isTokenValid` and `validateTokenDetails`. A null or blank
  token is rejected. An optional `"Bearer "` prefix is stripped. What remains
  goes to the JWT parser. The parser's failures become `valid = false`, or an
  exception where the Java code does not catch it. On success the subject and
  the decoded authority names are copied into a `TokenValidationResult`.
- **User store and role assignment** (`user_service.dfy`, module `Service`).
  This is `UserServiceImpl.findById`, `save`, `update`, `remove` and
  `getRoles`. The store is a class holding a `map<int, User>` and the next
  identity value. `Valid()` says that every user is stored under its own id
  and that every id is below the next one. Each mutating method preserves
  `Valid()` and states its whole new store.
- **Route policy** (`security_policy.dfy`, module `SecurityPolicy`). This is
  the `authorizeHttpRequests` list of `SpringSecurityConfig.securityFilterChain`.
  It is an ordered `seq<Rule>` decided by a recursive first-match function over
  segment paths. Patterns support a one-segment variable (`{id}`) and a suffix
  wildcard (`/**`). `hasRole`/`hasAnyRole` compare against `"ROLE_"`-prefixed
  authority names.
- **Controller** (`user_controller.dfy`, module `Controller`). This is the
  status codes of `UserController.show`, `create`, `update`, `remove` and
  `validateToken`, plus the loop in `validation` that builds the field→message
  error map.

Foreign code becomes parameters, so every property holds whatever fixed
function that code computes. The JJWT parser is a function from the raw token
to `Parsed(claims)` or `Rejected(kind)`. The Jackson decoder of the
`"authorities"` claim is a function to the list of names, an `IOException`
(`Unreadable`) or a `NullPointerException` (`NullElement`). BCrypt's `encode`
is a function on strings. Being fixed functions, the encoder has no salt and
the parser no clock (see "## Left out").

Three behaviours of the code are easy to misread, so the model states
them outright:

- A token that parses but has no `"authorities"` claim is not answered as
  invalid. `authoritiesClaims.toString()` (UserServiceImpl.java:146) throws a
  `NullPointerException`. The catch clause at UserServiceImpl.java:155 names
  only `JwtException`, `IllegalArgumentException` and `IOException`, so the
  exception escapes. The model reports it as `Raised(NullPointer)`, and
  `validateToken` passes it on. The same happens when the claim's text is
  `null` (`readValue` gives a null array and `Arrays.asList` rejects it) or the
  array holds a null element (`getAuthority` is called on it). "Always 200"
  holds only for the answers the method returns.
- The Javadoc of `isTokenValid` (UserServiceImpl.java:99) promises `false`
  for any invalid or expired token. Its catch clauses (lines 113-119) name only
  `SecurityException`, `MalformedJwtException`, `UnsupportedJwtException`,
  `IllegalArgumentException` and `ExpiredJwtException`. Any other `JwtException`
  (for example `PrematureJwtException`) escapes it. `validateTokenDetails`
  catches every `JwtException`.
- Roles are flat, as the code has them. `GET /users/{id}` accepts `USER` or
  `ADMIN` because the rule names both, not because of any role hierarchy.

## Model

| member | source | states |
|---|---|---|
| `TokenCheck.StripBearer` | src/main/java/com/cotic/backend/usersapp/backend_usersapp/services/UserServiceImpl.java:104-106 | a token that starts with "Bearer " is exactly the prefix followed by the result; any other token is passed on unchanged |
| `TokenCheck.StripBearerUndoesPrefix` | src/main/java/com/cotic/backend/usersapp/backend_usersapp/services/UserServiceImpl.java:104-106 | stripping undoes prepending the prefix: strip("Bearer " + t) == t |
| `TokenCheck.IsTokenValid` | src/main/java/com/cotic/backend/usersapp/backend_usersapp/services/UserServiceImpl.java:101-120 | false for a null or blank token; true exactly when the parser accepts the stripped token; it throws exactly when the parser fails with a JwtException its catch clauses do not name |
| `TokenCheck.ValidateTokenDetails` | src/main/java/com/cotic/backend/usersapp/backend_usersapp/services/UserServiceImpl.java:128-159 | null/blank token gives valid = false with username and roles null; valid = true exactly when parsing succeeds, the authorities claim is present and decodes, and then username = claims subject and roles = decoded names in claim order; any parse failure or unreadable claim gives valid = false with null fields; a missing authorities claim, a claim whose text is null or one with a null element throws NullPointerException |
| `TokenCheck.PrefixIsTransparent` | src/main/java/com/cotic/backend/usersapp/backend_usersapp/services/UserServiceImpl.java:101-139 | for a non-blank token without the prefix, both entry points give the same answer with or without "Bearer " in front |
| `TokenCheck.BlankTokenIgnoresParser` | src/main/java/com/cotic/backend/usersapp/backend_usersapp/services/UserServiceImpl.java:101-133 | for a null or blank token, both answers are invalid and do not depend on the parser or decoder, which are never consulted |
| `TokenCheck.EveryRejectionIsInvalid` | src/main/java/com/cotic/backend/usersapp/backend_usersapp/services/UserServiceImpl.java:107-158 | fail closed: every parser failure kind gives valid = false from validateTokenDetails and, for the five kinds it catches, false from isTokenValid |
| `TokenCheck.EntryPointsAgree` | src/main/java/com/cotic/backend/usersapp/backend_usersapp/services/UserServiceImpl.java:101-159 | a token validateTokenDetails accepts is accepted by isTokenValid; a token isTokenValid rejects is reported invalid by validateTokenDetails |
| `Service.FindRoleByName` | src/main/java/com/cotic/backend/usersapp/backend_usersapp/repositories/RoleRepository.java:11 | the lookup finds a role iff the name is in the role table, and the role found is the table's row: that name with the table's id |
| `Service.RolesFor` | src/main/java/com/cotic/backend/usersapp/backend_usersapp/services/UserServiceImpl.java:161-177 | exactly one role per table entry that applies (length 1 for ROLE_USER in the table plus 1 for an admin with ROLE_ADMIN in the table), no name twice, all from the table with the table's id; ROLE_USER is present iff the table has it and then comes first; ROLE_ADMIN is present iff the user is admin and the table has it; a non-admin never receives ROLE_ADMIN |
| `Service.UserService.GetRoles` | src/main/java/com/cotic/backend/usersapp/backend_usersapp/services/UserServiceImpl.java:161-177 | the list built step by step is the role list RolesFor describes |
| `Service.UserService.constructor` | src/main/java/com/cotic/backend/usersapp/backend_usersapp/services/UserServiceImpl.java:41-45 | the service starts with an empty, valid store and the given role table, encoder, parser and decoder |
| `Service.UserService.FindById` | src/main/java/com/cotic/backend/usersapp/backend_usersapp/services/UserServiceImpl.java:59-63 | present iff the id is stored, and the user found carries that id |
| `Service.UserService.Save` | src/main/java/com/cotic/backend/usersapp/backend_usersapp/services/UserServiceImpl.java:67-72 | stores the user under a fresh id, with the encoded password and the assigned roles; no other entry changes; the store stays valid |
| `Service.UserService.Remove` | src/main/java/com/cotic/backend/usersapp/backend_usersapp/services/UserServiceImpl.java:76-78 | the store loses exactly that id (an absent id changes nothing) |
| `Service.UserService.Update` | src/main/java/com/cotic/backend/usersapp/backend_usersapp/services/UserServiceImpl.java:82-93 | on a stored id, overwrites exactly roles, username and email, keeps id and password, changes no other entry, and returns the updated user; on an absent id the store is unchanged |
| `SecurityPolicy.PatternMatches` | src/main/java/com/cotic/backend/usersapp/backend_usersapp/auth/SpringSecurityConfig.java:49-62 | a well-formed pattern without a trailing "**" matches exactly the paths of its own length whose segments it accepts one by one (a literal the equal text, a variable any non-empty text); with a trailing "**" it matches every path that starts with such a prefix |
| `SecurityPolicy.Grants` | src/main/java/com/cotic/backend/usersapp/backend_usersapp/auth/SpringSecurityConfig.java:51-62 | an anonymous caller passes permitAll and nothing else |
| `SecurityPolicy.GrantsMonotone` | src/main/java/com/cotic/backend/usersapp/backend_usersapp/auth/SpringSecurityConfig.java:55-62 | holding more authorities never loses access under permitAll, hasRole, hasAnyRole or authenticated |
| `SecurityPolicy.FirstMatch` | src/main/java/com/cotic/backend/usersapp/backend_usersapp/auth/SpringSecurityConfig.java:47-62 | the index found is of a matching rule with no matching rule before it; no index means no rule matches |
| `SecurityPolicy.Decide` | src/main/java/com/cotic/backend/usersapp/backend_usersapp/auth/SpringSecurityConfig.java:47-62 | a request no rule matches is denied, and a permitted request is permitted by a rule that matches it and grants the caller |
| `SecurityPolicy.DecideIsFirstGrant` | src/main/java/com/cotic/backend/usersapp/backend_usersapp/auth/SpringSecurityConfig.java:47-62 | a request is permitted exactly when some rule matches it and grants the caller and no earlier rule matches it |
| `SecurityPolicy.EveryRequestMatchesARule` | src/main/java/com/cotic/backend/usersapp/backend_usersapp/auth/SpringSecurityConfig.java:47-62 | the rule table `Table`, the eight requestMatchers entries in declaration order, ends with anyRequest(), so every request is decided by one of its rules |
| `SecurityPolicy.FirstMatchDecides` | src/main/java/com/cotic/backend/usersapp/backend_usersapp/auth/SpringSecurityConfig.java:47-62 | when rule k matches and no earlier rule does, rule k's predicate decides the request |
| `SecurityPolicy.OutsideDocsRule` | src/main/java/com/cotic/backend/usersapp/backend_usersapp/auth/SpringSecurityConfig.java:49-51 | a path whose first segment is not one of the documentation prefixes does not match the documentation rule |
| `SecurityPolicy.DocsRuleCoversOnlyPublicResources` | src/main/java/com/cotic/backend/usersapp/backend_usersapp/auth/SpringSecurityConfig.java:49-51 | every request the documentation rule matches lies on a Swagger UI, API-doc or webjars path |
| `SecurityPolicy.ValidateTokenIsPublic` | src/main/java/com/cotic/backend/usersapp/backend_usersapp/auth/SpringSecurityConfig.java:53-58 | POST /users/validate-token is permitted for any or no identity, although the later /users/** rule also matches it and would demand ADMIN |
| `SecurityPolicy.ListIsPublic` | src/main/java/com/cotic/backend/usersapp/backend_usersapp/auth/SpringSecurityConfig.java:54 | GET /users is permitted with no identity at all |
| `SecurityPolicy.ShowNeedsUserOrAdmin` | src/main/java/com/cotic/backend/usersapp/backend_usersapp/auth/SpringSecurityConfig.java:55-56 | GET /users/{id}, with one non-empty segment after users, is permitted iff the identity holds ROLE_USER or ROLE_ADMIN |
| `SecurityPolicy.GetValidateTokenIsShow` | src/main/java/com/cotic/backend/usersapp/backend_usersapp/auth/SpringSecurityConfig.java:53-56 | GET /users/validate-token is not public: rule 1 names only POST, so the {id} rule takes it and it is permitted iff the identity holds ROLE_USER or ROLE_ADMIN |
| `SecurityPolicy.UsersSubtreeNeedsAdmin` | src/main/java/com/cotic/backend/usersapp/backend_usersapp/auth/SpringSecurityConfig.java:57-58 | every other request to /users or below it is permitted iff the identity holds ROLE_ADMIN; this covers POST/PUT/DELETE on /users/{id}, POST /users and /users/, and methods other than GET and POST on /users/validate-token |
| `SecurityPolicy.UserRoleIsFlat` | src/main/java/com/cotic/backend/usersapp/backend_usersapp/auth/SpringSecurityConfig.java:55-58 | an identity holding only ROLE_USER may GET /users/{id} but is denied POST, PUT and DELETE under /users |
| `SecurityPolicy.PublicResourcesArePermitted` | src/main/java/com/cotic/backend/usersapp/backend_usersapp/auth/SpringSecurityConfig.java:49-61 | the Swagger UI, API-doc, webjars and /h2-console/** paths are permitted for any method and any or no identity |
| `SecurityPolicy.FallThroughNeedsIdentity` | src/main/java/com/cotic/backend/usersapp/backend_usersapp/auth/SpringSecurityConfig.java:62 | a request no earlier rule matches is permitted iff an identity is present, whatever its authorities (including none) |
| `SecurityPolicy.OtherPathsNeedIdentity` | src/main/java/com/cotic/backend/usersapp/backend_usersapp/auth/SpringSecurityConfig.java:47-62 | every path outside /users and the public resources is permitted iff an identity is present |
| `Controller.UserController.constructor` | src/main/java/com/cotic/backend/usersapp/backend_usersapp/controllers/UserController.java:37-40 | the controller holds the injected service |
| `Controller.UserController.Show` | src/main/java/com/cotic/backend/usersapp/backend_usersapp/controllers/UserController.java:61-68 | 200 iff the id is stored, with that user (carrying that id) as body; otherwise 404 with no body |
| `Controller.UserController.Validation` | src/main/java/com/cotic/backend/usersapp/backend_usersapp/controllers/UserController.java:101-107 | 400; the map has one key per erroneous field and no other; under each field is "El campo <field> <message>" of the last error for that field |
| `Controller.UserController.Create` | src/main/java/com/cotic/backend/usersapp/backend_usersapp/controllers/UserController.java:70-76 | with binding errors, 400 with the map validation builds (one key per erroneous field, the last error's text under each) and the store and id counter untouched; otherwise 201 with the user saved under a fresh id (the counter advances by one), with the form's fields, the encoded password and the assigned roles, and no other entry changed |
| `Controller.UserController.Update` | src/main/java/com/cotic/backend/usersapp/backend_usersapp/controllers/UserController.java:78-89 | with binding errors, 400 with the map validation builds (one key per erroneous field, the last error's text under each) and the store untouched; on a stored id, 201 with the updated user (roles, username and email replaced, password kept); on an absent id the store is unchanged |
| `Controller.UserController.Remove` | src/main/java/com/cotic/backend/usersapp/backend_usersapp/controllers/UserController.java:91-99 | a stored id is deleted (only it) and the answer is 204; an absent id answers 404 and leaves the store unchanged |
| `Controller.UserController.ValidateToken` | src/main/java/com/cotic/backend/usersapp/backend_usersapp/controllers/UserController.java:113-127 | every answer is 200 with a JSON body; with UserServiceImpl, the body's valid, username and roles entries equal validateTokenDetails' fields (null as JSON null) and its exception passes through; with any other service the body is just valid = false |
| `Controller.TokenReport` | src/main/java/com/cotic/backend/usersapp/backend_usersapp/controllers/UserController.java:115-122 | the body map holds exactly the keys valid, username and roles; valid is the result's validity; username and roles are JSON null exactly when the result leaves them null |
| `Controller.InvalidTokenReportedInBody` | src/main/java/com/cotic/backend/usersapp/backend_usersapp/controllers/UserController.java:113-127 | a null, blank or parser-rejected token is answered with the JSON body {valid: false, username: null, roles: null} |
| `Controller.ValidTokenReportedInBody` | src/main/java/com/cotic/backend/usersapp/backend_usersapp/controllers/UserController.java:113-127 | a token that parses, has an authorities claim and decodes is answered with {valid: true, username: the subject, roles: the decoded names} |

## Left out

- JWT signature and expiry verification (JJWT, HMAC under the shared secret) is not modelled. It is the parser parameter, so the expiry window and the codec's round trip are not modelled either.
- Jackson decoding of the authorities claim is the decoder parameter. BCrypt's `encode` is the encoder parameter.
- Service.UserService.Save: the encoder is a fixed function, so two saves of the same password store the same hash. BCrypt salts every hash, so in the source they differ. No property here relies on equal hashes.
- TokenCheck.ValidateTokenDetails: the parser is a fixed function, so a token's answer never changes while the service lives. JJWT's expiry check reads the clock, so in the source an accepted token can later be rejected as expired. The clock is not modelled.
- Token issuing and login are not part of this model: `JwtAuthenticationFilter`, `JwtValidationFilter` and `TokenJwtConfig`. The value of the prefix, "Bearer ", is the one the token-validation request uses.
- The policy answers only Permit or Deny. The status that separates an anonymous caller (401) from an under-privileged one (403) is set by filters that are not part of this model.
- Spring wiring is framework plumbing and is left out: filter registration, CSRF, frame options, stateless sessions, CORS.
- Request paths are taken as segment lists. URL decoding, path normalisation and the HTTP firewall are not modelled.
- Spring's anonymous authentication token is modelled as "no identity". Its only authority, ROLE_ANONYMOUS, is named by no rule.
- A request no rule matches is modelled as denied. The table ends in `anyRequest()`, so this case never arises for it.
- `findAll` (the public list endpoint) is not modelled. It has no decision logic, and the repository's iteration order has no counterpart in a map.
- `DtoMapperUser` and `UserDto` are not part of this model. Service results and response bodies carry the stored user itself.
- Service.UserService.Update: the answer for an absent id is left unconstrained. On that branch the source passes a null user to `DtoMapperUser.build()`, whose code is not part of this model.
- Controller.UserController.Update: for an absent id the status is not stated, for the same reason. Only "the store is unchanged" is promised.
- Service.UserService.Save: create-request bodies are modelled without an id. A body carrying an id would make the repository merge into an existing row, and that is not modelled.
- Controller.UserController.Validation: only field errors are modelled. Object-level (global) binding errors, which also trigger `hasErrors()`, are not modelled. A null default message is modelled as its text.
- When a method throws, the model stops at the exception. The status of Spring's error response is not modelled.
- Ids are unbounded integers. Java's 64-bit `Long` range is not modelled, since no operation computes with ids.
- `DataInitializer` (SQL seeding over JDBC) is I/O and is left out. `Constantes` holds only string constants.
