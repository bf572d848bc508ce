# User-service authority and token decisions, in Dafny

A model of three pieces of decision logic in the user service of the
nhom17 e-commerce back end, with proofs of what each promises:

- **Role authority** (`RoleServiceImpl`, module `RoleAuthority`): a store
  maps each user id to the set of role names it holds, and a role table maps
  each of the three role names ADMIN, PM and USER to its role id.
  `assignRole`, `revokeRole` and `getUserRoles` work on that store, and
  `mapToRoleName` turns free text into a role name, ignoring ASCII case.
- **Token validation** (`TokenValidate`, module `TokenValidate`): the
  start-up check of the signing secret and the key derived from it; then `validateToken`. It rejects a
  null or empty value, strips one case-sensitive "Bearer " prefix, hands the
  rest to the JWT parser, and maps each parser outcome to a verdict or to an
  error. The parser is a function parameter that also receives the current
  time, which is an argument.
- **Authentication endpoints** (`UserAuth`, module `UserAuth`): register,
  login, logout, token validation and the authority check. Each maps the
  outcome of its collaborator, passed in as a `Result` value or a function,
  to an HTTP status and a body.

Two helper modules: `Wrappers` (`Option` for Java's null or empty
Optional, `Result` for a value or a thrown exception) and `Text` (ASCII
case mapping, an ASCII case-insensitive comparison and decimal rendering of
ids).

Exceptions become `Failure` values carrying the exception's message. Where
the source throws an exception it does not catch, the model passes it on
as a failure. Examples are a parser exception outside the JWT exception
family, and the `NullPointerException` of a token without an expiry
claim. The reactive `Mono` chains are sequential `Result` matches.
Assign and revoke report whether the user was saved, as well as the
store they leave behind.

Points of the code's behaviour that are easy to misread:

- The emptiness check runs before the prefix strip, so "Bearer " alone
  passes that check and reaches the parser as the empty string.
- An expiry equal to the current time gives the verdict false, not an
  error.
- The register endpoint answers 500 for every error of the user service.

## Model

| member | source | states |
|---|---|---|
| Text.DecimalText | backend/user-service/src/main/java/com/nhom17/userservice/service/impl/RoleServiceImpl.java:39 | Long.toString of a user id: a minus sign exactly for negative ids, then digits with no leading zero (other than "0" itself) whose value is the id's magnitude |
| Text.ToLowerMatchesIgnoreCase | backend/user-service/src/main/java/com/nhom17/userservice/service/impl/RoleServiceImpl.java:84 | comparing ASCII-lower-cased strings is the same as ASCII case-insensitive comparison (character equal, equal upper-cased, or equal lower-cased, with only ASCII letters changing case) |
| RoleAuthority.MapToRoleNameIgnoresCase | backend/user-service/src/main/java/com/nhom17/userservice/service/impl/RoleServiceImpl.java:83-94 | a string maps to a role iff it equals that role's name ignoring case; it maps to null iff it equals none of ADMIN, PM, USER ignoring case |
| RoleAuthority.SampleSpellings | backend/user-service/src/main/java/com/nhom17/userservice/service/impl/RoleServiceImpl.java:83-94 | "aDmIn", "Pm" and "user" map to ADMIN, PM and USER; "users" and the empty string map to null |
| RoleAuthority.RoleTextRoundTrip | backend/user-service/src/main/java/com/nhom17/userservice/service/impl/RoleServiceImpl.java:83-94 | each role's name, as listed, maps back to that role |
| RoleAuthority.LookupRole | backend/user-service/src/main/java/com/nhom17/userservice/model/entity/Role.java:20-28 | the role table finds a role iff the name is non-null and present, and the role found has that name and the table's id for it |
| RoleAuthority.FindByName | backend/user-service/src/main/java/com/nhom17/userservice/service/impl/RoleServiceImpl.java:29-33 | succeeds iff the name is in the role table, and then the Optional is never empty and holds exactly the role the role table has under that name, id included; otherwise RoleNotFound with the name (or "null") in the message |
| RoleAuthority.AssignRole | backend/user-service/src/main/java/com/nhom17/userservice/service/impl/RoleServiceImpl.java:35-50 | unknown user gives UserNotFound with the id; an unrecognised or missing role gives RoleNotFound; it succeeds iff the user exists and the role is in the table; on success it returns true iff the role was not held, saves iff it returns true, leaves the store unchanged when false, and otherwise adds exactly that role to that user and touches nothing else |
| RoleAuthority.AssignChecksUserFirst | backend/user-service/src/main/java/com/nhom17/userservice/service/impl/RoleServiceImpl.java:38-42 | for an unknown user the failure is UserNotFound and does not depend on the role name |
| RoleAuthority.AssignTwice | backend/user-service/src/main/java/com/nhom17/userservice/service/impl/RoleServiceImpl.java:44-49 | assigning the same role twice returns true, then false with no save and no change |
| RoleAuthority.RevokeRole | backend/user-service/src/main/java/com/nhom17/userservice/service/impl/RoleServiceImpl.java:52-63 | unknown user gives UserNotFound; otherwise it removes exactly the mapped role, returns true iff the user held it, saves iff it returns true, and changes no other user or role |
| RoleAuthority.RevokeTwice | backend/user-service/src/main/java/com/nhom17/userservice/service/impl/RoleServiceImpl.java:58-62 | a second revoke of the same name returns false with no save and no change |
| RoleAuthority.AssignThenRevoke | backend/user-service/src/main/java/com/nhom17/userservice/service/impl/RoleServiceImpl.java:35-63 | revoking a role just assigned returns true and restores the original store exactly |
| RoleAuthority.UnknownNameAsymmetry | backend/user-service/src/main/java/com/nhom17/userservice/service/impl/RoleServiceImpl.java:41-62 | for an unrecognised name assign fails with RoleNotFound while revoke returns false with no save and no change |
| RoleAuthority.RoleNameList | backend/user-service/src/main/java/com/nhom17/userservice/service/impl/RoleServiceImpl.java:70-72 | one name string per held role: as many names as roles, no name twice, and a role is held iff its name is listed |
| RoleAuthority.GetUserRoles | backend/user-service/src/main/java/com/nhom17/userservice/service/impl/RoleServiceImpl.java:65-73 | unknown user gives UserNotFound; otherwise the listed names are distinct, as many as the roles held, and name exactly the held roles |
| TokenValidate.Init | backend/user-service/src/main/java/com/nhom17/userservice/security/validate/TokenValidate.java:21-29 | a null or empty secret fails start-up with the missing-secret message; otherwise start-up succeeds iff the key derivation (Base64 decoding and the HMAC key check) succeeds, keeps the derived key, and fails with the derivation's own message when it does not |
| TokenValidate.InitGuardIgnoresDerivation | backend/user-service/src/main/java/com/nhom17/userservice/security/validate/TokenValidate.java:23-25 | with a null or empty secret the outcome is the same whatever the key derivation would do, so the derivation is never reached |
| TokenValidate.StripBearer | backend/user-service/src/main/java/com/nhom17/userservice/security/validate/TokenValidate.java:36-38 | a value starting with "Bearer " loses exactly that prefix; any other value is unchanged |
| TokenValidate.StripBearerAfterPrefix | backend/user-service/src/main/java/com/nhom17/userservice/security/validate/TokenValidate.java:36-38 | stripping undoes prefixing with "Bearer " |
| TokenValidate.Interpret | backend/user-service/src/main/java/com/nhom17/userservice/security/validate/TokenValidate.java:40-56 | only a parsed token with an expiry gives a verdict, true iff the expiry is strictly after now; expired, malformed, bad-signature and other JWT failures give their own messages; other parser exceptions and a missing expiry are passed on |
| TokenValidate.ValidateToken | backend/user-service/src/main/java/com/nhom17/userservice/security/validate/TokenValidate.java:31-57 | a null or empty token fails with "Token is null or empty."; any other token gets exactly the verdict or error its stripped form's parse result maps to; the verdict is true iff the parser accepts the stripped token with an expiry after now, and false iff it accepts it with an expiry at or before now |
| TokenValidate.BearerPrefixIsTransparent | backend/user-service/src/main/java/com/nhom17/userservice/security/validate/TokenValidate.java:36-38 | for a non-empty token without the prefix, "Bearer " + token validates exactly as the token does |
| TokenValidate.OnlyOnePrefixStripped | backend/user-service/src/main/java/com/nhom17/userservice/security/validate/TokenValidate.java:36-38 | "Bearer Bearer t" reaches the parser as "Bearer t" |
| TokenValidate.BareBearerReachesParser | backend/user-service/src/main/java/com/nhom17/userservice/security/validate/TokenValidate.java:32-38 | the emptiness check sees the raw value, so "Bearer " alone passes it and the parser receives the empty string |
| TokenValidate.ParseFailureIsError | backend/user-service/src/main/java/com/nhom17/userservice/security/validate/TokenValidate.java:48-56 | a parser failure never yields a verdict |
| TokenValidate.ParseFailuresDistinct | backend/user-service/src/main/java/com/nhom17/userservice/security/validate/TokenValidate.java:48-56 | two different parser failures always produce different errors |
| TokenValidate.ExpiryCheckIsMonotone | backend/user-service/src/main/java/com/nhom17/userservice/security/validate/TokenValidate.java:47 | for a fixed parse result, the expiry comparison that accepts at some time accepts at every earlier time |
| TokenValidate.ExpiryAtNowIsInvalid | backend/user-service/src/main/java/com/nhom17/userservice/security/validate/TokenValidate.java:47 | an expiry equal to now gives the verdict false |
| UserAuth.Register | backend/user-service/src/main/java/com/nhom17/userservice/api/UserAuth.java:58-72 | 201 with the service's message iff the service succeeds; 500 with "Error occurred while creating the account: " + the error otherwise |
| UserAuth.Login | backend/user-service/src/main/java/com/nhom17/userservice/api/UserAuth.java:82-99 | a null or empty identifier gives 400 with its fixed message; otherwise 200 with the service's body iff the service succeeds, and 401 with both token slots empty and the error as information iff it fails |
| UserAuth.LoginGuardIgnoresService | backend/user-service/src/main/java/com/nhom17/userservice/api/UserAuth.java:84-87 | with a null or empty identifier the response is the same whatever the login service would do, so the service is never consulted |
| UserAuth.Logout | backend/user-service/src/main/java/com/nhom17/userservice/api/UserAuth.java:109-119 | 200 "Logged out successfully." iff the service completes; 400 "Logout failed." iff it fails |
| UserAuth.ValidateTokenEndpoint | backend/user-service/src/main/java/com/nhom17/userservice/api/UserAuth.java:131-138 | 200 "Valid token" iff the verdict is true; 401 "Invalid token" iff it is false; a validator error comes out unchanged |
| UserAuth.ValidateTokenRequest | backend/user-service/src/main/java/com/nhom17/userservice/api/UserAuth.java:131-133 | an empty header comes out as the validator's "Token is null or empty." error |
| UserAuth.ValidateRequestAnswers | backend/user-service/src/main/java/com/nhom17/userservice/api/UserAuth.java:131-138 | end to end, the endpoint answers 200 iff the parser accepts the token with an expiry after now, and "Bearer t" gets the same answer as t |
| UserAuth.GetAuthority | backend/user-service/src/main/java/com/nhom17/userservice/api/UserAuth.java:150-165 | 200 "Role access API" iff the required role is an exact element of the extracted authorities; otherwise 401, "User does not have the required authority" when it is absent and "Invalid token" when extraction fails |
| UserAuth.AuthorityHasNoHierarchy | backend/user-service/src/main/java/com/nhom17/userservice/api/UserAuth.java:157 | an ADMIN-only token is refused USER and "admin", and granted ADMIN |

## Left out

- JWT signature checking and claim parsing belong to the JWT library. They are the `parse` parameter of `ValidateToken`, which runs on each request.
- Base64 decoding of the secret and the weak-key check belong to the JWT library too. They run once at start-up and are the `derive` parameter of `Init`. What counts as bad Base64 or a weak key is not modelled.
- The clock: "now" is an argument, in milliseconds since the epoch, instead of `new Date()`. The parser receives the same time, since the library checks the "exp" and "nbf" claims against its own clock; what it does with the time is not modelled.
- Java's locale-aware `toLowerCase`: only ASCII letters are lower-cased. Non-ASCII characters whose Unicode lower case is an ASCII letter are not modelled.
- Text.ToLowerMatchesIgnoreCase: case-insensitivity here means ASCII case only. Java's Unicode `equalsIgnoreCase` also pairs 'ſ' with 'S', 'ı' with 'I' and 'İ' with 'i', where the lower-casing switch of `mapToRoleName` does not: "uſer" equals "USER" ignoring case in Java, yet maps to null. The model states only the ASCII equivalence.
- Unnamed role rows: every row of the role table is taken to be named ADMIN, PM or USER. A row with a null name, which the column allows, and a `findByName(null)` query that would match it, are not modelled.
- A null role-name argument: `toLowerCase` on null throws a `NullPointerException`, which is not modelled. A null user id, rejected by the repository, is not modelled either.
- Role identity: held roles are compared by name, not by the JPA entity identity the source uses. Names are unique in the role table, so the two agree.
- The order of `getUserRoles`: it comes from a hash set, so the model fixes no order; only the contents are stated.
- Persistence: `save` is modelled as the returned store plus a `saved` flag. Transactions and flushing are not modelled.
- The registration, login and logout pipelines of the user service, the JWT provider and the authority extraction are not part of this model. Their outcomes are inputs to the endpoints.
- Null exception messages: every error message is a string. A `getMessage()` of null, which Java would print as "null" or keep as null, is not modelled.
- An empty completion of the user service's register or login call (no value and no error) is not modelled. Logout is unaffected: its completion without a value is the success case.
- Spring security annotations (`@PreAuthorize`), the request-matching route table, required-header handling and the exception handlers that turn uncaught errors into responses are framework behaviour and are left out.
- The role controller, the frontend, the API-documentation and CORS configuration and the response DTO size annotations are thin adapters, so they are left out.
- Password hashing is a library, so it is left out.
