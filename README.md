# Spring billing system: a Dafny model of its core

This project models the business core of a Spring Boot billing backend:
- **The billing transaction.** Creating a bill deducts stock from several product rows, in request order, and either commits everything or nothing.
- **Soft deletes and queries.** Products and bills are soft-deleted, and the repositories expose filter queries over them.
- **Account creation.** A self-registered user gets the default `USER` role, which is created the first time it is needed. An administrator can create a user with named roles instead.
- **Tokens.** Roles map to Spring Security authorities, and JWT access and refresh tokens are issued and validated.
- **Login and refresh.** These are orchestrated on top of the token logic.
- **Request authentication and authorization.** A per-request filter turns a bearer token into a security principal. An ordered rule table then decides which paths need which authority.

## Modelling choices

The store is one object, `Repositories.Database`, with one field per table:
- `users` and `bills` are maps from id to a value row. `roles` is keyed by its unique name.
- `products` maps ids to `Entities.Product` objects. Products are objects because `subtractStock` changes a product's stock in place.
- `Database.Rows()` is the abstract value of the product table.

The derived Spring Data queries are functions over these maps. `UserRepository` and `RoleRepository` are not part of this model as source files. Their derived queries (`existsByUsername`, `existsByEmail`, `findByUsername`, `findByName`) are given their standard meaning.

A Java exception that escapes a call is the `Err` of a `Result`, one of the `BillService.BillError`, `Exceptions.TokenError` or `Exceptions.AuthError` variants:
- Every `AuthError` variant except `Token` carries the exception's exact message, built by the functions and constants of `Exceptions`.
- `BillError` variants carry only the value the message is built from: `UserNotFound(id)` stands for "User not found with ID: " + id, `ProductNotFound(id)` for "Product not found with ID: " + id, `ProductInactive(name)` for "Product is inactive: " + name. `NotEnoughStock` stands for the exception of `subtractStock` and `DuplicateLineKey` for the persistence failure on a repeated line key.
- `TokenError` gives only the kind of failure (the parser rejected the token, a null dereference, a failed cast), not the library's message.

`@Transactional` on `createBill` is modelled as restoring the stock snapshot taken at the start (`Database.RestoreStock`) on every failing path.

Signing and parsing of tokens are opaque function parameters (`JwtUtil.JwtCodec`), and so is the password encoder (`UserFactory.PasswordEncoder`):
- The parser takes the current time and may reject any token. It really does reject expired tokens.
- `JwtUtil.Faithful` states the only thing the proofs rely on: a token signed with the key parses back to its payload until it expires, with both time stamps cut to whole seconds as the JWT format stores them.
- The clock is a parameter `now`, in milliseconds. `createToken` reads the clock twice; the model reads it once.

In these places the code's behaviour is easy to misread; the model follows the code:
- **Uniqueness checks.** Registration checks the username first and stops there. The email check runs only when the username is free (`UserFactory.ValidateAndBuildUser`).
- **Token roles claim.** The access token's `roles` claim holds the `ROLE_`-prefixed authorities, not the raw role names (`AuthService.ResponseRolesVersusTokenRoles`).
- **Refresh errors.** Refresh does not turn every failure into a bad-credentials error:
  - a token the parser rejects propagates its exception;
  - an unknown subject raises `UsernameNotFoundException`;
  - only a token that fails `validateToken` gives "Token de refresh inválido o expirado." (`AuthService.RefreshTokenOutcomes`).
- **Token kinds.** Neither refresh nor the request filter checks which kind of token it is given (see Findings).
- **`tokenType`.** The built `AuthResponse` has a null `tokenType`, not "Bearer". Lombok's builder ignores the field initializer.

## Model

| member | source | states |
|---|---|---|
| Entities.Product.constructor | src/main/java/js/zubigaray/facturacion/entity/ProductEntity.java:39 | a new product is active and holds the given name, price and stock |
| Entities.Product.HasStock | src/main/java/js/zubigaray/facturacion/entity/ProductEntity.java:45-47 | the stock check `stock >= amount`; `SubtractStock` states both of its outcomes |
| Entities.Product.SubtractStock | src/main/java/js/zubigaray/facturacion/entity/ProductEntity.java:45-54 | succeeds exactly when stock >= amount; then stock drops by amount and stays non-negative, otherwise stock is unchanged; name, price and active never change |
| Text.Upper | src/main/java/js/zubigaray/facturacion/service/CustomUserDetailsService.java:42 | upper-casing keeps the length and maps every character through the ASCII case mapping |
| Text.ContainsIffOccurs | src/main/java/js/zubigaray/facturacion/repository/ProductRepository.java:14 | the substring test holds exactly when the needle occurs at some index of the text |
| Repositories.ExistsByUsername | src/main/java/js/zubigaray/facturacion/util/UserFactory.java:27 | existsByUsername: some stored user has that username; `FindByUsername` and `ValidateAndBuildUser` state their results through it |
| Repositories.ExistsByEmail | src/main/java/js/zubigaray/facturacion/util/UserFactory.java:30 | existsByEmail: some stored user has that email; `ValidateAndBuildUser` states its email check through it |
| Repositories.FindByUsername | src/main/java/js/zubigaray/facturacion/service/CustomUserDetailsService.java:35-36 | finds a row exactly when some user has that username, and then it is that user's row |
| Repositories.FindAllActive | src/main/java/js/zubigaray/facturacion/repository/ProductRepository.java:29-30 | the active products; `SoftDeleteAndQueries` states what a soft delete does to it |
| Repositories.FindByStock | src/main/java/js/zubigaray/facturacion/repository/ProductRepository.java:27 | the products with exactly that stock, active or not; `SoftDeleteAndQueries` states it keeps a soft-deleted product |
| Repositories.FindByNameContainingIgnoreCase | src/main/java/js/zubigaray/facturacion/repository/ProductRepository.java:14 | the case-insensitive name search; `NameSearchMatchesSubstring` states its meaning |
| Repositories.FindByPriceRange | src/main/java/js/zubigaray/facturacion/repository/ProductRepository.java:16-25 | active products with price between the bounds, both inclusive; `SoftDeleteAndQueries` states what a soft delete does to it |
| Repositories.NameSearchMatchesSubstring | src/main/java/js/zubigaray/facturacion/repository/ProductRepository.java:14 | the name search returns exactly the products whose upper-cased name contains the upper-cased text at some position, whether active or not |
| Repositories.FindAllActiveBills | src/main/java/js/zubigaray/facturacion/repository/BillRepository.java:16-22 | the active bills with a stored user (the inner join); `SoftDeletedBillLeavesListing` states what a soft delete does to it |
| Repositories.SoftDeletedBills | src/main/java/js/zubigaray/facturacion/repository/BillRepository.java:26-31 | the UPDATE keeps the same bills and their date, user and lines, and clears `active` on that one id only |
| Repositories.SoftDeletedBillLeavesListing | src/main/java/js/zubigaray/facturacion/repository/BillRepository.java:16-31 | after the soft delete the active listing loses exactly that bill; the delete is idempotent and an absent id changes nothing |
| Repositories.Database.SaveUser | src/main/java/js/zubigaray/facturacion/service/AuthService.java:55 | a new user row under the next id, other tables unchanged, usernames and emails still unique |
| Repositories.Database.SaveRole | src/main/java/js/zubigaray/facturacion/service/AuthService.java:45-49 | a new role under its name with the next id, other tables unchanged |
| Repositories.Database.SaveProduct | src/main/java/js/zubigaray/facturacion/service/ProductService.java:56 | the product is stored under its own id, other tables unchanged |
| Repositories.Database.SaveBill | src/main/java/js/zubigaray/facturacion/entity/BillUser.java:20-22 | a bill whose lines repeat a product (bill_user is keyed by bill id and product id) is refused and nothing is stored; otherwise the bill is stored under the next id; other tables unchanged |
| Repositories.Database.SoftDeleteBill | src/main/java/js/zubigaray/facturacion/repository/BillRepository.java:26-31 | the bill table becomes its soft-deleted form; no other table changes |
| Repositories.Database.RestoreStock | src/main/java/js/zubigaray/facturacion/service/BillService.java:35-41 | the rollback brings every product row back to the snapshot |
| ProductService.SoftDeletedProducts | src/main/java/js/zubigaray/facturacion/service/ProductService.java:54-56 | same products; only the deleted one loses `active`; name, price and stock are untouched |
| ProductService.SoftDelete | src/main/java/js/zubigaray/facturacion/service/ProductService.java:51-60 | returns true exactly when the product exists; the product table becomes its soft-deleted form, so an absent id changes nothing |
| ProductService.SoftDeleteIdempotent | src/main/java/js/zubigaray/facturacion/service/ProductService.java:51-58 | a second soft delete leaves the same state |
| ProductService.SoftDeleteAndQueries | src/main/java/js/zubigaray/facturacion/repository/ProductRepository.java:14-30 | a soft-deleted product leaves the active listing and the price-range search but stays in the name and stock searches |
| BillService.Step | src/main/java/js/zubigaray/facturacion/service/BillService.java:54-65 | one line of the loop: lookup, active check, then the stock check and deduction; `ProcessLine` is proved against it |
| BillService.ApplyLines | src/main/java/js/zubigaray/facturacion/service/BillService.java:53-77 | the lines in order, stopping at the first failure; `DeductAll` is proved equal to it and the `ApplyLines*` lemmas state its properties |
| BillService.LinesOf | src/main/java/js/zubigaray/facturacion/service/BillService.java:67-76 | one bill line per request, in order, with the same product id and quantity |
| BillService.ApplyLinesErrExtends | src/main/java/js/zubigaray/facturacion/service/BillService.java:53-65 | once a prefix of the lines has failed, the whole call fails with that error |
| BillService.ApplyLinesOnlyStock | src/main/java/js/zubigaray/facturacion/service/BillService.java:53-77 | the loop keeps the same products and changes nothing but stock |
| BillService.ApplyLinesDeductsTotals | src/main/java/js/zubigaray/facturacion/service/BillService.java:53-77 | on success each product's stock drops by the sum of the quantities requested of it, and products not requested are unchanged |
| BillService.ApplyLinesKeepsStockNonNegative | src/main/java/js/zubigaray/facturacion/service/BillService.java:53-65 | from non-negative stock, no product ends below zero |
| BillService.ApplyLinesSucceedsIffFeasible | src/main/java/js/zubigaray/facturacion/service/BillService.java:53-65 | with non-negative quantities the stock loop succeeds exactly when every product exists, is active and covers the total requested of it, so a repeated product is checked against already reduced stock (and then fails at the save) |
| BillService.ApplyLinesFailsAtFirstBadLine | src/main/java/js/zubigaray/facturacion/service/BillService.java:53-65 | the call fails with an error exactly when some line fails with it after all earlier lines succeeded: lines run in order and the first failure decides |
| BillService.OverOrderingOneProductFails | src/main/java/js/zubigaray/facturacion/service/BillService.java:53-65 | stock 5 with two lines of 3 fails on the second line; a single line of 6 fails; 3 then 2 empties the stock |
| BillService.ProcessLine | src/main/java/js/zubigaray/facturacion/service/BillService.java:54-65 | one line: not found, inactive and not enough stock each fail and leave the rows unchanged; otherwise the stock is deducted |
| BillService.DeductAll | src/main/java/js/zubigaray/facturacion/service/BillService.java:53-77 | the loop with its rollback: either the rows end as the ordered deductions say, or they end as they began and the failing line's error is returned |
| BillService.CreateBill | src/main/java/js/zubigaray/facturacion/service/BillService.java:41-86 | an unknown user fails before any product is read; otherwise the first failing line decides the error, and after the loop a repeated product makes the save fail; every failure leaves stock and bills as they were; on success every deduction is committed and one new active bill of that user with one line per request is stored under the next id |
| BillService.SoftDelete | src/main/java/js/zubigaray/facturacion/service/BillService.java:89-92 | only the bill flag changes; product rows are untouched |
| UserDetailsService.AuthorityOf | src/main/java/js/zubigaray/facturacion/service/CustomUserDetailsService.java:42 | "ROLE_" + the upper-cased role name; `AuthoritiesArePrefixed` and `OneAuthorityPerRole` state its properties |
| UserDetailsService.AuthoritiesOf | src/main/java/js/zubigaray/facturacion/service/CustomUserDetailsService.java:39-44 | the authorities are exactly the images of the user's roles |
| UserDetailsService.LoadUserByUsername | src/main/java/js/zubigaray/facturacion/service/CustomUserDetailsService.java:33-52 | fails with "Usuario no encontrado: " + username exactly for an unknown username; otherwise the stored username and hash with one authority per role |
| UserDetailsService.AuthoritiesArePrefixed | src/main/java/js/zubigaray/facturacion/service/CustomUserDetailsService.java:42 | every authority is "ROLE_" followed by the upper-cased name of one of the roles |
| UserDetailsService.OneAuthorityPerRole | src/main/java/js/zubigaray/facturacion/service/CustomUserDetailsService.java:39-44 | with role names distinct after upper-casing, there are exactly as many authorities as roles |
| UserFactory.ValidateAndBuildUser | src/main/java/js/zubigaray/facturacion/util/UserFactory.java:24-44 | succeeds exactly when neither username nor email is taken; a taken username is reported first; the built user copies the profile, has the encoded password and no roles |
| UserFactory.BuiltUserKeepsColumnsUnique | src/main/java/js/zubigaray/facturacion/util/UserFactory.java:24-44 | storing the built user under a new id keeps usernames and emails unique |
| JwtUtil.ToWholeSeconds | src/main/java/js/zubigaray/facturacion/util/JwtUtil.java:91-98 | a time stamp is cut to a whole second toward zero, moving it by less than a second |
| JwtUtil.ExtractAllClaims | src/main/java/js/zubigaray/facturacion/util/JwtUtil.java:48-55 | fails exactly when the parser rejects the token, and otherwise returns the parsed payload |
| JwtUtil.ExtractUsername | src/main/java/js/zubigaray/facturacion/util/JwtUtil.java:32-34 | the subject of the parsed token, possibly null; `AccessTokenRoundTrip` and `RefreshTokenRoundTrip` state what it reads back |
| JwtUtil.ExtractExpiration | src/main/java/js/zubigaray/facturacion/util/JwtUtil.java:36-38 | the expiration of the parsed token, possibly null; the round-trip lemmas state what it reads back |
| JwtUtil.IsTokenExpired | src/main/java/js/zubigaray/facturacion/util/JwtUtil.java:57-60 | `exp.before(now)`, throwing on a null expiration; `ValidateToken` states its outcome through it |
| JwtUtil.ValidateToken | src/main/java/js/zubigaray/facturacion/util/JwtUtil.java:58-66 | the outcome for every shape of parsed token: missing subject or expiration throws, another subject is false, otherwise not strictly expired |
| JwtUtil.ValidateTokenIff | src/main/java/js/zubigaray/facturacion/util/JwtUtil.java:58-66 | validation holds exactly when the subject is the username and now <= exp, so a token expiring exactly now is still valid |
| JwtUtil.AccessClaims | src/main/java/js/zubigaray/facturacion/util/JwtUtil.java:69-79 | an access token's claims are exactly "roles" holding the user's authorities |
| JwtUtil.RefreshClaims | src/main/java/js/zubigaray/facturacion/util/JwtUtil.java:83-87 | a refresh token's claims are exactly "type": "refresh" |
| JwtUtil.CreateToken | src/main/java/js/zubigaray/facturacion/util/JwtUtil.java:90-98 | signs the claims with subject, issue time now and expiry now + validity; the round-trip lemmas state what reads back |
| JwtUtil.GenerateToken | src/main/java/js/zubigaray/facturacion/util/JwtUtil.java:69-80 | the access token; `AccessTokenRoundTrip` states what it reads back |
| JwtUtil.GenerateRefreshToken | src/main/java/js/zubigaray/facturacion/util/JwtUtil.java:83-87 | the refresh token; `RefreshTokenRoundTrip` states what it reads back |
| JwtUtil.ExtractRoles | src/main/java/js/zubigaray/facturacion/util/JwtUtil.java:107-110 | the "roles" claim, null when absent, a cast failure on text; `AccessTokenRoundTrip` and `RefreshTokenRoundTrip` state what it reads back |
| JwtUtil.IsRefreshToken | src/main/java/js/zubigaray/facturacion/util/JwtUtil.java:83-87 | the token carries "type": "refresh"; the two corrected members of the Findings test it |
| JwtUtil.AccessTokenRoundTrip | src/main/java/js/zubigaray/facturacion/util/JwtUtil.java:69-98 | until it expires, an access token reads back its username and authorities, expires one access lifetime after issue, and validates |
| JwtUtil.RefreshTokenRoundTrip | src/main/java/js/zubigaray/facturacion/util/JwtUtil.java:83-98 | until it expires, a refresh token reads back its username, carries only the refresh marker and no roles, lives one refresh lifetime, and validates |
| JwtUtil.ValidateIgnoresClaims | src/main/java/js/zubigaray/facturacion/util/JwtUtil.java:63-66 | validation depends only on subject and expiration, never on "type" or "roles" |
| AuthService.RoleNames | src/main/java/js/zubigaray/facturacion/service/AuthService.java:105-107 | the response role names are exactly the names of the user's roles |
| AuthService.GetAuthResponse | src/main/java/js/zubigaray/facturacion/service/AuthService.java:100-123 | succeeds exactly for a stored username; tokens are made from the reloaded details; profile and role names come from the user row; tokenType is null |
| AuthService.Authenticates | src/main/java/js/zubigaray/facturacion/service/AuthService.java:63-68 | the authentication manager: the username loads and the password matches its hash; `LoginFailsUniformly` states login through it |
| AuthService.Login | src/main/java/js/zubigaray/facturacion/service/AuthService.java:61-77 | login; `LoginFailsUniformly` and `LoginAnswersStoredUser` state its outcomes |
| AuthService.LoginFailsUniformly | src/main/java/js/zubigaray/facturacion/service/AuthService.java:61-71 | login succeeds exactly when the credentials authenticate; every failure, unknown user included, is "Usuario o contraseña incorrectos." |
| AuthService.LoginAnswersStoredUser | src/main/java/js/zubigaray/facturacion/service/AuthService.java:73-76 | a successful login answers with the stored row's username, email and role names |
| AuthService.LoadUserBySubject | src/main/java/js/zubigaray/facturacion/service/AuthService.java:81-82 | the subject loads exactly when it is present and stored |
| AuthService.RefreshToken | src/main/java/js/zubigaray/facturacion/service/AuthService.java:80-92 | refreshToken as written; `RefreshTokenOutcomes`, `RefreshReloadsUser` and `RefreshAcceptsAccessToken` state its outcomes |
| AuthService.RefreshTokenOutcomes | src/main/java/js/zubigaray/facturacion/service/AuthService.java:80-92 | parser rejection, missing subject, unknown subject, missing expiration and expiry each give their own error; a stored subject with an unexpired token succeeds |
| AuthService.RefreshReloadsUser | src/main/java/js/zubigaray/facturacion/service/AuthService.java:80-92 | a refresh answers with the subject's current row and tokens built from its current authorities |
| AuthService.RefreshAcceptsAccessToken | src/main/java/js/zubigaray/facturacion/service/AuthService.java:80-92 | as written, an unexpired access token of a stored user is accepted for refresh |
| AuthService.RefreshAcceptsRefreshToken | src/main/java/js/zubigaray/facturacion/service/AuthService.java:80-92 | an unexpired refresh token of a stored user is accepted |
| AuthService.RefreshTokenChecked | src/main/java/js/zubigaray/facturacion/service/AuthService.java:80-92 | refreshToken with the type check; `CheckedRefreshKeepsTokenKindsApart` states its outcomes |
| AuthService.CheckedRefreshKeepsTokenKindsApart | src/main/java/js/zubigaray/facturacion/service/AuthService.java:84-86 | with the type check an access token is refused with the refresh message and a refresh token is accepted |
| AuthService.ResponseRolesVersusTokenRoles | src/main/java/js/zubigaray/facturacion/service/AuthService.java:100-111 | the response lists raw role names while the access token's roles claim holds their "ROLE_" authorities |
| AuthService.DefaultRoleAuthority | src/main/java/js/zubigaray/facturacion/service/AuthService.java:44-53 | the default role grants exactly ROLE_USER |
| AuthService.Register | src/main/java/js/zubigaray/facturacion/service/AuthService.java:40-58 | a uniqueness failure writes nothing; otherwise the USER role is reused or created once, the user is saved with exactly that role and the response lists ["USER"] |
| AdminService.FirstMissingRole | src/main/java/js/zubigaray/facturacion/service/AdminService.java:48-53 | none exactly when every requested name is stored; otherwise the first requested name that is not |
| AdminService.RolesNamed | src/main/java/js/zubigaray/facturacion/service/AdminService.java:48-56 | exactly the stored roles some requested name refers to |
| AdminService.LookUpRoles | src/main/java/js/zubigaray/facturacion/service/AdminService.java:48-53 | the loop reports the first missing name, or else collects exactly the named roles, without writing |
| AdminService.CreateUserWithRoles | src/main/java/js/zubigaray/facturacion/service/AdminService.java:33-72 | uniqueness first; a missing role gives "Rol no encontrado: " + name and saves nothing; otherwise the user is saved under the next id with exactly the named roles and the answer is `ConvertToDto` of that id and user (convertToDTO keeps only id and username); the role table is never written |
| JwtAuthenticationFilter.FilterChain.DoFilter | src/main/java/js/zubigaray/facturacion/config/security/filter/JwtAuthenticationFilter.java:85 | the chain records the context it runs with |
| JwtAuthenticationFilter.Authenticated | src/main/java/js/zubigaray/facturacion/config/security/filter/JwtAuthenticationFilter.java:43-86 | the context is either kept or set; `SetOnlyByValidToken` and `ValidTokenSetsAuthentication` state when it is set, in both directions |
| JwtAuthenticationFilter.DoFilterInternal | src/main/java/js/zubigaray/facturacion/config/security/filter/JwtAuthenticationFilter.java:37-86 | the context ends as `Authenticated` says and the chain runs exactly once, on that context |
| JwtAuthenticationFilter.SetOnlyByValidToken | src/main/java/js/zubigaray/facturacion/config/security/filter/JwtAuthenticationFilter.java:55-76 | the context changes only when it was empty and the token from index 7 of a "Bearer " header is unexpired and names a stored user; it then holds that user with the store's authorities |
| JwtAuthenticationFilter.ValidTokenSetsAuthentication | src/main/java/js/zubigaray/facturacion/config/security/filter/JwtAuthenticationFilter.java:55-76 | the converse: with an empty context, a "Bearer " header whose token parses to an unexpired payload naming a stored user sets that user's authentication with the store's authorities |
| JwtAuthenticationFilter.ExistingAuthenticationKept | src/main/java/js/zubigaray/facturacion/config/security/filter/JwtAuthenticationFilter.java:60 | an existing authentication is never replaced |
| JwtAuthenticationFilter.NoBearerNoChange | src/main/java/js/zubigaray/facturacion/config/security/filter/JwtAuthenticationFilter.java:48-51 | a missing header or one without the case-sensitive "Bearer " prefix changes nothing |
| JwtAuthenticationFilter.AuthoritiesIgnoreTokenRoles | src/main/java/js/zubigaray/facturacion/config/security/filter/JwtAuthenticationFilter.java:62-71 | tokens differing only in their claims authenticate alike: authorities come from the store |
| JwtAuthenticationFilter.RefreshTokenAuthenticates | src/main/java/js/zubigaray/facturacion/config/security/filter/JwtAuthenticationFilter.java:55-76 | as written, an unexpired refresh token of a stored user authenticates a request with the store's authorities |
| JwtAuthenticationFilter.AuthenticatedChecked | src/main/java/js/zubigaray/facturacion/config/security/filter/JwtAuthenticationFilter.java:55-76 | the filter with a type check: it keeps the context or sets what the filter as written sets |
| JwtAuthenticationFilter.CheckedFilterKeepsTokenKindsApart | src/main/java/js/zubigaray/facturacion/config/security/filter/JwtAuthenticationFilter.java:65 | with the type check an unexpired access token still authenticates and an unexpired refresh token does not |
| SecurityConfig.Decide | src/main/java/js/zubigaray/facturacion/config/security/SecurityConfig.java:52-66 | the decision of the rule table for a path and principal; the path lemmas below state it for each kind of path |
| SecurityConfig.FirstMatchIsFirst | src/main/java/js/zubigaray/facturacion/config/security/SecurityConfig.java:52-66 | no rule matches exactly when none of them does; otherwise the access is that of the first matching rule |
| SecurityConfig.RoleChecksAddPrefix | src/main/java/js/zubigaray/facturacion/config/security/SecurityConfig.java:62-63 | for all roles: hasRole(r) is hasAnyRole(r); hasAnyRole admits a principal exactly when it holds "ROLE_" + one of the roles, forbids any other authenticated one and challenges an anonymous one |
| SecurityConfig.SubtreeMatch | src/main/java/js/zubigaray/facturacion/config/security/SecurityConfig.java:55 | a sub-path pattern matches every path below its base |
| SecurityConfig.PublicPathsOpen | src/main/java/js/zubigaray/facturacion/config/security/SecurityConfig.java:54-60 | auth, API-doc, swagger and health paths are permitted for everyone, anonymous included |
| SecurityConfig.AdminPathsNeedAdmin | src/main/java/js/zubigaray/facturacion/config/security/SecurityConfig.java:62 | admin paths: anonymous is challenged, ROLE_ADMIN is permitted, anyone else is forbidden |
| SecurityConfig.UserPathsNeedUserOrAdmin | src/main/java/js/zubigaray/facturacion/config/security/SecurityConfig.java:63 | user paths: anonymous is challenged, ROLE_USER or ROLE_ADMIN is permitted, anyone else is forbidden |
| SecurityConfig.OtherPathsNeedAuthentication | src/main/java/js/zubigaray/facturacion/config/security/SecurityConfig.java:65 | a path no rule lists is permitted exactly for authenticated principals and challenged otherwise |
| SecurityConfig.UnlistedPathExample | src/main/java/js/zubigaray/facturacion/config/security/SecurityConfig.java:64-65 | an example of an unlisted path, "/api/bills", which falls to the catch-all rule |

## Findings

| source | as written | input that shows it | evidently intended | confidence | as-written member | corrected member |
|---|---|---|---|---|---|---|
| src/main/java/js/zubigaray/facturacion/service/AuthService.java:80-92 | refresh validates subject and expiry only and never reads the "type" claim | an unexpired access token sent to the refresh endpoint yields a new token pair | only tokens carrying "type": "refresh" are accepted for refresh | medium, not executed | AuthService.RefreshAcceptsAccessToken | AuthService.RefreshTokenChecked, with AuthService.CheckedRefreshKeepsTokenKindsApart |
| src/main/java/js/zubigaray/facturacion/config/security/filter/JwtAuthenticationFilter.java:65 | the filter validates subject and expiry only and never reads the "type" claim | an unexpired refresh token sent as "Bearer " header authenticates any request, for the refresh lifetime | only access tokens authenticate requests; refresh tokens are good only for refresh | medium, not executed | JwtAuthenticationFilter.RefreshTokenAuthenticates | JwtAuthenticationFilter.AuthenticatedChecked, with JwtAuthenticationFilter.CheckedFilterKeepsTokenKindsApart |

## Left out

- Cryptography: HMAC signing, Base64 key decoding, the jjwt parser and BCrypt are opaque parameters. The parser may reject any token.
- Clock: `createToken` reads the clock twice, and `validateToken` reads it separately in `extractUsername` and `isTokenExpired`. Each call reads one `now` here.
- DaoAuthenticationProvider: modelled as `AuthService.Authenticates` (the user loads and the password matches). Account-status checks, timing mitigation and exception translation beyond that are not modelled.
- `findByUsername(null)` is taken to find no row, so a token with no subject fails in refresh with "Usuario no encontrado: null".
- Floating point: prices are exact reals, not IEEE doubles. `BillEntity.getTotal` and `BillUser.getSubtotal` are not modelled.
- JPA internals: identity generation is a counter and cascades are one map update. A bill with two lines for the same product has clashing composite keys (bill id, product id); the model takes the persist to fail and roll back, as `DuplicateLineKey`. Which exception the persistence provider raises, and its message, are not modelled.
- Concurrency between requests and real locking: each operation runs alone.
- Bean Validation annotations such as quantity >= 1 are not enforced. The stock lemmas state where they need non-negative quantities.
- Entities.Product.SubtractStock, BillService.ApplyLinesKeepsStockNonNegative: stock, quantities, ids and time stamps are unbounded integers, not Java's 64-bit `long`. Java can overflow here only on a quantity that the `@Min(1)` validation rejects: from stock 0, an amount of -2^63 passes `hasStock` and wraps the stock to -2^63, while the model ends at 2^63. The non-negativity these two members state holds for the unbounded integers only.
- Iteration order of hash sets: the requested role names are a sequence in an unspecified order. Authority and role-name lists are sets, because Spring's `User` sorts its authorities into a set.
- Java's locale-sensitive `toUpperCase`: modelled as ASCII upper-casing.
- The rest of SecurityConfig: CORS, CSRF, session policy and bean wiring. Path normalisation of request matchers is also left out.
- JwtAuthenticationEntryPoint: the JSON body it writes is not modelled. Its use is the `Challenge` decision.
- Controllers: these are pass-throughs; `AuthController.refresh` strips seven characters from the header without checking the prefix.
- Pass-through service finders (`findAllActive`, `findById`, `findByName`, `findByPriceRange`, `save` in BillService and ProductService): they are the repository functions and store methods above.
- Request details that the filter attaches to the authentication, and logging.
- JwtAuthenticationFilter.Authenticated: its own ensures only says the context is kept or set. When it is set is stated by `SetOnlyByValidToken` (only if) and `ValidTokenSetsAuthentication` (if), beside `ExistingAuthenticationKept`, `NoBearerNoChange` and `AuthoritiesIgnoreTokenRoles`.
- The corrected members of the Findings (`AuthService.RefreshTokenChecked`, `JwtAuthenticationFilter.AuthenticatedChecked`) stand beside the members as written; `AuthService.RefreshToken` and `JwtAuthenticationFilter.DoFilterInternal` keep the behaviour of the code.
