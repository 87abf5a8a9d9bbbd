# AMSA website backend: authentication, profiles, members, blogs and announcements

This project models the request handlers of the AMSA website backend, an Express REST
server over a relational database:

- account signup, login and "who am I" (`controllers/auth.js`, `routes/auth.js`);
- the bearer-token gate on protected routes (`middleware/auth.js`);
- profile fetch, partial update and password change (`controllers/profile.js`);
- the public and signed-in user views and the member roster (`controllers/user.js`);
- the admin-only blog and announcement CRUD routes (`routes/blogs.js`,
  `routes/announcement.js`).

A response is `Http.Response`: `Error(status, message)`, `Invalid(errors)` for the
express-validator 400 reply, or `Ok(status, payload)`. Each Sequelize table the
handlers write to is a class over a `map` from row id to record, with an
auto-increment counter: `Users.UserTable`, `Blogs.BlogTable` and
`Announcements.AnnouncementTable`. A request handler that writes is a method on such
a table. Its outcome, the reply together with the new rows, is stated once as a pure
function, for example `AuthController.SignupOutcome` or `Blogs.UpdateOutcome`. The
lemmas are about those functions.

The libraries the handlers call are parameters, constrained only where a lemma needs
it (`Libs`):

- bcrypt is `PasswordHasher`. `SoundHasher` says a password verifies against its own
  hash and a hash never equals the password.
- jsonwebtoken is `TokenCodec`. `SoundCodec` says a signed token verifies to its claims.
- xss, slugify, validator's `isEmail`, `normalizeEmail` and `isISO8601`, and `new Date`
  are the record `Sanitizers`.

The JavaScript runtime behaviour the handlers depend on is written out in `Js`:

- a request body is a map from key to `Str` or `Null`; an absent key is `undefined`;
- truthiness, and express-validator's `toString`;
- `trim` with the ECMAScript white-space set;
- `toLowerCase` and `endsWith`;
- `parseInt`, including hex prefixes and a stop at the first non-digit.

How the database reads the text of a route parameter as an integer key (the input
syntax of Postgres's `integer` type) is written out in `Postgres`.

Behaviour worth knowing that the model makes explicit:

- The password rule in `routes/auth.js` anchors its pattern only at the start. The
  lookaheads cannot see past a line break, and only the first character must come
  from the final class. So anything may follow a valid start (`PatternIgnoresTail`):
  `"Aa1!    "` passes, `"A1!\nabcd"` fails and `" Aa1!bcd"` fails.
- Signup stores role `"member"` and signs a token with that stored role, even for an
  `@amsa.mn` address. Login and `/me` report the effective role, which is `"admin"`
  for such an address. `AuthController.SignupTokenCarriesStoredRole` states this
  difference.
- Login answers the same 401 message whether the email is unknown or the password is
  wrong (`AuthController.LoginHidesWhichCheckFailed`).
- `isEmail` accepts addresses such as `"+tag@gmail.com"` that `normalizeEmail` (with its
  default removal of sub-addresses) turns into `false`, and that `false` replaces the
  body's `email`. Such a body passes validation, and then login and signup answer 400
  "Missing required fields" (`AuthRoutes.ValidatedLoginMissingFields`,
  `AuthRoutes.ValidatedSignupMissingFields`). `Sanitizers.normalizeEmail` writes that
  `false` as `""`, which is falsy in the same way.
- `GET /profile/:id` (behind the token gate) and `GET /public-profile/:id` hand the
  parameter text to `findByPk`, and the database reads it as an integer. Text it cannot
  read, such as `"7abc"`, `"7.9"` or `"abc"`, makes the query fail, and the handler
  answers 500 "Server not available". `/profile/:id` shows the caller's own columns when
  `parseInt` of the parameter equals the caller's id. Wherever the database reads a
  number, `parseInt` reads the same number (`Postgres.Int4AgreesWithParseInt`). So the
  own view goes with exactly the caller's own row (`UserController.OwnViewIsOwnRow`),
  and `"7"`, `"07"` and `" 7 "` are all the own profile for id 7.

## Model

| member | source | states |
|---|---|---|
| AuthController.AdminEmailIsDomainSuffix | controllers/auth.js:9 | an email is an AMSA admin email iff its lower-cased form ends with "@amsa.mn"; the check ignores case; a missing email is never an admin email |
| AuthController.AdminDomainAnyCase | controllers/auth.js:9 | any local part followed by any capitalisation of "@amsa.mn" is an admin email |
| AuthController.EffectiveRole | controllers/auth.js:148 | the role given at login and at /me is "admin" or "member"; it is "admin" iff the email is in the admin domain or the stored level is at least 10 |
| AuthController.NewUserColumn | controllers/auth.js:66-100 | each profile column of a new user is its body field passed through xss when that field is truthy and null otherwise; the birthday is the raw `birthDate` value; the bio starts null |
| AuthController.NewUserAccount | controllers/auth.js:66-100 | a new user has the given id, the normalized email, the password hash, role "member", no level, an unverified email and no picture, reset hash or acceptance status |
| AuthController.NewUserPasswordHashed | controllers/auth.js:63 | the stored password of a new user verifies against the submitted password and differs from it |
| AuthController.SignupOutcome | controllers/auth.js:19-115 | missing email or password gives 400 "Missing required fields"; an email already taken gives 400 with the generic signup message; both leave the table unchanged; 201 iff both fields are present and the normalized email is free, and then the new row is stored under the new id and the reply carries a token signed for that id with the stored role |
| AuthController.Signup | controllers/auth.js:19-115 | the signup handler checks, hashes, inserts and signs exactly as SignupOutcome says, and keeps the table's invariant (ids and unique emails) |
| AuthController.FindByEmail | controllers/auth.js:131-134 | the lookup finds a user iff some row has that email, and what it finds is such a row |
| AuthController.Login | controllers/auth.js:122-164 | 400 "Missing required fields" iff email or password is missing; 401 "Invalid credentials" iff no row has the normalized email or the password does not verify; 200 iff both are present, a row has the email and the password verifies against it, and then the reply carries the row's id, email, effective role and names and a token for that id and role |
| AuthController.LoginHidesWhichCheckFailed | controllers/auth.js:136-145 | an unknown email and a wrong password produce the identical reply |
| AuthController.LoginTokenMatchesReply | controllers/auth.js:148-163 | a successful login's token verifies to the id and role in the reply |
| AuthController.Me | controllers/auth.js:171-191 | 404 "User not found" iff the token's id has no row; 200 iff it has one, and then the reply is that row's id, email, effective role (admin iff admin-domain email or level at least 10) and names |
| AuthController.LoginAndMeAgree | controllers/auth.js:171-191 | /me called with the token from a login reports the same user and role as the login reply |
| AuthController.SignupThenLogin | controllers/auth.js:19-164 | after a successful signup, logging in with the same email and password succeeds as the new user, with a token for the new id and its effective role |
| AuthController.SignupTokenCarriesStoredRole | controllers/auth.js:102-115 | for an admin-domain signup, the signup token says "member" while login computes "admin" for the same user |
| Users.Without | controllers/profile.js:9-11 | a view that excludes columns has exactly the remaining columns, each holding the user's value |
| Users.UserTable.Create | controllers/auth.js:66-100 | an insert stores the draft under the next id, leaves every other row alone and keeps ids and emails unique |
| Users.UserTable.Save | controllers/profile.js:81 | saving replaces exactly that user's row and keeps the invariant |
| AuthMiddleware.BearerToken | middleware/auth.js:6-7 | a token is found iff the header starts with "Bearer ", and it is what follows that prefix |
| AuthMiddleware.Authenticate | middleware/auth.js:5-18 | 401 "No token" iff the header has no "Bearer " prefix or nothing after it; 401 "Invalid token" iff the token does not verify; otherwise the request goes on with the verified claims |
| AuthMiddleware.RequireAuth | middleware/auth.js:5-18 | the middleware answers as Authenticate does and attaches the claims to the request only when they verified |
| AuthMiddleware.RequireRole | middleware/auth.js:20-26 | 401 without a user; 403 "Forbidden" iff the user's role differs from the required one; passes iff it is equal, so the check is an exact match and not a hierarchy |
| AuthMiddleware.AdminGate | routes/blogs.js:67-68 | a request passes the two admin gates iff its token verifies and the verified role is "admin", and then with those claims; a token that does not verify gets requireAuth's 401 reply; a verified token with any other role gets 403 "Forbidden" |
| AuthMiddleware.SignedTokenAuthenticates | middleware/auth.js:11-13 | a header carrying a token signed for some claims authenticates as exactly those claims, and passes the admin gate iff their role is "admin" |
| AuthRoutes.LookaheadFindsClass | routes/auth.js:21 | a lookahead succeeds iff a character of its class occurs before the first line terminator |
| AuthRoutes.LookaheadIgnoresTail | routes/auth.js:21 | text appended after a lookahead's match cannot make it fail |
| AuthRoutes.PatternIgnoresTail | routes/auth.js:21 | a password matching the pattern still matches whatever is appended, since the pattern is anchored only at the start |
| AuthRoutes.TrailingSpacesAccepted | routes/auth.js:21 | "Aa1!    " matches the password pattern |
| AuthRoutes.LineBreakHidesLetters | routes/auth.js:21 | "A1!\nabcd" does not match, because the lower-case lookahead stops at the line break |
| AuthRoutes.LeadingSpaceRejected | routes/auth.js:21 | " Aa1!bcd" does not match, because the first character must be a letter, digit or listed symbol |
| AuthRoutes.PasswordErrors | routes/auth.js:19-22 | the password is accepted iff it has at least 8 characters and matches the pattern; each failed rule reports its own message |
| AuthRoutes.EmailErrors | routes/auth.js:18 | the email is accepted iff isEmail holds for it |
| AuthRoutes.NameErrors | routes/auth.js:23-24 | a name is accepted iff it has a character outside the white-space set, that is, iff it is non-empty after trimming |
| AuthRoutes.SignupErrors | routes/auth.js:17-25 | the signup body is accepted iff the email, password, first-name and last-name rules all accept it |
| AuthRoutes.SanitizeSignup | routes/auth.js:18-24 | sanitizing normalizes the email and trims both names, and leaves every other key as sent |
| AuthRoutes.LoginErrors | routes/auth.js:27-30 | the login body is accepted iff the email passes isEmail and the password is non-empty |
| AuthRoutes.SanitizeLogin | routes/auth.js:28 | sanitizing normalizes the email and leaves every other key as sent |
| AuthRoutes.SignupRoute | routes/auth.js:8-25 | a body the validators reject gets 400 with the errors and the table is untouched; otherwise the signup handler runs on the sanitized body |
| AuthRoutes.LoginRoute | routes/auth.js:27-30 | 400 with errors iff validation fails; otherwise the login handler's reply on the sanitized body |
| AuthRoutes.ValidatedLoginMissingFields | routes/auth.js:27-30 | login answers 400 "Missing required fields" iff the body passes the validators and normalizeEmail turns the valid address into `false` |
| AuthRoutes.ValidatedSignupMissingFields | routes/auth.js:17-25 | a signup body that passes the validators is refused with 400 "Missing required fields" iff normalizeEmail turns the address into `false` |
| AuthRoutes.LoginSanitizesLikeSignup | routes/auth.js:17-30 | a login with the email and password of an accepted signup passes validation and reaches the handler with the same normalized email and password |
| AuthRoutes.SignupThenLoginRoute | routes/auth.js:17-30 | through both routes, a successful signup followed by a login with the same email and password logs in as the new user |
| AuthRoutes.MeRoute | routes/auth.js:32 | /me answers the middleware's 401 when the token is missing or invalid, otherwise what the /me handler answers for the verified claims |
| ProfileController.GetProfile | controllers/profile.js:7-17 | 404 iff the caller has no row; 200 iff it has one, and then every column except the password, with the row's values |
| ProfileController.PatchColumn | controllers/profile.js:57-79 | after an update, a profile column present in the body holds the body's value (xss-sanitized for free text, null for a falsy value), and an absent column keeps its old value |
| ProfileController.PatchColumns | controllers/profile.js:57-79 | the column rule holds for all 22 profile columns at once |
| ProfileController.PatchIdempotent | controllers/profile.js:57-79 | an empty body changes nothing, and applying the same body twice equals applying it once |
| ProfileController.UpdateProfile | controllers/profile.js:24-90 | 404 with the table untouched for an unknown caller; otherwise only the caller's row changes, and only in its profile columns, as Patch says, and the reply is 200 with that profile |
| ProfileController.ApplyUpdates | controllers/profile.js:57-79 | the field-by-field assignments produce exactly the patched profile, Patch of the old one |
| ProfileController.UpdateTouchesProfileOnly | controllers/profile.js:57-90 | the saved row differs from the old one only in profile columns, each as PatchedField says, and the reply never holds the password |
| ProfileController.ChangePasswordOutcome | controllers/profile.js:97-123 | 400 iff either password is missing; 404 iff the caller has no row; 401 iff the current password does not verify; all three leave the table unchanged; 200 iff both are present, the caller has a row and the current password verifies, and then only the caller's password changes, to the hash of the new password |
| ProfileController.ChangePassword | controllers/profile.js:97-123 | the handler does what ChangePasswordOutcome says and keeps the table's invariant |
| ProfileController.ChangedPasswordLogsIn | controllers/profile.js:117-119 | after a password change, login with the new password succeeds |
| UserController.PublicColumns | controllers/user.js:15-34 | the public view shows exactly the id, role, picture, names, social links, study columns and bio; the signed-in view of another user adds the two email columns; the own view hides only the secrets |
| UserController.FindById | controllers/user.js:89-91 | a lookup by a numeric id never fails: it finds the row iff the id has one, whether or not the id is in the 32-bit integer range, and otherwise finds nothing |
| UserController.FindByParam | controllers/user.js:36-38 | a lookup by parameter text fails iff the database cannot read the text as a 32-bit integer, finds nothing iff the number it reads has no row, and otherwise finds that row |
| UserController.RequestedId | controllers/user.js:59 | the id looked up is the database's integer reading of the parameter when one is given (None when it cannot read it, and in the 32-bit range when it can), and the caller's own numeric id, whatever its size, otherwise |
| UserController.GetPublicUser | controllers/user.js:5-53 | 400 "User ID is required" iff the parameter is empty; 500 "Server not available" iff the database cannot read it as an integer; 404 iff the number read has no row; 200 iff it has one, and then exactly the public columns of that row |
| UserController.GetUserProfile | controllers/user.js:56-106 | 400 iff no parameter and caller id 0; 500 iff a parameter is given and the database cannot read it as an integer; 404 iff the requested id (the parameter's reading, or the caller's own id of any size) has no row; 200 iff it has one; with no parameter the caller's row without the secrets; otherwise that row with the own or the signed-in exclusions, chosen by parseInt of the parameter against the caller's id |
| UserController.OwnIdMeansOwnProfile | controllers/user.js:59-67 | for a caller id in the 32-bit range, asking for one's own id in decimal gives the same reply as asking with no id |
| UserController.OutOfRangeOwnIdDiverges | controllers/user.js:59-91 | for a caller id outside the 32-bit range that has no row, the decimal parameter gets 500 "Server not available" while no parameter gets 404 "User not found" |
| UserController.OwnViewIsOwnRow | controllers/user.js:67-91 | with rows stored under their ids, a found profile is shown with the own exclusions iff it is the caller's own row |
| UserController.SignedInFailsLikePublic | controllers/user.js:36-106 | for a given parameter, the signed-in view fails iff the public view fails, with the same status and message |
| UserController.EmailColumnsAdded | controllers/user.js:15-87 | the signed-in list shows exactly the public columns plus the two email columns |
| UserController.OthersSeeNoContactDetails | controllers/user.js:70-87 | another user's profile never includes the birthday, address, city, state, zip code or phone number |
| UserController.SignedInSeesMoreThanPublic | controllers/user.js:65-91 | for someone else's id, the signed-in view has every column of the public view, with equal values |
| UserController.WithRole | controllers/user.js:132-138 | the role filter keeps exactly the rows with that role, in order |
| UserController.InYear | controllers/user.js:141-146 | the year filter keeps exactly the rows of that year, in order |
| UserController.Filter | controllers/user.js:132-146 | a team-page filter keeps exactly the rows its selector (a role or a year) accepts, in order |
| UserController.FilterAppend | controllers/user.js:132-146 | filtering by role or by year distributes over concatenation |
| UserController.TruthyYears | controllers/user.js:149 | the group keys are exactly the non-zero years that occur, each once |
| UserController.SplitBoards | controllers/user.js:132-138 | the loop yields the "sb" rows and the "tuz" rows |
| UserController.CurrentBoard | controllers/user.js:141-146 | the loop yields the "tuz" rows of the current year |
| UserController.EmptyGroups | controllers/user.js:153-155 | one empty group per year |
| UserController.GroupByYear | controllers/user.js:149-162 | a group exists exactly for each non-zero year that occurs, and holds exactly that year's rows in order |
| UserController.PushByYear | controllers/user.js:157-162 | appending each row with a truthy year to its year's list keeps the set of years and leaves each list holding exactly that year's rows, in order |
| UserController.InYearStep | controllers/user.js:157-162 | pushing one row extends only the group of its year |
| UserController.GetMembers | controllers/user.js:109-170 | 503 "DB not ready" iff the role table is unavailable; 200 iff it is available, and then the "sb" rows, the year groups of the "tuz" rows and the current year's "tuz" rows |
| UserController.BoardsPartition | controllers/user.js:132-162 | no row is in both boards, and a row is in the current-year group iff it is a "tuz" row of that year |
| UserController.CurrentBoardIsItsYearGroup | controllers/user.js:141-162 | a non-zero current year has its own year group iff the current board is non-empty |
| Js.Trim | controllers/auth.js:47 | the result is a slice of the text with only white space outside it, neither starts nor ends with white space, and is empty iff the text is all white space |
| Js.ToLowerConcat | controllers/auth.js:9 | lower-casing distributes over concatenation and is idempotent |
| Js.ParseIntString | controllers/user.js:67 | parseInt reads back the decimal form of every integer, read over unbounded integers (exact for JavaScript numbers below 2^53 in magnitude) |
| Postgres.Int4Input | controllers/user.js:36 | the database's reading of parameter text as an integer yields only values in the 32-bit range |
| Postgres.Int4Core | controllers/user.js:36 | a number it reads starts with a sign or a digit and lies in the 32-bit range |
| Postgres.Int4RejectsNonIntegers | controllers/user.js:36 | "7abc", "7.9" and "0x7" are not read as integers |
| Postgres.NonDigitRejected | controllers/user.js:36 | any character other than a digit after the first makes the text no integer |
| Postgres.Int4SkipsSpace | controllers/user.js:36 | " 42 " reads as 42 |
| Postgres.Int4AgreesWithParseInt | controllers/user.js:36-67 | whatever text the database reads as a number, parseInt reads as the same number |
| Postgres.Int4ReadsDecimal | controllers/user.js:89 | the decimal form of every 32-bit integer reads back as that integer, and that of any other integer is refused as out of range |
| Listing.Insert | routes/blogs.js:21-36 | inserting into a newest-first list keeps it newest first and adds exactly the one row |
| Listing.SortDescending | routes/blogs.js:21-36 | the listing holds the same rows, newest first |
| Validation.Required | routes/blogs.js:70-72 | a required field passes iff it is truthy, and otherwise reports its message |
| Validation.OptionalString | routes/blogs.js:70-72 | an optional field passes iff it is absent or a string |
| Validation.OptionalIso8601 | routes/announcement.js:73 | an optional date passes iff it is absent or an ISO 8601 date |
| Blogs.BlogTable.Create | routes/blogs.js:86-92 | an insert stores the draft under the next id, leaves every other row alone and keeps slugs unique |
| Blogs.BlogTable.Update | routes/blogs.js:131 | an update replaces only that row and keeps slugs unique |
| Blogs.BlogTable.Destroy | routes/blogs.js:146 | a destroy removes only that row |
| Blogs.CreateErrors | routes/blogs.js:69-73 | a new blog is accepted iff title and content are truthy and the cover image URL is absent or a string |
| Blogs.CreateOutcome | routes/blogs.js:65-100 | the gate's 401/403 comes first; then 400 on invalid fields; then 409 iff the slug of the title is taken; these leave the table unchanged; 201 iff the gate passes, the fields are valid and the slug is free, and then the new blog by the caller is stored under the new id; slugs stay unique |
| Blogs.CreateBlog | routes/blogs.js:65-100 | the route runs the gates, the validators and the handler exactly as CreateOutcome says |
| Blogs.UpdateErrors | routes/blogs.js:107-111 | an edit is accepted iff each of title, content and cover URL is absent or a string |
| Blogs.UpdateOutcome | routes/blogs.js:103-139 | gate, then 400, then 404 iff the id has no blog, then 409 iff a new title's slug belongs to another blog; 200 iff none of these apply, and then only that blog changes; slugs stay unique |
| Blogs.UpdateBlog | routes/blogs.js:103-139 | the route does what UpdateOutcome says |
| Blogs.EditKeepsIdentity | routes/blogs.js:117-132 | an edit keeps the id, author and creation time, and a body with no truthy field changes nothing |
| Blogs.DeleteOutcome | routes/blogs.js:142-147 | gate, then 404 iff the id has no blog; otherwise exactly that blog is removed and the rest are untouched |
| Blogs.DeleteBlog | routes/blogs.js:142-147 | the route does what DeleteOutcome says |
| Blogs.GetBySlug | routes/blogs.js:45-62 | 404 iff no blog has the slug; 200 iff one has, and then a stored blog with that slug |
| Blogs.CreateThenGetBySlug | routes/blogs.js:45-100 | a created blog is what its slug then reads back |
| Blogs.UpdateThenGetBySlug | routes/blogs.js:114-133 | an edited blog is what its slug then reads back |
| Blogs.DeleteThenGetBySlug | routes/blogs.js:45-147 | after a delete, the removed blog's slug gives 404 and every other blog is still found under its own slug |
| Blogs.ListBlogs | routes/blogs.js:21-36 | the list holds every blog exactly once, newest first |
| Announcements.AnnouncementTable.Create | routes/announcement.js:78-83 | an insert stores the draft under the next id and leaves every other row alone |
| Announcements.AnnouncementTable.Update | routes/announcement.js:114 | an update replaces only that row |
| Announcements.AnnouncementTable.Destroy | routes/announcement.js:127 | a destroy removes only that row |
| Announcements.CreateErrors | routes/announcement.js:70-74 | a new announcement is accepted iff title and body are truthy and the publication date is absent or ISO 8601 |
| Announcements.CreateOutcome | routes/announcement.js:66-92 | gate, then 400; otherwise 201 with the announcement stored under the new id; its publication time is the parsed date when there is one and the current time otherwise |
| Announcements.CreateAnnouncement | routes/announcement.js:66-92 | the route does what CreateOutcome says |
| Announcements.UpdateErrors | routes/announcement.js:99-103 | an edit is accepted iff title and body are absent or strings and the date is absent or ISO 8601 |
| Announcements.EditKeepsIdentity | routes/announcement.js:109-114 | an edit keeps the id, author and creation time, and a body with nothing to change changes nothing |
| Announcements.UpdateOutcome | routes/announcement.js:95-121 | gate, then 400, then 404 iff the id has no announcement; 200 iff none of these apply, and then only that announcement changes |
| Announcements.UpdateAnnouncement | routes/announcement.js:95-121 | the route does what UpdateOutcome says |
| Announcements.DeleteOutcome | routes/announcement.js:124-129 | gate, then 404 iff the id has no announcement; otherwise exactly that announcement is removed |
| Announcements.DeleteAnnouncement | routes/announcement.js:124-129 | the route does what DeleteOutcome says |
| Announcements.GetAnnouncement | routes/announcement.js:47-63 | 404 iff the id has no announcement; 200 iff it has one, and then that announcement |
| Announcements.WritesReadBack | routes/announcement.js:79-129 | after a create or update, reading the id gives what was written; after a delete it gives 404 |
| Announcements.ListAnnouncements | routes/announcement.js:20-39 | the list holds every announcement exactly once, latest publication first, ties broken by creation time |

## Left out

- Database failures and the `catch` branches that answer 500 are not modelled, except for a user id the database cannot read as an integer. The `error` field of a 500 reply (the exception's message) is not modelled. Logging is not modelled either.
- Token expiry (7 days) and the clock are not modelled. Time values such as `now` and the current year are parameters.
- bcrypt, jsonwebtoken, xss, slugify, validator and `Date` parsing are opaque parameters. Only the properties named in `Libs` are assumed of them, and only by the lemmas that need them.
- `toLowerCase` is modelled for ASCII letters only. The Unicode case mappings of other letters are not.
- JSON values other than strings and null (numbers, booleans, arrays, objects) are not modelled. A body field is either a string or null.
- `updatedAt` columns and Sequelize's automatic timestamps are not modelled. `createdAt` is a parameter of the create operations.
- The author join (`include: User`) in the blog and announcement reads is not modelled. A read returns the stored record.
- The year groups of the roster are a map, so JavaScript object key order is not modelled.
- Blog and announcement `:id` parameters are integers; a non-numeric id is not modelled. On the announcement `GET /:id` and `DELETE /:id` and the blog `DELETE /:id`, which have no `try`/`catch`, the failed query would be an unhandled promise rejection and no reply is sent. On the two `PUT /:id` routes the `catch` would answer 500. (The blog read is `GET /:slug`, which looks up text and cannot fail on integer syntax.)
- JavaScript numbers are modelled as unbounded integers. Above 2^53 in magnitude `parseInt` rounds and `String` may give exponent notation (`String(1e21)` is `"1e+21"`); `Js.IntString` and `Js.ParseIntString` do not model that. The handlers only compare numbers inside the 32-bit range (`Postgres.Int4AgreesWithParseInt`), where they are exact.
- A validation error is modelled by its `path` and `msg`. The `type`, `value` and `location` fields of express-validator's error entries are not modelled.
- The database's reading of integer text follows the syntax of Postgres releases before 16: white space, a sign and decimal digits. The underscores and the `0x`, `0o` and `0b` prefixes that release 16 also accepts are not modelled.
- express-validator's `isLength` is modelled as a count of characters (code points). validator.js also leaves variation selectors out of the count; that is not modelled.
- Listing ties (equal sort keys) come out in one fixed order. The database leaves that order unspecified.
- The server entry point, the app wiring, CORS and rate limiting, the configuration and the utilities are not part of this model.
- `models/index.js` is not part of this model. The user record follows the columns the controllers read and write. In that file the `User` model declares only an `eduEmail` attribute (stored in column `email`) and a few account columns. Signup's `findOne({ where: { eduEmail } })` and login's `findOne({ where: { email } })` are both modelled as a lookup on the stored email.
- `UserController.GetMembers` takes the availability of the role table as the parameter `ready`. The repository's model index defines no `Role` model, so in this version the handler always answers 503.
- `AuthController.Login` is a ghost function, because `findOne` picks an unspecified matching row. Under unique emails, which the user table keeps, the row is determined.
- `Blogs.GetBySlug` is a ghost function for the same reason. Under unique slugs, which the blog table keeps, the row is determined.
- Account deletion, email verification and password reset are not in these files and are not modelled.
