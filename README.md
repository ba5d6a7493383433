# CVE Training API: authentication gate and CVE store, modelled in Dafny

The service is a small FastAPI application over MongoDB. It has two parts:

- a user registry with token-based authentication: registration, login for a JWT access token, and `get_current_user`, which turns an `Authorization`-style header (`Bearer <jwt>` or `Basic <base64 email:password>`) into a stored user or a rejection;
- a store of CVE records with lookup by `cve_id`, `skip`/`limit` paging, create with a duplicate guard, partial update and delete.

The model keeps the code's branches, constants and error outcomes, except errors raised inside the password-hashing library (see "## Left out").

Modules, one per source file plus five helpers:

| module | file | models |
|---|---|---|
| `UserSchemas`, `CveSchemas` | `user_schemas.dfy`, `cve_schemas.dfy` | the pydantic models `User`, `UserInDB`, `Token`, the request types, `Severity`, `CVEBase`/`CVECreation`/`CVEInDB`, `CVEUpdate` |
| `UserCrud` | `user_crud.dfy` | crud/user.py |
| `UserEndpoints` | `user_endpoints.dfy` | routers/users/endpoint.py |
| `CveCrud` | `cve_crud.dfy` | crud/cve.py |
| `CveEndpoints` | `cve_endpoints.dfy` | routers/cves/endpoint.py |
| `Externals` | `externals.dfy` | the library calls, as parameters |
| `PyStr` | `pystr.dfy` | Python's `str.strip`, `str.split(sep)` and `str.lower` |
| `Lookup` | `lookup.dfy` | the first-match search of `find_one` and its variants |
| `Http`, `Wrappers` | `http.dfy`, `wrappers.dfy` | `HTTPException` and uncaught `ValueError` and `OverflowError` outcomes; `Option`/`Result` |

How the model is built:

- **Libraries as parameters.** The libraries are fields of the datatype `Externals.Libs`, passed in by the caller. They are:
  - `jwt.encode` and `jwt.decode` from python-jose (RFC 7519, HS256 as in section 3.2 of RFC 7518);
  - bcrypt `hash` and `verify` from passlib;
  - `base64.b64decode(...).decode("utf-8")` (section 4 of RFC 4648).

  `Libs` also holds the process secret key. Nothing is assumed about these functions. A lemma that needs a library property takes it as a hypothesis about the specific call, for example "bcrypt verifies a password against its own hash" or "the token decodes to the claims that were signed".
- **Time.** `datetime.utcnow()` becomes an integer parameter `now`, in seconds.
- **Collections.** Each MongoDB collection is a class holding a `seq` of documents: `UserCrud.UserCollection` and `CveCrud.CveCollection`. `insert_one` appends. `find_one`, `find_one_and_update` and `find_one_and_delete` act on the first match in collection order (`Lookup.FirstIndex`).
- **Reads are functions.** `get_user`, `authenticate_user`, `get_current_user`, login and `/me` change nothing. They are functions of the users sequence.
- **Writes are methods.** Registration and every CVE write are methods that change the collection. Their postconditions give the whole new state.

Notable behaviour the model keeps:

- **Header parsing (crud/user.py:80-87).**
  - A header with no ASCII space gets the 401 "Invalid Authorization header expected format 'SCHEME VALUE'".
  - Otherwise the stripped header must split on single spaces into exactly two fields.
  - If it does not, the unpacking raises a `ValueError` outside the `try`. FastAPI answers that with a 500, not the credentials 401 (`Http.UncaughtValueError`).
  - The header parameter is named `auth_header`, so FastAPI reads it from an `auth-header` header. When that header is absent, the default string "Authorization" is used. It holds no space, so the request is rejected as malformed (`UserEndpoints.MissingHeaderRejected`).
- **Scheme dispatch.**
  - The scheme is compared after `lower()`.
  - A `basic` value must decode to text with exactly one colon: a password containing a colon is rejected.
  - Every check from crud/user.py:89 to crud/user.py:114 ends in the same 401 "Could not validate credentials". These are the checks of the `try` block and the user lookup after it: a bad or expired token, no `sub` claim, bad base64, a wrong colon count, an unknown scheme, a wrong password, and an unknown user. A basic value's user is looked up inside the `try` by `authenticate_user`; a bearer token's user only by the lookup after the `try`.
- **Token expiry.** `create_access_token` tests `if expires_delta:`. A zero lifetime is falsy in Python, so it falls back to 15 minutes, the same as no lifetime. Login asks for 60 minutes.
- **`update_cve` (crud/cve.py:21) filters on `"id"`, not `"cve_id"`.** Documents written by `create_cve` have no `id` key. On a store filled through the routes, every update therefore matches nothing, changes nothing and gets a 404. `CveCrud.UpdateMissesCreatedDocuments` and `CveEndpoints.UpdateCveEndpoint` state this. The model keeps this behaviour and does not correct it.
- **Paging.** `get_cves` passes `skip` and `limit` to pymongo:
  - a negative `skip` raises `ValueError`, so the client gets a 500;
  - a `skip` of 2^63 or more, or a `limit` whose absolute value is 2^63 or more, does not fit in a BSON 64-bit integer, so encoding the query raises `OverflowError` and the client gets a 500 (`Http.UncaughtOverflowError`);
  - `limit` 0 means no limit;
  - a negative `limit` returns at most its absolute value.

Consequences of the code worth stating on their own:

- **Zero token lifetime.** A token created with a zero lifetime is not expired on creation: it gets the 15-minute default.
- **Header splitting.** The header is split at every space, not only the first. Anything other than exactly two fields ends in a 500.
- **Distinguishable rejections.** Not every rejection looks the same to the client:
  - the malformed-header 401 carries its own detail text;
  - a header that does not split into two fields gives a 500.

  Only the checks from line 89 to line 114 (the `try` block and the user lookup after it) share one response.
- **Basic credentials.** A basic value fails when the decoded text has no colon, and also when it has more than one.

## Model

| member | source | states |
|---|---|---|
| `Lookup.FirstIndex` | crud/cve.py:6-7 | the position `find_one` stops at: the first key equal to the wanted one, or `None` exactly when no key is equal |
| `PyStr.Strip` | crud/user.py:87 | `strip()` leaves a string that neither starts nor ends with whitespace |
| `PyStr.StripRemovesOnlyWhitespace` | crud/user.py:87 | `strip()` removes only whitespace, and only at the two ends |
| `PyStr.StripTrimmed` | crud/user.py:87 | a string already free of whitespace at both ends is unchanged by `strip()` |
| `PyStr.Split` | crud/user.py:87 | `split(sep)` gives one field more than there are separators, no field holds the separator, and joining the fields with the separator gives back the input |
| `PyStr.SplitJoin` | crud/user.py:98 | splitting fields that were joined with the separator, when none of them contains it, gives back exactly those fields |
| `UserCrud.UserCollection.InsertUser` | crud/user.py:49-52 | `insert_one` adds the document after all others and changes nothing else |
| `UserCrud.GetUser` | crud/user.py:43-47 | `None` exactly when no document has the email; otherwise the first document with that email |
| `UserCrud.AuthenticateUser` | crud/user.py:54-61 | the user is returned exactly when the first document with the email exists and its hash verifies the password; the result is then what `get_user` returns |
| `UserCrud.TokenClaims` | crud/user.py:63-69 | the signed claims are the caller's claims plus `exp`: `now + delta` for a non-zero delta, `now + 15 min` for no delta or a zero delta; every other claim keeps its value |
| `UserCrud.CreateAccessToken` | crud/user.py:63-71 | the token is the HS256 encoding, under the secret key, of claims that hold exactly the caller's keys plus `exp` with the expiry above |
| `UserCrud.ParseHeader` | crud/user.py:80-87 | the malformed-header 401 exactly when there is no space; the uncaught `ValueError` exactly when the stripped header does not have exactly one space; a result exactly when there is a space and the stripped header has exactly one space, and then the stripped header is scheme, one space, value |
| `UserCrud.ParseHeaderOfFields` | crud/user.py:80-87 | a non-empty scheme and a non-empty value, both free of whitespace and joined by one space, parse back into that scheme and value |
| `UserCrud.ClaimedEmail` | crud/user.py:89-110 | every failure inside the `try` block is the credentials 401, and an unknown scheme always fails |
| `UserCrud.Resolve` | crud/user.py:89-117 | after parsing, every failure is the credentials 401, and a success is the first stored document with its email |
| `UserCrud.GetCurrentUser` | crud/user.py:73-117 | no space gives the malformed-header 401; a wrong number of fields gives the uncaught `ValueError`; the only failures are those two and the credentials 401; a success is a stored user, the first with its email |
| `UserCrud.BearerHeader` | crud/user.py:87-117 | any header that parses into a scheme and a token, with a scheme that lower-cases to `bearer`, is accepted exactly when the token decodes at `now` under the secret key to a string `sub` that names a stored user; the result is that user; every rejection is the credentials 401 |
| `UserCrud.BasicHeader` | crud/user.py:87-117 | any header that parses into a scheme and a value, with a scheme that lower-cases to `basic`, is accepted with user `u` exactly when the value decodes to `email:password` with no other colon and `authenticate_user` returns `u` for that pair |
| `UserCrud.OtherSchemeHeader` | crud/user.py:87-104 | any header that parses into a scheme and a value, with a scheme other than bearer and basic in any letter case, gives the credentials 401 |
| `UserCrud.WellFormedRejectionIsUniform` | crud/user.py:89-117 | for any header that parses into two fields, every rejection is the same credentials 401, so a wrong password cannot be told from a bad token or an unknown user |
| `UserEndpoints.LoginForAccessToken` | routers/users/endpoint.py:15-27 | a failed authentication gives 401 "Incorrect email or password" and no token; a success gives a token of type `bearer` whose claims are `sub` = the login email, with a 60-minute lifetime |
| `UserEndpoints.ReadUsersMe` | routers/users/endpoint.py:30-32 | `/me` succeeds exactly when `get_current_user` does, answers with that user's email and full name, and otherwise passes on its failure |
| `UserEndpoints.MissingHeaderRejected` | crud/user.py:73-85 | a request without the header falls back to the default "Authorization", which holds no space, and gets the malformed-header 401 |
| `UserEndpoints.CreateUser` | routers/users/endpoint.py:34-47 | a taken email gives 400 and no change; a new email appends exactly one document with that email, the full name and the bcrypt hash of the password, and the answer holds only email and full name; unique emails stay unique |
| `UserEndpoints.RegisterThenLogin` | routers/users/endpoint.py:17-45 | after registering a new email, login with the same password succeeds, if bcrypt verifies a password against its own hash |
| `UserEndpoints.LoginThenBearer` | routers/users/endpoint.py:23-32 | the token from a successful login, sent as `Bearer <token>` to `/me`, resolves to the user who logged in, if the JWT library decodes it at that time to the signed claims |
| `CveCrud.UpdateData` | crud/cve.py:19 | the update document holds a key exactly for each non-`None` field of the `CVEUpdate`, carrying that field's value |
| `CveCrud.UpdateKeepsUnsetFields` | crud/cve.py:19-22 | applying the update overwrites exactly the fields given as non-`None` and keeps the rest |
| `CveCrud.Page` | crud/cve.py:9-11 | a page is the contiguous run of documents starting at `skip`: empty past the end, all remaining documents for `limit` 0, otherwise the smaller of the remaining count and the limit's absolute value |
| `CveCrud.PagesConcatenate` | crud/cve.py:9-11 | two consecutive pages of sizes `n` and `m` together are the page of size `n + m` |
| `CveCrud.RemoveFirst` | crud/cve.py:26-27 | without a match the collection is unchanged; otherwise exactly the first document with the `cve_id` is removed and the order of the rest is kept |
| `CveCrud.UpdateFirst` | crud/cve.py:20-24 | the first document whose `id` key equals the argument gets the update; every other document is unchanged |
| `CveCrud.UpdateMissesCreatedDocuments` | crud/cve.py:13-21 | when no document has an `id` key, as with documents from `create_cve`, the update matches nothing and leaves the collection as it was |
| `CveCrud.RemoveFirstUnique` | crud/cve.py:26-27 | with unique `cve_id`s, deleting keeps them unique and the deleted `cve_id` is no longer present |
| `CveCrud.AppendFreshUnique` | crud/cve.py:13-16 | appending a document with a new `cve_id` keeps `cve_id`s unique, and a lookup of that `cve_id` finds the new document |
| `CveCrud.CveCollection.GetCveByCveId` | crud/cve.py:6-7 | `None` exactly when no document has the `cve_id`; otherwise the first document with it |
| `CveCrud.CveCollection.GetCves` | crud/cve.py:9-11 | a negative `skip` gives the uncaught `ValueError`; otherwise a `skip` or a limit magnitude of 2^63 or more gives the uncaught `OverflowError`; otherwise the page at `skip` with that `limit` |
| `CveCrud.CveCollection.CreateCve` | crud/cve.py:13-16 | the record is appended without an `id` key and with no duplicate check, and the stored document is returned |
| `CveCrud.CveCollection.UpdateCve` | crud/cve.py:18-24 | the collection becomes the result of updating the first document with a matching `id` key; the result is `None` exactly when no document's `id` key matches, otherwise the document after the update |
| `CveCrud.CveCollection.DeleteCve` | crud/cve.py:26-27 | the first document with the `cve_id` is removed and returned; `None` and no change when there is none |
| `CveEndpoints.ReadCves` | routers/cves/endpoint.py:17-26 | the CVE fields of the page; with no parameters, the first `min(100, n)` records in order; a negative `skip` gives the uncaught `ValueError`, a `skip` or limit magnitude of 2^63 or more the uncaught `OverflowError`, both answered with 500, and every other input a page |
| `CveEndpoints.ReadCve` | routers/cves/endpoint.py:29-39 | 404 "CVE not found" exactly when no record has the `cve_id`; otherwise the first such record |
| `CveEndpoints.CreateCveEndpoint` | routers/cves/endpoint.py:42-54 | a taken `cve_id` gives 400 and no change; otherwise exactly one record is appended and returned; unique `cve_id`s with no `id` keys stay so |
| `CveEndpoints.UpdateCveEndpoint` | routers/cves/endpoint.py:57-68 | 404 exactly when the store's update finds no document; on a store without `id` keys that is every call, and nothing changes |
| `CveEndpoints.DeleteCveEndpoint` | routers/cves/endpoint.py:71-81 | 404 and no change for an absent `cve_id`; otherwise the first record is removed and returned; on a consistent store the `cve_id` is gone afterwards |
| `CveEndpoints.CreateReadDelete` | routers/cves/endpoint.py:36-80 | on a consistent store, a record created under a new `cve_id` reads back as created, and after it is deleted, reading it gives 404 |

## Left out

- **Other files.** These are not part of this model:
  - python_client.py: an HTTP client script.
  - db.py: the MongoDB connection and environment loading. The two collections are replaced by in-memory sequences.
  - models/cve.py: an unused SQLAlchemy model.
- **main.py.** It only wires the app. It mounts only the CVE router. So the users routes are not served, and the CVE routes have no authentication dependency. Routing is not modelled.
- **Library internals.** bcrypt, JWT signing and verification (including the `exp` check inside `jwt.decode`), and base64/UTF-8 decoding are library calls. They stay uninterpreted parameters. bcrypt's random salt is not modelled: `hash` is one function of the password.
- **Start-up configuration.** The `SECRET_KEY` presence check (crud/user.py:27-31) is configuration. The key is a field of `Libs`.
- **Other I/O and concurrency.** Not modelled:
  - logging (crud/user.py:16-24 and the log calls);
  - pydantic validation;
  - parsing of `published_date`, which is an integer here;
  - FastAPI's async and concurrent request handling. The model is per request and sequential.
- **MongoDB details.**
  - The `_id` that MongoDB assigns is not modelled. `create_cve` reads the document back by that fresh `_id`, so the model returns the appended document directly.
  - An empty `$set` is treated as a no-op, as MongoDB 5.0 and later do. Older servers reject it.
  - The single-batch size cap of a negative `limit` is not modelled.
- **Status 201.** `create_cve_endpoint` is declared with status 201. The `Ok` result of `CveEndpoints.CreateCveEndpoint` carries the record only, not the success status.
- **WWW-Authenticate.** The header is kept as a string field of the exception; "" means no such header.
- PyStr.Lower: lower-cases ASCII letters only. This does not change the comparisons with "bearer" and "basic": no other character lower-cases to one of their letters (U+0130 lower-cases to two characters).
- UserCrud.Subject: a `sub` claim that is not a string is rejected here. python-jose already rejects it while decoding. Both end in the same credentials 401.
- UserCrud.TokenClaims: times are whole seconds. python-jose drops sub-second parts of `exp`.
- UserEndpoints.LoginForAccessToken: passlib's `verify` is total here. passlib raises a `ValueError` for a password over 4096 characters, a password holding NUL, or a stored hash it cannot identify; at routers/users/endpoint.py:17 nothing catches it, so the client gets a 500, which this model does not produce.
- UserEndpoints.CreateUser: passlib's `hash` is total here. The same `ValueError` at routers/users/endpoint.py:43 gives a 500 and stores nothing; the model always appends the document for a new email.
- UserCrud.AuthenticateUser: `verify` is total here. On the basic-header path the `ValueError` is raised inside the `try` of crud/user.py:89-109 and ends in the credentials 401, the same answer as a failed verification, so only the login route is affected.
