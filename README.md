# Delete-account backend: auth guard, response envelope, account deletion

A Dafny model of the decision logic of a small Express backend that exposes
`PUT /api/user/delete-account` on top of a hosted identity provider (Supabase):

- the **auth guard** `verifyToken`, which takes the second space-separated field of the
  `Authorization` header as a JWT (RFC 7519), decodes it without checking its signature,
  and lets the request through only when the claims exist, `sub` and `role` are truthy
  and `iss` is exactly `SUPABASE_URL + "/auth/v1"`; otherwise it answers 401;
- the **response envelope** `sendResponse` and its two wrappers: `success` is
  `status < 400`, the payload goes into `data` or `error`, status and `clientInfo` pass
  through;
- the **account deletion**: the controller `UserController.deleteAccount` and the service
  `deleteUserAccount`, both over an abstract provider call `auth.admin.deleteUser`.

Modules, one per source file or runtime piece:

| module | file | models |
|---|---|---|
| `Js` | js.dfy | JavaScript values, truthiness, `?.` property access, thrown values |
| `StringSplit` | split.dfy | `String.prototype.split` with a one-character separator, and `join` |
| `Express` | express.dfy | `req` (header, `clientInfo`, `user`), `res` (`status()`, `json()`), `next` |
| `HttpUtils` | http_utils.dfy | api/utils/http.utils.ts |
| `Auth` | auth.dfy | api/middleware/auth.ts |
| `Supabase` | supabase.dfy | the client handle and its `deleteUser` reply |
| `UserService` | user_service.dfy | api/services/userService.ts |
| `UserController` | user_controller.dfy | api/controllers/user.controller.ts |

Inputs from outside the core are parameters: the JWT decoder (`decode: string ->
DecodeResult`), the `SUPABASE_URL` environment variable (`Option<string>`; unset renders
as `"undefined"` in the template literal), the `useSupabase` flag and the nullable client
handle that api/configs/database.ts produces, the provider's answer (a function of the
earlier deletions and the id, so repeated deletion is provider-defined), and the send
time `now` that `new Date().toISOString()` would give.

Points where the code behaves otherwise than its design suggests, modelled as the code has them:

- The controller does not go through the service; it calls the global handle itself. With
  the integration disabled the handle is `null`, so `supabase.auth` throws a `TypeError`
  and the controller answers 500, while the service would return normally.
- `sub` and `role` are tested for JavaScript truthiness, not for being non-empty strings:
  a non-zero number passes, an empty string does not.
- No code in the repository attaches `req.clientInfo`; it is an opaque input here and may
  be `undefined`, in which case `JSON.stringify` leaves it out of the envelope.
- `sendResponse` puts whatever payload it is given into `data` or `error`; "exactly one of
  them is set" holds only for a payload that is not `undefined` (every caller passes one).

## Model

| member | source | states |
|---|---|---|
| `Js.Truthy` | api/middleware/auth.ts:21-23 | definition of JavaScript truthiness for the `!decoded`, `!decoded.sub`, `!decoded.role` tests (also user.controller.ts:11); used by `Auth.ClaimsAccepted` and `UserController.DeleteAccount`; `Auth.TokenMissingIsFalsy` states that `!token` at auth.ts:13 is the same test |
| `Js.Member` | api/middleware/auth.ts:21-24 | definition of property access with `?.` semantics (`decoded.sub`, `decoded.role`, `decoded.iss`; also `req.user?.sub` at user.controller.ts:10); used by `Auth.ClaimsAccepted`, `Auth.OnlyObjectsAccepted` and `UserController.DeleteAccount` |
| `Js.MessageOr` | api/middleware/auth.ts:35 | definition of `e instanceof Error ? e.message : fallback` (also user.controller.ts:48); used by `Auth.VerifyToken` and `UserController.Answer`; its two cases are stated by `Js.MessageOrCases` |
| `Js.MessageOrCases` | api/middleware/auth.ts:35 | a thrown `Error` gives its own message, any other thrown value gives the fallback |
| `StringSplit.Split` | api/middleware/auth.ts:11 | `split` gives one part more than there are separators, and no part contains the separator |
| `StringSplit.TakeUntil` | api/middleware/auth.ts:11 | the word before the first separator contains no separator |
| `StringSplit.JoinSplit` | api/middleware/auth.ts:11 | joining the parts of a split gives back the string |
| `StringSplit.SplitJoin` | api/middleware/auth.ts:11 | splitting the join of separator-free parts gives back the parts |
| `StringSplit.SplitNoSeparator` | api/middleware/auth.ts:11 | a string without the separator splits into itself alone |
| `StringSplit.SplitAtFirst` | api/middleware/auth.ts:11 | splitting at the first separator gives the text before it, then the parts of the rest |
| `StringSplit.SplitFirstPart` | api/middleware/auth.ts:11 | the first part of a split is the text up to the first separator |
| `StringSplit.TakeUntilFirst` | api/middleware/auth.ts:11 | the word before the first separator is exactly the text up to that separator |
| `Express.Response.Status` | api/middleware/auth.ts:14 | `res.status(code)` sets the code and sends nothing |
| `Express.Response.Json` | api/middleware/auth.ts:14 | `res.json(body)` appends one reply with the current status and that body |
| `Express.Next.Call` | api/middleware/auth.ts:31 | calling `next` is counted once |
| `Auth.BearerToken` | api/middleware/auth.ts:11 | a token exists only if the header exists and contains a space, and it never contains a space |
| `Auth.TokenMissing` | api/middleware/auth.ts:13 | definition of `!token` (`undefined` or `""`); characterised over headers by `Auth.TokenMissingIff` and `Auth.NoTokenWithoutSpace` |
| `Auth.TokenMissingIsFalsy` | api/middleware/auth.ts:13 | `!token` holds exactly when the token, `undefined` or a string, is falsy |
| `Auth.TokenAfterFirstSpace` | api/middleware/auth.ts:11 | for every header `scheme + " " + rest` with a space-free scheme, the token is the text of `rest` up to its first space |
| `Auth.NoTokenWithoutSpace` | api/middleware/auth.ts:11-15 | a header without a space yields no token |
| `Auth.TokenMissingIff` | api/middleware/auth.ts:11-15 | with a space in the header, the token is falsy exactly when the first space is followed by nothing or by another space |
| `Auth.SchemeIgnored` | api/middleware/auth.ts:11 | the scheme word is never checked: any two space-free schemes give the same token |
| `Auth.MissingTokenExamples` | api/middleware/auth.ts:11-15 | `Bearer`, `Bearer ` and `Bearer  x` (two spaces) carry no token |
| `Auth.BasicSchemeExample` | api/middleware/auth.ts:11 | `Basic abc` yields the token `abc` |
| `Auth.ExtraFieldExample` | api/middleware/auth.ts:11 | `Bearer a b` yields the token `a` |
| `Auth.ExpectedIssuer` | api/middleware/auth.ts:24 | definition of the template literal `${SUPABASE_URL}/auth/v1` (unset renders as `undefined`); used by `Auth.VerifyToken` and `Auth.WellFormedClaimsAccepted` |
| `Auth.ClaimsAccepted` | api/middleware/auth.ts:20-25 | definition of the acceptance test (claims truthy, `sub` and `role` truthy, `iss` strictly equal to the issuer); facts about it are stated by `Auth.WellFormedClaimsAccepted`, `Auth.OnlyObjectsAccepted` and `Auth.VerifyToken` |
| `Auth.Admits` | api/middleware/auth.ts:13-31 | definition of the path that reaches `req.user = decoded; next()`: a token is present, decoding returns, and the claims pass; used by `Auth.VerifyToken` |
| `Auth.NoTokenBody` | api/middleware/auth.ts:14 | definition of the body `{error: "Unauthorized: No token provided"}`; sent with 401 by `Auth.VerifyToken` |
| `Auth.InvalidTokenBody` | api/middleware/auth.ts:33-36 | definition of the body `{error: "Unauthorized: Invalid token", details}`; sent with 401 by `Auth.VerifyToken` |
| `Auth.OnlyObjectsAccepted` | api/middleware/auth.ts:20-25 | only an object passes: `null`, strings, numbers, booleans and arrays never do, and a passing object owns `sub`, `role` and exactly the expected `iss` |
| `Auth.WellFormedClaimsAccepted` | api/middleware/auth.ts:20-25 | claims with a non-empty string `sub` and `role` and `iss` equal to the expected issuer pass the structural check |
| `Auth.VerifyToken` | api/middleware/auth.ts:10-38 | no token: 401 `{error: "Unauthorized: No token provided"}`; decoder throws: 401 invalid-token body with the error's message or `"Unknown error"`; null claims, falsy `sub` or `role`, or any other issuer: 401 with details `"Invalid token structure"`; on reject `req.user` is unchanged and `next` is not called; on accept `req.user` is the decoded claims, `next` is called once and nothing is sent; every call ends in exactly one of the two |
| `HttpUtils.BuildResponseData` | api/utils/http.utils.ts:19-25 | `success` iff status < 400; the payload is recovered from `data` on success and from `error` otherwise; the other field is unset, so a defined payload sets exactly one of them; timestamp and `clientInfo` are copied unchanged |
| `HttpUtils.AsJson` | api/utils/http.utils.ts:26 | definition of the object handed to `res.json()`; `HttpUtils.ParseAsJson` states that it loses no field |
| `HttpUtils.EnvelopeReply` | api/utils/http.utils.ts:26 | definition of the status and body pair `res.status(status).json(responseData)` sends; used by `HttpUtils.SendResponse`, `HttpUtils.SendErrorResponse` and `UserController.DeleteAccount` |
| `HttpUtils.ParseAsJson` | api/utils/http.utils.ts:19-26 | sanity lemma (no server code parses envelopes): reading a sent envelope back gives exactly the envelope, so the body keeps every field |
| `HttpUtils.SendResponse` | api/utils/http.utils.ts:13-27 | one reply is appended, with the input status and the envelope of the payload |
| `HttpUtils.SendSuccessResponse` | api/utils/http.utils.ts:29-35 | status 200, `success` true, `data` is the payload, `error` unset |
| `HttpUtils.SendErrorResponse` | api/utils/http.utils.ts:37-44 | status and message are forwarded unchanged as the payload of the envelope |
| `HttpUtils.ErrorResponseBelow400` | api/utils/http.utils.ts:20-22 | an error message sent with a status below 400 lands in `data` under `success: true`; nothing guards against it |
| `Supabase.Settle` | api/services/userService.ts:10-13 | definition of awaiting `deleteUser` and rethrowing its `error` (also user.controller.ts:21-28); its cases are stated by `UserService.SettleCases` |
| `Supabase.Client.DeleteUser` | api/services/userService.ts:10 | the id is appended to the provider's call log and the reply is the provider's answer to it |
| `UserService.DeleteUserAccount` | api/services/userService.ts:4-14 | disabled or no handle: returns normally and calls nothing; enabled: exactly one deletion with `userId`; a provider error is thrown as the same value, a rejected call propagates, otherwise it returns normally |
| `UserService.SettleCases` | api/services/userService.ts:10-13 | the deletion returns normally exactly when the provider reports no error; a reported error is thrown unchanged |
| `UserController.DeletedPayload` | api/controllers/user.controller.ts:36-39 | definition of the success payload `{message: "Account successfully deleted", forceLogout: true}`; sent with status 200 by `UserController.DeleteAccount` |
| `UserController.Answer` | api/controllers/user.controller.ts:36-50 | after the deletion step the status is 200 exactly when it completed normally, with the fixed success payload, else 500 with the thrown error's message or `"Failed to delete account"` |
| `UserController.DeleteAccount` | api/controllers/user.controller.ts:8-52 | falsy `req.user?.sub`: 401 "User not authenticated" with no provider call; null handle: 500 with the `TypeError` message, never a success; otherwise one `deleteUser` call with the subject and a 200 `{message: "Account successfully deleted", forceLogout: true}` or a 500 with the error's message; exactly one reply, carrying `req.clientInfo`, in every case, and the final `res.statusCode` is that reply's status |

## Left out

- Express routing, app wiring, CORS options and `listen` (api/index.ts, api/routes/): no decision logic; the health route's service is not part of this model.
- Environment loading and client construction (api/configs/database.ts): only their results, the `useSupabase` flag and the nullable handle, enter the model as inputs.
- Logging (api/utils/logger.ts): console output that does not affect control flow.
- `jwt.decode` and `deleteUser` are foreign library calls: the first is a function-typed parameter, the second an injected answer; no signature verification exists to model.
- The clock: the envelope timestamp is the parameter `now`.
- async/await: every handler is a sequential method; there is no concurrency.
- JSON serialisation: a body is the value handed to `res.json()`; `Undefined` entries stand for keys that `JSON.stringify` omits, and key order is not modelled.
- Numbers are reals: `NaN`, infinities and floating-point rounding are not modelled; a status is an integer and its range is not checked (Express 4 does not check it either).
- Property access sees own properties only: prototype properties of strings and arrays, getters and `__proto__` are not modelled.
- Auth.VerifyToken: `next()` is modelled as never throwing; the downstream handler is an async function, so its failures surface as a rejected promise, not inside this `try`.
- UserController.DeleteAccount: sending a reply is modelled as never throwing, so the path where a throwing `sendSuccessResponse` would be caught and followed by a second, 500 reply is not modelled.
- Supabase.NullHandleMessage is the V8 wording of the `TypeError`; other engines word it differently.
