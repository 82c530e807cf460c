# Bookmarks server — a Dafny model

A model of the request handling of a small HTTP service that keeps an
ordered, in-memory list of bookmark records (`id`, `title`, `url`,
`description`, `rating`) behind a static bearer-token check. It covers the
three parts of `src/app.js` that carry logic:

- the **bearer-token gate** (`validateBearerToken`), a pure decision over the
  optional `Authorization` header and the optional configured token
  (`Auth` in `auth.dfy`);
- the **four `/bookmarks` routes** — list, get by id, create, delete — as pure
  transitions over the ordered store (`Routes` in `routes.dfy`), the scans they
  rely on (`Bookmarks` in `bookmarks.dfy`), and a class `BookmarkStore` whose
  `seq` field is the mutable `bookmarks` array, with `FindIndex` as the scanning
  loop and `Create`, `Delete` and `Handle` changing the field in place
  (`Server` in `server.dfy`);
- the **error responder** (`errorHandler`), a pure function from the deployment
  mode and the thrown fault to a 500 response (`Errors` in `errors.dfy`).

Configuration and randomness are parameters: `API_TOKEN` is `apiToken`
(`None` when unset), `NODE_ENV` is `nodeEnv`, the request's `Authorization`
header is `authorization` (`None` when absent), and the `uuid()` generator is a
caller-supplied `freshId` that must be non-empty and not yet in the store. The
initial contents of the store are a seed sequence given to the constructor.
Its records may repeat ids, and their `id` may be any value, not only a
string. A request's id is always a string path parameter and matches a record
only under `b.id === id`, and every lookup takes the first match.

Three behaviours of the code worth knowing:

- `src/app.js:37` cuts the header with `split(" ")`, on single space
  characters only; two spaces in a row give an empty piece, and the scheme
  word in front of the token is never checked (`Auth.BearerTokenAccepted`).
- `src/app.js:34-37` lets a request through when no token is configured and
  the header is non-empty with no space: `split(" ")[1]` is `undefined`, and
  `undefined !== undefined` is false (`Auth.UnsetTokenAdmitsSpacelessHeader`).
- Ids come out unique only from the generator (`src/app.js:65`); nothing
  checks the seed list. Creates and deletes keep unique ids unique
  (`Routes.WritesKeepIdsUnique`). With duplicates, get and delete act on the
  first match (`Routes.DuplicateIdsFirstMatch`). A seed record with a
  non-string id can never be fetched or deleted (`Routes.NonStringIdNeverMatched`).

## Model

| member | source | states |
|---|---|---|
| `Bookmarks.FirstIndex` | src/app.js:50 | the result is the index of a record with the id that no earlier record carries, and None exactly when no record carries the id (the first match of `find`) |
| `Bookmarks.RemoveAt` | src/app.js:85 | `splice(i, 1)`: one element fewer, elements before `i` unchanged, elements after shifted down by one |
| `Bookmarks.RemoveFirstIsSplice` | src/app.js:79-85 | splicing at the first matching index equals the reference walk that drops the first record with the id; without a match the list is unchanged |
| `Bookmarks.RemoveAtMultiset` | src/app.js:85 | removal loses exactly the removed record and keeps all others (multiset difference) |
| `Bookmarks.RemoveAtUnique` | src/app.js:85 | with unique ids, after removing a record no remaining record carries its id and the remaining ids stay unique |
| `Bookmarks.AppendFreshUnique` | src/app.js:64-72 | pushing a record whose id is not in a list of unique ids keeps the ids unique |
| `Auth.Split` | src/app.js:37 | `split(" ")` always yields at least one piece |
| `Auth.SplitJoin` | src/app.js:37 | joining the pieces of `split(" ")` with single spaces gives back the header |
| `Auth.SplitPiecesNoSpace` | src/app.js:37 | no piece of `split(" ")` contains a space |
| `Auth.SplitNoSpace` | src/app.js:37 | a header without a space is a single piece |
| `Auth.SplitAtFirstSpace` | src/app.js:37 | a space-free prefix before the first space becomes the first piece and the rest is split on its own |
| `Auth.JoinSplit` | src/app.js:37 | splitting the join of space-free pieces gives back exactly those pieces |
| `Auth.SecondField` | src/app.js:37 | `split(" ")[1]`: None (for `undefined`) exactly when the split has one piece, otherwise the second piece, which holds no space |
| `Auth.SecondFieldExists` | src/app.js:37 | `split(" ")[1]` is defined exactly when the header contains a space |
| `Auth.SecondFieldOf` | src/app.js:37 | for `<word> <token>` or `<word> <token> <more>` the second field is the token, whatever the word |
| `Auth.Unauthorized` | src/app.js:39 | the refusal has status 401 |
| `Auth.ValidateBearerToken` | src/app.js:33-42 | the gate either lets the request go on or answers with the 401 refusal, nothing else |
| `Auth.GateDecision` | src/app.js:37-41 | the gate passes exactly when the header is present, non-empty and its second piece equals the configured token; otherwise the answer is 401 with `{"error": "Unauthorized request"}` |
| `Auth.MissingHeaderRejected` | src/app.js:37-39 | an absent or empty header is refused whatever token is configured |
| `Auth.BearerTokenAccepted` | src/app.js:35-37 | `<word> <token>` (and with further space-separated text) passes when the token is the configured one, for any scheme word |
| `Auth.WrongTokenRejected` | src/app.js:37-39 | `Bearer <token>` with a token other than the configured one (or none configured) is refused |
| `Auth.UnsetTokenAdmitsSpacelessHeader` | src/app.js:34-37 | with no token configured, a non-empty header without a space passes and one with a space is refused |
| `Routes.ListBookmarks` | src/app.js:44-46 | status 200 and the body is the store itself, in order |
| `Routes.GetBookmark` | src/app.js:48-59 | 200 exactly when some record has the id, and then the body is a record with that id, the one at the first matching index; otherwise 404 with the text "Bookmark Not Found" |
| `Routes.CreateBookmark` | src/app.js:61-74 | the store grows by one, its old prefix is unchanged, the last record has the generated id and the four request values, and the answer is 201 with that record |
| `Routes.DeleteBookmark` | src/app.js:76-88 | the new store is the reference deletion (drop the first record with the id); without a match it is the old store and the answer is 404 "Not Found"; with one the answer is 204 with no body |
| `Routes.DeleteSplicesFirstMatch` | src/app.js:79-85 | a delete that finds the id leaves `old[..i] + old[i+1..]` for the first matching index `i`: one shorter, the others in order, the multiset minus exactly that record |
| `Routes.Route` | src/app.js:44-88 | the handler a request reaches past the gate: list and get leave the store unchanged and answer as `ListBookmarks` and `GetBookmark`; create and delete give the outcome of `CreateBookmark` and `DeleteBookmark` |
| `Routes.Dispatch` | src/app.js:33-42 | a refused request gets the 401 answer and leaves the store as it is; an accepted one gets exactly what its route does |
| `Routes.ReadsLeaveStore` | src/app.js:44-59 | list and get leave the store unchanged, and repeating a get answers the same |
| `Routes.UnauthorizedOnEveryRoute` | src/app.js:37-41 | without a header (or with an empty one) every route answers 401 and no route changes the store |
| `Routes.CreateThenGet` | src/app.js:50-72 | a get of a freshly created id returns the created record with 200 |
| `Routes.CreateThenDelete` | src/app.js:61-88 | deleting a freshly created id answers 204 and restores the store exactly as before the create |
| `Routes.DeleteIsFinal` | src/app.js:76-88 | with unique ids, after a 204 delete no record has the id and a get of it answers 404 "Bookmark Not Found" |
| `Routes.WritesKeepIdsUnique` | src/app.js:61-88 | a create with a fresh id and any delete keep the store's ids unique |
| `Routes.NextMatchAfterRemoval` | src/app.js:79-85 | after splicing out the first record with an id, the next record with that id moves down one place and nothing before it carries the id |
| `Routes.DuplicateIdsFirstMatch` | src/app.js:50-85 | with two records sharing an id, get returns the earlier one, delete removes only it, and the next get returns the later one |
| `Routes.NonStringIdNeverMatched` | src/app.js:50-85 | a record whose id is not a string is never the first match for any path id: delete keeps it, and a store holding only it answers 404 "Bookmark Not Found" to get and 404 "Not Found" to delete |
| `Routes.CreateListDeleteGet` | src/app.js:44-88 | for an accepted client: create answers 201 with the new record, list then ends with it, delete answers 204 and restores the store, and get then answers 404 "Bookmark Not Found" |
| `Errors.Property` | src/app.js:96 | `error.message` is the object's own `message` property, undefined for anything else |
| `Errors.ErrorHandler` | src/app.js:90-99 | always 500 with a JSON object; in production exactly `{"error": {"message": "server error"}}`; otherwise exactly the fields `message` (the fault's message) and `error` (the fault) |
| `Errors.ProductionHidesFault` | src/app.js:92-97 | in production the response is the same for every fault; outside production faults with different messages give different responses |
| `Server.BookmarkStore.constructor` | src/app.js:8 | the store starts as the given seed list |
| `Server.BookmarkStore.FindIndex` | src/app.js:79 | `findIndex`: -1 exactly when no record has the id, otherwise an index holding the id with no earlier match |
| `Server.BookmarkStore.Create` | src/app.js:61-74 | the store becomes the old store plus the new record at the end, and store and response are those of `CreateBookmark` |
| `Server.BookmarkStore.Delete` | src/app.js:76-88 | the store becomes the reference deletion of the old store, and store and response are those of `DeleteBookmark` |
| `Server.BookmarkStore.Handle` | src/app.js:33-88 | store and response after one request are those of `Dispatch`; a refused request leaves the store as it was and answers 401 |

## Left out

- Express application construction and the `morgan`, `helmet`, `cors` and `express.json` middleware (src/app.js:2-5, 11, 28-31): library plumbing with no logic of this file.
- The winston logger, and every `logger.error`, `logger.info`, `console.log` and `console.error` call (src/app.js:7, 13-26, 38, 52, 55, 82, 86, 95): output only, no effect on responses or the store.
- `dotenv` and `./config`: `API_TOKEN` and `NODE_ENV` are parameters; `./config` is not part of this model.
- `./bookmarks-store` is not part of this model: its list is the constructor's seed (any records of the shape above, ids of any value).
- The `uuid` library: replaced by the caller-supplied `freshId`, required to be non-empty and absent from the store.
- Route matching, unmatched routes and HTTP transport: requests arrive already classified as one of the four routes (`Routes.Request`).
- JSON serialisation: bodies are the values handed to `res.json`, `res.send` and `res.end`, not their text (so, for instance, the non-enumerable `message` of an `Error` object being dropped by serialisation is not modelled).
- Which faults reach the error responder: no handler in the model throws, so `Errors.ErrorHandler` stands on its own rather than inside `Routes.Dispatch`.
- Concurrency between requests: each request runs to completion, as on the single-threaded event loop.
- Numbers in request values are integers; floating point is not modelled.
- Seed records are assumed to hold exactly the keys `id`, `title`, `url`, `description` and `rating`. A seed record with other keys would show them in the list and get bodies, and the model does not carry them.
- Errors.Property: looks only at an object's own properties, not at properties inherited through the prototype chain.
