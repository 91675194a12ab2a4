# Portfolio website core, modelled in Dafny

This project models the deterministic core of a small FastAPI + MongoDB
portfolio site:

- the **add-project pipeline**: the comma-separated tech-stack text is split,
  trimmed and filtered; empty URLs become absent; the result is validated as a
  `ProjectCreate`; it is inserted only when validation passes; and the answer is
  always a 303 redirect to `/admin`;
- the other **collection operations** of the handlers: the home page's
  "featured, limit 2" query, seeding an empty `projects` collection at startup,
  `delete_one` and how its outcome becomes a response, and the contact form's
  validate-then-insert order;
- the **pydantic schemas** `Project`, `ProjectCreate`, `ProjectUpdate`,
  `ContactMessage` and `ContactCreate`, as total validity predicates. Lemmas
  compare the schemas with each other;
- the **connection wrapper** `Database`, a small state machine over `client` and
  `db`. Its subtle point is that `db` is assigned before the reachability check,
  so a failed check still leaves `get_collection` working. `close` resets nothing.

Layout, one module per file:

| file | module | models |
|---|---|---|
| wrappers.dfy | `Wrappers` | `Option` / `Result` |
| text.dfy | `Text` | Python's `str.strip()` and `str.split(sep)` |
| models.dfy | `Models` | app/models.py |
| forminput.dfy | `FormInput` | tech-stack parsing and URL normalisation of app/main.py |
| store.dfy | `Store` | the two collections as sequences of documents |
| database.dfy | `Database` | app/database.py |
| handlers.dfy | `Handlers` | the handlers and startup hook of app/main.py |

A collection is a sequence of documents. Its order stands for the order an
unsorted `find` returns, taken to be insertion order. Each document has
an `ObjectId(serial)` that the store hands out from a counter. The driver's
behaviour is an input, not a model:

- `Driver(acceptsUri, acceptsName, serverReachable)` says, for `connect`,
  whether `MongoClient(uri)` and `client[name]` return instead of raising, and
  whether `server_info()` reaches a server;
- a `serverUp` flag says, for each request, whether the store operation
  succeeds.

Email validation (`EmailStr`) is an input too: an `EmailCheck` function that
returns the normalised address, or `None` when the text is not an email address.

Behaviour of the code worth knowing:

- The code has no in-memory fallback data. When `home` cannot reach the store,
  the exception is not caught and the answer is a 500.
- A contact submission that fails validation or storage gets the error page.
- There is no admin authentication, no edit route and no email notification.
- Deleting a missing project raises a 404 inside the `try`. The generic
  `except` catches it and re-raises it as a 500, so the caller never sees a 404.
- `Project` allows a description of length 0..500. Only `ProjectCreate`
  requires 10..500.
- `ContactCreate` allows an empty message and `ContactMessage` does not. This
  gap cannot be reached through the contact form: FastAPI answers a required
  form field sent empty with 422 before `submit_contact` runs. The same holds
  for an empty tech-stack text in the add-project form.
- `status` uses pydantic v2's `pattern=`, which searches with the rust-regex
  engine. There `$` matches only at the very end of the text, so
  `^(Completed|In Progress|Planning)$` accepts exactly the three names.
  `Models.StatusAcceptedExactly` proves this about a model of anchored search.

## Model

| member | source | states |
|---|---|---|
| Text.Strip | app/main.py:183 | `tech.strip()` yields a text with no leading or trailing whitespace, never longer than its input |
| Text.StripInfix | app/main.py:183 | the stripped text is an infix of the input, and everything cut off on either side is whitespace |
| Text.StripOfPadded | app/main.py:183 | stripping any stripped text padded with whitespace on both sides gives that text back, so strip is fully characterised |
| Text.StripBlank | app/main.py:183 | a segment strips to the empty string exactly when it is all whitespace, which is what the `if tech.strip()` filter tests |
| Text.StripIdempotent | app/main.py:183 | stripping an already stripped segment changes nothing |
| Text.Split | app/main.py:183 | `split(",")` yields one more segment than there are commas, and no segment contains a comma |
| Text.JoinSplit | app/main.py:183 | joining the segments with the comma restores the input text |
| Text.SplitJoin | app/main.py:183 | splitting a join of comma-free segments restores the segments |
| FormInput.CleanSegments | app/main.py:183 | the comprehension keeps at most one entry per segment, and every entry is non-empty with no surrounding whitespace |
| FormInput.ParseTechStack | app/main.py:183 | the parsed tech list has no empty and no padded entry, and its length is at most the number of commas plus one |
| FormInput.ParseTechStackSegments | app/main.py:183 | every entry of the parsed list is the trimmed form of some comma-separated segment; when no segment is blank, the list is exactly every segment trimmed, in order |
| FormInput.CleanSegmentsNoBlank | app/main.py:183 | when no segment is blank, the comprehension keeps every segment, trimmed and in order |
| FormInput.ParseTechStackEmpty | app/main.py:183 | the parsed list is empty exactly when the text holds nothing but commas and whitespace, the empty text included |
| FormInput.ParseJoin | app/main.py:183 | parsing a comma-join of non-empty, trimmed, comma-free names gives back exactly those names in order |
| FormInput.ScanTechStack | app/main.py:183 | a one-pass character scanner that cuts at each comma yields the same list as the split/strip/filter comprehension, in the same order |
| FormInput.OptionalUrl | app/main.py:191-192 | an empty URL becomes absent, and a non-empty URL is kept unchanged |
| FormInput.OptionalUrlRoundTrip | app/main.py:191-192 | the form text is recoverable from the stored URL, and an absent or non-empty stored URL is recoverable from its form text |
| Models.AlternativeAt | app/models.py:38 | one alternative of the pattern matches at the given offset, running to the end of the text when `$` anchors it |
| Models.SearchFrom | app/models.py:38 | the regex search succeeds exactly when a match starts at some allowed offset, which is only offset 0 under `^` |
| Models.StatusAcceptedExactly | app/models.py:38 | the anchored status pattern accepts a value exactly when it equals "Completed", "In Progress" or "Planning" |
| Models.ValidateProjectCreate | app/models.py:63-71 | ProjectCreate validation succeeds exactly when the name length is in 1..100, the description length in 10..500, the tech list is non-empty and the status is accepted; on failure it names each field exactly when that field breaks its constraint |
| Models.ProjectCreateStricter | app/models.py:33-67 | every valid ProjectCreate gives a valid Project, and the two schemas differ only in the description's lower bound of 10 |
| Models.ProjectNotStricter | app/models.py:36 | a Project with a 5-character description is valid, but the same fields fail ProjectCreate |
| Models.ProjectUpdateBounds | app/models.py:74-82 | ProjectUpdate accepts the update with every field absent; an update that carries all fields of a ProjectCreate is valid exactly when that ProjectCreate is |
| Models.ProjectUpdateClearField | app/models.py:75-78 | leaving a constrained field out of a valid ProjectUpdate keeps it valid, because an absent field skips its constraint |
| Models.ValidateContactCreate | app/models.py:103-109 | ContactCreate validation succeeds exactly when the names are 1..50, the subject 1..100, the message 0..1000 and the email is accepted; the result holds the normalised email; on failure it names each field exactly when that field breaks its constraint |
| Models.ContactCreateVersusMessage | app/models.py:86-109 | a valid ContactCreate is a valid ContactMessage exactly when its message is non-empty, and every valid ContactMessage is a valid ContactCreate |
| Models.EmptyMessageOnlyInCreate | app/models.py:108 | a concrete submission with an empty message passes ContactCreate and fails ContactMessage |
| Models.SchemaDefaults | app/models.py:39-109 | fields left out default to absent links and a false `featured`, `newsletter_signup` and `read` |
| Store.InsertProject | app/main.py:198 | `insert_one` appends the document under an id that no existing document has, and keeps ids fresh and distinct |
| Store.InsertContact | app/main.py:133 | `insert_one` on contacts appends under a fresh id and leaves the projects alone |
| Store.InsertManyProjects | app/main.py:51 | `insert_many` appends the documents in order after the existing ones, and keeps ids distinct |
| Store.Featured | app/main.py:74 | the featured filter keeps exactly the featured documents of the collection |
| Store.TakeFeatured | app/main.py:74 | a cursor limited to n yields at most n documents, all featured and all from the collection |
| Store.FindFeatured | app/main.py:74 | `find({"featured": True}).limit(n)` yields at most n featured documents of the collection, and limit 0 means no limit |
| Store.TakeFeaturedIsPrefix | app/main.py:74 | a cursor limited to n yields the first n featured documents, or all of them when there are fewer |
| Store.FindFeaturedIsPrefix | app/main.py:74 | the limited query returns exactly the first min(limit, number featured) featured documents, in collection order |
| Store.DeleteOne | app/main.py:211 | `delete_one` removes at most one document, reports a count of 1 exactly when some document has the id, and otherwise changes nothing |
| Store.Without | app/main.py:211 | the reference definition: exactly the documents whose id differs, in order |
| Store.DeleteOneRemovesId | app/main.py:211 | with distinct ids, `delete_one` leaves exactly the documents with other ids, in order, and ids stay distinct |
| Store.DeletePreservesWellFormed | app/main.py:211 | deleting keeps every id fresh and distinct |
| Database.NewDatabase | app/database.py:12-19 | the URI and database name come from the environment, fall back to "mongodb://localhost:27017/" and "portfolio_db", and nothing is connected yet |
| Database.Connect | app/database.py:21-32 | `connect` never raises; it returns true exactly when the client, the database handle and the reachability check all succeed; a step that raises keeps the fields assigned before it |
| Database.GetCollection | app/database.py:34-39 | `get_collection` returns a handle on the named collection exactly when `db` is set, and fails with "Database not connected" otherwise |
| Database.Close | app/database.py:41-45 | `close` closes a client only when there is one, and leaves `client` and `db` unchanged |
| Database.GetProjectsCollection | app/database.py:51-52 | the projects accessor always asks for "projects" |
| Database.GetContactsCollection | app/database.py:54-55 | the contacts accessor always asks for "contacts" |
| Database.NotConnectedInitially | app/database.py:18-19 | before any `connect`, every collection lookup fails with "Database not connected" |
| Database.FailedPingStillConnects | app/database.py:24-27 | a reachability check that fails makes `connect` return false, but `get_collection` still hands out collections |
| Database.CloseKeepsState | app/database.py:41-45 | after `close`, `get_collection` answers as before; closing with no client does nothing |
| Database.RefusedUriStaysDisconnected | app/database.py:23-32 | a URI the driver refuses leaves a fresh instance unconnected |
| Handlers.SeedIfEmpty | app/main.py:19-51 | seeding inserts the four fixed records, in order, only into an empty projects collection; a non-empty collection is unchanged |
| Handlers.SamplesValid | app/main.py:21-50 | the four seed records meet ProjectCreate's constraints |
| Handlers.SeedThenHome | app/main.py:20-74 | seeding is idempotent, and after seeding from empty the home query shows exactly the first two sample projects |
| Handlers.Startup | app/main.py:14-53 | startup gets past seeding exactly when every connect step succeeds; it aborts in `get_collection` exactly when `db` is unset |
| Handlers.StartupUnreachable | app/main.py:16-20 | when only the reachability check fails, startup is aborted by `count_documents`, not by `get_collection` |
| Handlers.Shutdown | app/main.py:56-57 | shutdown closes a client exactly when there is one, and leaves both collection lookups answering as before |
| Handlers.Home | app/main.py:70-84 | the home page is rendered exactly when the collection is available and the server answers, with at most 2 projects, all featured; otherwise the answer is a 500 |
| Handlers.HomeShowsFeaturedPrefix | app/main.py:74 | the home page shows the first min(2, number featured) featured projects, in collection order |
| Handlers.AddProject | app/main.py:170-205 | add-project always answers 303 to /admin; it appends the validated document exactly when validation passes, `db` is set and the server answers, and otherwise leaves the store unchanged |
| Handlers.BlankTechStackNotInserted | app/main.py:183-205 | if the handler is called with a tech stack of only commas and whitespace, it parses to an empty list; nothing is inserted and the answer is still the 303 (the empty text itself gets FastAPI's 422 before the handler runs) |
| Handlers.AddProjectStoresParsedForm | app/main.py:183-198 | the stored document holds the parsed tech list (non-empty, every entry trimmed and non-empty), empty URLs as absent, non-empty URLs unchanged, and no image |
| Handlers.DeleteProject | app/main.py:207-218 | delete succeeds exactly when `db` is set, the id is well formed, the server answers and some project has the id, and then removes exactly one document; every other outcome is a 500 with the store unchanged, never a 404 |
| Handlers.DeleteMissIsServerError | app/main.py:213-218 | a well-formed id that matches nothing gets the 500 that wraps the handler's own 404 |
| Handlers.DeleteRemovesExactlyOne | app/main.py:211-214 | a successful delete leaves exactly the projects with other ids, none with the deleted id, and a well-formed store |
| Handlers.SubmitContact | app/main.py:110-146 | the success page is shown exactly when ContactCreate validation passes, `db` is set and the server answers; only then is the validated contact, with its normalised email, appended; otherwise the error page is shown and the store is unchanged |
| Handlers.InvalidContactNeverStored | app/main.py:120-146 | an invalid submission gets the error page and leaves the store unchanged, whatever the connection and server state, because validation runs before any store access |
| Handlers.EmptyMessageStored | app/main.py:122-140 | if the handler is called with an empty message, the submission is accepted and stored, although ContactMessage would refuse it; through the form this cannot happen, since FastAPI answers an empty required field with 422 |

## Left out

- HTTP plumbing: FastAPI routing, Jinja2 rendering, static files and response objects. Responses are the `Response` datatype, with a `StatusCode` for each.
- FastAPI's form parsing, which runs before a handler. A required form field sent empty is rejected with 422 before the handler runs. Text to `bool` conversion of `featured` and `newsletter` is not modelled either. The handlers take the fields as already parsed.
- The `about`, `contact` (GET), `projects` listing and `admin` dashboard handlers. They only read, or only render, and are not part of this model.
- Timestamps: the `created_at` / `updated_at` default factories (`datetime.utcnow`). The stored project and contact documents carry no timestamps anyway, because `ProjectCreate` and `ContactCreate` have none.
- ObjectId generation and parsing (bson), and the `PyObjectId` schema hooks. Ids are serials from a counter. A path id that does not parse is passed as `None`.
- The email-validator library behind `EmailStr`. It is the `EmailCheck` input.
- The MongoDB driver. URI parsing, database-name checks, server selection and timeouts are the `Driver` booleans and the per-request `serverUp` flag. A server that fails between two operations of one request is not modelled.
- The order of documents: an unsorted `find` returns MongoDB's natural order, which the server does not promise to be insertion order. The model takes it to be insertion order, and `Store.FindFeaturedIsPrefix`, `Handlers.HomeShowsFeaturedPrefix` and `Handlers.SeedThenHome` ("the first two sample projects") rest on that choice.
- `insert_many`: partial insertion on a failure is not modelled. It is all-or-nothing.
- The seed records are dictionaries without `github_url`, `demo_url` or `image_url` keys. The model stores these links as absent, so a missing key and a null value are not told apart.
- The `if result.inserted_id:` tests. An inserted id is never falsy, so the fall-through that returns `None` from `submit_contact` cannot happen and is not modelled.
- `print` logging, the async lifespan mechanics and concurrency between requests.
- instructions.py: comments only.
- Text.IsWhitespace: written out as the characters for which Python's `str.isspace()` holds, taken from the Unicode tables behind Python 3. It is not derived from Unicode data.
