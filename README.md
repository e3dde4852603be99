# Matrimonial matchmaking server: storage, handlers and URL building

This project models the server core of a matrimonial matchmaking web application:

- **Storage layer.** `DatabaseStorage` in `server/storage.ts` keeps users, profiles, interests and messages. An *interest* is a directed like from a sender to a receiver, with a status of `pending`, `accepted` or `rejected`. A *match* is an accepted interest, seen from either side.
- **Request handlers.** `server/routes.ts` holds the bodies of `registerRoutes`. They cover the authentication gates, the rule that only an interest's receiver may change it, the `type=received` default, the gender avatar default and the rule that the sender is always the session user.
- **URL builder.** `buildUrl` in `shared/routes.ts` fills the `:key` placeholders of a path. The paths of the `api` table are constants.

The document store is modelled as one in-memory object of class `Storage.DatabaseStorage`:

- four `seq` fields, in store (insertion) order;
- one counter, `nextId`, that hands out the ids.

`Valid()` says three things:

- ids within a table strictly increase;
- every id stays below the counter;
- usernames are unique. This is the `unique: true` index of `server/models.ts:4`.

Each store query (`find`, `findOne`, `findById`, `distinct`, `sort`, `new Set`) is a pure function in module `Tables`, along with the lemmas about it.

- **Mutators** are methods that change the store. They state the whole new state: one row appended or one row replaced, and every other table unchanged.
- **Reads** are functions, or read-only methods where the source loops or builds a query step by step (`listProfiles`). Those loops are the `for ... push` loops of `getInterests` and `getConversations`. The methods are proved equal to the functions that specify them.

Each handler is a method over the store. It takes the session user as an `Option<User>` (`None` is `!req.isAuthenticated()`) and returns the HTTP status with the payload.

In `shared/routes.ts`:

- `buildUrl` is a `while` loop over the (key, value) entries. Its invariant ties it to `ApplyAll`, a fold of single first-occurrence replacements.
- The replacement follows JavaScript's `String.prototype.replace` with a string pattern, including the `$$`, `$&`, `` $` `` and `$'` replacement patterns.

Module `Scenarios` holds a few client runs on a fresh store. They are proved from the contracts of the handlers, the store methods and the Tables lemmas.

Files:

- `schema.dfy`: the records.
- `tables.dfy`: the queries and their lemmas.
- `storage.dfy`: the store class.
- `routes.dfy`: the handlers.
- `shared_routes.dfy`: the paths and `buildUrl`.
- `scenarios.dfy`: client runs.

### Behaviour worth noting

- **Non-receiver PATCH.** A PATCH by someone other than the receiver gets 404, not 403 (`server/routes.ts:87-89`).
- **Matches.** `matches` is not deduplicated. Two accepted interests between the same pair give the counterpart twice (`server/storage.ts:113-129`, `Tables.MatchesKeepDuplicates`).
- **Interest status is not final.** An accepted or rejected interest can be set to any status again, `pending` included. The handler writes whatever string the body carries (`server/routes.ts:83` and `91`, `Scenarios.ResolveAgainScenario`).
- **Messages.** The handler checks neither that the content is non-empty nor that the two users are matched (`server/routes.ts:96-102`). An empty content is refused only by the stored document's `required` check (`server/models.ts:76`), which this model leaves out (`Scenarios.MessageScenario`).
- **Interests.** The server rejects neither duplicate interests nor interests to oneself (`server/routes.ts:65-71`, `server/storage.ts:102-105`).

## Model

| member | source | states |
|---|---|---|
| Tables.First | server/storage.ts:41-44 | `findOne`: the result is a row of the table that satisfies the query; it is absent exactly when no row does |
| Tables.FilterMembers | server/storage.ts:91 | `find`: a row is in the result iff it is in the table and satisfies the query |
| Tables.FilterAppend | server/storage.ts:91 | a query over two runs of rows is the query over each, concatenated (store order is kept) |
| Tables.FilterCongruent | server/storage.ts:91 | two queries that agree on every row return the same sequence |
| Tables.KeyedUnique | server/storage.ts:34 | in a table whose ids come from one counter, an id names at most one row |
| Tables.Dedup | server/storage.ts:189 | `new Set(xs)`: the same elements as the input, pairwise distinct |
| Tables.DedupPrefix | server/storage.ts:189 | `new Set` keeps insertion order: deduplicating a prefix of the input gives a prefix of the result, so first occurrences come in the order of the input |
| Tables.ProfileOf | server/storage.ts:74-77 | `getProfileByUserId`: a profile owned by that user, present iff the user owns some profile |
| Tables.ListedExactly | server/storage.ts:79-93 | a profile is listed iff it is stored and matches every truthy filter: gender, religion and city by equality, age within the inclusive `ageMin`/`ageMax` bounds |
| Tables.ListedWithoutFilters | server/storage.ts:79-93 | with every filter falsy the whole profile table comes back, in store order |
| Tables.InterestIndex | server/storage.ts:160-167 | the position of the interest with that id, and no earlier one has it; the table's length when none does |
| Tables.JoinMembers | server/storage.ts:135-140 | a row is in the joined listing iff its interest was found and the row's profile is the counterpart's profile |
| Tables.FlatMapAppend | server/storage.ts:113-129 | a loop that appends each element's results, run over two runs of elements, gives the two results concatenated |
| Tables.JoinAppend | server/storage.ts:113-129 | joining two runs of interests is joining each and concatenating: the loop keeps the order of the found interests |
| Tables.SentMembers | server/storage.ts:132-141 | `sent`: exactly the interests with senderId u whose receiver has a profile, each paired with that profile |
| Tables.ReceivedMembers | server/storage.ts:142-151 | `received`: exactly the interests with receiverId u whose sender has a profile, each paired with that profile |
| Tables.MatchesMembers | server/storage.ts:108-131 | `matches`: exactly the accepted interests sent by u (with the receiver's profile) or received by u (with the sender's profile) |
| Tables.AcceptedMatchesBothSides | server/storage.ts:108-131 | one accepted interest in either direction puts each side among the other's matches |
| Tables.SentAfterCreate | server/storage.ts:102-105 | a new interest adds exactly one row, at the end, to its sender's `sent` listing when the receiver has a profile |
| Tables.SingleMatchOfSender | server/storage.ts:116-121 | with one accepted interest between two different users in the store, its sender's `matches` is exactly that interest with the receiver's profile |
| Tables.SingleMatchOfReceiver | server/storage.ts:124-129 | with one accepted interest between two different users in the store, its receiver's `matches` is exactly that interest with the sender's profile |
| Tables.SingleAcceptedInterestMatches | server/storage.ts:108-131 | with one accepted interest between two different users in the store, each side's `matches` is exactly the one row with the other's profile |
| Tables.UnacceptedNeverMatches | server/storage.ts:110-111 | a pending or rejected interest never appears among anyone's matches |
| Tables.FindMembers | server/storage.ts:133 | the interest query of a listing holds exactly the stored interests on that side of the user (accepted only, for `matches`) |
| Tables.MatchesKeepDuplicates | server/storage.ts:113-131 | two accepted interests between the same pair list the same counterpart profile twice: no deduplication |
| Tables.InsertAddsOne | server/storage.ts:181 | inserting a message adds exactly that message, as a multiset |
| Tables.InsertKeepsSorted | server/storage.ts:181 | inserting into a sequence ascending by createdAt keeps it ascending |
| Tables.SortSortsAndPermutes | server/storage.ts:181 | `.sort({createdAt: 1})`: the result is in non-decreasing createdAt order and a permutation of the input |
| Tables.MessagesBetweenMembers | server/storage.ts:176-181 | a message is in the conversation of a and b iff it is stored and went from a to b or from b to a |
| Tables.MessagesBetweenSymmetric | server/storage.ts:175-183 | the conversation of (a, b) holds the same messages as that of (b, a), as a set and as a multiset; before sorting, the two queries select the same rows in store order |
| Tables.ReceiverIdsMembers | server/storage.ts:186 | an id is among the receivers iff some stored message went from u to it |
| Tables.SenderIdsMembers | server/storage.ts:187 | an id is among the senders iff some stored message went from it to u |
| Tables.CounterpartsExactly | server/storage.ts:186-189 | the counterpart ids are pairwise distinct and are exactly the users u sent a message to or received one from |
| Tables.MessageOpensConversation | server/storage.ts:185-200 | after one message between two users with profiles, each lists the other's profile among their conversations |
| Tables.ProfilesForMembers | server/storage.ts:192-197 | a profile is collected iff its owner's id is in the list and it is that owner's (first) profile |
| Tables.ProfilesForDistinct | server/storage.ts:192-197 | distinct ids collect profiles of pairwise distinct owners |
| Tables.ConversationProfilesExactly | server/storage.ts:185-200 | `getConversations`: at most one profile per counterpart; a profile is listed iff its owner is a counterpart and it is the owner's profile (counterparts without one are omitted) |
| Storage.DatabaseStorage.constructor | server/storage.ts:251 | a new store is empty, with the id counter at zero, and valid |
| Storage.DatabaseStorage.GetUser | server/storage.ts:32-39 | a user with that id, present iff one is stored; an unknown id is absent, not an error |
| Storage.DatabaseStorage.GetUserByUsername | server/storage.ts:41-44 | a user with that username, present iff one is stored |
| Storage.DatabaseStorage.StoredUserFound | server/storage.ts:32-44 | in a valid store, every stored user is exactly what its id and its username look up |
| Storage.DatabaseStorage.CreateUser | server/storage.ts:46-49 | a new username gets one appended user with a fresh id and `isAdmin` false, which then is what its username and its id look up; a taken one (the unique index) changes nothing; the other tables stay as they were |
| Storage.DatabaseStorage.GetAllUsers | server/storage.ts:51-54 | `User.find()`: every stored user, each once, in store order |
| Storage.DatabaseStorage.AllUsersFetchable | server/storage.ts:51-54 | every user `getAllUsers` lists is the one `getUser` returns for its id and `getUserByUsername` for its username |
| Storage.DatabaseStorage.CreateProfile | server/storage.ts:57-60 | appends exactly one profile carrying the given fields, a fresh id, `isVerified` false and the creation time, which `getProfile` then returns for that id; nothing else changes |
| Storage.DatabaseStorage.GetProfile | server/storage.ts:62-72 | a profile with that id, present iff one is stored |
| Storage.DatabaseStorage.StoredProfileFound | server/storage.ts:62-72 | in a valid store, every stored profile is exactly what its id looks up |
| Storage.Patched | server/storage.ts:95-99 | `findByIdAndUpdate` with `new: true`: the id is kept, each field the update carries takes its value, every other field keeps the stored one |
| Storage.PatchedNoChange | server/storage.ts:95-99 | an update carrying no field returns the profile unchanged |
| Storage.PatchedIdempotent | server/storage.ts:95-99 | applying the same update twice gives the same profile as applying it once |
| Storage.DatabaseStorage.GetProfileByUserId | server/storage.ts:74-77 | a profile of that user, present iff the user owns one |
| Storage.DatabaseStorage.ListProfiles | server/storage.ts:79-93 | the query built field by field returns exactly `Listed`: the stored profiles that every truthy filter admits, in store order |
| Storage.DatabaseStorage.UpdateProfile | server/storage.ts:95-99 | an unknown id changes nothing and gives no profile; a known one replaces that one row by the patched profile (the same id) and returns it, which `getProfile` then returns for that id; the other tables stay as they were |
| Storage.DatabaseStorage.CreateInterest | server/storage.ts:102-105 | appends exactly one interest with the given sender and receiver, status `pending` and a fresh id, which `getInterestById` then returns for that id; existing interests and other tables stay as they were |
| Storage.DatabaseStorage.PushJoined | server/storage.ts:116-121 | the push loop appends to `results` exactly the join of the found interests with their counterparts' profiles |
| Storage.DatabaseStorage.GetInterests | server/storage.ts:107-153 | the result is the `sent`, `received` or `matches` view of the interest table |
| Storage.DatabaseStorage.UpdateInterestStatus | server/storage.ts:155-158 | an unknown id changes nothing and gives nothing; otherwise only that interest's status is replaced, every other row and field unchanged, and the updated interest is returned, which `getInterestById` then returns for that id |
| Storage.DatabaseStorage.GetInterestById | server/storage.ts:160-167 | the interest with that id, present iff one is stored |
| Storage.DatabaseStorage.StoredInterestFound | server/storage.ts:160-167 | in a valid store, every stored interest is exactly what its id looks up |
| Storage.DatabaseStorage.CreateMessage | server/storage.ts:170-173 | appends exactly one message with the given sender, receiver and content (the empty one included); nothing else changes |
| Storage.DatabaseStorage.GetMessages | server/storage.ts:175-183 | sorted by createdAt, a permutation of the two-way conversation, holding exactly the messages between the two users |
| Storage.DatabaseStorage.GetConversations | server/storage.ts:185-200 | the loop collects exactly the profiles of the distinct counterparts, in first-seen order |
| Routes.ListViewOf | server/routes.ts:75 | a missing or empty `type` selects `received`; `matches` and `sent` are selected exactly by those strings |
| Routes.CreateProfileHandler | server/routes.ts:12-36 | 401 and no change without a session, 400 and no change for a malformed body, otherwise 201 with one appended profile owned by the session user; a falsy photoUrl becomes the boy avatar for male, the girl avatar for female, and stays for any other gender |
| Routes.MyProfileHandler | server/routes.ts:38-44 | 401 without a session, 404 when the user owns no profile, otherwise 200 with the user's profile |
| Routes.ListProfilesHandler | server/routes.ts:46-56 | open to everyone; 200 with exactly the filtered profiles |
| Routes.ProfileHandler | server/routes.ts:58-62 | 404 for an id no profile has, otherwise 200 with that profile |
| Routes.SendInterestHandler | server/routes.ts:65-71 | 401 and no change without a session; otherwise 201 and one pending interest whose sender is the session user, whatever the body says |
| Routes.ListInterestsHandler | server/routes.ts:73-79 | 401 without a session, otherwise 200 with the selected view; with `type` omitted, exactly the received interests whose sender has a profile |
| Routes.UpdateInterestHandler | server/routes.ts:81-93 | 401 without a session; 404 and no change when the interest is missing or the user is not its receiver; otherwise 200, and only that interest changes, to the body's status, whatever its current status |
| Routes.SendMessageHandler | server/routes.ts:96-102 | 401 and no change without a session; otherwise 201 and one appended message whose sender is the session user, whatever the body says |
| Routes.MessagesHandler | server/routes.ts:104-109 | 401 without a session, otherwise 200 with the conversation, sorted and complete |
| Routes.ConversationsHandler | server/routes.ts:111-116 | 401 without a session, otherwise 200 with the counterparts' profiles |
| Routes.AdminUsersHandler | server/routes.ts:119-125 | 403 unless the session user is an administrator, otherwise 200 with every user |
| SharedRoutes.DigitChar | shared/routes.ts:168 | the digit character of a value below ten |
| SharedRoutes.Decimal | shared/routes.ts:168 | the decimal rendering of a natural number is a non-empty digit string, with no leading zero except for 0 itself |
| SharedRoutes.DecimalRoundTrip | shared/routes.ts:168 | reading the decimal rendering back gives the number |
| SharedRoutes.ToJsString | shared/routes.ts:168 | `String(value)`: a string is itself; a number renders without `$`, a non-negative one as digits that read back to it, a negative one as `-` followed by digits that read back to its magnitude |
| SharedRoutes.IndexFrom | shared/routes.ts:167 | the first occurrence of the pattern at or after a position, or none at all |
| SharedRoutes.IndexOfIsFirst | shared/routes.ts:167-168 | an occurrence with none before it is the one `includes`/`replace` find |
| SharedRoutes.Expand | shared/routes.ts:168 | the replacement patterns of `String.prototype.replace`; a replacement without `$` is inserted as it is |
| SharedRoutes.ReplaceFirst | shared/routes.ts:168 | `url.replace(pattern, value)` with a string pattern: no occurrence leaves the string unchanged; otherwise only the first occurrence is replaced, literally when the replacement has no `$` |
| SharedRoutes.ReplaceWithMatchKeeps | shared/routes.ts:168 | replacing with `$&` puts the matched text back, so the string is unchanged |
| SharedRoutes.ApplyMatchKeeps | shared/routes.ts:166-169 | a parameter whose value is the string `$&` leaves any url unchanged |
| SharedRoutes.ApplyParam | shared/routes.ts:167-169 | a key whose `:key` does not occur leaves the url unchanged; otherwise the first `:key` is replaced by `String(value)` (literally when the value has no `$`) |
| SharedRoutes.ApplyAllAppend | shared/routes.ts:166-170 | params are applied in entry order, each to the result of the previous ones |
| SharedRoutes.BuildUrl | shared/routes.ts:163-173 | no params, or none at all, returns the path unchanged; otherwise the result is the in-order application of every entry |
| SharedRoutes.FillFirstPlaceholder | shared/routes.ts:168 | the first `:key` of a path becomes the value, expanded as a replacement pattern, between the text before and after it |
| SharedRoutes.FillFirstPlaceholderLiterally | shared/routes.ts:168 | for a value without `$` the first `:key` becomes `String(value)` itself |
| SharedRoutes.InterestPathWithId | shared/routes.ts:163-173 | `buildUrl('/api/interests/:id', {id})` is `/api/interests/` followed by the id |
| SharedRoutes.InterestPathWithNumber | shared/routes.ts:163-173 | a numeric id is always substituted literally into the interest path |
| SharedRoutes.DollarAmpersandRestoresPlaceholder | shared/routes.ts:168 | a string value `$&` is a replacement pattern and puts the `:id` placeholder back |
| Scenarios.MatchScenario | server/routes.ts:81-93 | after Asha's interest is accepted by Ravi, each finds exactly one match, with the other's profile |
| Scenarios.ResolveAgainScenario | server/routes.ts:81-93 | the sender's PATCH gets 404; the receiver can reject, then accept, then set the interest back to pending, each with 200 |
| Scenarios.MessageScenario | server/routes.ts:96-102 | the handler itself accepts an empty message and answers 201 (the stored document's `required` check on `content`, which would refuse it, is not modelled); one message puts each side among the other's conversations |

## Left out

- **Store and ids.** Mongoose and MongoDB are out: ObjectId casting, `_id.toString()`, connections and the `new: true` options. Ids are natural numbers from one counter. The try/catch around `findById` is modelled as "absent id", and a malformed id reads as an id no row has.
- **Timestamps.** `createdAt` is an integer the caller supplies (`now`). `Date.now` is not modelled.
- **Authentication.** Passwords, hashing, Passport and sessions are out. The session user is a parameter, and registration, login and logout (`server/auth.ts`) are not part of this model.
- **Body validation.** The insert schema that validates the profile body appears only as its outcome: `Malformed` gives 400. Requests also pass their bodies already typed: a receiver id is an `Id`, and a body without `status` is not modelled.
- **Stored-document validation.** Mongoose's `required` checks are not modelled (for example, the empty message content a stored document would reject). Nor is the 500 branch of profile creation.
- **Age filters.** `Number(req.query.ageMin)` is not modelled: the age filters arrive as integers, and 0 or absent is falsy. Floating-point ages and NaN are out.
- **Query strings.** Other query-string value shapes (arrays, objects) are out.
- **Profile fields.** Only the profile fields that the storage or the handlers read are modelled. The extra demographic fields and partner preferences are out.
- Storage.DatabaseStorage.GetMessages: the store puts messages with equal createdAt in no fixed order. The model's insertion sort is one admissible order, and the theorem states only sorted and a permutation.
- Tables.MessagesBetweenSymmetric: its sequence equality of the two sorted conversations holds only in the model, whose sort is deterministic. The store can return two messages with equal createdAt in different orders for (a, b) and (b, a); what carries over is the set and multiset equality.
- Storage.DatabaseStorage.GetConversations: the `typeof id === 'string'` test is always true in the model, because ids are of one type.
- Storage.DatabaseStorage.GetConversations: `distinct` is taken to return first-occurrence order. MongoDB documents no order for it.
- Tables.Filter: `find` and `findOne` without a sort are taken to return documents in insertion order. MongoDB does not guarantee this. It matters where a user owns two profiles: `Tables.ProfileOf` picks the first, and `Tables.ProfilesForMembers` and `Tables.ConversationProfilesExactly` rely on that choice.
- **Concurrency.** Each handler and each storage call is modelled as one atomic step over one store snapshot. In the source they are separate awaited database requests with no transaction, so concurrent requests can interleave. `getInterests` runs two `find`s and then one profile lookup per row (`server/storage.ts:110-129`). `getConversations` runs two `distinct`s and then one lookup per id (`server/storage.ts:185-197`). The PATCH handler reads and then writes (`server/routes.ts:84-91`). Interleavings of concurrent requests are out; for example, a profile created while a listing loop runs could be missing from an earlier row and present in a later one.
- Storage.DatabaseStorage.CreateUser: for a taken username `UserModel.create` throws the unique index's duplicate-key error; the model returns `None` and leaves the store unchanged instead.
- Storage.DatabaseStorage.UpdateProfile: no route calls it. The patch carries each field as an option, and a nullable field as an option of an option.
- SharedRoutes.BuildUrl: the parameter object is a sequence of entries in `Object.entries` order. JavaScript's rule that integer-like keys come first is not modelled. Numbers are integers, so fractional and exponent renderings of `String(value)` are out.
- **Constants.** The `api` table's input and response schemas are not modelled, only its paths. The declared PATCH status list (`accepted`, `rejected`) is a constant that the server never checks.
- **Other code.** The React client, the seeding script and the empty `seed()` function are not part of this model.
