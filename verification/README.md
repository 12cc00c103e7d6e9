# microHabits core, modelled in Dafny

microHabits lets users create shared habits, join them, upload photo or video
proof of having done a habit, and vote to verify or reject each other's
proofs. A Socket.IO presence map pushes `new-proof` events to a habit's
online members and `proof-verified` events to a proof's owner.

This project models the in-memory state machine behind the request and socket
handlers of `server.js`. The document store (habits, users, proofs) and the
presence map `onlineUsers` are one immutable `State`. Each HTTP handler is a
pure function `State x inputs -> Step(state, response, notifications)`. The
two socket events only change the presence map. A notification is a record
`(socket id, event)`, so the set of recipients can be stated.

Modules, leaf first:

- `Wrappers`: `Option`, for absent request fields and the anonymous caller.
- `Seqs`: the guarded push `if (!xs.includes(x)) xs.push(x)`, duplicate-freedom, and `startsWith`.
- `Models`: the `Habit`, `User` and `Proof` documents, plus the `MediaType` tag.
- `Presence`: `register` and `disconnect` on the user-id -> socket-id map. `disconnect` is given two ways: as a map comprehension, and as the key-scanning loop the source runs, proved equal.
- `Notify`: events, notification records, and the fan-out to online users.
- `Media`: the mimetype classifier.
- `Server`: the four HTTP handlers, error codes and messages, and the socket handlers lifted to the whole state.
- `Properties`: a consistency invariant every handler preserves, plus idempotence, vote and recipient properties.
- `Scenarios`: a worked create / join / submit / verify session.

Modelling choices:

- The caller is an `Option<UserId>`. The caller counts as authenticated only when it names a stored user, since the session layer gives no `req.user` for an unknown id (server.js:68-69).
- Mongo generates the ids of new habits and proofs. In the model they are inputs, and the handler requires them to be fresh.
- The blob store's behaviour is an input `Storage`:
  - `StorageFailed`: the upload, `makePublic` or the proof insert threw. The result is 500 and no proof exists.
  - `Published(url)`: everything succeeded.
  - `PublishedCleanupFailed(url)`: removing the temporary file threw after the proof was stored (server.js:178). The result is still 500 and nobody is notified, but the proof remains.
- The classifier checks the bare prefixes `"image"` and `"video"`, with no slash (server.js:172). So `"imagery"` is classed `image`, and the comparison is case-sensitive. A description in terms of `image/*` would reject strings such as `imagery` that the code classes `image`; the model follows the code.
- Submitting a proof does not require membership in the habit. A submitter who has not joined the habit is therefore not sent `new-proof` for the submitter's own proof.
- The comment at server.js:81 says the presence map goes from socket id to user id. The code stores user id -> socket id, and the model follows the code.

## Model

| member | source | states |
|---|---|---|
| `Seqs.AppendIfAbsent` | server.js:136-143 | the guarded push keeps the old list as a prefix and makes the element present; if the element was already there the list is unchanged, otherwise exactly one occurrence of it is added |
| `Seqs.AppendIfAbsentIdempotent` | server.js:136-143 | a second guarded push of the same element changes nothing |
| `Seqs.NoDupAppendIfAbsent` | server.js:136-143 | the guarded push never creates a duplicate |
| `Seqs.NoDupAppendFresh` | server.js:120 | the unguarded push of a fresh habit id onto a duplicate-free list keeps it duplicate-free |
| `Seqs.NoDupSingleOccurrence` | server.js:136-143 | in a duplicate-free list, a present element occurs exactly once |
| `Seqs.StartsWithIsPrefix` | server.js:172 | the character-by-character `startsWith` holds exactly when the prefix is a sequence prefix of the string |
| `Models.MediaTypeNameInjective` | models/Proof.js:7 | the three stored `mediaType` strings are distinct, so the string determines the tag |
| `Presence.Register` | server.js:84-86 | after `register(u)` on socket `sid`, u maps to sid, the key set gains only u, and every other user's entry is unchanged |
| `Presence.Disconnect` | server.js:87-92 | a user remains exactly when the user's socket is not the closing one, and every remaining entry keeps its value |
| `Presence.SweepDisconnect` | server.js:89-91 | the for-in loop that deletes each entry equal to the closing socket computes exactly `Disconnect` |
| `Presence.RegisterLastWriteWins` | server.js:84-86 | registering u on s1 and then on s2 is the same as registering on s2 alone, so u maps to s2 |
| `Presence.DisconnectCurrentRemoves` | server.js:84-92 | closing the socket a user just registered on removes that user |
| `Presence.DisconnectStaleKeepsNewer` | server.js:84-92 | closing a user's old socket after re-registration on a new one keeps the user mapped to the new socket |
| `Presence.DisconnectIdempotent` | server.js:87-92 | a second disconnect of the same socket changes nothing |
| `Presence.DisconnectLeavesNoEntry` | server.js:87-92 | after disconnect, no user is mapped to the closed socket |
| `Notify.FanOut` | server.js:181-186 | the emitted records number at most the members and all carry the event; the sockets reached are exactly the sockets of the members who have a presence entry |
| `Notify.FanOutOnePerOnlineMember` | server.js:181-186 | when the member list has no duplicates and no two users share a socket, the fan-out sends exactly one record per socket reached, that is, one per online member |
| `Notify.FanOutOnlyToOnline` | server.js:181-186 | every fan-out record goes to the socket of some listed user who has a presence entry |
| `Notify.FanOutReachesOnline` | server.js:181-186 | every listed user with a presence entry gets the event on that socket |
| `Media.ClassifyMedia` | server.js:172 | the tag is image iff the mimetype starts with "image"; otherwise video iff it starts with "video"; otherwise file; the stored name is one of the three |
| `Media.ClassifyVideoIffPrefix` | server.js:172 | since the two prefixes cannot both hold, video holds iff the mimetype starts with "video" |
| `Media.ClassifyMediaExamples` | server.js:172 | image/png and imagery are image, video/mp4 is video, application/pdf, the empty string and Image/PNG are file |
| `Server.CreateHabit` | server.js:116-123 | anonymous: 401 and no change. Otherwise the new habit has the caller as creator and as its one member, carries the given title and description, and is returned; the caller's joined habits gain the id at the end while the caller's other fields stay; nothing else changes and nothing is sent |
| `Server.JoinHabit` | server.js:132-145 | 401 comes before the lookup, so anonymous callers get 401 even for missing habits; a missing habit gives 404; neither changes state. Otherwise user and habit are pushed into each other's lists only if absent, the other fields of both documents stay, the updated habit is returned, and nothing else changes |
| `Server.SubmitProof` | server.js:148-193 | checks run in the order 401, 404, 400, and none changes state; a storage failure gives 500 with no proof. Otherwise a proof with the habit, submitter, url, classified type and empty vote lists is stored under the fresh id. On full success it is returned and the records sent are exactly the fan-out of new-proof over the habit's members, reaching exactly the online members' sockets; a late failure gives 500 and sends nothing. Habits, users and presence never change |
| `Server.CastVote` | server.js:202-222 | 401, then 404, both without effect. Otherwise "verify" pushes the voter into verifiedBy if absent, and any other action pushes into rejectedBy if absent. The other list, the other fields and all other proofs are kept. One proof-verified carrying the raw action and the voter is sent iff the owner has a presence entry |
| `Server.OnRegister` | server.js:84-86 | the register event maps the user to the socket, adds no other key, keeps every other user's entry, and leaves the documents unchanged |
| `Server.OnDisconnect` | server.js:87-92 | the disconnect event removes exactly the users mapped to the socket, keeps every other entry with its value, and leaves the documents unchanged |
| `Properties.UnknownUserIsAnonymous` | server.js:68-69 | a session id naming no stored user gives no `req.user`, so all four handlers answer 401, change nothing and send nothing, as for an anonymous caller |
| `Properties.InitialStoreValid` | server.js:53-61 | a store with no habits or proofs, whose users (created at login with no joined habits) have joined nothing, satisfies the invariant |
| `Properties.LoginUserPreservesValid` | server.js:53-61 | adding a login-created user with no joined habits under a new id keeps the invariant |
| `Properties.CreateHabitPreservesValid` | server.js:116-123 | creating a habit keeps the invariant: references resolve, no duplicates, creators are members, membership is recorded on both sides |
| `Properties.JoinUpdatePreservesValid` | server.js:136-143 | the two guarded pushes of a join keep every part of the invariant |
| `Properties.JoinHabitPreservesValid` | server.js:132-145 | joining keeps the invariant |
| `Properties.SubmitProofPreservesValid` | server.js:168-175 | submitting a proof keeps the invariant |
| `Properties.ProofUpdatePreservesValid` | server.js:208-213 | replacing one proof by a valid one keeps all proofs valid |
| `Properties.CastVotePreservesValid` | server.js:202-213 | voting keeps the invariant, including duplicate-free vote lists |
| `Properties.PresencePreservesValid` | server.js:82-93 | register and disconnect keep the invariant |
| `Properties.JoinHabitIdempotent` | server.js:136-144 | joining a second time yields the same state and the same response |
| `Properties.JoinTwiceSingleOccurrence` | server.js:136-143 | from a consistent state, after two joins the user occurs exactly once in members and the habit exactly once in joinedHabits |
| `Properties.CastVoteRepeatIsNoOp` | server.js:208-221 | repeating a vote leaves the state unchanged, returns the same proof, and notifies the owner again |
| `Properties.VoteCanLandInBothLists` | server.js:208-212 | a user who verifies and then rejects the same proof ends up in both lists |
| `Properties.VotesOnlyGrow` | server.js:208-213 | each vote list of every proof is a prefix of the list after any vote |
| `Properties.NewProofReachesUserIffMember` | server.js:148-186 | when no two users share a socket, an online user's socket receives new-proof iff the user is a member of the habit, the submitter included |
| `Properties.ProofVerifiedOnlyToOwner` | server.js:215-219 | the sockets reached by a vote are the owner's socket if the owner is online, and none otherwise |
| `Scenarios.CreateStep` | server.js:116-123 | A creating "Read 20 pages" yields a habit whose members are [A] and records it in A's joined habits |
| `Scenarios.JoinStep` | server.js:132-145 | B joining yields members [A, B] and B's joined habits [h1] |
| `Scenarios.SubmitStep` | server.js:148-188 | B's JPEG becomes an image proof with no votes, and new-proof for h1 reaches both online members |
| `Scenarios.VerifyStep` | server.js:202-221 | A's verify yields verifiedBy [A] and one proof-verified to B's socket |
| `Scenarios.VoteOnMissingProof` | server.js:205-206 | voting on an unknown proof is a 404 with no state change |
| `Scenarios.AnonymousSubmit` | server.js:149 | an anonymous submission is a 401 and creates no proof |

## Left out

- Authentication: the Google OAuth strategy, session handling, `serializeUser`/`deserializeUser` and the login, logout and `/api/me` routes (server.js:40-72, 98-113) belong to an external identity provider. The caller is an `Option<UserId>`, and user documents are created only by login, so the model takes them as given.
- Listing: `GET /api/habits` and `GET /api/habits/:id/proofs` (server.js:126-129, 196-199) are unfiltered reads with `populate` display joins. They carry no logic.
- Persistence: the Mongo connection (server.js:24-26) is not modelled. Neither is a failed save in createHabit, joinHabit or castVote; those handlers have no error path, and such a failure never answers the request.
- Malformed ids: the 404 paths cover well-formed ids only. A `:id` that is not an ObjectId makes `findById` (server.js:134, 150, 205) reject with a cast error before the 404 check, outside any `try`. No response is sent, and Node's default handling of the unhandled rejection ends the process, which also empties the presence map. The model treats every id as well-formed and has no process crash.
- Multer: `upload.single('media')` (server.js:148) runs before the handler. A multipart body that it rejects gets 500 from Express's default error handler before the 401/404/400 checks, for anonymous callers too. Examples are a file field not named `media`, a second `media` file, or an unparsable body. The `file` input covers only bodies multer accepts.
- Firebase and the file system: the service init, `bucket.upload`, `makePublic`, the public-URL string and `fs.unlinkSync` (server.js:29-35, 156-165, 178) are foreign I/O. They appear only as the `Storage` input and an opaque url. The multer temporary file is written before the 401/404/400 checks and is not removed on those paths; the model has no file system, so this leak is not modelled.
- Socket transport: `io.to(sid).emit` is not modelled. Handlers return the records they would emit.
- Truthiness: the source checks `if (sid)`. The model checks key presence instead, because socket.io never issues an empty socket id.
- Prototype keys: the presence map is a plain object. `register` stores whatever value the client sends as the user id. For `__proto__` the source's assignment hits the prototype setter, which ignores a string, so nothing is stored; `Presence.Register` stores the entry. No notification is affected, because every lookup (server.js:182, 216) uses an ObjectId hex string, which never names an inherited key.
- Action field: an `action` that is missing or not a string behaves like any string other than "verify". The model takes `action` as a string.
- Display fields: timestamps (`createdAt`, `Date.now()` file names), the `streak` field and the uploaded file's original name play no part in the logic.
- Concurrency: read-modify-write races between concurrent requests are outside a sequential model.
- public/app.js is browser UI code and is not part of this model.
- Notify.FanOut: the contract states the event and the set of sockets reached, not the order of the records. It does not fix the count in general, because the count genuinely varies: two members registered on one socket get two records, and so would a member listed twice. For the duplicate-free, unshared case, `Notify.FanOutOnePerOnlineMember` gives one record per online member, and `Server.SubmitProof` pins its records to `FanOut` itself.
