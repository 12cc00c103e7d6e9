/** The HTTP request handlers of server.js as pure transitions
    State x inputs -> (State, Response, notifications). The document store,
    the blob store and the socket transport are folded into one State. */
module Server {
  import opened Wrappers
  import opened Seqs
  import opened Models
  import opened Presence
  import opened Notify
  import opened Media

  datatype State = State(
    habits: map<HabitId, Habit>,
    users: map<UserId, User>,
    proofs: map<ProofId, Proof>,
    online: Directory)

  /** The error responses, with their HTTP status and JSON error message. */
  datatype Failure = NotAuthenticated | HabitNotFound | NoFileUploaded | UploadFailed | ProofNotFound
  {
    function Status(): nat {
      match this
      case NotAuthenticated => 401
      case HabitNotFound => 404
      case NoFileUploaded => 400
      case UploadFailed => 500
      case ProofNotFound => 404
    }

    function Message(): string {
      match this
      case NotAuthenticated => "Not authenticated"
      case HabitNotFound => "Habit not found"
      case NoFileUploaded => "No file uploaded"
      case UploadFailed => "Upload failed"
      case ProofNotFound => "Proof not found"
    }
  }

  /** A success body: `{ habit }` or `{ proof }`, with the document's id. */
  datatype Body = HabitBody(habitId: HabitId, habit: Habit) | ProofBody(proofId: ProofId, proof: Proof)

  datatype Response = Ok(body: Body) | Err(failure: Failure)

  /** The result of one handler run. */
  datatype Step = Step(state: State, response: Response, sent: seq<Notification>)

  /** The multipart `media` field as multer presents it; only the mimetype
      influences the stored record. */
  datatype UploadedFile = UploadedFile(mimetype: string)

  /** What the blob store and the proof insert did, as an input:
      - StorageFailed: the upload, `makePublic` or the proof insert threw,
        so no proof record exists;
      - Published(url): everything succeeded and the proof is stored;
      - PublishedCleanupFailed(url): the proof is stored, but removing the
        temporary file threw afterwards. */
  datatype Storage = StorageFailed | Published(url: string) | PublishedCleanupFailed(url: string)

  /** The caller is logged in. The session carries a user id; the identity
      layer resolves it to a stored user, and yields no user when the id is
      unknown, so an id outside `users` is treated as anonymous. */
  predicate Authenticated(s: State, caller: Option<UserId>) {
    caller.Some? && caller.value in s.users
  }

  /** `a` and `b` agree on every key other than `k`. */
  ghost predicate SameExcept<K, V>(a: map<K, V>, b: map<K, V>, k: K) {
    && a.Keys - {k} == b.Keys - {k}
    && forall x :: x in a && x != k ==> x in b && a[x] == b[x]
  }

  /** POST /api/habits. An anonymous caller gets 401 and nothing changes.
      Otherwise a habit with the caller as creator and sole member is stored
      under the fresh id, the id is appended to the caller's joined habits,
      and nothing else changes. */
  function CreateHabit(s: State, caller: Option<UserId>, title: Option<string>,
                       description: Option<string>, id: HabitId): (r: Step)
    requires id !in s.habits
    ensures !Authenticated(s, caller) ==> r == Step(s, Err(NotAuthenticated), [])
    ensures Authenticated(s, caller) ==>
      var u := caller.value;
      && id in r.state.habits
      && r.state.habits[id].creator == u
      && r.state.habits[id].members == [u]
      && r.state.habits[id].title == title
      && r.state.habits[id].description == description
      && r.response == Ok(HabitBody(id, r.state.habits[id]))
      && r.state.habits.Keys == s.habits.Keys + {id}
      && SameExcept(r.state.habits, s.habits, id)
      && r.state.users.Keys == s.users.Keys
      && r.state.users[u].joinedHabits == s.users[u].joinedHabits + [id]
      && r.state.users[u].googleId == s.users[u].googleId
      && r.state.users[u].displayName == s.users[u].displayName
      && r.state.users[u].email == s.users[u].email
      && r.state.users[u].avatar == s.users[u].avatar
      && SameExcept(r.state.users, s.users, u)
      && r.state.proofs == s.proofs
      && r.state.online == s.online
      && r.sent == []
  {
    if !Authenticated(s, caller) then Step(s, Err(NotAuthenticated), [])
    else
      var u := caller.value;
      var habit := Habit(title, description, u, [u]);
      var user := s.users[u];
      var user' := user.(joinedHabits := user.joinedHabits + [id]);
      Step(s.(habits := s.habits[id := habit], users := s.users[u := user']),
           Ok(HabitBody(id, habit)), [])
  }

  /** POST /api/habits/:id/join. The 401 check comes before the lookup, so an
      anonymous caller gets 401 whether or not the habit exists; a missing
      habit gives 404. Both leave the state alone. Otherwise the caller is
      added to the habit's members and the habit to the caller's joined
      habits, each only if absent, and the updated habit is returned. */
  function JoinHabit(s: State, caller: Option<UserId>, id: HabitId): (r: Step)
    ensures !Authenticated(s, caller) ==> r == Step(s, Err(NotAuthenticated), [])
    ensures Authenticated(s, caller) && id !in s.habits ==> r == Step(s, Err(HabitNotFound), [])
    ensures Authenticated(s, caller) && id in s.habits ==>
      var u := caller.value;
      && r.state.habits.Keys == s.habits.Keys
      && r.state.habits[id].members == AppendIfAbsent(s.habits[id].members, u)
      && r.state.habits[id].creator == s.habits[id].creator
      && r.state.habits[id].title == s.habits[id].title
      && r.state.habits[id].description == s.habits[id].description
      && SameExcept(r.state.habits, s.habits, id)
      && r.state.users.Keys == s.users.Keys
      && r.state.users[u].joinedHabits == AppendIfAbsent(s.users[u].joinedHabits, id)
      && r.state.users[u].googleId == s.users[u].googleId
      && r.state.users[u].displayName == s.users[u].displayName
      && r.state.users[u].email == s.users[u].email
      && r.state.users[u].avatar == s.users[u].avatar
      && SameExcept(r.state.users, s.users, u)
      && r.state.proofs == s.proofs
      && r.state.online == s.online
      && r.response == Ok(HabitBody(id, r.state.habits[id]))
      && r.sent == []
  {
    if !Authenticated(s, caller) then Step(s, Err(NotAuthenticated), [])
    else if id !in s.habits then Step(s, Err(HabitNotFound), [])
    else
      var u := caller.value;
      var habit := s.habits[id];
      var habit' := habit.(members := AppendIfAbsent(habit.members, u));
      var user := s.users[u];
      var user' := user.(joinedHabits := AppendIfAbsent(user.joinedHabits, id));
      Step(s.(habits := s.habits[id := habit'], users := s.users[u := user']),
           Ok(HabitBody(id, habit')), [])
  }

  /** POST /api/habits/:id/proof. Checks, in order: 401 for an anonymous
      caller, 404 for a missing habit, 400 when no file came with the request;
      none of them touches the state. A storage failure before the record is
      written gives 500 and creates nothing. On success a proof referencing
      the habit and the caller, with the classified media type and empty vote
      lists, is stored under the fresh id and `new-proof` goes to every
      member of the habit that has a presence entry. A failure after the
      record is written gives 500 and notifies nobody, but the proof stays.
      Habits, users and presence never change. */
  function SubmitProof(s: State, caller: Option<UserId>, habitId: HabitId,
                       file: Option<UploadedFile>, storage: Storage, id: ProofId): (r: Step)
    requires id !in s.proofs
    ensures r.state.habits == s.habits && r.state.users == s.users && r.state.online == s.online
    ensures !Authenticated(s, caller) ==> r == Step(s, Err(NotAuthenticated), [])
    ensures Authenticated(s, caller) && habitId !in s.habits ==> r == Step(s, Err(HabitNotFound), [])
    ensures Authenticated(s, caller) && habitId in s.habits && file.None? ==>
      r == Step(s, Err(NoFileUploaded), [])
    ensures Authenticated(s, caller) && habitId in s.habits && file.Some? && storage.StorageFailed? ==>
      r == Step(s, Err(UploadFailed), [])
    ensures Authenticated(s, caller) && habitId in s.habits && file.Some? && !storage.StorageFailed? ==>
      && r.state.proofs.Keys == s.proofs.Keys + {id}
      && SameExcept(r.state.proofs, s.proofs, id)
      && r.state.proofs[id].habit == habitId
      && r.state.proofs[id].owner == caller.value
      && r.state.proofs[id].mediaUrl == storage.url
      && r.state.proofs[id].mediaType == ClassifyMedia(file.value.mimetype)
      && r.state.proofs[id].verifiedBy == []
      && r.state.proofs[id].rejectedBy == []
    ensures Authenticated(s, caller) && habitId in s.habits && file.Some? && storage.Published? ==>
      && r.response == Ok(ProofBody(id, r.state.proofs[id]))
      && r.sent == FanOut(s.habits[habitId].members, s.online, NewProof(habitId, id, r.state.proofs[id]))
      && (forall n :: n in r.sent ==> n.event == NewProof(habitId, id, r.state.proofs[id]))
      && Sockets(r.sent) == OnlineSockets(s.habits[habitId].members, s.online)
    ensures Authenticated(s, caller) && habitId in s.habits && file.Some? && storage.PublishedCleanupFailed? ==>
      r.response == Err(UploadFailed) && r.sent == []
  {
    if !Authenticated(s, caller) then Step(s, Err(NotAuthenticated), [])
    else if habitId !in s.habits then Step(s, Err(HabitNotFound), [])
    else if file.None? then Step(s, Err(NoFileUploaded), [])
    else
      match storage
      case StorageFailed => Step(s, Err(UploadFailed), [])
      case Published(url) =>
        var proof := Proof(habitId, caller.value, url, ClassifyMedia(file.value.mimetype), [], []);
        var members := s.habits[habitId].members;
        Step(s.(proofs := s.proofs[id := proof]), Ok(ProofBody(id, proof)),
             FanOut(members, s.online, NewProof(habitId, id, proof)))
      case PublishedCleanupFailed(url) =>
        var proof := Proof(habitId, caller.value, url, ClassifyMedia(file.value.mimetype), [], []);
        Step(s.(proofs := s.proofs[id := proof]), Err(UploadFailed), [])
  }

  /** Whether the request body's `action` selects the verify list; every
      other value, including a missing one, selects the reject list. */
  predicate IsVerify(action: string) {
    action == "verify"
  }

  /** POST /api/proofs/:id/verify. 401 for an anonymous caller, then 404 for a
      missing proof, both without effect. Otherwise the caller is added, if
      absent, to `verifiedBy` when the action is "verify" and to `rejectedBy`
      otherwise; the other list, the proof's other fields and every other
      proof are kept. `proof-verified`, carrying the raw action and the
      voter, goes to the proof owner's socket exactly when the owner has a
      presence entry, whether or not the vote changed anything. */
  function CastVote(s: State, caller: Option<UserId>, id: ProofId, action: string): (r: Step)
    ensures r.state.habits == s.habits && r.state.users == s.users && r.state.online == s.online
    ensures !Authenticated(s, caller) ==> r == Step(s, Err(NotAuthenticated), [])
    ensures Authenticated(s, caller) && id !in s.proofs ==> r == Step(s, Err(ProofNotFound), [])
    ensures Authenticated(s, caller) && id in s.proofs ==>
      var u := caller.value;
      var p := s.proofs[id];
      && r.state.proofs.Keys == s.proofs.Keys
      && SameExcept(r.state.proofs, s.proofs, id)
      && r.state.proofs[id].habit == p.habit
      && r.state.proofs[id].owner == p.owner
      && r.state.proofs[id].mediaUrl == p.mediaUrl
      && r.state.proofs[id].mediaType == p.mediaType
      && (IsVerify(action) ==>
            && r.state.proofs[id].verifiedBy == AppendIfAbsent(p.verifiedBy, u)
            && r.state.proofs[id].rejectedBy == p.rejectedBy)
      && (!IsVerify(action) ==>
            && r.state.proofs[id].rejectedBy == AppendIfAbsent(p.rejectedBy, u)
            && r.state.proofs[id].verifiedBy == p.verifiedBy)
      && r.response == Ok(ProofBody(id, r.state.proofs[id]))
      && |r.sent| <= 1
      && (r.sent != [] <==> p.owner in s.online)
      && (r.sent != [] ==> r.sent[0] == Notification(s.online[p.owner], ProofVerified(id, action, u)))
  {
    if !Authenticated(s, caller) then Step(s, Err(NotAuthenticated), [])
    else if id !in s.proofs then Step(s, Err(ProofNotFound), [])
    else
      var u := caller.value;
      var p := s.proofs[id];
      var p' := if IsVerify(action) then p.(verifiedBy := AppendIfAbsent(p.verifiedBy, u))
                else p.(rejectedBy := AppendIfAbsent(p.rejectedBy, u));
      var sent := if p.owner in s.online
                  then [Notification(s.online[p.owner], ProofVerified(id, action, u))]
                  else [];
      Step(s.(proofs := s.proofs[id := p']), Ok(ProofBody(id, p')), sent)
  }

  /** Socket `register(userId)`: only the presence map changes, and in it
      only the registering user's entry. */
  function OnRegister(s: State, u: UserId, sid: SocketId): (r: State)
    ensures r.habits == s.habits && r.users == s.users && r.proofs == s.proofs
    ensures u in r.online && r.online[u] == sid
    ensures r.online.Keys == s.online.Keys + {u}
    ensures forall v :: v in s.online && v != u ==> r.online[v] == s.online[v]
  {
    s.(online := Register(s.online, u, sid))
  }

  /** Socket `disconnect`: only the presence map changes; the users mapped
      to the closing socket lose their entries and every other entry stays. */
  function OnDisconnect(s: State, sid: SocketId): (r: State)
    ensures r.habits == s.habits && r.users == s.users && r.proofs == s.proofs
    ensures sid !in r.online.Values
    ensures forall v :: v in r.online <==> v in s.online && s.online[v] != sid
    ensures forall v :: v in r.online ==> r.online[v] == s.online[v]
  {
    DisconnectLeavesNoEntry(s.online, sid);
    s.(online := Disconnect(s.online, sid))
  }
}
