/** Properties of the handlers that relate several calls or hold across the
    whole state: a consistency invariant every handler preserves,
    idempotence of joining and voting, and who receives which notification. */
module Properties {
  import opened Wrappers
  import opened Seqs
  import opened Models
  import opened Presence
  import opened Notify
  import opened Server

  ghost predicate HabitValid(users: map<UserId, User>, h: Habit) {
    && h.creator in h.members
    && NoDup(h.members)
    && forall m :: m in h.members ==> m in users
  }

  ghost predicate UserValid(habits: map<HabitId, Habit>, u: User) {
    && NoDup(u.joinedHabits)
    && forall h :: h in u.joinedHabits ==> h in habits
  }

  ghost predicate ProofValid(habits: map<HabitId, Habit>, users: map<UserId, User>, p: Proof) {
    && p.habit in habits
    && p.owner in users
    && NoDup(p.verifiedBy)
    && NoDup(p.rejectedBy)
    && (forall v :: v in p.verifiedBy ==> v in users)
    && (forall v :: v in p.rejectedBy ==> v in users)
  }

  ghost predicate HabitsValid(habits: map<HabitId, Habit>, users: map<UserId, User>) {
    forall h :: h in habits ==> HabitValid(users, habits[h])
  }

  ghost predicate UsersValid(habits: map<HabitId, Habit>, users: map<UserId, User>) {
    forall u :: u in users ==> UserValid(habits, users[u])
  }

  ghost predicate ProofsValid(habits: map<HabitId, Habit>, users: map<UserId, User>,
                              proofs: map<ProofId, Proof>) {
    forall p :: p in proofs ==> ProofValid(habits, users, proofs[p])
  }

  /** A user is among a habit's members exactly when the habit is among the
      user's joined habits. */
  ghost predicate MembershipSymmetric(habits: map<HabitId, Habit>, users: map<UserId, User>) {
    forall h, u :: h in habits && u in users ==>
      (u in habits[h].members <==> h in users[u].joinedHabits)
  }

  /** Every reference resolves, no list holds a duplicate, every creator is a
      member, and membership is recorded on both sides. The presence map is
      unconstrained: any client may register any string as a user id. */
  ghost predicate Valid(s: State) {
    && HabitsValid(s.habits, s.users)
    && UsersValid(s.habits, s.users)
    && ProofsValid(s.habits, s.users, s.proofs)
    && MembershipSymmetric(s.habits, s.users)
  }

  /** A store with no habits and no proofs, whose users have joined nothing,
      is consistent: the program can start from it. */
  lemma InitialStoreValid(users: map<UserId, User>, online: Directory)
    requires forall u :: u in users ==> users[u].joinedHabits == []
    ensures Valid(State(map[], users, map[], online))
  {
  }

  /** Login creates a user document with no joined habits under a new id;
      that keeps the store consistent. */
  lemma LoginUserPreservesValid(s: State, id: UserId, user: User)
    requires Valid(s) && id !in s.users && user.joinedHabits == []
    ensures Valid(s.(users := s.users[id := user]))
  {
    var t := s.(users := s.users[id := user]);
    assert HabitsValid(t.habits, t.users) by {
      forall h | h in t.habits ensures HabitValid(t.users, t.habits[h]) {
        assert HabitValid(s.users, s.habits[h]);
      }
    }
    assert UsersValid(t.habits, t.users) by {
      forall v | v in t.users ensures UserValid(t.habits, t.users[v]) {
        if v != id {
          assert UserValid(s.habits, s.users[v]);
        }
      }
    }
    assert ProofsValid(t.habits, t.users, t.proofs) by {
      forall q | q in t.proofs ensures ProofValid(t.habits, t.users, t.proofs[q]) {
        assert ProofValid(s.habits, s.users, s.proofs[q]);
      }
    }
    assert MembershipSymmetric(t.habits, t.users) by {
      forall h, v | h in t.habits && v in t.users
        ensures v in t.habits[h].members <==> h in t.users[v].joinedHabits
      {
        if v == id {
          assert HabitValid(s.users, s.habits[h]);
        } else {
          assert v in s.habits[h].members <==> h in s.users[v].joinedHabits;
        }
      }
    }
  }

  lemma CreateHabitPreservesValid(s: State, caller: Option<UserId>, title: Option<string>,
                                  description: Option<string>, id: HabitId)
    requires Valid(s) && id !in s.habits
    ensures Valid(CreateHabit(s, caller, title, description, id).state)
  {
    if Authenticated(s, caller) {
      var u := caller.value;
      var t := CreateHabit(s, caller, title, description, id).state;
      var user := s.users[u];
      assert t.habits == s.habits[id := Habit(title, description, u, [u])];
      assert t.users == s.users[u := user.(joinedHabits := user.joinedHabits + [id])];
      assert id !in user.joinedHabits by {
        assert UserValid(s.habits, user);
      }
      NoDupAppendFresh(user.joinedHabits, id);
      assert HabitsValid(t.habits, t.users) by {
        forall h | h in t.habits ensures HabitValid(t.users, t.habits[h]) {
          if h != id {
            assert HabitValid(s.users, s.habits[h]);
          }
        }
      }
      assert UsersValid(t.habits, t.users) by {
        forall v | v in t.users ensures UserValid(t.habits, t.users[v]) {
          assert UserValid(s.habits, s.users[v]);
        }
      }
      assert ProofsValid(t.habits, t.users, t.proofs) by {
        forall q | q in t.proofs ensures ProofValid(t.habits, t.users, t.proofs[q]) {
          assert ProofValid(s.habits, s.users, s.proofs[q]);
        }
      }
      assert MembershipSymmetric(t.habits, t.users) by {
        forall h, v | h in t.habits && v in t.users
          ensures v in t.habits[h].members <==> h in t.users[v].joinedHabits
        {
          if h == id && v != u {
            assert UserValid(s.habits, s.users[v]);
          } else if h != id {
            assert v in s.habits[h].members <==> h in s.users[v].joinedHabits;
          }
        }
      }
    }
  }

  /** The store updates of a successful join keep every conjunct of `Valid`. */
  lemma JoinUpdatePreservesValid(habits: map<HabitId, Habit>, users: map<UserId, User>,
                                 proofs: map<ProofId, Proof>, id: HabitId, u: UserId)
    requires Valid(State(habits, users, proofs, map[])) && id in habits && u in users
    ensures var habits' := habits[id := habits[id].(members := AppendIfAbsent(habits[id].members, u))];
      var users' := users[u := users[u].(joinedHabits := AppendIfAbsent(users[u].joinedHabits, id))];
      Valid(State(habits', users', proofs, map[]))
  {
    var habits' := habits[id := habits[id].(members := AppendIfAbsent(habits[id].members, u))];
    var users' := users[u := users[u].(joinedHabits := AppendIfAbsent(users[u].joinedHabits, id))];
    NoDupAppendIfAbsent(habits[id].members, u);
    NoDupAppendIfAbsent(users[u].joinedHabits, id);
    assert HabitsValid(habits', users') by {
      forall h | h in habits' ensures HabitValid(users', habits'[h]) {
        assert HabitValid(users, habits[h]);
      }
    }
    assert UsersValid(habits', users') by {
      forall v | v in users' ensures UserValid(habits', users'[v]) {
        assert UserValid(habits, users[v]);
      }
    }
    assert ProofsValid(habits', users', proofs) by {
      forall q | q in proofs ensures ProofValid(habits', users', proofs[q]) {
        assert ProofValid(habits, users, proofs[q]);
      }
    }
    assert MembershipSymmetric(habits', users') by {
      forall h, v | h in habits' && v in users'
        ensures v in habits'[h].members <==> h in users'[v].joinedHabits
      {
        assert v in habits[h].members <==> h in users[v].joinedHabits;
      }
    }
  }

  lemma JoinHabitPreservesValid(s: State, caller: Option<UserId>, id: HabitId)
    requires Valid(s)
    ensures Valid(JoinHabit(s, caller, id).state)
  {
    if Authenticated(s, caller) && id in s.habits {
      JoinUpdatePreservesValid(s.habits, s.users, s.proofs, id, caller.value);
    }
  }

  lemma SubmitProofPreservesValid(s: State, caller: Option<UserId>, habitId: HabitId,
                                  file: Option<UploadedFile>, storage: Storage, id: ProofId)
    requires Valid(s) && id !in s.proofs
    ensures Valid(SubmitProof(s, caller, habitId, file, storage, id).state)
  {
    var t := SubmitProof(s, caller, habitId, file, storage, id).state;
    assert ProofsValid(t.habits, t.users, t.proofs) by {
      forall q | q in t.proofs ensures ProofValid(t.habits, t.users, t.proofs[q]) {
        if q != id {
          assert ProofValid(s.habits, s.users, s.proofs[q]);
        }
      }
    }
  }

  /** Replacing one proof by a valid one keeps all proofs valid. */
  lemma ProofUpdatePreservesValid(habits: map<HabitId, Habit>, users: map<UserId, User>,
                                  proofs: map<ProofId, Proof>, id: ProofId, p: Proof)
    requires ProofsValid(habits, users, proofs) && ProofValid(habits, users, p)
    ensures ProofsValid(habits, users, proofs[id := p])
  {
  }

  lemma CastVotePreservesValid(s: State, caller: Option<UserId>, id: ProofId, action: string)
    requires Valid(s)
    ensures Valid(CastVote(s, caller, id, action).state)
  {
    if Authenticated(s, caller) && id in s.proofs {
      var u := caller.value;
      var p := s.proofs[id];
      assert ProofValid(s.habits, s.users, p);
      var p' := if IsVerify(action) then p.(verifiedBy := AppendIfAbsent(p.verifiedBy, u))
                else p.(rejectedBy := AppendIfAbsent(p.rejectedBy, u));
      NoDupAppendIfAbsent(p.verifiedBy, u);
      NoDupAppendIfAbsent(p.rejectedBy, u);
      assert ProofValid(s.habits, s.users, p');
      ProofUpdatePreservesValid(s.habits, s.users, s.proofs, id, p');
      assert CastVote(s, caller, id, action).state == s.(proofs := s.proofs[id := p']);
    }
  }

  /** The socket events leave the stored documents alone. This holds simply
      because `Valid` does not constrain the presence map; it is recorded so
      that every transition is covered. */
  lemma PresencePreservesValid(s: State, u: UserId, sid: SocketId)
    requires Valid(s)
    ensures Valid(OnRegister(s, u, sid)) && Valid(OnDisconnect(s, sid))
  {
  }

  /** A session id that names no stored user yields no `req.user`, so every
      request handler treats it exactly as an anonymous request: 401 with no
      change and nothing sent. */
  lemma UnknownUserIsAnonymous(s: State, u: UserId, habitId: HabitId, newHabit: HabitId,
                               title: Option<string>, description: Option<string>,
                               file: Option<UploadedFile>, storage: Storage,
                               proofId: ProofId, newProof: ProofId, action: string)
    requires u !in s.users && newHabit !in s.habits && newProof !in s.proofs
    ensures CreateHabit(s, Some(u), title, description, newHabit) == Step(s, Err(NotAuthenticated), [])
    ensures JoinHabit(s, Some(u), habitId) == Step(s, Err(NotAuthenticated), [])
    ensures SubmitProof(s, Some(u), habitId, file, storage, newProof) == Step(s, Err(NotAuthenticated), [])
    ensures CastVote(s, Some(u), proofId, action) == Step(s, Err(NotAuthenticated), [])
  {
  }

  /** Joining again changes nothing and returns the same habit. */
  lemma JoinHabitIdempotent(s: State, caller: Option<UserId>, id: HabitId)
    ensures var once := JoinHabit(s, caller, id);
      JoinHabit(once.state, caller, id) == once
  {
  }

  /** After joining twice the user occurs exactly once among the habit's
      members and the habit exactly once among the user's joined habits. */
  lemma JoinTwiceSingleOccurrence(s: State, caller: Option<UserId>, id: HabitId)
    requires Valid(s) && Authenticated(s, caller) && id in s.habits
    ensures var t := JoinHabit(JoinHabit(s, caller, id).state, caller, id).state;
      && multiset(t.habits[id].members)[caller.value] == 1
      && multiset(t.users[caller.value].joinedHabits)[id] == 1
  {
    var u := caller.value;
    JoinHabitIdempotent(s, caller, id);
    var t := JoinHabit(s, caller, id).state;
    JoinHabitPreservesValid(s, caller, id);
    NoDupSingleOccurrence(t.habits[id].members, u);
    NoDupSingleOccurrence(t.users[u].joinedHabits, id);
  }

  /** Repeating a vote leaves the state as the first vote left it, yet the
      owner is notified again. */
  lemma CastVoteRepeatIsNoOp(s: State, caller: Option<UserId>, id: ProofId, action: string)
    ensures var once := CastVote(s, caller, id, action);
      var twice := CastVote(once.state, caller, id, action);
      twice.state == once.state && twice.response == once.response && twice.sent == once.sent
  {
  }

  /** The two vote lists are independent: the same user can verify and then
      reject one proof and end up in both lists. */
  lemma VoteCanLandInBothLists(s: State, caller: Option<UserId>, id: ProofId)
    requires Authenticated(s, caller) && id in s.proofs
    ensures var t := CastVote(CastVote(s, caller, id, "verify").state, caller, id, "reject").state;
      caller.value in t.proofs[id].verifiedBy && caller.value in t.proofs[id].rejectedBy
  {
  }

  /** Votes are never retracted: each list of every proof only grows. */
  lemma VotesOnlyGrow(s: State, caller: Option<UserId>, id: ProofId, action: string, q: ProofId)
    requires q in s.proofs
    ensures var t := CastVote(s, caller, id, action).state;
      && q in t.proofs
      && s.proofs[q].verifiedBy <= t.proofs[q].verifiedBy
      && s.proofs[q].rejectedBy <= t.proofs[q].rejectedBy
  {
  }

  /** When sockets are not shared, an online user's socket is among the
      `new-proof` recipients exactly when the user is a member of the habit.
      Submitting does not require membership, so a submitter who has not
      joined is not told about the own proof. */
  lemma NewProofReachesUserIffMember(s: State, caller: Option<UserId>, habitId: HabitId,
                                     file: Option<UploadedFile>, url: string, id: ProofId, v: UserId)
    requires id !in s.proofs
    requires Authenticated(s, caller) && habitId in s.habits && file.Some?
    requires InjectivePresence(s.online) && v in s.online
    ensures var r := SubmitProof(s, caller, habitId, file, Published(url), id);
      s.online[v] in Sockets(r.sent) <==> v in s.habits[habitId].members
  {
    var members := s.habits[habitId].members;
    if s.online[v] in OnlineSockets(members, s.online) {
      var m :| m in members && m in s.online && s.online[m] == s.online[v];
    }
  }

  /** The owner hears of a vote on the owner's own socket exactly when online;
      nobody else is notified. */
  lemma ProofVerifiedOnlyToOwner(s: State, caller: Option<UserId>, id: ProofId, action: string)
    requires Authenticated(s, caller) && id in s.proofs
    ensures var r := CastVote(s, caller, id, action);
      var owner := s.proofs[id].owner;
      Sockets(r.sent) == (if owner in s.online then {s.online[owner]} else {})
  {
    var r := CastVote(s, caller, id, action);
    if r.sent != [] {
      assert r.sent == [r.sent[0]];
    }
  }
}
