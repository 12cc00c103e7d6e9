/** A worked session: A creates a habit, B joins, B submits a photo, A
    verifies it; both users are online throughout. */
module Scenarios {
  import opened Wrappers
  import opened Seqs
  import opened Models
  import opened Media
  import opened Notify
  import opened Server

  function Person(googleId: string): User {
    User(googleId, None, None, None, [])
  }

  function Start(): State {
    State(map[], map["A" := Person("g-a"), "B" := Person("g-b")], map[],
          map["A" := "sock-a", "B" := "sock-b"])
  }

  function Read20(members: seq<UserId>): Habit {
    Habit(Some("Read 20 pages"), None, "A", members)
  }

  function AfterCreate(): State {
    Start().(habits := map["h1" := Read20(["A"])],
             users := map["A" := Person("g-a").(joinedHabits := ["h1"]), "B" := Person("g-b")])
  }

  function AfterJoin(): State {
    AfterCreate().(habits := map["h1" := Read20(["A", "B"])],
                   users := map["A" := Person("g-a").(joinedHabits := ["h1"]),
                                "B" := Person("g-b").(joinedHabits := ["h1"])])
  }

  function Photo(verifiedBy: seq<UserId>): Proof {
    Proof("h1", "B", "url", Image, verifiedBy, [])
  }

  /** A creates the habit and is its only member. */
  lemma CreateStep()
    ensures CreateHabit(Start(), Some("A"), Some("Read 20 pages"), None, "h1").state == AfterCreate()
    ensures AfterCreate().habits["h1"].members == ["A"]
  {
    var t := CreateHabit(Start(), Some("A"), Some("Read 20 pages"), None, "h1").state;
    assert t.habits == AfterCreate().habits;
    assert t.users["A"] == AfterCreate().users["A"];
    assert t.users["B"] == AfterCreate().users["B"];
    assert t.users.Keys == AfterCreate().users.Keys;
    assert t.users == AfterCreate().users;
    assert t.proofs == AfterCreate().proofs;
    assert t.online == AfterCreate().online;
  }

  /** B joins: both are members now, and B's joined habits record it. */
  lemma JoinStep()
    ensures JoinHabit(AfterCreate(), Some("B"), "h1").state == AfterJoin()
    ensures AfterJoin().habits["h1"].members == ["A", "B"]
  {
    assert "B" !in ["A"];
    var t := JoinHabit(AfterCreate(), Some("B"), "h1").state;
    assert AppendIfAbsent(["A"], "B") == ["A", "B"];
    assert t.habits["h1"] == AfterJoin().habits["h1"];
    assert t.habits == AfterJoin().habits;
    assert t.users["A"] == AfterJoin().users["A"];
    assert t.users["B"] == AfterJoin().users["B"];
    assert t.users.Keys == AfterJoin().users.Keys;
    assert t.users == AfterJoin().users;
  }

  /** B submits a JPEG: the proof has no votes yet, is tagged `image`, and
      both online members get `new-proof` for the habit. */
  lemma SubmitStep()
    ensures var p := SubmitProof(AfterJoin(), Some("B"), "h1", Some(UploadedFile("image/jpeg")), Published("url"), "p1");
      && p.state == AfterJoin().(proofs := map["p1" := Photo([])])
      && p.state.proofs["p1"].verifiedBy == []
      && Sockets(p.sent) == {"sock-a", "sock-b"}
      && forall n :: n in p.sent ==> n.event.Name() == "new-proof" && n.event.habitId == "h1"
  {
    assert ClassifyMedia("image/jpeg") == Image;
    assert OnlineSockets(["A", "B"], AfterJoin().online) == {"sock-a", "sock-b"} by {
      assert "A" in ["A", "B"] && "B" in ["A", "B"];
    }
  }

  /** A verifies: A is the one verifier and the online owner B is told. */
  lemma VerifyStep()
    ensures var v := CastVote(AfterJoin().(proofs := map["p1" := Photo([])]), Some("A"), "p1", "verify");
      && v.state.proofs["p1"].verifiedBy == ["A"]
      && v.sent == [Notification("sock-b", ProofVerified("p1", "verify", "A"))]
  {
  }

  /** Voting on a proof that does not exist is a 404 and changes nothing. */
  lemma VoteOnMissingProof()
    ensures var r := CastVote(Start(), Some("A"), "nope", "verify");
      r.response == Err(ProofNotFound) && r.response.failure.Status() == 404 && r.state == Start()
  {
  }

  /** Submitting anonymously is a 401 and no proof record appears. */
  lemma AnonymousSubmit()
    ensures var s := CreateHabit(Start(), Some("A"), None, None, "h1").state;
      var r := SubmitProof(s, None, "h1", Some(UploadedFile("video/mp4")), Published("url"), "p1");
      r.response.failure.Status() == 401 && r.state.proofs == map[]
  {
  }
}
