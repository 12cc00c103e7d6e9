/** The three stored document kinds (models/Habit.js, models/User.js,
    models/Proof.js) with references kept as ids. Creation timestamps and
    the habit streak counter play no part in the request logic and are
    omitted. */
module Models {
  import opened Wrappers

  /** Document ids (Mongo ObjectIds) and socket ids are opaque strings. */
  type UserId = string
  type HabitId = string
  type ProofId = string
  type SocketId = string

  datatype Habit = Habit(
    title: Option<string>,
    description: Option<string>,
    creator: UserId,
    members: seq<UserId>)

  datatype User = User(
    googleId: string,
    displayName: Option<string>,
    email: Option<string>,
    avatar: Option<string>,
    joinedHabits: seq<HabitId>)

  /** The stored `mediaType` string takes one of three values. */
  datatype MediaType = Image | Video | File {
    function Name(): string {
      match this
      case Image => "image"
      case Video => "video"
      case File => "file"
    }
  }

  datatype Proof = Proof(
    habit: HabitId,
    owner: UserId,
    mediaUrl: string,
    mediaType: MediaType,
    verifiedBy: seq<UserId>,
    rejectedBy: seq<UserId>)

  /** The three names are distinct, so the stored string determines the tag.
      A small sanity fact about three string literals, not a property of the
      request logic. */
  lemma MediaTypeNameInjective(a: MediaType, b: MediaType)
    ensures a.Name() == b.Name() <==> a == b
  {
  }
}
