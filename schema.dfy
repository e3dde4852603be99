/** The records the store keeps, as the storage layer maps them out of its
    documents (server/storage.ts, mapUser/mapProfile/mapInterest/mapMessage),
    and the few constants the interest workflow relies on. */
module Schema {

  /** Store-assigned identifiers. The store hands them out from one counter. */
  type Id = nat

  datatype Option<+T> = None | Some(value: T)

  datatype User = User(id: Id, username: string, password: string, isAdmin: bool)

  datatype Profile = Profile(
    id: Id,
    userId: Id,
    fullName: string,
    age: int,
    gender: string,
    religion: string,
    caste: Option<string>,
    city: string,
    profession: Option<string>,
    bio: Option<string>,
    photoUrl: Option<string>,
    isVerified: bool,
    createdAt: int)

  /** The status is whatever string was last written; the server never checks it. */
  datatype Interest = Interest(id: Id, senderId: Id, receiverId: Id, status: string, createdAt: int)

  datatype Message = Message(id: Id, senderId: Id, receiverId: Id, content: string, createdAt: int)

  /** What a profile creation request carries once it has been parsed. */
  datatype ProfileInput = ProfileInput(
    fullName: string,
    age: int,
    gender: string,
    religion: string,
    caste: Option<string>,
    city: string,
    profession: Option<string>,
    bio: Option<string>,
    photoUrl: Option<string>)

  /** A partial update of a profile: every present field overwrites the stored one. */
  datatype ProfilePatch = ProfilePatch(
    userId: Option<Id>,
    fullName: Option<string>,
    age: Option<int>,
    gender: Option<string>,
    religion: Option<string>,
    caste: Option<Option<string>>,
    city: Option<string>,
    profession: Option<Option<string>>,
    bio: Option<Option<string>>,
    photoUrl: Option<Option<string>>,
    isVerified: Option<bool>,
    createdAt: Option<int>)

  /** One row of an interest listing: the interest and the counterpart's profile. */
  datatype Joined = Joined(interest: Interest, profile: Profile)

  /** The three listings of getInterests. */
  datatype InterestView = Sent | Received | Matches

  const Pending: string := "pending"
  const Accepted: string := "accepted"
  const Rejected: string := "rejected"

  /** JavaScript truthiness of an optional string: absent and "" are falsy. */
  predicate TruthyStr(o: Option<string>) {
    o.Some? && o.value != ""
  }

  /** JavaScript truthiness of an optional number: absent and 0 are falsy. */
  predicate TruthyNum(o: Option<int>) {
    o.Some? && o.value != 0
  }
}
