/** DatabaseStorage of server/storage.ts over an in-memory store: four tables
    kept as sequences in store order and one counter that hands out ids. */
module Storage {
  import opened Schema
  import opened Tables

  /** A field of an update: the given value, or the current one when absent. */
  function Or<T>(given: Option<T>, current: T): (r: T)
    ensures given.None? ==> r == current
    ensures given.Some? ==> r == given.value
  {
    if given.Some? then given.value else current
  }

  /** A profile update applied field by field (findByIdAndUpdate with `new: true`):
      the id is kept, a field the patch carries takes the patch's value, and
      every other field keeps the stored one. */
  function Patched(p: Profile, u: ProfilePatch): (r: Profile)
    ensures r.id == p.id
    ensures r.userId == Or(u.userId, p.userId) && r.fullName == Or(u.fullName, p.fullName)
    ensures r.age == Or(u.age, p.age) && r.gender == Or(u.gender, p.gender)
    ensures r.religion == Or(u.religion, p.religion) && r.caste == Or(u.caste, p.caste)
    ensures r.city == Or(u.city, p.city) && r.profession == Or(u.profession, p.profession)
    ensures r.bio == Or(u.bio, p.bio) && r.photoUrl == Or(u.photoUrl, p.photoUrl)
    ensures r.isVerified == Or(u.isVerified, p.isVerified) && r.createdAt == Or(u.createdAt, p.createdAt)
  {
    Profile(
      p.id, Or(u.userId, p.userId), Or(u.fullName, p.fullName), Or(u.age, p.age),
      Or(u.gender, p.gender), Or(u.religion, p.religion), Or(u.caste, p.caste),
      Or(u.city, p.city), Or(u.profession, p.profession), Or(u.bio, p.bio),
      Or(u.photoUrl, p.photoUrl), Or(u.isVerified, p.isVerified), Or(u.createdAt, p.createdAt))
  }

  /** The patch that carries no field. */
  const NoChange := ProfilePatch(None, None, None, None, None, None, None, None, None, None, None, None)

  /** An update without fields leaves the profile as it was. */
  lemma PatchedNoChange(p: Profile)
    ensures Patched(p, NoChange) == p
  {
  }

  /** Applying the same update twice is applying it once. */
  lemma PatchedIdempotent(p: Profile, u: ProfilePatch)
    ensures Patched(Patched(p, u), u) == Patched(p, u)
  {
  }

  /** The queries a filter object turns into, field by field. */
  ghost predicate QueryOf(f: ProfileFilters, q: ProfileQuery) {
    forall p :: Satisfies(p, q) <==> Admits(f, p)
  }

  class DatabaseStorage {
    var users: seq<User>
    var profiles: seq<Profile>
    var interests: seq<Interest>
    var messages: seq<Message>
    var nextId: nat

    /** Ids are unique within each table (they come from one counter) and
        usernames are unique (the store's unique index). */
    ghost predicate Valid()
      reads this
    {
      && Keyed(users, (x: User) => x.id, nextId)
      && Keyed(profiles, (x: Profile) => x.id, nextId)
      && Keyed(interests, (x: Interest) => x.id, nextId)
      && Keyed(messages, (x: Message) => x.id, nextId)
      && (forall i, j :: 0 <= i < j < |users| ==> users[i].username != users[j].username)
    }

    constructor ()
      ensures Valid()
      ensures users == [] && profiles == [] && interests == [] && messages == [] && nextId == 0
    {
      users, profiles, interests, messages, nextId := [], [], [], [], 0;
    }

    // -------------------------------------------------------------------
    // Users
    // -------------------------------------------------------------------

    function GetUser(id: Id): (r: Option<User>)
      reads this
      ensures r.Some? ==> r.value in users && r.value.id == id
      ensures r.None? <==> forall k :: 0 <= k < |users| ==> users[k].id != id
    {
      First(users, (x: User) => x.id == id)
    }

    function GetUserByUsername(username: string): (r: Option<User>)
      reads this
      ensures r.Some? ==> r.value in users && r.value.username == username
      ensures r.None? <==> forall k :: 0 <= k < |users| ==> users[k].username != username
    {
      First(users, (x: User) => x.username == username)
    }

    /** The new user gets a fresh id and `isAdmin = false`; a taken username
        is refused by the unique index and nothing changes. */
    method CreateUser(username: string, password: string) returns (r: Option<User>)
      requires Valid()
      modifies this
      ensures Valid()
      ensures old(GetUserByUsername(username)).Some? ==> r.None? && users == old(users) && nextId == old(nextId)
      ensures old(GetUserByUsername(username)).None? ==>
        && r == Some(User(old(nextId), username, password, false))
        && users == old(users) + [r.value]
        && nextId == old(nextId) + 1
      ensures r.Some? ==> GetUserByUsername(username) == r && GetUser(r.value.id) == r
      ensures profiles == old(profiles) && interests == old(interests) && messages == old(messages)
    {
      if GetUserByUsername(username).Some? {
        return None;
      }
      var user := User(nextId, username, password, false);
      users := users + [user];
      nextId := nextId + 1;
      r := Some(user);
      StoredUserFound(user);
    }

    /** `User.find()`: every stored user, each once, in store order. */
    function GetAllUsers(): (r: seq<User>)
      reads this
      ensures |r| == |users|
      ensures forall k :: 0 <= k < |r| ==> r[k] == users[k]
    {
      users
    }

    /** In a valid store every listed user is the one its id and its
        username look up. */
    lemma StoredUserFound(u: User)
      requires Valid()
      requires u in users
      ensures GetUser(u.id) == Some(u)
      ensures GetUserByUsername(u.username) == Some(u)
    {
      var byId := GetUser(u.id);
      KeyedUnique(users, (x: User) => x.id, nextId, byId.value, u);
      var byName := GetUserByUsername(u.username).value;
      var i :| 0 <= i < |users| && users[i] == byName;
      var j :| 0 <= j < |users| && users[j] == u;
      assert !(i < j) && !(j < i);
    }

    /** Every user `getAllUsers` lists can be fetched by id and by username. */
    lemma AllUsersFetchable()
      requires Valid()
      ensures forall u :: u in GetAllUsers() ==> GetUser(u.id) == Some(u) && GetUserByUsername(u.username) == Some(u)
    {
      forall u | u in GetAllUsers()
        ensures GetUser(u.id) == Some(u) && GetUserByUsername(u.username) == Some(u)
      {
        StoredUserFound(u);
      }
    }

    // -------------------------------------------------------------------
    // Profiles
    // -------------------------------------------------------------------

    /** No check that the user exists or has no profile yet: a second
        profile for the same user is stored like the first. */
    method CreateProfile(userId: Id, data: ProfileInput, now: int) returns (p: Profile)
      requires Valid()
      modifies this
      ensures Valid()
      ensures p == Profile(old(nextId), userId, data.fullName, data.age, data.gender, data.religion,
                           data.caste, data.city, data.profession, data.bio, data.photoUrl, false, now)
      ensures profiles == old(profiles) + [p] && nextId == old(nextId) + 1
      ensures GetProfile(p.id) == Some(p)
      ensures users == old(users) && interests == old(interests) && messages == old(messages)
    {
      p := Profile(nextId, userId, data.fullName, data.age, data.gender, data.religion,
                   data.caste, data.city, data.profession, data.bio, data.photoUrl, false, now);
      profiles := profiles + [p];
      nextId := nextId + 1;
      StoredProfileFound(p);
    }

    function GetProfile(id: Id): (r: Option<Profile>)
      reads this
      ensures r.Some? ==> r.value in profiles && r.value.id == id
      ensures r.None? <==> forall k :: 0 <= k < |profiles| ==> profiles[k].id != id
    {
      First(profiles, (x: Profile) => x.id == id)
    }

    /** In a valid store a profile is the one its id looks up. */
    lemma StoredProfileFound(p: Profile)
      requires Valid()
      requires p in profiles
      ensures GetProfile(p.id) == Some(p)
    {
      KeyedUnique(profiles, (x: Profile) => x.id, nextId, GetProfile(p.id).value, p);
    }

    function GetProfileByUserId(userId: Id): (r: Option<Profile>)
      reads this
      ensures r.Some? ==> r.value in profiles && r.value.userId == userId
      ensures r.None? <==> forall k :: 0 <= k < |profiles| ==> profiles[k].userId != userId
    {
      ProfileOf(profiles, userId)
    }

    /** Builds the document query one truthy filter at a time, then returns
        the matching profiles in store order: exactly the ones the filters admit. */
    method ListProfiles(filters: ProfileFilters) returns (r: seq<Profile>)
      ensures r == Listed(profiles, filters)
      ensures forall p :: p in r <==> p in profiles && Admits(filters, p)
    {
      var query := EmptyQuery;
      if TruthyStr(filters.gender) { query := query.(gender := filters.gender); }
      if TruthyStr(filters.religion) { query := query.(religion := filters.religion); }
      if TruthyStr(filters.city) { query := query.(city := filters.city); }
      if TruthyNum(filters.ageMin) || TruthyNum(filters.ageMax) {
        query := query.(age := Some(AgeBounds(None, None)));
        if TruthyNum(filters.ageMin) { query := query.(age := Some(query.age.value.(gte := filters.ageMin))); }
        if TruthyNum(filters.ageMax) { query := query.(age := Some(query.age.value.(lte := filters.ageMax))); }
      }
      assert QueryOf(filters, query);
      FilterCongruent(profiles, (p: Profile) => Satisfies(p, query), (p: Profile) => Admits(filters, p));
      r := FindProfiles(profiles, query);
      forall p ensures p in r <==> p in profiles && Admits(filters, p) {
        FilterMembers(profiles, (p: Profile) => Admits(filters, p), p);
      }
    }

    /** A partial update by profile id; an unknown id is the
        "Profile not found" error and nothing changes. */
    method UpdateProfile(id: Id, update: ProfilePatch) returns (r: Option<Profile>)
      requires Valid()
      modifies this
      ensures Valid()
      ensures old(GetProfile(id)).None? ==> r.None? && profiles == old(profiles)
      ensures old(GetProfile(id)).Some? ==>
        var k := FirstIndex(old(profiles), (x: Profile) => x.id == id);
        && k < |old(profiles)|
        && r == Some(Patched(old(profiles)[k], update))
        && profiles == old(profiles)[k := r.value]
      ensures r.Some? ==> GetProfile(id) == r
      ensures users == old(users) && interests == old(interests) && messages == old(messages)
      ensures nextId == old(nextId)
    {
      var k := FirstIndex(profiles, (x: Profile) => x.id == id);
      if k == |profiles| {
        return None;
      }
      var p := Patched(profiles[k], update);
      profiles := profiles[k := p];
      r := Some(p);
      assert profiles[k] == p;
      StoredProfileFound(p);
    }

    // -------------------------------------------------------------------
    // Interests
    // -------------------------------------------------------------------

    /** Appends one pending interest from `senderId` to `receiverId`; no
        duplicate check, no self-interest check. */
    method CreateInterest(senderId: Id, receiverId: Id, now: int) returns (r: Interest)
      requires Valid()
      modifies this
      ensures Valid()
      ensures r == Interest(old(nextId), senderId, receiverId, Pending, now)
      ensures interests == old(interests) + [r] && nextId == old(nextId) + 1
      ensures GetInterestById(r.id) == Some(r)
      ensures users == old(users) && profiles == old(profiles) && messages == old(messages)
    {
      r := Interest(nextId, senderId, receiverId, Pending, now);
      interests := interests + [r];
      nextId := nextId + 1;
      StoredInterestFound(r);
    }

    /** The `for ... push` loop: pairs each found interest with the
        counterpart's profile and skips those without one. */
    method PushJoined(results: seq<Joined>, found: seq<Interest>, side: Side) returns (out: seq<Joined>)
      ensures out == results + JoinProfiles(found, profiles, side)
    {
      out := results;
      var k := 0;
      while k < |found|
        invariant 0 <= k <= |found|
        invariant out == results + JoinProfiles(found[..k], profiles, side)
      {
        var interest := found[k];
        var profile := GetProfileByUserId(Counterpart(interest, side));
        assert found[..k + 1] == found[..k] + [interest];
        JoinSnoc(found[..k], interest, profiles, side);
        if profile.Some? {
          assert JoinOne(interest, profiles, side) == [Joined(interest, profile.value)];
          out := out + [Joined(interest, profile.value)];
        } else {
          assert JoinOne(interest, profiles, side) == [];
        }
        k := k + 1;
      }
      assert found[..k] == found;
    }

    /** The `sent`, `received` and `matches` listings. */
    method GetInterests(userId: Id, view: InterestView) returns (results: seq<Joined>)
      ensures results == View(interests, profiles, userId, view)
    {
      if view == Matches {
        var sent := Find(interests, userId, AsSender, true);
        var received := Find(interests, userId, AsReceiver, true);
        results := PushJoined([], sent, AsSender);
        results := PushJoined(results, received, AsReceiver);
      } else if view == Sent {
        var found := Find(interests, userId, AsSender, false);
        results := PushJoined([], found, AsSender);
      } else {
        var found := Find(interests, userId, AsReceiver, false);
        results := PushJoined([], found, AsReceiver);
      }
    }

    /** Sets the status of the interest with that id to whatever string is
        given, from any current status; an unknown id changes nothing. */
    method UpdateInterestStatus(id: Id, status: string) returns (r: Option<Interest>)
      requires Valid()
      modifies this
      ensures Valid()
      ensures old(GetInterestById(id)).None? ==> r.None? && interests == old(interests)
      ensures old(GetInterestById(id)).Some? ==>
        var k := InterestIndex(old(interests), id);
        && k < |old(interests)|
        && r == Some(old(interests)[k].(status := status))
        && interests == old(interests)[k := r.value]
      ensures r.Some? ==> GetInterestById(id) == r
      ensures users == old(users) && profiles == old(profiles) && messages == old(messages)
      ensures nextId == old(nextId)
    {
      var k := InterestIndex(interests, id);
      if k == |interests| {
        return None;
      }
      var updated := interests[k].(status := status);
      interests := interests[k := updated];
      r := Some(updated);
      assert interests[k] == updated;
      StoredInterestFound(updated);
    }

    function GetInterestById(id: Id): (r: Option<Interest>)
      reads this
      ensures r.Some? ==> r.value in interests && r.value.id == id
      ensures r.None? <==> forall k :: 0 <= k < |interests| ==> interests[k].id != id
    {
      var k := InterestIndex(interests, id);
      if k < |interests| then Some(interests[k]) else None
    }

    /** In a valid store an interest is the one its id looks up. */
    lemma StoredInterestFound(i: Interest)
      requires Valid()
      requires i in interests
      ensures GetInterestById(i.id) == Some(i)
    {
      KeyedUnique(interests, (x: Interest) => x.id, nextId, GetInterestById(i.id).value, i);
    }

    // -------------------------------------------------------------------
    // Messages
    // -------------------------------------------------------------------

    /** Appends one message; the content is stored as given. */
    method CreateMessage(senderId: Id, receiverId: Id, content: string, now: int) returns (m: Message)
      requires Valid()
      modifies this
      ensures Valid()
      ensures m == Message(old(nextId), senderId, receiverId, content, now)
      ensures messages == old(messages) + [m] && nextId == old(nextId) + 1
      ensures users == old(users) && profiles == old(profiles) && interests == old(interests)
    {
      m := Message(nextId, senderId, receiverId, content, now);
      messages := messages + [m];
      nextId := nextId + 1;
    }

    /** The two-way conversation of `userId1` and `userId2`, oldest first. */
    function GetMessages(userId1: Id, userId2: Id): (r: seq<Message>)
      reads this
      ensures SortedByCreatedAt(r)
      ensures multiset(r) == multiset(Conversation(messages, userId1, userId2))
      ensures forall m :: m in r <==> m in messages && Between(m, userId1, userId2)
    {
      var r := MessagesBetween(messages, userId1, userId2);
      SortSortsAndPermutes(Conversation(messages, userId1, userId2));
      assert forall m :: m in r <==> m in messages && Between(m, userId1, userId2) by {
        forall m ensures m in r <==> m in messages && Between(m, userId1, userId2) {
          MessagesBetweenMembers(messages, userId1, userId2, m);
        }
      }
      r
    }

    /** The profiles of the distinct users `userId` has exchanged messages with. */
    method GetConversations(userId: Id) returns (profileList: seq<Profile>)
      ensures profileList == ProfilesFor(Counterparts(messages, userId), profiles)
    {
      var sent := Dedup(ReceiverIds(messages, userId));
      var received := Dedup(SenderIds(messages, userId));
      var ids := Dedup(sent + received);
      profileList := [];
      var k := 0;
      while k < |ids|
        invariant 0 <= k <= |ids|
        invariant profileList == ProfilesFor(ids[..k], profiles)
      {
        var profile := GetProfileByUserId(ids[k]);
        assert ids[..k + 1] == ids[..k] + [ids[k]];
        ProfilesForSnoc(ids[..k], ids[k], profiles);
        if profile.Some? {
          profileList := profileList + [profile.value];
        }
        k := k + 1;
      }
      assert ids[..k] == ids;
    }
  }
}
