/** The request handlers of server/routes.ts (registerRoutes). Each takes the
    session user, if any, and the request's parameters, and returns the
    HTTP status and the JSON payload; the mutating ones act on the store.
    A missing session user is the `req.isAuthenticated()` gate. */
module Routes {
  import opened Schema
  import opened Tables
  import opened Storage

  const BoyAvatar: string := "https://avatar.iran.liara.run/public/boy"
  const GirlAvatar: string := "https://avatar.iran.liara.run/public/girl"

  /** A profile creation body after the insert schema has looked at it. */
  datatype ProfileBody = Parsed(input: ProfileInput) | Malformed

  /** Request bodies as clients send them; the handlers read only some fields. */
  datatype InterestBody = InterestBody(receiverId: Id, senderId: Option<Id>, status: Option<string>)
  datatype StatusBody = StatusBody(status: string)
  datatype MessageBody = MessageBody(receiverId: Id, content: string, senderId: Option<Id>)

  /** The listing an interest `type` query selects: a missing or empty
      `type` is 'received', and so is any value other than 'sent' and
      'matches' (getInterests' final else). */
  function ListViewOf(t: Option<string>): (v: InterestView)
    ensures v == Matches <==> t == Some("matches")
    ensures v == Sent <==> t == Some("sent")
    ensures t.None? || t == Some("") ==> v == Received
  {
    var ty := if t.None? || t == Some("") then "received" else t.value;
    if ty == "matches" then Matches else if ty == "sent" then Sent else Received
  }

  /** POST /api/profiles. The owner is always the session user; a missing
      or empty photoUrl becomes the boy avatar for 'male', the girl avatar
      for 'female', and stays as it is for any other gender. */
  method CreateProfileHandler(db: DatabaseStorage, actor: Option<User>, body: ProfileBody, now: int)
    returns (status: int, created: Option<Profile>)
    requires db.Valid()
    modifies db
    ensures db.Valid()
    ensures actor.None? ==> status == 401
    ensures actor.Some? && body.Malformed? ==> status == 400
    ensures actor.None? || body.Malformed? ==> created.None? && unchanged(db)
    ensures actor.Some? && body.Parsed? ==>
      var d := body.input;
      && status == 201
      && created.Some?
      && created.value.(photoUrl := d.photoUrl) ==
           Profile(old(db.nextId), actor.value.id, d.fullName, d.age, d.gender, d.religion,
                   d.caste, d.city, d.profession, d.bio, d.photoUrl, false, now)
      && (TruthyStr(d.photoUrl) ==> created.value.photoUrl == d.photoUrl)
      && (!TruthyStr(d.photoUrl) && d.gender == "male" ==> created.value.photoUrl == Some(BoyAvatar))
      && (!TruthyStr(d.photoUrl) && d.gender == "female" ==> created.value.photoUrl == Some(GirlAvatar))
      && (!TruthyStr(d.photoUrl) && d.gender != "male" && d.gender != "female" ==> created.value.photoUrl == d.photoUrl)
      && db.profiles == old(db.profiles) + [created.value]
      && db.nextId == old(db.nextId) + 1
      && db.users == old(db.users) && db.interests == old(db.interests) && db.messages == old(db.messages)
  {
    if actor.None? {
      return 401, None;
    }
    if body.Malformed? {
      return 400, None;
    }
    var profileData := body.input;
    if !TruthyStr(profileData.photoUrl) {
      if profileData.gender == "male" {
        profileData := profileData.(photoUrl := Some(BoyAvatar));
      } else if profileData.gender == "female" {
        profileData := profileData.(photoUrl := Some(GirlAvatar));
      }
    }
    var profile := db.CreateProfile(actor.value.id, profileData, now);
    return 201, Some(profile);
  }

  /** GET /api/my-profile: the session user's (first) profile, 404 without one. */
  method MyProfileHandler(db: DatabaseStorage, actor: Option<User>) returns (status: int, profile: Option<Profile>)
    ensures actor.None? ==> status == 401 && profile.None?
    ensures actor.Some? && (forall k :: 0 <= k < |db.profiles| ==> db.profiles[k].userId != actor.value.id) ==>
      status == 404 && profile.None?
    ensures actor.Some? && (exists k :: 0 <= k < |db.profiles| && db.profiles[k].userId == actor.value.id) ==>
      && status == 200
      && profile.Some? && profile.value in db.profiles && profile.value.userId == actor.value.id
      && profile == ProfileOf(db.profiles, actor.value.id)
  {
    if actor.None? {
      return 401, None;
    }
    profile := db.GetProfileByUserId(actor.value.id);
    if profile.None? {
      return 404, None;
    }
    status := 200;
  }

  /** GET /api/profiles: open to everyone; the filters of the query string. */
  method ListProfilesHandler(db: DatabaseStorage, filters: ProfileFilters) returns (status: int, profiles: seq<Profile>)
    ensures status == 200
    ensures forall p :: p in profiles <==> p in db.profiles && Admits(filters, p)
    ensures profiles == Listed(db.profiles, filters)
  {
    profiles := db.ListProfiles(filters);
    status := 200;
  }

  /** GET /api/profiles/:id: open to everyone; 404 for an unknown id. */
  method ProfileHandler(db: DatabaseStorage, id: Id) returns (status: int, profile: Option<Profile>)
    ensures (forall k :: 0 <= k < |db.profiles| ==> db.profiles[k].id != id) ==> status == 404 && profile.None?
    ensures (exists k :: 0 <= k < |db.profiles| && db.profiles[k].id == id) ==>
      status == 200 && profile.Some? && profile.value in db.profiles && profile.value.id == id
  {
    profile := db.GetProfile(id);
    if profile.None? {
      return 404, None;
    }
    status := 200;
  }

  /** POST /api/interests: the sender is the session user whatever the body
      says, and the new interest is pending whatever status the body carries. */
  method SendInterestHandler(db: DatabaseStorage, actor: Option<User>, body: InterestBody, now: int)
    returns (status: int, created: Option<Interest>)
    requires db.Valid()
    modifies db
    ensures db.Valid()
    ensures actor.None? ==> status == 401 && created.None? && unchanged(db)
    ensures actor.Some? ==>
      && status == 201
      && created == Some(Interest(old(db.nextId), actor.value.id, body.receiverId, Pending, now))
      && db.interests == old(db.interests) + [created.value]
      && db.nextId == old(db.nextId) + 1
      && db.users == old(db.users) && db.profiles == old(db.profiles) && db.messages == old(db.messages)
  {
    if actor.None? {
      return 401, None;
    }
    var receiverId := body.receiverId;
    var interest := db.CreateInterest(actor.value.id, receiverId, now);
    return 201, Some(interest);
  }

  /** GET /api/interests?type=...: the session user's listing. */
  method ListInterestsHandler(db: DatabaseStorage, actor: Option<User>, typeQuery: Option<string>)
    returns (status: int, rows: seq<Joined>)
    ensures actor.None? ==> status == 401 && rows == []
    ensures actor.Some? ==>
      status == 200 && rows == View(db.interests, db.profiles, actor.value.id, ListViewOf(typeQuery))
    ensures actor.Some? && typeQuery.None? ==>
      forall e :: e in rows <==>
        && e.interest in db.interests
        && e.interest.receiverId == actor.value.id
        && ProfileOf(db.profiles, e.interest.senderId) == Some(e.profile)
  {
    if actor.None? {
      return 401, [];
    }
    var view := ListViewOf(typeQuery);
    rows := db.GetInterests(actor.value.id, view);
    status := 200;
    if typeQuery.None? {
      forall e ensures e in rows <==>
        && e.interest in db.interests
        && e.interest.receiverId == actor.value.id
        && ProfileOf(db.profiles, e.interest.senderId) == Some(e.profile)
      {
        ReceivedMembers(db.interests, db.profiles, actor.value.id, e);
      }
    }
  }

  /** PATCH /api/interests/:id: only the interest's receiver may change it;
      anyone else, and an unknown id, gets 404 and nothing changes. The body's
      status is written as it is, whatever the current status. */
  method UpdateInterestHandler(db: DatabaseStorage, actor: Option<User>, id: Id, body: StatusBody)
    returns (status: int, updated: Option<Interest>)
    requires db.Valid()
    modifies db
    ensures db.Valid()
    ensures actor.None? ==> status == 401 && updated.None? && unchanged(db)
    ensures actor.Some? && (old(db.GetInterestById(id)).None? || old(db.GetInterestById(id)).value.receiverId != actor.value.id) ==>
      status == 404 && updated.None? && unchanged(db)
    ensures actor.Some? && old(db.GetInterestById(id)).Some? && old(db.GetInterestById(id)).value.receiverId == actor.value.id ==>
      var k := InterestIndex(old(db.interests), id);
      && status == 200
      && k < |old(db.interests)|
      && updated == Some(old(db.interests)[k].(status := body.status))
      && db.interests == old(db.interests)[k := updated.value]
      && db.nextId == old(db.nextId)
      && db.users == old(db.users) && db.profiles == old(db.profiles) && db.messages == old(db.messages)
  {
    if actor.None? {
      return 401, None;
    }
    var newStatus := body.status;
    var interest := db.GetInterestById(id);
    if interest.None? || interest.value.receiverId != actor.value.id {
      return 404, None;
    }
    updated := db.UpdateInterestStatus(interest.value.id, newStatus);
    status := 200;
  }

  /** POST /api/messages: the sender is the session user whatever the body
      says; any receiver id and any content, the empty one included, is stored. */
  method SendMessageHandler(db: DatabaseStorage, actor: Option<User>, body: MessageBody, now: int)
    returns (status: int, created: Option<Message>)
    requires db.Valid()
    modifies db
    ensures db.Valid()
    ensures actor.None? ==> status == 401 && created.None? && unchanged(db)
    ensures actor.Some? ==>
      && status == 201
      && created == Some(Message(old(db.nextId), actor.value.id, body.receiverId, body.content, now))
      && db.messages == old(db.messages) + [created.value]
      && db.nextId == old(db.nextId) + 1
      && db.users == old(db.users) && db.profiles == old(db.profiles) && db.interests == old(db.interests)
  {
    if actor.None? {
      return 401, None;
    }
    var receiverId, content := body.receiverId, body.content;
    var message := db.CreateMessage(actor.value.id, receiverId, content, now);
    return 201, Some(message);
  }

  /** GET /api/messages/:userId: the conversation of the session user with `userId`. */
  method MessagesHandler(db: DatabaseStorage, actor: Option<User>, userId: Id) returns (status: int, msgs: seq<Message>)
    ensures actor.None? ==> status == 401 && msgs == []
    ensures actor.Some? ==>
      && status == 200
      && SortedByCreatedAt(msgs)
      && multiset(msgs) == multiset(Conversation(db.messages, actor.value.id, userId))
  {
    if actor.None? {
      return 401, [];
    }
    msgs := db.GetMessages(actor.value.id, userId);
    status := 200;
  }

  /** GET /api/conversations: the profiles of the session user's counterparts. */
  method ConversationsHandler(db: DatabaseStorage, actor: Option<User>) returns (status: int, profiles: seq<Profile>)
    ensures actor.None? ==> status == 401 && profiles == []
    ensures actor.Some? ==> status == 200 && profiles == ProfilesFor(Counterparts(db.messages, actor.value.id), db.profiles)
  {
    if actor.None? {
      return 401, [];
    }
    profiles := db.GetConversations(actor.value.id);
    status := 200;
  }

  /** GET /api/admin/users: 403 unless the session user is an administrator. */
  method AdminUsersHandler(db: DatabaseStorage, actor: Option<User>) returns (status: int, users: seq<User>)
    ensures actor.None? || !actor.value.isAdmin ==> status == 403 && users == []
    ensures actor.Some? && actor.value.isAdmin ==> status == 200 && users == db.users
  {
    if actor.None? || !actor.value.isAdmin {
      return 403, [];
    }
    users := db.GetAllUsers();
    status := 200;
  }
}
