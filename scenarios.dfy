/** Client runs of the handlers: what a caller can conclude from their
    contracts alone, on a fresh store. */
module Scenarios {
  import opened Schema
  import opened Tables
  import opened Storage
  import opened Routes

  function Applicant(name: string, gender: string): ProfileInput {
    ProfileInput(name, 27, gender, "Hindu", None, "Pune", None, None, None)
  }

  /** Two registrations under different usernames both succeed. */
  method TwoUsers() returns (db: DatabaseStorage, asha: User, ravi: User)
    ensures fresh(db) && db.Valid()
    ensures asha.id == 0 && ravi.id == 1 && db.nextId == 2
    ensures db.profiles == [] && db.interests == [] && db.messages == []
  {
    db := new DatabaseStorage();
    var a := db.CreateUser("asha", "hash-a");
    assert db.GetUserByUsername("ravi").None? by {
      assert db.users == [a.value] && a.value.username == "asha";
      assert "asha"[0] != "ravi"[0];
    }
    var r := db.CreateUser("ravi", "hash-r");
    asha, ravi := a.value, r.value;
  }

  /** Two registered users, each with a profile. */
  method TwoMembers() returns (db: DatabaseStorage, asha: User, ravi: User, pa: Profile, pr: Profile)
    ensures fresh(db) && db.Valid()
    ensures asha.id != ravi.id && pa.userId == asha.id && pr.userId == ravi.id
    ensures pa.fullName == "Asha" && pr.fullName == "Ravi"
    ensures db.profiles == [pa, pr] && db.interests == [] && db.messages == []
    ensures ProfileOf(db.profiles, asha.id) == Some(pa) && ProfileOf(db.profiles, ravi.id) == Some(pr)
  {
    db, asha, ravi := TwoUsers();
    var s1, p1 := CreateProfileHandler(db, Some(asha), Parsed(Applicant("Asha", "female")), 10);
    var s2, p2 := CreateProfileHandler(db, Some(ravi), Parsed(Applicant("Ravi", "male")), 11);
    pa, pr := p1.value, p2.value;
    assert db.profiles == [pa, pr];
    assert FirstIndex(db.profiles, (p: Profile) => p.userId == ravi.id) == 1;
  }

  /** The receiver resolving the only interest of the store. */
  method ResolveOnly(db: DatabaseStorage, receiver: User, i: Interest, status: string) returns (code: int, after: Interest)
    requires db.Valid() && db.interests == [i] && i.receiverId == receiver.id
    modifies db
    ensures db.Valid() && code == 200
    ensures after == i.(status := status) && db.interests == [after]
    ensures db.profiles == old(db.profiles)
  {
    assert db.GetInterestById(i.id) == Some(i);
    var updated;
    code, updated := UpdateInterestHandler(db, Some(receiver), i.id, StatusBody(status));
    after := updated.value;
  }

  /** Asha sends Ravi an interest and Ravi accepts it. */
  method AcceptedInterest() returns (db: DatabaseStorage, asha: User, ravi: User, pa: Profile, pr: Profile, i: Interest)
    ensures fresh(db) && db.Valid()
    ensures asha.id != ravi.id && i.senderId == asha.id && i.receiverId == ravi.id && i.status == Accepted
    ensures db.interests == [i]
    ensures pa.fullName == "Asha" && pr.fullName == "Ravi"
    ensures ProfileOf(db.profiles, asha.id) == Some(pa) && ProfileOf(db.profiles, ravi.id) == Some(pr)
  {
    db, asha, ravi, pa, pr := TwoMembers();
    ghost var profiles := db.profiles;
    var s1, sent := SendInterestHandler(db, Some(asha), InterestBody(ravi.id, Some(ravi.id), Some(Accepted)), 12);
    assert sent.value.senderId == asha.id && sent.value.receiverId == ravi.id && db.interests == [sent.value];
    assert db.profiles == profiles;
    var s2;
    s2, i := ResolveOnly(db, ravi, sent.value, Accepted);
    assert db.profiles == profiles;
  }

  /** After the acceptance each finds the other, exactly once, among their matches. */
  method MatchScenario() returns (forSender: seq<Joined>, forReceiver: seq<Joined>)
    ensures |forSender| == 1 && forSender[0].profile.fullName == "Ravi" && forSender[0].interest.status == Accepted
    ensures |forReceiver| == 1 && forReceiver[0].profile.fullName == "Asha" && forReceiver[0].interest.status == Accepted
  {
    var db, asha, ravi, pa, pr, i := AcceptedInterest();
    SingleAcceptedInterestMatches(i, db.profiles, pa, pr);
    var s3, s4;
    s3, forSender := ListInterestsHandler(db, Some(asha), Some("matches"));
    s4, forReceiver := ListInterestsHandler(db, Some(ravi), Some("matches"));
  }

  /** Only the receiver may resolve an interest, and a resolved interest can
      be resolved again: rejected, then accepted, then set back to pending. */
  method ResolveAgainScenario() returns (byOther: int, statuses: seq<int>, final: Interest)
    ensures byOther == 404
    ensures statuses == [200, 200, 200]
    ensures final.status == Pending
  {
    var db, asha, ravi := TwoUsers();
    var s0, sent := SendInterestHandler(db, Some(asha), InterestBody(ravi.id, None, None), 12);
    var i := sent.value;
    assert db.interests == [i] && i.receiverId == ravi.id && i.senderId == asha.id;
    assert db.GetInterestById(i.id) == Some(i);
    var refused;
    byOther, refused := UpdateInterestHandler(db, Some(asha), i.id, StatusBody(Accepted));
    assert db.interests == [i];
    var s1, u1 := ResolveOnly(db, ravi, i, Rejected);
    var s2, u2 := ResolveOnly(db, ravi, u1, Accepted);
    var s3, u3 := ResolveOnly(db, ravi, u2, Pending);
    statuses, final := [s1, s2, s3], u3;
  }

  /** The handler passes an empty message on like any other and the model
      stores it (the stored document's `required` check on the content is not
      modelled); one message puts each side among the other's conversations. */
  method MessageScenario() returns (status: int, ofSender: seq<Profile>, ofReceiver: seq<Profile>)
    ensures status == 201
    ensures exists p :: p in ofSender && p.fullName == "Ravi"
    ensures exists p :: p in ofReceiver && p.fullName == "Asha"
  {
    var db, asha, ravi, pa, pr := TwoMembers();
    var sent;
    status, sent := SendMessageHandler(db, Some(asha), MessageBody(ravi.id, "", None), 13);
    assert db.messages == [] + [sent.value];
    MessageOpensConversation([], db.profiles, sent.value, pa, pr);
    var s1, s2;
    s1, ofSender := ConversationsHandler(db, Some(asha));
    s2, ofReceiver := ConversationsHandler(db, Some(ravi));
    assert pr in ofSender && pa in ofReceiver;
  }
}
