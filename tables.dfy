/** The queries the storage layer sends to its document store, stated as pure
    functions over the tables (sequences of records in store order), and what
    each listing of server/storage.ts derives from them. */
module Tables {
  import opened Schema

  // ---------------------------------------------------------------------
  // Generic table queries
  // ---------------------------------------------------------------------

  /** Position of the first row satisfying `p`, or |s| when there is none. */
  function FirstIndex<T>(s: seq<T>, p: T -> bool): (k: nat)
    ensures k <= |s|
    ensures k < |s| ==> p(s[k])
    ensures forall j :: 0 <= j < k ==> !p(s[j])
  {
    if s == [] then 0
    else if p(s[0]) then 0
    else
      var k := FirstIndex(s[1..], p);
      assert forall j :: 0 <= j < k ==> s[1..][j] == s[j + 1];
      k + 1
  }

  /** `findOne`: the first row satisfying `p`, if any. */
  function First<T>(s: seq<T>, p: T -> bool): (r: Option<T>)
    ensures r.Some? ==> r.value in s && p(r.value)
    ensures r.None? <==> forall k :: 0 <= k < |s| ==> !p(s[k])
  {
    var k := FirstIndex(s, p);
    if k < |s| then Some(s[k]) else None
  }

  /** `find`: every row satisfying `p`, in store order. */
  function Filter<T(!new)>(s: seq<T>, p: T -> bool): (r: seq<T>)
    ensures |r| <= |s|
  {
    if s == [] then []
    else
      var init := Filter(s[..|s| - 1], p);
      assert s == s[..|s| - 1] + [s[|s| - 1]];
      init + (if p(s[|s| - 1]) then [s[|s| - 1]] else [])
  }

  lemma FilterSingleton<T(!new)>(x: T, p: T -> bool)
    ensures Filter([x], p) == if p(x) then [x] else []
  {
    assert [x][..0] == [];
  }

  /** One more row is kept at the end exactly when it satisfies the query. */
  lemma FilterSnoc<T(!new)>(s: seq<T>, x: T, p: T -> bool)
    ensures Filter(s + [x], p) == Filter(s, p) + (if p(x) then [x] else [])
  {
    assert (s + [x])[..|s|] == s;
  }

  /** A row is found exactly when it is stored and satisfies the query. */
  lemma {:induction false} FilterMembers<T(!new)>(s: seq<T>, p: T -> bool, x: T)
    ensures x in Filter(s, p) <==> x in s && p(x)
  {
    if s != [] {
      var init, last := s[..|s| - 1], s[|s| - 1];
      FilterMembers(init, p, x);
      assert s == init + [last];
      FilterSnoc(init, last, p);
    }
  }

  /** Filtering distributes over concatenation: the result keeps store order. */
  lemma {:induction false} FilterAppend<T(!new)>(s: seq<T>, t: seq<T>, p: T -> bool)
    ensures Filter(s + t, p) == Filter(s, p) + Filter(t, p)
  {
    if t == [] {
      assert s + t == s;
    } else {
      var t', last := t[..|t| - 1], t[|t| - 1];
      var step := if p(last) then [last] else [];
      FilterAppend(s, t', p);
      assert t == t' + [last];
      assert s + t == (s + t') + [last];
      calc {
        Filter(s + t, p);
        Filter((s + t') + [last], p);
        { FilterSnoc(s + t', last, p); }
        Filter(s + t', p) + step;
        (Filter(s, p) + Filter(t', p)) + step;
        Filter(s, p) + (Filter(t', p) + step);
        { FilterSnoc(t', last, p); }
        Filter(s, p) + Filter(t, p);
      }
    }
  }

  /** Two queries that agree on every row select the same rows. */
  lemma {:induction false} FilterCongruent<T(!new)>(s: seq<T>, p: T -> bool, q: T -> bool)
    requires forall x :: x in s ==> p(x) == q(x)
    ensures Filter(s, p) == Filter(s, q)
  {
    if s != [] {
      assert forall x :: x in s[..|s| - 1] ==> x in s;
      FilterCongruent(s[..|s| - 1], p, q);
      assert s[|s| - 1] in s;
    }
  }

  /** `new Set(xs)` read back in insertion order: first occurrences only. */
  function Dedup<T(==,!new)>(s: seq<T>): (r: seq<T>)
    ensures forall x :: x in r <==> x in s
    ensures forall i, j :: 0 <= i < j < |r| ==> r[i] != r[j]
  {
    if s == [] then []
    else
      var d := Dedup(s[..|s| - 1]);
      assert s == s[..|s| - 1] + [s[|s| - 1]];
      if s[|s| - 1] in d then d else d + [s[|s| - 1]]
  }

  /** First-seen order: deduplicating a prefix of the input gives a prefix
      of the result, so an element first seen earlier comes earlier. */
  lemma {:induction false} DedupPrefix<T(!new)>(s: seq<T>, k: nat)
    requires k <= |s|
    ensures Dedup(s[..k]) <= Dedup(s)
    decreases |s|
  {
    if k == |s| {
      assert s[..k] == s;
    } else {
      var init := s[..|s| - 1];
      DedupPrefix(init, k);
      assert init[..k] == s[..k];
    }
  }

  /** The ids of a table increase strictly in store order and stay below
      the next id the store will hand out. */
  ghost predicate Keyed<T>(s: seq<T>, key: T -> Id, bound: nat) {
    && (forall i, j :: 0 <= i < j < |s| ==> key(s[i]) < key(s[j]))
    && (forall i :: 0 <= i < |s| ==> key(s[i]) < bound)
  }

  /** In a keyed table a key names at most one row. */
  lemma KeyedUnique<T>(s: seq<T>, key: T -> Id, bound: nat, x: T, y: T)
    requires Keyed(s, key, bound)
    requires x in s && y in s && key(x) == key(y)
    ensures x == y
  {
    var i :| 0 <= i < |s| && s[i] == x;
    var j :| 0 <= j < |s| && s[j] == y;
    if i < j {
      assert key(s[i]) < key(s[j]);
    } else if j < i {
      assert key(s[j]) < key(s[i]);
    }
  }

  // ---------------------------------------------------------------------
  // Profiles
  // ---------------------------------------------------------------------

  /** getProfileByUserId: the first profile owned by `userId`. */
  function ProfileOf(profiles: seq<Profile>, userId: Id): (r: Option<Profile>)
    ensures r.Some? ==> r.value in profiles && r.value.userId == userId
    ensures r.None? <==> forall k :: 0 <= k < |profiles| ==> profiles[k].userId != userId
  {
    First(profiles, (p: Profile) => p.userId == userId)
  }

  /** The filters of listProfiles; a falsy field constrains nothing. */
  datatype ProfileFilters = ProfileFilters(
    gender: Option<string>,
    religion: Option<string>,
    city: Option<string>,
    ageMin: Option<int>,
    ageMax: Option<int>)

  /** Reference meaning of the filters: each truthy field is a constraint,
      strings by equality and the age bounds inclusive. */
  predicate Admits(f: ProfileFilters, p: Profile) {
    && (TruthyStr(f.gender) ==> p.gender == f.gender.value)
    && (TruthyStr(f.religion) ==> p.religion == f.religion.value)
    && (TruthyStr(f.city) ==> p.city == f.city.value)
    && (TruthyNum(f.ageMin) ==> p.age >= f.ageMin.value)
    && (TruthyNum(f.ageMax) ==> p.age <= f.ageMax.value)
  }

  /** The document query listProfiles assembles: `{gender, religion, city, age: {$gte, $lte}}`. */
  datatype AgeBounds = AgeBounds(gte: Option<int>, lte: Option<int>)
  datatype ProfileQuery = ProfileQuery(
    gender: Option<string>,
    religion: Option<string>,
    city: Option<string>,
    age: Option<AgeBounds>)

  const EmptyQuery: ProfileQuery := ProfileQuery(None, None, None, None)

  /** How the document store matches a profile against such a query. */
  predicate Satisfies(p: Profile, q: ProfileQuery) {
    && (q.gender.Some? ==> p.gender == q.gender.value)
    && (q.religion.Some? ==> p.religion == q.religion.value)
    && (q.city.Some? ==> p.city == q.city.value)
    && (q.age.Some? ==>
          && (q.age.value.gte.Some? ==> p.age >= q.age.value.gte.value)
          && (q.age.value.lte.Some? ==> p.age <= q.age.value.lte.value))
  }

  /** What `ProfileModel.find(query)` returns. */
  function FindProfiles(profiles: seq<Profile>, q: ProfileQuery): seq<Profile> {
    Filter(profiles, (p: Profile) => Satisfies(p, q))
  }

  /** The profiles the filters admit, in store order. */
  function Listed(profiles: seq<Profile>, f: ProfileFilters): seq<Profile> {
    Filter(profiles, (p: Profile) => Admits(f, p))
  }

  /** Every listed profile meets each truthy filter and every profile that
      meets them is listed. */
  lemma ListedExactly(profiles: seq<Profile>, f: ProfileFilters, p: Profile)
    ensures p in Listed(profiles, f) <==>
      && p in profiles
      && (TruthyStr(f.gender) ==> p.gender == f.gender.value)
      && (TruthyStr(f.religion) ==> p.religion == f.religion.value)
      && (TruthyStr(f.city) ==> p.city == f.city.value)
      && (TruthyNum(f.ageMin) ==> f.ageMin.value <= p.age)
      && (TruthyNum(f.ageMax) ==> p.age <= f.ageMax.value)
  {
    FilterMembers(profiles, (p: Profile) => Admits(f, p), p);
  }

  /** Falsy filters impose no constraint: the whole table comes back in order. */
  lemma {:induction false} ListedWithoutFilters(profiles: seq<Profile>, f: ProfileFilters)
    requires !TruthyStr(f.gender) && !TruthyStr(f.religion) && !TruthyStr(f.city)
    requires !TruthyNum(f.ageMin) && !TruthyNum(f.ageMax)
    ensures Listed(profiles, f) == profiles
  {
    if profiles != [] {
      ListedWithoutFilters(profiles[..|profiles| - 1], f);
      assert profiles == profiles[..|profiles| - 1] + [profiles[|profiles| - 1]];
    }
  }

  // ---------------------------------------------------------------------
  // Interests
  // ---------------------------------------------------------------------

  /** Which end of an interest the listing user stands on. */
  datatype Side = AsSender | AsReceiver

  function Own(i: Interest, side: Side): Id {
    if side == AsSender then i.senderId else i.receiverId
  }

  function Counterpart(i: Interest, side: Side): Id {
    if side == AsSender then i.receiverId else i.senderId
  }

  /** The interest query `{senderId: u}` / `{receiverId: u}`, with `status: 'accepted'` when asked. */
  predicate Picks(i: Interest, u: Id, side: Side, acceptedOnly: bool) {
    Own(i, side) == u && (acceptedOnly ==> i.status == Accepted)
  }

  function Find(interests: seq<Interest>, u: Id, side: Side, acceptedOnly: bool): seq<Interest> {
    Filter(interests, (i: Interest) => Picks(i, u, side, acceptedOnly))
  }

  lemma FindMembers(interests: seq<Interest>, u: Id, side: Side, acceptedOnly: bool, i: Interest)
    ensures i in Find(interests, u, side, acceptedOnly) <==> i in interests && Picks(i, u, side, acceptedOnly)
  {
    FilterMembers(interests, (i: Interest) => Picks(i, u, side, acceptedOnly), i);
  }

  /** getInterestById: position of the interest with that id, |s| when absent. */
  function InterestIndex(s: seq<Interest>, id: Id): (k: nat)
    ensures k <= |s|
    ensures k < |s| ==> s[k].id == id
    ensures forall j :: 0 <= j < k ==> s[j].id != id
  {
    FirstIndex(s, (i: Interest) => i.id == id)
  }

  /** Each element's step results, concatenated in element order. */
  function FlatMap<T, U>(s: seq<T>, f: T -> seq<U>): seq<U> {
    if s == [] then []
    else FlatMap(s[..|s| - 1], f) + f(s[|s| - 1])
  }

  /** One more element adds its own step at the end. */
  lemma FlatMapSnoc<T, U>(s: seq<T>, x: T, f: T -> seq<U>)
    ensures FlatMap(s + [x], f) == FlatMap(s, f) + f(x)
  {
    assert (s + [x])[..|s|] == s;
  }

  /** Mapping two runs is mapping each and concatenating: order is kept. */
  lemma {:induction false} FlatMapAppend<T, U>(s: seq<T>, t: seq<T>, f: T -> seq<U>)
    ensures FlatMap(s + t, f) == FlatMap(s, f) + FlatMap(t, f)
  {
    if t == [] {
      assert s + t == s;
    } else {
      var t', last := t[..|t| - 1], t[|t| - 1];
      FlatMapAppend(s, t', f);
      assert t == t' + [last];
      assert s + t == (s + t') + [last];
      calc {
        FlatMap(s + t, f);
        FlatMap((s + t') + [last], f);
        { FlatMapSnoc(s + t', last, f); }
        FlatMap(s + t', f) + f(last);
        (FlatMap(s, f) + FlatMap(t', f)) + f(last);
        FlatMap(s, f) + (FlatMap(t', f) + f(last));
        { FlatMapSnoc(t', last, f); }
        FlatMap(s, f) + FlatMap(t, f);
      }
    }
  }

  /** The `for ... push` loop of getInterests: each found interest paired
      with its counterpart's profile; interests whose counterpart has no
      profile are dropped. */
  function JoinProfiles(found: seq<Interest>, profiles: seq<Profile>, side: Side): seq<Joined> {
    FlatMap(found, (i: Interest) => JoinOne(i, profiles, side))
  }

  /** One step of that loop. */
  function JoinOne(i: Interest, profiles: seq<Profile>, side: Side): seq<Joined> {
    match ProfileOf(profiles, Counterpart(i, side))
    case None => []
    case Some(p) => [Joined(i, p)]
  }

  /** The three listings of getInterests. */
  function View(interests: seq<Interest>, profiles: seq<Profile>, u: Id, view: InterestView): seq<Joined> {
    match view
    case Sent => JoinProfiles(Find(interests, u, AsSender, false), profiles, AsSender)
    case Received => JoinProfiles(Find(interests, u, AsReceiver, false), profiles, AsReceiver)
    case Matches =>
      JoinProfiles(Find(interests, u, AsSender, true), profiles, AsSender) +
      JoinProfiles(Find(interests, u, AsReceiver, true), profiles, AsReceiver)
  }

  /** One more found interest adds its own step at the end. */
  lemma JoinSnoc(found: seq<Interest>, i: Interest, profiles: seq<Profile>, side: Side)
    ensures JoinProfiles(found + [i], profiles, side) == JoinProfiles(found, profiles, side) + JoinOne(i, profiles, side)
  {
    FlatMapSnoc(found, i, (i: Interest) => JoinOne(i, profiles, side));
  }

  /** A single found interest joins to its own step. */
  lemma JoinSingleton(i: Interest, profiles: seq<Profile>, side: Side)
    ensures JoinProfiles([i], profiles, side) == JoinOne(i, profiles, side)
  {
    JoinSnoc([], i, profiles, side);
    assert [] + [i] == [i];
  }

  /** A row is in the join exactly when its interest was found and its
      profile is the counterpart's profile. */
  lemma {:induction false} JoinMembers(found: seq<Interest>, profiles: seq<Profile>, side: Side, e: Joined)
    ensures e in JoinProfiles(found, profiles, side) <==>
      e.interest in found && ProfileOf(profiles, Counterpart(e.interest, side)) == Some(e.profile)
  {
    if found != [] {
      var init, last := found[..|found| - 1], found[|found| - 1];
      JoinMembers(init, profiles, side, e);
      assert found == init + [last];
      JoinSnoc(init, last, profiles, side);
    }
  }

  /** The join keeps the order of the found interests. */
  lemma JoinAppend(f: seq<Interest>, g: seq<Interest>, profiles: seq<Profile>, side: Side)
    ensures JoinProfiles(f + g, profiles, side) == JoinProfiles(f, profiles, side) + JoinProfiles(g, profiles, side)
  {
    FlatMapAppend(f, g, (i: Interest) => JoinOne(i, profiles, side));
  }

  /** `sent`: exactly the interests sent by u whose receiver has a profile,
      each paired with that profile. */
  lemma SentMembers(interests: seq<Interest>, profiles: seq<Profile>, u: Id, e: Joined)
    ensures e in View(interests, profiles, u, Sent) <==>
      && e.interest in interests
      && e.interest.senderId == u
      && ProfileOf(profiles, e.interest.receiverId) == Some(e.profile)
  {
    JoinMembers(Find(interests, u, AsSender, false), profiles, AsSender, e);
    FindMembers(interests, u, AsSender, false, e.interest);
  }

  /** `received`: exactly the interests received by u whose sender has a
      profile, each paired with that profile. */
  lemma ReceivedMembers(interests: seq<Interest>, profiles: seq<Profile>, u: Id, e: Joined)
    ensures e in View(interests, profiles, u, Received) <==>
      && e.interest in interests
      && e.interest.receiverId == u
      && ProfileOf(profiles, e.interest.senderId) == Some(e.profile)
  {
    JoinMembers(Find(interests, u, AsReceiver, false), profiles, AsReceiver, e);
    FindMembers(interests, u, AsReceiver, false, e.interest);
  }

  /** `matches`: exactly the accepted interests in either direction, each
      paired with the other side's profile; nothing pending or rejected. */
  lemma MatchesMembers(interests: seq<Interest>, profiles: seq<Profile>, u: Id, e: Joined)
    ensures e in View(interests, profiles, u, Matches) <==>
      && e.interest in interests
      && e.interest.status == Accepted
      && ((e.interest.senderId == u && ProfileOf(profiles, e.interest.receiverId) == Some(e.profile)) ||
          (e.interest.receiverId == u && ProfileOf(profiles, e.interest.senderId) == Some(e.profile)))
  {
    JoinMembers(Find(interests, u, AsSender, true), profiles, AsSender, e);
    JoinMembers(Find(interests, u, AsReceiver, true), profiles, AsReceiver, e);
    FindMembers(interests, u, AsSender, true, e.interest);
    FindMembers(interests, u, AsReceiver, true, e.interest);
  }

  /** One accepted interest, in either direction, makes a match for both users. */
  lemma AcceptedMatchesBothSides(interests: seq<Interest>, profiles: seq<Profile>, i: Interest, ps: Profile, pr: Profile)
    requires i in interests && i.status == Accepted
    requires ProfileOf(profiles, i.senderId) == Some(ps)
    requires ProfileOf(profiles, i.receiverId) == Some(pr)
    ensures Joined(i, pr) in View(interests, profiles, i.senderId, Matches)
    ensures Joined(i, ps) in View(interests, profiles, i.receiverId, Matches)
  {
    MatchesMembers(interests, profiles, i.senderId, Joined(i, pr));
    MatchesMembers(interests, profiles, i.receiverId, Joined(i, ps));
  }

  /** A new interest lands at the end of its sender's `sent` listing
      (when its receiver has a profile) and leaves the earlier rows alone. */
  lemma SentAfterCreate(interests: seq<Interest>, profiles: seq<Profile>, i: Interest, p: Profile)
    requires ProfileOf(profiles, i.receiverId) == Some(p)
    ensures View(interests + [i], profiles, i.senderId, Sent) ==
            View(interests, profiles, i.senderId, Sent) + [Joined(i, p)]
  {
    var pick := (x: Interest) => Picks(x, i.senderId, AsSender, false);
    FilterAppend(interests, [i], pick);
    assert [i][..0] == [];
    assert Filter([i], pick) == [i];
    JoinAppend(Find(interests, i.senderId, AsSender, false), [i], profiles, AsSender);
  }

  /** The query over a one-row table. */
  lemma FindSingleton(i: Interest, u: Id, side: Side, acceptedOnly: bool)
    ensures Find([i], u, side, acceptedOnly) == if Picks(i, u, side, acceptedOnly) then [i] else []
  {
    FilterSingleton(i, (x: Interest) => Picks(x, u, side, acceptedOnly));
  }

  /** With one accepted interest in the store, its sender has exactly one
      match: the interest with the receiver's profile. */
  lemma SingleMatchOfSender(i: Interest, profiles: seq<Profile>, q: Profile)
    requires i.status == Accepted && i.senderId != i.receiverId
    requires ProfileOf(profiles, i.receiverId) == Some(q)
    ensures View([i], profiles, i.senderId, Matches) == [Joined(i, q)]
  {
    FindSingleton(i, i.senderId, AsSender, true);
    FindSingleton(i, i.senderId, AsReceiver, true);
    JoinSingleton(i, profiles, AsSender);
    assert JoinOne(i, profiles, AsSender) == [Joined(i, q)];
    assert JoinProfiles([], profiles, AsReceiver) == [];
  }

  /** ... and its receiver has exactly one: the interest with the sender's profile. */
  lemma SingleMatchOfReceiver(i: Interest, profiles: seq<Profile>, q: Profile)
    requires i.status == Accepted && i.senderId != i.receiverId
    requires ProfileOf(profiles, i.senderId) == Some(q)
    ensures View([i], profiles, i.receiverId, Matches) == [Joined(i, q)]
  {
    FindSingleton(i, i.receiverId, AsSender, true);
    FindSingleton(i, i.receiverId, AsReceiver, true);
    JoinSingleton(i, profiles, AsReceiver);
    assert JoinOne(i, profiles, AsReceiver) == [Joined(i, q)];
    assert JoinProfiles([], profiles, AsSender) == [];
  }

  /** A single accepted interest between two users with profiles: each
      user's `matches` lists the other's profile exactly once. */
  lemma SingleAcceptedInterestMatches(i: Interest, profiles: seq<Profile>, ps: Profile, pr: Profile)
    requires i.status == Accepted && i.senderId != i.receiverId
    requires ProfileOf(profiles, i.senderId) == Some(ps)
    requires ProfileOf(profiles, i.receiverId) == Some(pr)
    ensures View([i], profiles, i.senderId, Matches) == [Joined(i, pr)]
    ensures View([i], profiles, i.receiverId, Matches) == [Joined(i, ps)]
  {
    SingleMatchOfSender(i, profiles, pr);
    SingleMatchOfReceiver(i, profiles, ps);
  }

  /** An interest that is not accepted is in nobody's `matches`. */
  lemma UnacceptedNeverMatches(interests: seq<Interest>, profiles: seq<Profile>, u: Id, e: Joined)
    requires e.interest.status != Accepted
    ensures e !in View(interests, profiles, u, Matches)
  {
    MatchesMembers(interests, profiles, u, e);
  }

  /** `matches` is not deduplicated: two accepted interests between the same
      two users list the same counterpart twice. */
  lemma MatchesKeepDuplicates(pa: Profile, pb: Profile)
    requires pa.userId == 1 && pb.userId == 2
    ensures
      var there := Interest(10, 1, 2, Accepted, 0);
      var back := Interest(11, 2, 1, Accepted, 0);
      View([there, back], [pa, pb], 1, Matches) == [Joined(there, pb), Joined(back, pb)]
  {
    var there := Interest(10, 1, 2, Accepted, 0);
    var back := Interest(11, 2, 1, Accepted, 0);
    var profiles := [pa, pb];
    assert ProfileOf(profiles, 2) == Some(pb) by {
      assert FirstIndex(profiles, (p: Profile) => p.userId == 2) == 1;
    }
    var sent := (i: Interest) => Picks(i, 1, AsSender, true);
    var received := (i: Interest) => Picks(i, 1, AsReceiver, true);
    assert Find([there, back], 1, AsSender, true) == [there] by {
      assert [there, back] == [there] + [back];
      FilterAppend([there], [back], sent);
      FilterSingleton(there, sent);
      FilterSingleton(back, sent);
    }
    assert Find([there, back], 1, AsReceiver, true) == [back] by {
      assert [there, back] == [there] + [back];
      FilterAppend([there], [back], received);
      FilterSingleton(there, received);
      FilterSingleton(back, received);
    }
    assert JoinProfiles([there], profiles, AsSender) == [Joined(there, pb)] by {
      JoinSingleton(there, profiles, AsSender);
      assert JoinOne(there, profiles, AsSender) == [Joined(there, pb)];
    }
    assert JoinProfiles([back], profiles, AsReceiver) == [Joined(back, pb)] by {
      JoinSingleton(back, profiles, AsReceiver);
      assert JoinOne(back, profiles, AsReceiver) == [Joined(back, pb)];
    }
  }

  // ---------------------------------------------------------------------
  // Messages
  // ---------------------------------------------------------------------

  /** The message query of getMessages: (a, b) or (b, a). */
  predicate Between(m: Message, a: Id, b: Id) {
    (m.senderId == a && m.receiverId == b) || (m.senderId == b && m.receiverId == a)
  }

  function Conversation(messages: seq<Message>, a: Id, b: Id): seq<Message> {
    Filter(messages, (m: Message) => Between(m, a, b))
  }

  predicate SortedByCreatedAt(s: seq<Message>) {
    forall i, j :: 0 <= i < j < |s| ==> s[i].createdAt <= s[j].createdAt
  }

  /** A message no younger than any of a sorted sequence can go in front. */
  lemma SortedCons(x: Message, s: seq<Message>)
    requires SortedByCreatedAt(s)
    requires forall k :: 0 <= k < |s| ==> x.createdAt <= s[k].createdAt
    ensures SortedByCreatedAt([x] + s)
  {
    var r := [x] + s;
    forall i, j | 0 <= i < j < |r| ensures r[i].createdAt <= r[j].createdAt {
      if i > 0 {
        assert r[i] == s[i - 1] && r[j] == s[j - 1];
      } else {
        assert r[j] == s[j - 1];
      }
    }
  }

  /** Insert `m` before the first message that is not older than it. */
  function InsertByCreatedAt(m: Message, s: seq<Message>): seq<Message> {
    if s == [] then [m]
    else if m.createdAt <= s[0].createdAt then [m] + s
    else [s[0]] + InsertByCreatedAt(m, s[1..])
  }

  /** Insertion adds exactly the one message. */
  lemma {:induction false} InsertAddsOne(m: Message, s: seq<Message>)
    ensures multiset(InsertByCreatedAt(m, s)) == multiset(s) + multiset{m}
  {
    if s != [] && m.createdAt > s[0].createdAt {
      var rest := InsertByCreatedAt(m, s[1..]);
      InsertAddsOne(m, s[1..]);
      assert InsertByCreatedAt(m, s) == [s[0]] + rest;
      assert s == [s[0]] + s[1..];
      assert multiset(s) == multiset{s[0]} + multiset(s[1..]);
      assert multiset([s[0]] + rest) == multiset{s[0]} + multiset(rest);
    }
  }

  /** Insertion into an ascending sequence keeps it ascending. */
  lemma {:induction false} InsertKeepsSorted(m: Message, s: seq<Message>)
    requires SortedByCreatedAt(s)
    ensures SortedByCreatedAt(InsertByCreatedAt(m, s))
  {
    if s == [] {
    } else if m.createdAt <= s[0].createdAt {
      SortedCons(m, s);
    } else {
      var head, tail := s[0], s[1..];
      assert s == [head] + tail;
      InsertKeepsSorted(m, tail);
      InsertAddsOne(m, tail);
      var rest := InsertByCreatedAt(m, tail);
      forall k | 0 <= k < |rest| ensures head.createdAt <= rest[k].createdAt {
        assert rest[k] in multiset(rest);
      }
      SortedCons(head, rest);
    }
  }

  /** `.sort({createdAt: 1})`: an ascending order by creation time. The
      store fixes no order among equal timestamps; this one is an insertion sort. */
  function SortByCreatedAt(s: seq<Message>): seq<Message> {
    if s == [] then [] else InsertByCreatedAt(s[0], SortByCreatedAt(s[1..]))
  }

  /** The sorted messages are in non-decreasing createdAt order and are a
      permutation of the input. */
  lemma {:induction false} SortSortsAndPermutes(s: seq<Message>)
    ensures SortedByCreatedAt(SortByCreatedAt(s))
    ensures multiset(SortByCreatedAt(s)) == multiset(s)
  {
    if s != [] {
      SortSortsAndPermutes(s[1..]);
      InsertKeepsSorted(s[0], SortByCreatedAt(s[1..]));
      InsertAddsOne(s[0], SortByCreatedAt(s[1..]));
      assert s == [s[0]] + s[1..];
    }
  }

  /** The two-way conversation, oldest first. */
  function MessagesBetween(messages: seq<Message>, a: Id, b: Id): seq<Message> {
    SortByCreatedAt(Conversation(messages, a, b))
  }

  /** A message is in the conversation of a and b exactly when it went from
      one of them to the other. */
  lemma MessagesBetweenMembers(messages: seq<Message>, a: Id, b: Id, m: Message)
    ensures m in MessagesBetween(messages, a, b) <==> m in messages && Between(m, a, b)
  {
    var c := Conversation(messages, a, b);
    SortSortsAndPermutes(c);
    FilterMembers(messages, (m: Message) => Between(m, a, b), m);
    assert m in MessagesBetween(messages, a, b) <==> m in multiset(MessagesBetween(messages, a, b));
    assert m in c <==> m in multiset(c);
  }

  /** The conversation does not depend on which side asks. */
  lemma MessagesBetweenSymmetric(messages: seq<Message>, a: Id, b: Id)
    ensures MessagesBetween(messages, a, b) == MessagesBetween(messages, b, a)
    ensures (set m | m in MessagesBetween(messages, a, b)) == (set m | m in MessagesBetween(messages, b, a))
    ensures multiset(MessagesBetween(messages, a, b)) == multiset(MessagesBetween(messages, b, a))
    ensures Conversation(messages, a, b) == Conversation(messages, b, a)
  {
    FilterCongruent(messages, (m: Message) => Between(m, a, b), (m: Message) => Between(m, b, a));
  }

  /** The receivers of u's messages, with repeats, in store order. */
  function ReceiverIds(messages: seq<Message>, u: Id): seq<Id> {
    if messages == [] then []
    else
      var m := messages[|messages| - 1];
      ReceiverIds(messages[..|messages| - 1], u) + (if m.senderId == u then [m.receiverId] else [])
  }

  /** The senders of messages to u, with repeats, in store order. */
  function SenderIds(messages: seq<Message>, u: Id): seq<Id> {
    if messages == [] then []
    else
      var m := messages[|messages| - 1];
      SenderIds(messages[..|messages| - 1], u) + (if m.receiverId == u then [m.senderId] else [])
  }

  lemma {:induction false} ReceiverIdsMembers(messages: seq<Message>, u: Id, id: Id)
    ensures id in ReceiverIds(messages, u) <==>
      exists m :: m in messages && m.senderId == u && m.receiverId == id
  {
    if messages != [] {
      var init := messages[..|messages| - 1];
      ReceiverIdsMembers(init, u, id);
      assert messages == init + [messages[|messages| - 1]];
    }
  }

  lemma {:induction false} SenderIdsMembers(messages: seq<Message>, u: Id, id: Id)
    ensures id in SenderIds(messages, u) <==>
      exists m :: m in messages && m.receiverId == u && m.senderId == id
  {
    if messages != [] {
      var init := messages[..|messages| - 1];
      SenderIdsMembers(init, u, id);
      assert messages == init + [messages[|messages| - 1]];
    }
  }

  /** getConversations' id set: `new Set([...distinct receivers, ...distinct senders])`. */
  function Counterparts(messages: seq<Message>, u: Id): seq<Id> {
    Dedup(Dedup(ReceiverIds(messages, u)) + Dedup(SenderIds(messages, u)))
  }

  /** The counterparts are pairwise distinct and are exactly the users u
      wrote to or heard from. */
  lemma CounterpartsExactly(messages: seq<Message>, u: Id, id: Id)
    ensures id in Counterparts(messages, u) <==>
      exists m :: m in messages && ((m.senderId == u && m.receiverId == id) || (m.receiverId == u && m.senderId == id))
    ensures forall i, j :: 0 <= i < j < |Counterparts(messages, u)| ==>
      Counterparts(messages, u)[i] != Counterparts(messages, u)[j]
  {
    ReceiverIdsMembers(messages, u, id);
    SenderIdsMembers(messages, u, id);
  }

  /** One message is enough for each side to list the other's profile
      among its conversations. */
  lemma MessageOpensConversation(messages: seq<Message>, profiles: seq<Profile>, m: Message, ps: Profile, pr: Profile)
    requires ProfileOf(profiles, m.senderId) == Some(ps)
    requires ProfileOf(profiles, m.receiverId) == Some(pr)
    ensures pr in ProfilesFor(Counterparts(messages + [m], m.senderId), profiles)
    ensures ps in ProfilesFor(Counterparts(messages + [m], m.receiverId), profiles)
  {
    assert m in messages + [m];
    ConversationProfilesExactly(messages + [m], profiles, m.senderId, pr);
    ConversationProfilesExactly(messages + [m], profiles, m.receiverId, ps);
  }

  /** The `for ... push` loop of getConversations: each id's profile, when it has one. */
  function ProfilesFor(ids: seq<Id>, profiles: seq<Profile>): seq<Profile> {
    FlatMap(ids, (id: Id) => ProfileStep(id, profiles))
  }

  /** One step of that loop. */
  function ProfileStep(id: Id, profiles: seq<Profile>): seq<Profile> {
    match ProfileOf(profiles, id)
    case None => []
    case Some(p) => [p]
  }

  /** One more id adds its own step at the end. */
  lemma ProfilesForSnoc(ids: seq<Id>, id: Id, profiles: seq<Profile>)
    ensures ProfilesFor(ids + [id], profiles) == ProfilesFor(ids, profiles) + ProfileStep(id, profiles)
  {
    FlatMapSnoc(ids, id, (id: Id) => ProfileStep(id, profiles));
  }

  lemma {:induction false} ProfilesForMembers(ids: seq<Id>, profiles: seq<Profile>, p: Profile)
    ensures p in ProfilesFor(ids, profiles) <==> p.userId in ids && ProfileOf(profiles, p.userId) == Some(p)
  {
    if ids != [] {
      var init, last := ids[..|ids| - 1], ids[|ids| - 1];
      ProfilesForMembers(init, profiles, p);
      assert ids == init + [last];
      ProfilesForSnoc(init, last, profiles);
    }
  }

  /** Distinct ids give at most one profile per user. */
  lemma {:induction false} ProfilesForDistinct(ids: seq<Id>, profiles: seq<Profile>)
    requires forall i, j :: 0 <= i < j < |ids| ==> ids[i] != ids[j]
    ensures forall i, j :: 0 <= i < j < |ProfilesFor(ids, profiles)| ==>
      ProfilesFor(ids, profiles)[i].userId != ProfilesFor(ids, profiles)[j].userId
  {
    if ids != [] {
      var init := ids[..|ids| - 1];
      var last := ids[|ids| - 1];
      ProfilesForDistinct(init, profiles);
      assert ids == init + [last];
      ProfilesForSnoc(init, last, profiles);
      var r0 := ProfilesFor(init, profiles);
      forall k | 0 <= k < |r0| ensures r0[k].userId != last {
        ProfilesForMembers(init, profiles, r0[k]);
        assert r0[k] in r0;
        assert last !in init by {
          forall j | 0 <= j < |init| ensures init[j] != last { assert init[j] == ids[j]; }
        }
      }
    }
  }

  /** getConversations: at most one profile per counterpart, and a profile is
      listed exactly when its owner exchanged a message with u and the
      profile is that owner's first one. */
  lemma ConversationProfilesExactly(messages: seq<Message>, profiles: seq<Profile>, u: Id, p: Profile)
    ensures var r := ProfilesFor(Counterparts(messages, u), profiles);
      forall i, j :: 0 <= i < j < |r| ==> r[i].userId != r[j].userId
    ensures p in ProfilesFor(Counterparts(messages, u), profiles) <==>
      && ProfileOf(profiles, p.userId) == Some(p)
      && exists m :: m in messages && ((m.senderId == u && m.receiverId == p.userId) ||
                                       (m.receiverId == u && m.senderId == p.userId))
  {
    CounterpartsExactly(messages, u, p.userId);
    ProfilesForDistinct(Counterparts(messages, u), profiles);
    ProfilesForMembers(Counterparts(messages, u), profiles, p);
  }
}
