// Group membership: applications, member lists and group rooms as the commands change
// them (server/user/user.cpp, server/manager/verificationManager.cpp,
// server/manager/manager.cpp, server/jsonMessageProcess/JsonMsgProcessCommand.cpp).

module GroupMembership {
  import opened Ids
  import opened Errors
  import opened GroupRooms
  import opened Histories

  datatype GroupEntry = GroupEntry(user: UserID, kind: VerificationType)

  /** One user's verification multimap: for each group the run of its equal keys, oldest first. */
  type EntryMap = map<GroupID, seq<GroupEntry>>

  datatype Groups = Groups(
    lists: map<UserID, set<GroupID>>,
    entries: map<UserID, EntryMap>,
    pending: map<(UserID, GroupID), bool>,
    rooms: map<GroupID, Room>,
    nextRoom: GroupID)
  {
    predicate HasUser(u: UserID) { u in lists }

    function List(u: UserID): set<GroupID> { if u in lists then lists[u] else {} }

    function Entries(u: UserID): EntryMap { if u in entries then entries[u] else map[] }

    predicate IsMember(u: UserID, g: GroupID) { g in rooms && u in rooms[g].members }

    predicate IsPending(u: UserID, g: GroupID) { (u, g) in pending }
  }

  const EMPTY := Groups(map[], map[], map[], map[], FIRST_ID)

  // ------------------------------------------------------------------------
  // A user's multimap
  // ------------------------------------------------------------------------

  function EqualRange(m: EntryMap, g: GroupID): seq<GroupEntry> {
    if g in m then m[g] else []
  }

  function Insert(m: EntryMap, g: GroupID, e: GroupEntry): EntryMap {
    m[g := EqualRange(m, g) + [e]]
  }

  /** The loop's first match in a run of equal keys; the length of the run if there is none. */
  function FirstOf(run: seq<GroupEntry>, u: UserID): (i: nat)
    ensures i <= |run|
    ensures forall j :: 0 <= j < i ==> run[j].user != u
    ensures i < |run| ==> run[i].user == u
  {
    if run == [] then 0 else if run[0].user == u then 0 else 1 + FirstOf(run[1..], u)
  }

  /** `Threw`: an exception. `RanPast`: the loop has left the run it was to search. */
  datatype Fault = NoFault | Threw | RanPast

  function Erase(m: EntryMap, g: GroupID, u: UserID): (EntryMap, Fault) {
    var run := EqualRange(m, g);
    var i := FirstOf(run, u);
    if run == [] then (m, Threw)
    else if i == |run| then (m, RanPast)
    else (m[g := run[..i] + run[i + 1..]], NoFault)
  }

  // ------------------------------------------------------------------------
  // Operations
  // ------------------------------------------------------------------------

  function NewUser(s: Groups, u: UserID): Groups {
    s.(lists := s.lists[u := {}], entries := s.entries[u := map[]])
  }

  function AddEntry(s: Groups, u: UserID, g: GroupID, e: GroupEntry): Groups {
    s.(entries := s.entries[u := Insert(s.Entries(u), g, e)])
  }

  // A user who does not exist has no record to look up: that is where the exception comes,
  // with what was done before it left as it is.

  function EraseEntry(s: Groups, u: UserID, g: GroupID, who: UserID): (Groups, Fault) {
    if !s.HasUser(u) then (s, Threw)
    else
      var (m, fault) := Erase(s.Entries(u), g, who);
      (s.(entries := s.entries[u := m]), fault)
  }

  function ListGroup(s: Groups, u: UserID, g: GroupID): Groups {
    s.(lists := s.lists[u := s.List(u) + {g}])
  }

  function SetRoom(s: Groups, g: GroupID, r: Room): Groups {
    s.(rooms := s.rooms[g := r])
  }

  function Apply(s: Groups, sender: UserID, g: GroupID): (Groups, Fault) {
    if g !in s.rooms then (s, Threw)
    else if !s.HasUser(sender) then (s, Threw)
    else if s.IsPending(sender, g) then (s, Threw)
    else Enter(s, sender, g)
  }

  function Enter(s: Groups, sender: UserID, g: GroupID): (Groups, Fault)
    requires g in s.rooms
  {
    var s1 := s.(pending := s.pending[(sender, g) := false]);
    var s2 := AddEntry(s1, sender, g, GroupEntry(sender, Sent));
    if !s.HasUser(s.rooms[g].admin) then (s2, Threw)
    else (AddEntry(s2, s.rooms[g].admin, g, GroupEntry(sender, Received)), NoFault)
  }

  function RemoveVerification(s: Groups, sender: UserID, g: GroupID): (Groups, Fault) {
    if !s.IsPending(sender, g) then (s, Threw)
    else
      var s1 := s.(pending := s.pending - {(sender, g)});
      if g !in s.rooms then (s1, Threw)
      else
        var (s2, fault) := EraseEntry(s1, s.rooms[g].admin, g, sender);
        if fault != NoFault then (s2, fault) else EraseEntry(s2, sender, g, sender)
  }

  function Accept(s: Groups, sender: UserID, g: GroupID): (Groups, Fault) {
    if !s.IsPending(sender, g) then (s, Threw)
    else
      var s1 := s.(pending := s.pending[(sender, g) := true]);
      if g !in s.rooms || !s.HasUser(sender) then (s1, Threw)
      else RemoveVerification(Admitted(s, sender, g), sender, g)
  }

  function Admit(s: Groups, u: UserID, g: GroupID): Groups
    requires g in s.rooms
  {
    ListGroup(SetRoom(s, g, AddMember(s.rooms[g], u)), u, g)
  }

  /** The state in which the accepted application is about to be removed. */
  function Admitted(s: Groups, u: UserID, g: GroupID): Groups
    requires g in s.rooms
  {
    Admit(s.(pending := s.pending[(u, g) := true]), u, g)
  }

  function Answer(fault: Fault): Reply {
    match fault
    case NoFault => Success
    case Threw => Thrown
    case RanPast => Undefined
  }

  // ------------------------------------------------------------------------
  // Commands
  // ------------------------------------------------------------------------

  datatype GroupCommand =
    | NewUserCommand(user: UserID)
    | AddGroupCommand(self: UserID, group: GroupID)
    | AcceptGroupCommand(self: UserID, group: GroupID, user: UserID)
    | RejectGroupCommand(self: UserID, group: GroupID, user: UserID)
    | CreateGroupCommand(self: UserID)
    | RemoveGroupCommand(self: UserID, group: GroupID)
    | LeaveGroupCommand(self: UserID, group: GroupID)
    | SendGroupMessageCommand(self: UserID, group: GroupID, text: string, now: Time)
    | CleanGroupLog(group: GroupID, now: Time)

  datatype Outcome = Outcome(state: Groups, reply: Reply, delivered: set<UserID>)

  function AddGroup(s: Groups, self: UserID, g: GroupID): (Groups, Reply) {
    if g !in s.rooms then (s, Failure)
    else if !s.HasUser(self) then (s, Thrown)
    else if s.IsMember(self, g) || s.IsPending(self, g) then (s, Failure)
    else
      var (s', fault) := Apply(s, self, g);
      (s', Answer(fault))
  }

  /** Only the administrator; whether the application exists is left to the exception. */
  function AcceptGroup(s: Groups, self: UserID, g: GroupID, u: UserID): (Groups, Reply) {
    if !s.HasUser(self) then (s, Thrown)
    else if g !in s.rooms || s.IsMember(u, g) || self != s.rooms[g].admin then (s, Failure)
    else
      var (s', fault) := Accept(s, u, g);
      (s', Answer(fault))
  }

  function RejectGroup(s: Groups, self: UserID, g: GroupID, u: UserID): (Groups, Reply) {
    if !s.HasUser(self) then (s, Thrown)
    else if g !in s.rooms || s.IsMember(u, g) || self != s.rooms[g].admin || !s.IsPending(u, g) then (s, Failure)
    else
      var (s', fault) := RemoveVerification(s, u, g);
      (s', Answer(fault))
  }

  /** The id is used up even if there is to be no room. */
  function AddGroupRoom(s: Groups, creator: UserID): (Groups, Fault) {
    if !s.HasUser(creator) then (s.(nextRoom := s.nextRoom + 1), Threw)
    else (SetRoom(s, s.nextRoom, NewRoom(creator)).(nextRoom := s.nextRoom + 1), NoFault)
  }

  function CreateGroup(s: Groups, self: UserID): (Groups, Reply) {
    if !s.HasUser(self) then (s, Failure)
    else (ListGroup(AddGroupRoom(s, self).0, self, s.nextRoom), Success)
  }

  function RemoveGroup(s: Groups, self: UserID, g: GroupID): (Groups, Reply) {
    if !s.HasUser(self) then (s, Thrown)
    else if g !in s.rooms || self != s.rooms[g].admin then (s, Failure)
    else (s.(rooms := s.rooms - {g}), Success)
  }

  /** The member is gone even where the answer is a failure, as it is for the administrator. */
  function LeaveGroup(s: Groups, self: UserID, g: GroupID): (Groups, Reply) {
    if !s.HasUser(self) then (s, Thrown)
    else if g !in s.rooms then (s, Failure)
    else (SetRoom(s, g, RemoveMember(s.rooms[g], self)), if s.rooms[g].admin == self then Failure else Success)
  }

  /** A message that the room drops is answered with success all the same. */
  function SendGroupMessage(s: Groups, self: UserID, g: GroupID, text: string, now: Time): Outcome {
    if g !in s.rooms then Outcome(s, Failure, {})
    else if !s.HasUser(self) then Outcome(s, Thrown, {})
    else if g !in s.List(self) then Outcome(s, Failure, {})
    else
      var r := s.rooms[g];
      Outcome(SetRoom(s, g, Post(r, self, NormalOf(self, text), now)), Success,
              if Accepts(r, self, self, now) then r.recipients else {})
  }

  function Do(s: Groups, c: GroupCommand): Outcome {
    match c
    case NewUserCommand(u) => Outcome(NewUser(s, u), Success, {})
    case AddGroupCommand(self, g) => var (s', r) := AddGroup(s, self, g); Outcome(s', r, {})
    case AcceptGroupCommand(self, g, u) => var (s', r) := AcceptGroup(s, self, g, u); Outcome(s', r, {})
    case RejectGroupCommand(self, g, u) => var (s', r) := RejectGroup(s, self, g, u); Outcome(s', r, {})
    case CreateGroupCommand(self) => var (s', r) := CreateGroup(s, self); Outcome(s', r, {})
    case RemoveGroupCommand(self, g) => var (s', r) := RemoveGroup(s, self, g); Outcome(s', r, {})
    case LeaveGroupCommand(self, g) => var (s', r) := LeaveGroup(s, self, g); Outcome(s', r, {})
    case SendGroupMessageCommand(self, g, text, now) => SendGroupMessage(s, self, g, text, now)
    case CleanGroupLog(g, now) =>
      Outcome(if g in s.rooms then SetRoom(s, g, Expire(s.rooms[g], now)) else s, Success, {})
  }

  // ------------------------------------------------------------------------
  // What every command keeps
  // ------------------------------------------------------------------------

  /** Whoever a room or an application names is a user, and every group has been created. */
  ghost predicate Known(s: Groups) {
    && s.entries.Keys == s.lists.Keys
    && (forall g <- s.rooms :: g < s.nextRoom && s.HasUser(s.rooms[g].admin))
    && (forall p <- s.pending :: p.1 < s.nextRoom && s.HasUser(p.0))
  }

  /** Members are recipients; no command mutes anyone, and no application outlives its acceptance. */
  ghost predicate RoomInv(s: Groups) {
    && (forall g <- s.rooms :: s.rooms[g].members == s.rooms[g].recipients && s.rooms[g].muted == map[])
    && (forall p <- s.pending :: !s.pending[p])
  }

  /** A member has the group on its list, and no application to it is pending. */
  ghost predicate MemberInv(s: Groups) {
    forall u, g :: s.IsMember(u, g) ==> s.HasUser(u) && g in s.List(u) && !s.IsPending(u, g)
  }

  /** How often `e` should occur under live group `g` in the multimap of `x`. */
  ghost function Expected(s: Groups, x: UserID, g: GroupID, e: GroupEntry): nat
    requires g in s.rooms
  {
    if e == GroupEntry(x, Sent) && s.IsPending(x, g) then 1
    else if e.kind == Received && x == s.rooms[g].admin && s.IsPending(e.user, g) then 1
    else 0
  }

  /**
   * Under a live group a user's multimap holds one Sent entry if its application is
   * pending, one Received entry for each pending applicant if it is the administrator,
   * and nothing else; under a group yet to be created it holds nothing.
   */
  ghost predicate EntryInv(s: Groups) {
    && (forall x, g, e :: g in s.rooms ==> multiset(EqualRange(s.Entries(x), g))[e] == Expected(s, x, g, e))
    && (forall x, g :: g >= s.nextRoom ==> EqualRange(s.Entries(x), g) == [])
  }

  ghost predicate Inv(s: Groups) {
    Known(s) && RoomInv(s) && MemberInv(s) && EntryInv(s)
  }

  // ---- one multimap

  /** A match in the run: exactly one entry of that user goes, and no other group's run changes. */
  lemma EraseOne(m: EntryMap, g: GroupID, e: GroupEntry) returns (d: GroupEntry)
    requires e in EqualRange(m, g)
    ensures d.user == e.user && d in EqualRange(m, g)
    ensures Erase(m, g, e.user).1 == NoFault
    ensures multiset(EqualRange(Erase(m, g, e.user).0, g)) == multiset(EqualRange(m, g)) - multiset{d}
    ensures forall h :: h != g ==> EqualRange(Erase(m, g, e.user).0, h) == EqualRange(m, h)
  {
    var run := EqualRange(m, g);
    var i := FirstOf(run, e.user);
    assert i < |run|;
    d := run[i];
    assert run == run[..i] + [d] + run[i + 1..];
  }

  /** If the user has no other entry in the run, it is `e` that goes. */
  lemma EraseExactly(m: EntryMap, g: GroupID, e: GroupEntry)
    requires e in EqualRange(m, g)
    requires forall d: GroupEntry :: d.user == e.user && d in EqualRange(m, g) ==> d == e
    ensures Erase(m, g, e.user).1 == NoFault
    ensures multiset(EqualRange(Erase(m, g, e.user).0, g)) == multiset(EqualRange(m, g)) - multiset{e}
    ensures forall h :: h != g ==> EqualRange(Erase(m, g, e.user).0, h) == EqualRange(m, h)
  {
    var _ := EraseOne(m, g, e);
  }

  function OtherKind(kind: VerificationType): VerificationType {
    match kind case Sent => Received case Received => Sent
  }

  lemma EraseLast(m: EntryMap, g: GroupID, e: GroupEntry)
    requires multiset(EqualRange(m, g))[e] == 1
    requires multiset(EqualRange(m, g))[GroupEntry(e.user, OtherKind(e.kind))] == 0
    ensures Erase(m, g, e.user).1 == NoFault
    ensures multiset(EqualRange(Erase(m, g, e.user).0, g)) == multiset(EqualRange(m, g)) - multiset{e}
    ensures forall h :: h != g ==> EqualRange(Erase(m, g, e.user).0, h) == EqualRange(m, h)
  {
    var run := EqualRange(m, g);
    assert e in multiset(run);
    forall d: GroupEntry | d.user == e.user && d in run
      ensures d == e
    {
      assert d in multiset(run) && (d.kind == e.kind || d.kind == OtherKind(e.kind));
    }
    EraseExactly(m, g, e);
  }

  lemma EraseRest(m: EntryMap, g: GroupID, d: GroupEntry, before: multiset<GroupEntry>)
    requires before[GroupEntry(d.user, Sent)] == 1 && before[GroupEntry(d.user, Received)] == 1
    requires multiset(EqualRange(m, g)) == before - multiset{d}
    ensures Erase(m, g, d.user).1 == NoFault
    ensures multiset(EqualRange(Erase(m, g, d.user).0, g)) == before - multiset{GroupEntry(d.user, Sent)}
            - multiset{GroupEntry(d.user, Received)}
    ensures forall h :: h != g ==> EqualRange(Erase(m, g, d.user).0, h) == EqualRange(m, h)
  {
    var e := GroupEntry(d.user, OtherKind(d.kind));
    assert d == GroupEntry(d.user, d.kind);
    match d.kind {
      case Sent => EraseLast(m, g, e);
      case Received => EraseLast(m, g, e);
    }
  }

  /** A user with two entries in the run, one of each kind: erasing twice takes both. */
  lemma EraseBoth(m: EntryMap, g: GroupID, u: UserID)
    requires multiset(EqualRange(m, g))[GroupEntry(u, Sent)] == 1
    requires multiset(EqualRange(m, g))[GroupEntry(u, Received)] == 1
    ensures Erase(m, g, u).1 == NoFault && Erase(Erase(m, g, u).0, g, u).1 == NoFault
    ensures var m2 := Erase(Erase(m, g, u).0, g, u).0;
            && multiset(EqualRange(m2, g)) == multiset(EqualRange(m, g)) - multiset{GroupEntry(u, Sent)}
                - multiset{GroupEntry(u, Received)}
            && forall h :: h != g ==> EqualRange(m2, h) == EqualRange(m, h)
  {
    assert GroupEntry(u, Sent) in multiset(EqualRange(m, g));
    var d := EraseOne(m, g, GroupEntry(u, Sent));
    EraseRest(Erase(m, g, u).0, g, d, multiset(EqualRange(m, g)));
  }

  // ---- the end of an application

  /** How many of `e` stand for an application of `u`: its Sent entry, its Received entry, or both. */
  function Share(e: GroupEntry, u: UserID, sent: bool, received: bool): nat {
    (if sent && e == GroupEntry(u, Sent) then 1 else 0) + (if received && e == GroupEntry(u, Received) then 1 else 0)
  }

  lemma EntryCount(s: Groups, x: UserID, g: GroupID, e: GroupEntry)
    requires EntryInv(s) && g in s.rooms
    ensures multiset(EqualRange(s.Entries(x), g))[e] == Expected(s, x, g, e)
    ensures e in EqualRange(s.Entries(x), g) <==> Expected(s, x, g, e) == 1
  {
    assert e in EqualRange(s.Entries(x), g) <==> e in multiset(EqualRange(s.Entries(x), g));
  }

  /** `m'` is `m` without those entries, all under `g`. */
  ghost predicate Lost(m: EntryMap, m': EntryMap, g: GroupID, u: UserID, sent: bool, received: bool) {
    && (forall e :: multiset(EqualRange(m', g))[e] + Share(e, u, sent, received) == multiset(EqualRange(m, g))[e])
    && forall h :: h != g ==> EqualRange(m', h) == EqualRange(m, h)
  }

  lemma ErasedByAdmin(s: Groups, u: UserID, g: GroupID)
    requires EntryInv(s) && g in s.rooms && s.IsPending(u, g) && s.rooms[g].admin != u
    ensures var (m, fault) := Erase(s.Entries(s.rooms[g].admin), g, u);
            fault == NoFault && Lost(s.Entries(s.rooms[g].admin), m, g, u, false, true)
  {
    var a, e := s.rooms[g].admin, GroupEntry(u, Received);
    EntryCount(s, a, g, e);
    forall d: GroupEntry | d.user == u && d in EqualRange(s.Entries(a), g)
      ensures d == e
    {
      EntryCount(s, a, g, d);
    }
    EraseExactly(s.Entries(a), g, e);
  }

  lemma ErasedByApplicant(s: Groups, u: UserID, g: GroupID)
    requires EntryInv(s) && g in s.rooms && s.IsPending(u, g) && s.rooms[g].admin != u
    ensures var (m, fault) := Erase(s.Entries(u), g, u);
            fault == NoFault && Lost(s.Entries(u), m, g, u, true, false)
  {
    var e := GroupEntry(u, Sent);
    EntryCount(s, u, g, e);
    forall d: GroupEntry | d.user == u && d in EqualRange(s.Entries(u), g)
      ensures d == e
    {
      EntryCount(s, u, g, d);
    }
    EraseExactly(s.Entries(u), g, e);
  }

  lemma ErasedByBoth(s: Groups, u: UserID, g: GroupID)
    requires EntryInv(s) && g in s.rooms && s.IsPending(u, g) && s.rooms[g].admin == u
    ensures var (m1, fault1) := Erase(s.Entries(u), g, u);
            var (m2, fault2) := Erase(m1, g, u);
            && fault1 == NoFault && fault2 == NoFault
            && Lost(s.Entries(u), m2, g, u, true, true)
  {
    EntryCount(s, u, g, GroupEntry(u, Sent));
    EntryCount(s, u, g, GroupEntry(u, Received));
    EraseBoth(s.Entries(u), g, u);
  }

  /** `s'` is `s` without the application of `u` to `g` and the entries that stand for it. */
  ghost predicate Cleared(s: Groups, s': Groups, u: UserID, g: GroupID)
    requires g in s.rooms
  {
    && s' == s.(pending := s.pending - {(u, g)}, entries := s'.entries)
    && s'.entries.Keys == s.entries.Keys
    && forall x :: Lost(s.Entries(x), s'.Entries(x), g, u, x == u, x == s.rooms[g].admin)
  }

  lemma ClearedBy(s: Groups, s': Groups, u: UserID, g: GroupID, m1: EntryMap, m2: EntryMap)
    requires g in s.rooms && u in s.entries && s.rooms[g].admin in s.entries
    requires s' == s.(pending := s.pending - {(u, g)}, entries := s.entries[s.rooms[g].admin := m1][u := m2])
    requires s.rooms[g].admin != u ==> Lost(s.Entries(s.rooms[g].admin), m1, g, u, false, true)
    requires Lost(s.Entries(u), m2, g, u, true, u == s.rooms[g].admin)
    ensures Cleared(s, s', u, g)
  {
    forall x
      ensures Lost(s.Entries(x), s'.Entries(x), g, u, x == u, x == s.rooms[g].admin)
    {
      LostBy(s, s', u, g, m1, m2, x);
    }
  }

  lemma LostBy(s: Groups, s': Groups, u: UserID, g: GroupID, m1: EntryMap, m2: EntryMap, x: UserID)
    requires g in s.rooms && s'.entries == s.entries[s.rooms[g].admin := m1][u := m2]
    requires s.rooms[g].admin != u ==> Lost(s.Entries(s.rooms[g].admin), m1, g, u, false, true)
    requires Lost(s.Entries(u), m2, g, u, true, u == s.rooms[g].admin)
    ensures Lost(s.Entries(x), s'.Entries(x), g, u, x == u, x == s.rooms[g].admin)
  {
    if x == u {
      assert s'.Entries(x) == m2;
    } else if x == s.rooms[g].admin {
      assert s'.Entries(x) == m1;
    } else {
      assert s'.Entries(x) == s.Entries(x);
    }
  }

  lemma RemovalIs(s: Groups, u: UserID, g: GroupID)
    requires g in s.rooms && s.IsPending(u, g) && s.HasUser(u) && s.HasUser(s.rooms[g].admin)
    requires Erase(s.Entries(s.rooms[g].admin), g, u).1 == NoFault
    ensures var a, m1 := s.rooms[g].admin, Erase(s.Entries(s.rooms[g].admin), g, u).0;
            var (m2, fault) := Erase(if a == u then m1 else s.Entries(u), g, u);
            RemoveVerification(s, u, g) ==
              (s.(pending := s.pending - {(u, g)}, entries := s.entries[a := m1][u := m2]), fault)
  {
  }

  lemma RemovalByAdmin(s: Groups, u: UserID, g: GroupID)
    requires Known(s) && EntryInv(s) && g in s.rooms && s.IsPending(u, g) && s.rooms[g].admin == u
    ensures RemoveVerification(s, u, g).1 == NoFault
    ensures Cleared(s, RemoveVerification(s, u, g).0, u, g)
  {
    ErasedByBoth(s, u, g);
    RemovalIs(s, u, g);
    var m1 := Erase(s.Entries(u), g, u).0;
    ClearedBy(s, RemoveVerification(s, u, g).0, u, g, m1, Erase(m1, g, u).0);
  }

  lemma RemovalOfOther(s: Groups, u: UserID, g: GroupID)
    requires Known(s) && EntryInv(s) && g in s.rooms && s.IsPending(u, g) && s.rooms[g].admin != u
    ensures RemoveVerification(s, u, g).1 == NoFault
    ensures Cleared(s, RemoveVerification(s, u, g).0, u, g)
  {
    var a := s.rooms[g].admin;
    ErasedByAdmin(s, u, g);
    ErasedByApplicant(s, u, g);
    RemovalIs(s, u, g);
    ClearedBy(s, RemoveVerification(s, u, g).0, u, g, Erase(s.Entries(a), g, u).0, Erase(s.Entries(u), g, u).0);
  }

  /**
   * Whoever is the administrator: both look-ups find their match, no exception is
   * thrown, and exactly the entries of this application go.
   */
  lemma RemovalFindsMatches(s: Groups, u: UserID, g: GroupID)
    requires Known(s) && EntryInv(s) && g in s.rooms && s.IsPending(u, g)
    ensures RemoveVerification(s, u, g).1 == NoFault
    ensures Cleared(s, RemoveVerification(s, u, g).0, u, g)
  {
    if s.rooms[g].admin == u {
      RemovalByAdmin(s, u, g);
    } else {
      RemovalOfOther(s, u, g);
    }
  }

  lemma ClearedKeepsEntries(s: Groups, s': Groups, u: UserID, g: GroupID)
    requires Known(s) && EntryInv(s) && g in s.rooms && s.IsPending(u, g) && Cleared(s, s', u, g)
    ensures EntryInv(s')
  {
    forall x, h, e | h in s.rooms
      ensures multiset(EqualRange(s'.Entries(x), h))[e] == Expected(s', x, h, e)
    {
      ClearedEntry(s, s', u, g, x, h, e);
    }
    forall x, h | h >= s.nextRoom
      ensures EqualRange(s'.Entries(x), h) == []
    {
      assert Lost(s.Entries(x), s'.Entries(x), g, u, x == u, x == s.rooms[g].admin);
    }
  }

  lemma ClearedEntry(s: Groups, s': Groups, u: UserID, g: GroupID, x: UserID, h: GroupID, e: GroupEntry)
    requires EntryInv(s) && g in s.rooms && s.IsPending(u, g) && Cleared(s, s', u, g) && h in s.rooms
    ensures multiset(EqualRange(s'.Entries(x), h))[e] == Expected(s', x, h, e)
  {
    EntryCount(s, x, h, e);
    assert Lost(s.Entries(x), s'.Entries(x), g, u, x == u, x == s.rooms[g].admin);
    if h == g {
      ClearedCount(s, s', x, u, g, e);
    }
  }

  lemma ClearedCount(s: Groups, s': Groups, x: UserID, u: UserID, g: GroupID, e: GroupEntry)
    requires g in s.rooms && s.IsPending(u, g) && s'.rooms == s.rooms && s'.pending == s.pending - {(u, g)}
    ensures Expected(s', x, g, e) == Expected(s, x, g, e) - Share(e, u, x == u, x == s.rooms[g].admin)
  {
    match e.kind
    case Sent =>
    case Received =>
  }

  // ---- an application

  lemma Inserted(m: EntryMap, g: GroupID, e: GroupEntry)
    ensures Lost(Insert(m, g, e), m, g, e.user, e.kind == Sent, e.kind == Received)
  {
    assert multiset(EqualRange(m, g) + [e]) == multiset(EqualRange(m, g)) + multiset{e};
  }

  lemma InsertedBoth(m: EntryMap, g: GroupID, u: UserID)
    ensures Lost(Insert(Insert(m, g, GroupEntry(u, Sent)), g, GroupEntry(u, Received)), m, g, u, true, true)
  {
    Inserted(m, g, GroupEntry(u, Sent));
    Inserted(Insert(m, g, GroupEntry(u, Sent)), g, GroupEntry(u, Received));
  }

  function WithEntries(s: Groups, x: UserID, u: UserID, g: GroupID): EntryMap
    requires g in s.rooms
  {
    var m := if x == u then Insert(s.Entries(x), g, GroupEntry(u, Sent)) else s.Entries(x);
    if x == s.rooms[g].admin then Insert(m, g, GroupEntry(u, Received)) else m
  }

  lemma AppliedEntries(s: Groups, u: UserID, g: GroupID, x: UserID)
    requires Apply(s, u, g).1 == NoFault
    ensures Apply(s, u, g).0.Entries(x) == WithEntries(s, x, u, g)
  {
  }

  lemma ApplicationEntry(s: Groups, u: UserID, g: GroupID, x: UserID)
    requires g in s.rooms
    ensures Lost(WithEntries(s, x, u, g), s.Entries(x), g, u, x == u, x == s.rooms[g].admin)
  {
    var a := s.rooms[g].admin;
    if x == a && x == u {
      InsertedBoth(s.Entries(u), g, u);
    } else if x == a {
      Inserted(s.Entries(x), g, GroupEntry(u, Received));
    } else if x == u {
      Inserted(s.Entries(x), g, GroupEntry(u, Sent));
    }
  }

  /** The applicant gains one entry and the administrator one, which may be the same user. */
  lemma ApplicationEntries(s: Groups, u: UserID, g: GroupID)
    requires Known(s) && Apply(s, u, g).1 == NoFault
    ensures Cleared(Apply(s, u, g).0, s, u, g)
  {
    var s' := Apply(s, u, g).0;
    forall x
      ensures Lost(s'.Entries(x), s.Entries(x), g, u, x == u, x == s'.rooms[g].admin)
    {
      AppliedEntries(s, u, g, x);
      ApplicationEntry(s, u, g, x);
    }
    assert s'.pending - {(u, g)} == s.pending;
  }

  lemma ApplicationKeepsEntries(s: Groups, s': Groups, u: UserID, g: GroupID)
    requires Known(s) && EntryInv(s) && g in s.rooms && s'.IsPending(u, g) && s'.rooms == s.rooms
            && Cleared(s', s, u, g)
    ensures EntryInv(s')
  {
    forall x, h, e | h in s.rooms
      ensures multiset(EqualRange(s'.Entries(x), h))[e] == Expected(s', x, h, e)
    {
      EntryCount(s, x, h, e);
      assert Lost(s'.Entries(x), s.Entries(x), g, u, x == u, x == s'.rooms[g].admin);
      if h == g {
        ClearedCount(s', s, x, u, g, e);
      }
    }
    forall x, h | h >= s.nextRoom
      ensures EqualRange(s'.Entries(x), h) == []
    {
      assert Lost(s'.Entries(x), s.Entries(x), g, u, x == u, x == s'.rooms[g].admin);
    }
  }

  // ---- the commands

  /** Entries, applications and administrators as before, so the entries still fit. */
  lemma SameEntries(s: Groups, s': Groups)
    requires EntryInv(s) && s'.entries == s.entries && s'.nextRoom == s.nextRoom
    requires s'.pending.Keys == s.pending.Keys
    requires forall g <- s'.rooms :: g in s.rooms && s'.rooms[g].admin == s.rooms[g].admin
    ensures EntryInv(s')
  {
    forall x, g, e | g in s'.rooms
      ensures multiset(EqualRange(s'.Entries(x), g))[e] == Expected(s', x, g, e)
    {
      EntryCount(s, x, g, e);
      assert forall u :: s'.IsPending(u, g) <==> s.IsPending(u, g);
    }
    assert forall x :: s'.Entries(x) == s.Entries(x);
  }

  lemma AddGroupKeeps(s: Groups, self: UserID, g: GroupID)
    requires Inv(s) && s.HasUser(self)
    ensures Inv(AddGroup(s, self, g).0)
    ensures AddGroup(s, self, g).1 == if g in s.rooms && !s.IsMember(self, g) && !s.IsPending(self, g)
            then Success else Failure
  {
    if g in s.rooms && !s.IsMember(self, g) && !s.IsPending(self, g) {
      var s' := Apply(s, self, g).0;
      ApplicationEntries(s, self, g);
      ApplicationKeepsEntries(s, s', self, g);
      assert forall u, h :: s'.IsMember(u, h) <==> s.IsMember(u, h);
    }
  }

  lemma RejectGroupKeeps(s: Groups, self: UserID, g: GroupID, u: UserID)
    requires Inv(s) && s.HasUser(self)
    ensures Inv(RejectGroup(s, self, g, u).0)
    ensures RejectGroup(s, self, g, u).1 ==
              if g in s.rooms && s.rooms[g].admin == self && s.IsPending(u, g) then Success else Failure
  {
    if g in s.rooms && s.rooms[g].admin == self && s.IsPending(u, g) {
      RemovalFindsMatches(s, u, g);
      var s' := RemoveVerification(s, u, g).0;
      ClearedKeepsEntries(s, s', u, g);
      assert forall v, h :: s'.IsMember(v, h) <==> s.IsMember(v, h);
    }
  }

  lemma AcceptKeeps(s: Groups, u: UserID, g: GroupID)
    requires Inv(s) && g in s.rooms && s.IsPending(u, g)
    ensures Accept(s, u, g).1 == NoFault && Inv(Accept(s, u, g).0)
    ensures forall v, h :: Accept(s, u, g).0.IsMember(v, h) <==> s.IsMember(v, h) || (v, h) == (u, g)
  {
    var t, s' := Admitted(s, u, g), Accept(s, u, g).0;
    SameEntries(s, t);
    assert Known(t);
    RemovalFindsMatches(t, u, g);
    ClearedKeepsEntries(t, s', u, g);
    assert forall v, h :: s'.IsMember(v, h) <==> s.IsMember(v, h) || (v, h) == (u, g);
    AcceptKeepsRooms(s, s', u, g);
  }

  lemma AcceptKeepsRooms(s: Groups, s': Groups, u: UserID, g: GroupID)
    requires Inv(s) && g in s.rooms && s.IsPending(u, g) && Cleared(Admitted(s, u, g), s', u, g)
    ensures Known(s') && RoomInv(s') && MemberInv(s')
  {
    forall v, h | s'.IsMember(v, h)
      ensures s'.HasUser(v) && h in s'.List(v) && !s'.IsPending(v, h)
    {
      assert s.IsMember(v, h) || (v, h) == (u, g);
    }
  }

  /** Only here can an exception reach the client: there is no application to accept. */
  lemma AcceptGroupKeeps(s: Groups, self: UserID, g: GroupID, u: UserID)
    requires Inv(s) && s.HasUser(self)
    ensures Inv(AcceptGroup(s, self, g, u).0)
    ensures AcceptGroup(s, self, g, u).1 ==
              if g !in s.rooms || s.IsMember(u, g) || s.rooms[g].admin != self then Failure
              else if s.IsPending(u, g) then Success else Thrown
  {
    if g in s.rooms && s.IsPending(u, g) {
      AcceptKeeps(s, u, g);
    }
  }

  lemma CreateGroupKeeps(s: Groups, self: UserID)
    requires Inv(s) && s.HasUser(self)
    ensures Inv(CreateGroup(s, self).0)
  {
    var g, s' := s.nextRoom, CreateGroup(s, self).0;
    assert forall x :: s'.Entries(x) == s.Entries(x);
    forall x, h, e | h in s'.rooms
      ensures multiset(EqualRange(s'.Entries(x), h))[e] == Expected(s', x, h, e)
    {
      if h == g {
        assert EqualRange(s.Entries(x), g) == [];
      } else {
        EntryCount(s, x, h, e);
      }
    }
    assert forall u, h :: s'.IsMember(u, h) <==> s.IsMember(u, h) || (u, h) == (self, g);
  }

  /** A command that replaces a room without admitting anyone keeps the invariants. */
  lemma RoomChangeKeeps(s: Groups, g: GroupID, r: Room)
    requires Inv(s) && g in s.rooms && r.admin == s.rooms[g].admin
    requires r.members <= s.rooms[g].members && r.recipients == r.members && r.muted == map[]
    ensures Inv(SetRoom(s, g, r))
  {
    var s' := SetRoom(s, g, r);
    SameEntries(s, s');
    assert forall u, h :: s'.IsMember(u, h) ==> s.IsMember(u, h);
  }

  lemma RemoveGroupKeeps(s: Groups, self: UserID, g: GroupID)
    requires Inv(s)
    ensures Inv(RemoveGroup(s, self, g).0)
  {
    var s' := RemoveGroup(s, self, g).0;
    SameEntries(s, s');
    assert forall u, h :: s'.IsMember(u, h) ==> s.IsMember(u, h);
  }

  lemma NewUserKeeps(s: Groups, u: UserID)
    requires Inv(s) && !s.HasUser(u)
    ensures Inv(NewUser(s, u))
  {
    var s' := NewUser(s, u);
    assert forall x :: s'.Entries(x) == s.Entries(x);
    forall x, g, e | g in s'.rooms
      ensures multiset(EqualRange(s'.Entries(x), g))[e] == Expected(s', x, g, e)
    {
      EntryCount(s, x, g, e);
    }
    assert forall v, h :: s'.IsMember(v, h) <==> s.IsMember(v, h);
  }

  /** A registration gets an id that no user has. */
  predicate Legal(s: Groups, c: GroupCommand) {
    c.NewUserCommand? ==> !s.HasUser(c.user)
  }

  /** The executor is a user: without a login it is not, and then nothing happens. */
  predicate ByUser(s: Groups, c: GroupCommand) {
    c.NewUserCommand? || c.CleanGroupLog? || s.HasUser(c.self)
  }

  lemma OthersChangeNothing(s: Groups, c: GroupCommand)
    requires !ByUser(s, c)
    ensures Do(s, c).state == s && Do(s, c).reply != Success && Do(s, c).delivered == {}
  {
  }

  lemma StepKeeps(s: Groups, c: GroupCommand)
    requires Inv(s) && Legal(s, c)
    ensures Inv(Do(s, c).state)
  {
    if !ByUser(s, c) {
      OthersChangeNothing(s, c);
    } else {
      match c
      case NewUserCommand(u) => NewUserKeeps(s, u);
      case AddGroupCommand(self, g) => AddGroupKeeps(s, self, g);
      case AcceptGroupCommand(self, g, u) => AcceptGroupKeeps(s, self, g, u);
      case RejectGroupCommand(self, g, u) => RejectGroupKeeps(s, self, g, u);
      case CreateGroupCommand(self) => CreateGroupKeeps(s, self);
      case RemoveGroupCommand(self, g) => RemoveGroupKeeps(s, self, g);
      case LeaveGroupCommand(self, g) => if g in s.rooms { RoomChangeKeeps(s, g, RemoveMember(s.rooms[g], self)); }
      case SendGroupMessageCommand(self, g, text, now) =>
        if g in s.rooms { RoomChangeKeeps(s, g, Post(s.rooms[g], self, NormalOf(self, text), now)); }
      case CleanGroupLog(g, now) => if g in s.rooms { RoomChangeKeeps(s, g, Expire(s.rooms[g], now)); }
    }
  }

  /**
   * In no reachable state does a user's command make the loop over verification entries
   * run past the entries of its group, and an exception reaches the client in one case
   * only: the administrator accepts someone who has not applied.
   */
  lemma WhenThrown(s: Groups, c: GroupCommand)
    requires Inv(s) && ByUser(s, c)
    ensures Do(s, c).reply != Undefined
    ensures Do(s, c).reply == Thrown <==>
              c.AcceptGroupCommand? && c.group in s.rooms && s.rooms[c.group].admin == c.self
              && !s.IsMember(c.user, c.group) && !s.IsPending(c.user, c.group)
  {
    match c
    case AddGroupCommand(self, g) => AddGroupKeeps(s, self, g);
    case AcceptGroupCommand(self, g, u) => AcceptGroupKeeps(s, self, g, u);
    case RejectGroupCommand(self, g, u) => RejectGroupKeeps(s, self, g, u);
    case _ =>
  }

  // ------------------------------------------------------------------------
  // Runs
  // ------------------------------------------------------------------------

  function Run(cmds: seq<GroupCommand>): Groups {
    if cmds == [] then EMPTY else Do(Run(cmds[..|cmds| - 1]), cmds[|cmds| - 1]).state
  }

  ghost predicate LegalRun(cmds: seq<GroupCommand>) {
    cmds != [] ==> LegalRun(cmds[..|cmds| - 1]) && Legal(Run(cmds[..|cmds| - 1]), cmds[|cmds| - 1])
  }

  /** In every reachable state. */
  lemma {:induction false} InvAlways(cmds: seq<GroupCommand>)
    requires LegalRun(cmds)
    ensures Inv(Run(cmds))
  {
    if cmds != [] {
      InvAlways(cmds[..|cmds| - 1]);
      StepKeeps(Run(cmds[..|cmds| - 1]), cmds[|cmds| - 1]);
    }
  }

  // ---- where a membership comes from

  /** Command `i` was an application of `u` to `g` that the server took. */
  ghost predicate Applied(cmds: seq<GroupCommand>, i: nat, u: UserID, g: GroupID) {
    i < |cmds| && cmds[i] == AddGroupCommand(u, g) && AddGroup(Run(cmds[..i]), u, g).1 == Success
  }

  /** Command `j` was the administrator of `g` accepting the pending application of `u`. */
  ghost predicate AcceptedBy(cmds: seq<GroupCommand>, j: nat, u: UserID, g: GroupID) {
    j < |cmds|
    && var s := Run(cmds[..j]);
       g in s.rooms && s.IsPending(u, g) && cmds[j] == AcceptGroupCommand(s.rooms[g].admin, g, u)
  }

  /** Command `j` was `u` creating `g`. */
  ghost predicate Created(cmds: seq<GroupCommand>, j: nat, u: UserID, g: GroupID) {
    j < |cmds| && cmds[j] == CreateGroupCommand(u) && Run(cmds[..j]).HasUser(u) && Run(cmds[..j]).nextRoom == g
  }

  ghost predicate Joined(cmds: seq<GroupCommand>, u: UserID, g: GroupID) {
    || (exists j: nat :: Created(cmds, j, u, g))
    || (exists i, j :: 0 <= i < j && Applied(cmds, i, u, g) && AcceptedBy(cmds, j, u, g))
  }

  lemma SamePast(cmds: seq<GroupCommand>, i: nat, u: UserID, g: GroupID)
    requires cmds != [] && i < |cmds| - 1
    ensures Created(cmds[..|cmds| - 1], i, u, g) == Created(cmds, i, u, g)
    ensures Applied(cmds[..|cmds| - 1], i, u, g) == Applied(cmds, i, u, g)
    ensures AcceptedBy(cmds[..|cmds| - 1], i, u, g) == AcceptedBy(cmds, i, u, g)
  {
    assert cmds[..|cmds| - 1][..i] == cmds[..i];
  }

  lemma JoinedLater(cmds: seq<GroupCommand>, u: UserID, g: GroupID)
    requires cmds != [] && Joined(cmds[..|cmds| - 1], u, g)
    ensures Joined(cmds, u, g)
  {
    var before := cmds[..|cmds| - 1];
    if j: nat :| Created(before, j, u, g) {
      SamePast(cmds, j, u, g);
    } else {
      var i, j :| 0 <= i < j && Applied(before, i, u, g) && AcceptedBy(before, j, u, g);
      SamePast(cmds, i, u, g);
      SamePast(cmds, j, u, g);
    }
  }

  lemma {:induction false} PendingApplied(cmds: seq<GroupCommand>, u: UserID, g: GroupID) returns (i: nat)
    requires LegalRun(cmds) && Run(cmds).IsPending(u, g)
    ensures Applied(cmds, i, u, g)
  {
    var before := cmds[..|cmds| - 1];
    if Run(before).IsPending(u, g) {
      i := PendingApplied(before, u, g);
      assert before[..i] == cmds[..i];
    } else {
      i := |cmds| - 1;
      JustApplied(cmds, u, g);
    }
  }

  lemma JustApplied(cmds: seq<GroupCommand>, u: UserID, g: GroupID)
    requires cmds != [] && LegalRun(cmds) && Run(cmds).IsPending(u, g) && !Run(cmds[..|cmds| - 1]).IsPending(u, g)
    ensures Applied(cmds, |cmds| - 1, u, g)
  {
    InvAlways(cmds[..|cmds| - 1]);
    NewApplication(Run(cmds[..|cmds| - 1]), cmds[|cmds| - 1], u, g);
  }

  lemma NewApplication(s: Groups, c: GroupCommand, u: UserID, g: GroupID)
    requires Inv(s) && Legal(s, c) && Do(s, c).state.IsPending(u, g) && !s.IsPending(u, g)
    ensures c == AddGroupCommand(u, g) && AddGroup(s, u, g).1 == Success
  {
    match c
    case AcceptGroupCommand(_, h, v) => if h in s.rooms && s.IsPending(v, h) { AcceptedClears(s, v, h); }
    case RejectGroupCommand(_, h, v) => if h in s.rooms && s.IsPending(v, h) { RemovalFindsMatches(s, v, h); }
    case _ =>
  }

  lemma AcceptedClears(s: Groups, u: UserID, g: GroupID)
    requires Inv(s) && g in s.rooms && s.IsPending(u, g)
    ensures Cleared(Admitted(s, u, g), Accept(s, u, g).0, u, g)
  {
    var t := Admitted(s, u, g);
    SameEntries(s, t);
    RemovalFindsMatches(t, u, g);
  }

  lemma NewMember(s: Groups, c: GroupCommand, u: UserID, g: GroupID)
    requires Inv(s) && Legal(s, c) && Do(s, c).state.IsMember(u, g) && !s.IsMember(u, g)
    ensures (c == CreateGroupCommand(u) && g == s.nextRoom && s.HasUser(u))
         || (g in s.rooms && s.IsPending(u, g) && c == AcceptGroupCommand(s.rooms[g].admin, g, u))
  {
    match c
    case AcceptGroupCommand(_, h, v) => if h in s.rooms && s.IsPending(v, h) { AcceptKeeps(s, v, h); }
    case RejectGroupCommand(_, h, v) => if h in s.rooms && s.IsPending(v, h) { RemovalFindsMatches(s, v, h); }
    case _ =>
  }

  /**
   * A member of a live group created it, or applied to it and was accepted by the
   * administrator after that.
   */
  lemma {:induction false} MembersJoined(cmds: seq<GroupCommand>, u: UserID, g: GroupID)
    requires LegalRun(cmds) && Run(cmds).IsMember(u, g)
    ensures Joined(cmds, u, g)
  {
    if Run(cmds[..|cmds| - 1]).IsMember(u, g) {
      MembersJoined(cmds[..|cmds| - 1], u, g);
      JoinedLater(cmds, u, g);
    } else {
      JustJoined(cmds, u, g);
    }
  }

  lemma JustJoined(cmds: seq<GroupCommand>, u: UserID, g: GroupID)
    requires cmds != [] && LegalRun(cmds) && Run(cmds).IsMember(u, g) && !Run(cmds[..|cmds| - 1]).IsMember(u, g)
    ensures Joined(cmds, u, g)
  {
    var before, last := cmds[..|cmds| - 1], |cmds| - 1;
    InvAlways(before);
    NewMember(Run(before), cmds[last], u, g);
    if !cmds[last].CreateGroupCommand? {
      JustAccepted(cmds, u, g);
    } else {
      assert Created(cmds, last, u, g);
    }
  }

  lemma JustAccepted(cmds: seq<GroupCommand>, u: UserID, g: GroupID)
    requires cmds != [] && LegalRun(cmds) && AcceptedBy(cmds, |cmds| - 1, u, g)
    ensures Joined(cmds, u, g)
  {
    var i := PendingApplied(cmds[..|cmds| - 1], u, g);
    SamePast(cmds, i, u, g);
  }

  // ---- both tables are their histories

  /** An application makes (u, g) pending, an answer of the administrator ends it. */
  function PendingMark(s: Groups, c: GroupCommand, u: UserID, g: GroupID): Mark {
    if c == AddGroupCommand(u, g) && AddGroup(s, u, g).1 == Success then Makes
    else if g !in s.rooms then Neither
    else if c == AcceptGroupCommand(s.rooms[g].admin, g, u) || c == RejectGroupCommand(s.rooms[g].admin, g, u) then Ends
    else Neither
  }

  /**
   * The creation of g or an acceptance by its administrator makes u a member; leaving
   * ends it, and so does the removal of the group by its administrator.
   */
  function MemberMark(s: Groups, c: GroupCommand, u: UserID, g: GroupID): Mark {
    if c == CreateGroupCommand(u) && s.HasUser(u) && g == s.nextRoom then Makes
    else if g !in s.rooms then Neither
    else if c == AcceptGroupCommand(s.rooms[g].admin, g, u) && s.IsPending(u, g) then Makes
    else if c == LeaveGroupCommand(u, g) || c == RemoveGroupCommand(s.rooms[g].admin, g) then Ends
    else Neither
  }

  function PendingMarks(cmds: seq<GroupCommand>, u: UserID, g: GroupID): seq<Mark> {
    if cmds == [] then []
    else
      var before := cmds[..|cmds| - 1];
      PendingMarks(before, u, g) + [PendingMark(Run(before), cmds[|cmds| - 1], u, g)]
  }

  function MemberMarks(cmds: seq<GroupCommand>, u: UserID, g: GroupID): seq<Mark> {
    if cmds == [] then []
    else
      var before := cmds[..|cmds| - 1];
      MemberMarks(before, u, g) + [MemberMark(Run(before), cmds[|cmds| - 1], u, g)]
  }

  lemma AcceptEndsPending(s: Groups, self: UserID, g: GroupID, u: UserID)
    requires Inv(s)
    ensures var answered := g in s.rooms && self == s.rooms[g].admin && s.IsPending(u, g);
            AcceptGroup(s, self, g, u).0.pending.Keys == s.pending.Keys - if answered then {(u, g)} else {}
  {
    if g in s.rooms && s.IsPending(u, g) {
      AcceptedClears(s, u, g);
    }
  }

  lemma RejectEndsPending(s: Groups, self: UserID, g: GroupID, u: UserID)
    requires Inv(s)
    ensures var answered := g in s.rooms && self == s.rooms[g].admin && s.IsPending(u, g);
            RejectGroup(s, self, g, u).0.pending.Keys == s.pending.Keys - if answered then {(u, g)} else {}
  {
    if g in s.rooms && s.IsPending(u, g) {
      RemovalFindsMatches(s, u, g);
    }
  }

  lemma StepPending(s: Groups, c: GroupCommand, u: UserID, g: GroupID)
    requires Inv(s) && Legal(s, c)
    ensures Do(s, c).state.IsPending(u, g) <==>
              PendingMark(s, c, u, g) == Makes || (PendingMark(s, c, u, g) != Ends && s.IsPending(u, g))
  {
    if c.AcceptGroupCommand? {
      AcceptEndsPending(s, c.self, c.group, c.user);
    } else if c.RejectGroupCommand? {
      RejectEndsPending(s, c.self, c.group, c.user);
    } else {
      OtherPending(s, c, u, g);
    }
  }

  lemma OtherPending(s: Groups, c: GroupCommand, u: UserID, g: GroupID)
    requires !c.AcceptGroupCommand? && !c.RejectGroupCommand?
    requires g in s.rooms ==> s.HasUser(s.rooms[g].admin)
    ensures Do(s, c).state.IsPending(u, g) <==>
              PendingMark(s, c, u, g) == Makes || (PendingMark(s, c, u, g) != Ends && s.IsPending(u, g))
  {
  }

  lemma StepMember(s: Groups, c: GroupCommand, u: UserID, g: GroupID)
    requires Inv(s) && Legal(s, c)
    ensures Do(s, c).state.IsMember(u, g) <==>
              MemberMark(s, c, u, g) == Makes || (MemberMark(s, c, u, g) != Ends && s.IsMember(u, g))
  {
    match c
    case AcceptGroupCommand(self, h, v) => AcceptRoom(s, self, h, v);
    case RejectGroupCommand(self, h, v) => RejectRoom(s, self, h, v);
    case AddGroupCommand(self, h) => AddRoom(s, self, h);
    case SendGroupMessageCommand(_, _, _, _) => MessageRoom(s, c, g);
    case _ => OtherMember(s, c, u, g);
  }

  /** Commands that neither look at applications nor at messages. */
  predicate Plain(c: GroupCommand) {
    !c.AcceptGroupCommand? && !c.RejectGroupCommand? && !c.AddGroupCommand? && !c.SendGroupMessageCommand?
  }

  lemma OtherMember(s: Groups, c: GroupCommand, u: UserID, g: GroupID)
    requires Plain(c) && s.nextRoom !in s.rooms && (s.IsMember(u, g) ==> s.HasUser(u))
    requires g in s.rooms ==> s.HasUser(s.rooms[g].admin)
    ensures Do(s, c).state.IsMember(u, g) <==>
              MemberMark(s, c, u, g) == Makes || (MemberMark(s, c, u, g) != Ends && s.IsMember(u, g))
  {
  }

  /** Pending is what has been applied for and not been answered by the administrator since. */
  lemma {:induction false} PendingIsHistory(cmds: seq<GroupCommand>, u: UserID, g: GroupID)
    requires LegalRun(cmds)
    ensures Run(cmds).IsPending(u, g) <==> Holds(PendingMarks(cmds, u, g))
  {
    if cmds != [] {
      var before, c := cmds[..|cmds| - 1], cmds[|cmds| - 1];
      PendingIsHistory(before, u, g);
      InvAlways(before);
      StepPending(Run(before), c, u, g);
      HoldsNext(PendingMarks(before, u, g), PendingMark(Run(before), c, u, g));
    }
  }

  /**
   * The member lists say exactly what happened: u is a member of live g if and only if it
   * created g or was accepted by the administrator, and has not left since.
   */
  lemma {:induction false} MembershipIsHistory(cmds: seq<GroupCommand>, u: UserID, g: GroupID)
    requires LegalRun(cmds)
    ensures Run(cmds).IsMember(u, g) <==> Holds(MemberMarks(cmds, u, g))
  {
    if cmds != [] {
      var before, c := cmds[..|cmds| - 1], cmds[|cmds| - 1];
      MembershipIsHistory(before, u, g);
      InvAlways(before);
      StepMember(Run(before), c, u, g);
      HoldsNext(MemberMarks(before, u, g), MemberMark(Run(before), c, u, g));
    }
  }

  lemma StepList(s: Groups, c: GroupCommand, u: UserID, g: GroupID)
    requires Inv(s) && Legal(s, c)
    ensures g in Do(s, c).state.List(u) <==> g in s.List(u) || MemberMark(s, c, u, g) == Makes
  {
    match c
    case AcceptGroupCommand(self, h, v) => AcceptList(s, self, h, v, u);
    case RejectGroupCommand(self, h, v) => if h in s.rooms && s.IsPending(v, h) { RemovalFindsMatches(s, v, h); }
    case _ => OtherList(s, c, u, g);
  }

  lemma AcceptList(s: Groups, self: UserID, g: GroupID, v: UserID, u: UserID)
    requires Inv(s)
    ensures AcceptGroup(s, self, g, v).0.List(u) == s.List(u) +
              if u == v && g in s.rooms && self == s.rooms[g].admin && s.IsPending(v, g) then {g} else {}
  {
    if g in s.rooms && s.IsPending(v, g) {
      AcceptedClears(s, v, g);
    }
  }

  lemma OtherList(s: Groups, c: GroupCommand, u: UserID, g: GroupID)
    requires !c.AcceptGroupCommand? && !c.RejectGroupCommand? && Legal(s, c)
    ensures g in Do(s, c).state.List(u) <==> g in s.List(u) || MemberMark(s, c, u, g) == Makes
  {
  }

  lemma StepIds(s: Groups, c: GroupCommand)
    requires Inv(s) && Legal(s, c)
    ensures s.nextRoom <= Do(s, c).state.nextRoom
  {
    match c
    case AcceptGroupCommand(_, h, v) => if h in s.rooms && s.IsPending(v, h) { AcceptedClears(s, v, h); }
    case RejectGroupCommand(_, h, v) => if h in s.rooms && s.IsPending(v, h) { RemovalFindsMatches(s, v, h); }
    case _ =>
  }

  /**
   * The group lists say what happened as well, but less: g is on the list of u if and
   * only if u created g or was accepted by its administrator at some point.
   */
  lemma {:induction false} ListIsHistory(cmds: seq<GroupCommand>, u: UserID, g: GroupID)
    requires LegalRun(cmds)
    ensures g in Run(cmds).List(u) <==> Makes in MemberMarks(cmds, u, g)
    ensures g in Run(cmds).List(u) ==> g < Run(cmds).nextRoom
  {
    if cmds != [] {
      var before, c := cmds[..|cmds| - 1], cmds[|cmds| - 1];
      ListIsHistory(before, u, g);
      InvAlways(before);
      StepList(Run(before), c, u, g);
      StepIds(Run(before), c);
      if MemberMark(Run(before), c, u, g) == Makes {
        MadeById(Run(before), c, u, g);
      }
    }
  }

  lemma MadeById(s: Groups, c: GroupCommand, u: UserID, g: GroupID)
    requires Known(s) && MemberMark(s, c, u, g) == Makes
    ensures g < Do(s, c).state.nextRoom
  {
  }

  // ---- lists and members

  /** A live group is on the lists of its members, and on no other. */
  ghost predicate ListsAgree(s: Groups) {
    forall u, g :: g in s.rooms ==> (g in s.List(u) <==> s.IsMember(u, g))
  }

  /** After every command of the run. */
  ghost predicate AlwaysListsAgree(cmds: seq<GroupCommand>) {
    ListsAgree(Run(cmds)) && (cmds != [] ==> AlwaysListsAgree(cmds[..|cmds| - 1]))
  }

  predicate MemberLeaves(s: Groups, c: GroupCommand) {
    c.LeaveGroupCommand? && s.IsMember(c.self, c.group)
  }

  ghost predicate NoMemberLeaves(cmds: seq<GroupCommand>) {
    cmds != [] ==>
      var before, c := cmds[..|cmds| - 1], cmds[|cmds| - 1];
      NoMemberLeaves(before) && !MemberLeaves(Run(before), c)
  }

  lemma LeavingParts(s: Groups, c: GroupCommand)
    requires Inv(s) && MemberLeaves(s, c)
    ensures !ListsAgree(Do(s, c).state)
  {
    var s' := Do(s, c).state;
    assert s.HasUser(c.self) && c.group in s.List(c.self);
    assert c.group in s'.rooms && c.group in s'.List(c.self) && !s'.IsMember(c.self, c.group);
  }

  lemma StepListsAgree(s: Groups, c: GroupCommand)
    requires Inv(s) && Legal(s, c) && ListsAgree(s) && !MemberLeaves(s, c)
    requires forall u, g :: g in s.List(u) ==> g < s.nextRoom
    ensures ListsAgree(Do(s, c).state)
  {
    forall u, g | g in Do(s, c).state.rooms
      ensures g in Do(s, c).state.List(u) <==> Do(s, c).state.IsMember(u, g)
    {
      StepList(s, c, u, g);
      StepMember(s, c, u, g);
      RoomsKept(s, c, g);
    }
  }

  /** A live group was live before or is new; in a group that stays live only leaving ends a membership. */
  lemma RoomsKept(s: Groups, c: GroupCommand, g: GroupID)
    requires Inv(s) && Legal(s, c) && g in Do(s, c).state.rooms
    ensures g in s.rooms || g == s.nextRoom
    ensures forall u :: MemberMark(s, c, u, g) == Ends ==> c == LeaveGroupCommand(u, g)
  {
    match c
    case AcceptGroupCommand(self, h, v) => AcceptRoom(s, self, h, v);
    case RejectGroupCommand(self, h, v) => RejectRoom(s, self, h, v);
    case AddGroupCommand(self, h) => AddRoom(s, self, h);
    case SendGroupMessageCommand(_, _, _, _) => MessageRoom(s, c, g);
    case _ =>
  }

  /**
   * Group lists and member lists of live groups agree after every command of a run if
   * and only if no member leaves on it, be it the administrator who is then refused.
   */
  lemma {:induction false} ListsAgreeUnlessLeft(cmds: seq<GroupCommand>)
    requires LegalRun(cmds)
    ensures AlwaysListsAgree(cmds) <==> NoMemberLeaves(cmds)
  {
    if cmds != [] {
      var before, c := cmds[..|cmds| - 1], cmds[|cmds| - 1];
      ListsAgreeUnlessLeft(before);
      InvAlways(before);
      if MemberLeaves(Run(before), c) {
        LeavingParts(Run(before), c);
      } else if AlwaysListsAgree(before) {
        forall u, g
          ensures g in Run(before).List(u) ==> g < Run(before).nextRoom
        {
          ListIsHistory(before, u, g);
        }
        StepListsAgree(Run(before), c);
      }
    }
  }

  // ---- messages

  /**
   * A message is stored and sent on exactly if its sender is a member, and then to the
   * members; a former member who still has the group on the list is told it succeeded.
   */
  lemma GroupMessageDelivered(s: Groups, self: UserID, g: GroupID, text: string, now: Time)
    requires Inv(s) && s.HasUser(self) && g in s.rooms
    ensures var (r, out) := (s.rooms[g], SendGroupMessage(s, self, g, text, now));
            && out.reply == (if g in s.List(self) then Success else Failure)
            && out.delivered == (if s.IsMember(self, g) then r.members else {})
            && out.state == (if s.IsMember(self, g)
                             then SetRoom(s, g, r.(log := r.log[LeastFree(r.log.Keys, now)
                                                                := Message(self, text, NormalMessage, None)]))
                             else s)
            && (s.IsMember(self, g) ==> out.reply == Success)
  {
    var r := s.rooms[g];
    assert s.IsMember(self, g) == (self in r.members);
    assert r.muted - {self} == r.muted;
    assert s.rooms[g := r] == s.rooms;
  }

  /**
   * Leaving takes the member out whatever the answer, but not the group off its list:
   * from then on it is told that its messages succeed while none is stored or sent.
   */
  lemma LeavingIsSilent(s: Groups, self: UserID, g: GroupID, text: string, now: Time)
    requires Inv(s) && s.HasUser(self) && s.IsMember(self, g)
    ensures var (s', reply) := LeaveGroup(s, self, g);
            && (reply == Success <==> s.rooms[g].admin != self)
            && !s'.IsMember(self, g) && g in s'.List(self)
            && SendGroupMessage(s', self, g, text, now) == Outcome(s', Success, {})
  {
    var s' := LeaveGroup(s, self, g).0;
    RoomChangeKeeps(s, g, RemoveMember(s.rooms[g], self));
    GroupMessageDelivered(s', self, g, text, now);
  }

  // ---- what never comes back

  /** Group lists only grow. */
  lemma StepListsGrow(s: Groups, c: GroupCommand, u: UserID, g: GroupID)
    requires Inv(s) && Legal(s, c) && g in s.List(u)
    ensures g in Do(s, c).state.List(u)
  {
    match c
    case AcceptGroupCommand(_, h, v) => if h in s.rooms && s.IsPending(v, h) { AcceptedClears(s, v, h); }
    case RejectGroupCommand(_, h, v) => if h in s.rooms && s.IsPending(v, h) { RemovalFindsMatches(s, v, h); }
    case _ =>
  }

  /** The id of a removed group is not given out again, and an application to it is never answered. */
  lemma StepStaysRemoved(s: Groups, c: GroupCommand, u: UserID, g: GroupID)
    requires Inv(s) && Legal(s, c) && g < s.nextRoom && g !in s.rooms
    ensures var s' := Do(s, c).state;
            g < s'.nextRoom && g !in s'.rooms && (s.IsPending(u, g) ==> s'.IsPending(u, g))
  {
    match c
    case AcceptGroupCommand(_, h, v) => if h in s.rooms && s.IsPending(v, h) { AcceptedClears(s, v, h); }
    case RejectGroupCommand(_, h, v) => if h in s.rooms && s.IsPending(v, h) { RemovalFindsMatches(s, v, h); }
    case _ => OtherStaysRemoved(s, c, u, g);
  }

  lemma OtherStaysRemoved(s: Groups, c: GroupCommand, u: UserID, g: GroupID)
    requires !c.AcceptGroupCommand? && !c.RejectGroupCommand? && g < s.nextRoom && g !in s.rooms
    ensures var s' := Do(s, c).state;
            g < s'.nextRoom && g !in s'.rooms && (s.IsPending(u, g) ==> s'.IsPending(u, g))
  {
  }

  lemma {:induction false} NeverTakenBack(cmds: seq<GroupCommand>, i: nat, u: UserID, g: GroupID)
    requires LegalRun(cmds) && i <= |cmds|
    ensures g in Run(cmds[..i]).List(u) ==> g in Run(cmds).List(u)
    ensures var s := Run(cmds[..i]);
            g < s.nextRoom && g !in s.rooms ==>
              g < Run(cmds).nextRoom && g !in Run(cmds).rooms && (s.IsPending(u, g) ==> Run(cmds).IsPending(u, g))
  {
    if i == |cmds| {
      assert cmds[..i] == cmds;
    } else {
      var before := cmds[..|cmds| - 1];
      assert before[..i] == cmds[..i];
      NeverTakenBack(before, i, u, g);
      OneMore(cmds, u, g);
    }
  }

  lemma OneMore(cmds: seq<GroupCommand>, u: UserID, g: GroupID)
    requires cmds != [] && LegalRun(cmds)
    ensures var (s, s') := (Run(cmds[..|cmds| - 1]), Run(cmds));
            && (g in s.List(u) ==> g in s'.List(u))
            && (g < s.nextRoom && g !in s.rooms ==>
                  g < s'.nextRoom && g !in s'.rooms && (s.IsPending(u, g) ==> s'.IsPending(u, g)))
  {
    var s, c := Run(cmds[..|cmds| - 1]), cmds[|cmds| - 1];
    InvAlways(cmds[..|cmds| - 1]);
    if g in s.List(u) {
      StepListsGrow(s, c, u, g);
    }
    if g < s.nextRoom && g !in s.rooms {
      StepStaysRemoved(s, c, u, g);
    }
  }

  // ------------------------------------------------------------------------
  // The commands alone decide
  // ------------------------------------------------------------------------

  // What follows speaks of commands only, never of a table or of a reply.

  predicate Registered(cmds: seq<GroupCommand>, u: UserID) { NewUserCommand(u) in cmds }

  /** The id that the next group gets: there is one for each creation by a user. */
  function NextId(cmds: seq<GroupCommand>): GroupID {
    if cmds == [] then FIRST_ID
    else
      var before, c := cmds[..|cmds| - 1], cmds[|cmds| - 1];
      NextId(before) + if c.CreateGroupCommand? && Registered(before, c.self) then 1 else 0
  }

  predicate JustFounded(cmds: seq<GroupCommand>, u: UserID, g: GroupID)
    requires cmds != []
  {
    var before := cmds[..|cmds| - 1];
    cmds[|cmds| - 1] == CreateGroupCommand(u) && Registered(before, u) && g == NextId(before)
  }

  /** Who has created g; None before that, and again once the founder has removed it. */
  function Founder(cmds: seq<GroupCommand>, g: GroupID): Option<UserID> {
    if cmds == [] then None
    else
      var before, c := cmds[..|cmds| - 1], cmds[|cmds| - 1];
      if c.CreateGroupCommand? && JustFounded(cmds, c.self, g) then Some(c.self)
      else if c.RemoveGroupCommand? && c.group == g && Founder(before, g) == Some(c.self) then None
      else Founder(before, g)
  }

  /** u has applied to g when it could, and the founder has not answered since. */
  predicate Waiting(cmds: seq<GroupCommand>, u: UserID, g: GroupID)
    decreases |cmds|, 0
  {
    cmds != [] &&
      var before, c := cmds[..|cmds| - 1], cmds[|cmds| - 1];
      if c == AddGroupCommand(u, g) then Waiting(before, u, g) || MayJoin(before, u, g)
      else if (c.AcceptGroupCommand? || c.RejectGroupCommand?) && c.group == g && c.user == u
              && Founder(before, g) == Some(c.self) then false
      else Waiting(before, u, g)
  }

  predicate MayJoin(cmds: seq<GroupCommand>, u: UserID, g: GroupID)
    decreases |cmds|, 2
  {
    Registered(cmds, u) && Founder(cmds, g).Some? && !Belongs(cmds, u, g) && !Waiting(cmds, u, g)
  }

  /** The last command makes u a member: it creates g, or the founder accepts u. */
  predicate JustEntered(cmds: seq<GroupCommand>, u: UserID, g: GroupID)
    requires cmds != []
    decreases |cmds|, 0
  {
    var before, c := cmds[..|cmds| - 1], cmds[|cmds| - 1];
    JustFounded(cmds, u, g)
    || (c.AcceptGroupCommand? && c.group == g && c.user == u && Founder(before, g) == Some(c.self)
        && Waiting(before, u, g))
  }

  /** ... and u has not left since, nor has the founder removed the group. */
  predicate Belongs(cmds: seq<GroupCommand>, u: UserID, g: GroupID)
    decreases |cmds|, 1
  {
    cmds != [] &&
      var before, c := cmds[..|cmds| - 1], cmds[|cmds| - 1];
      if JustEntered(cmds, u, g) then true
      else if c == LeaveGroupCommand(u, g) then false
      else if c.RemoveGroupCommand? && c.group == g && Founder(before, g) == Some(c.self) then false
      else Belongs(before, u, g)
  }

  /** u has entered g at some point. */
  predicate HasEntered(cmds: seq<GroupCommand>, u: UserID, g: GroupID)
    decreases |cmds|, 1
  {
    cmds != [] && (JustEntered(cmds, u, g) || HasEntered(cmds[..|cmds| - 1], u, g))
  }

  ghost predicate RoomIs(s: Groups, g: GroupID, founder: Option<UserID>) {
    match founder
    case None => g !in s.rooms
    case Some(u) => g in s.rooms && s.rooms[g].admin == u
  }

  lemma StepUsers(s: Groups, c: GroupCommand, u: UserID)
    requires Inv(s)
    ensures Do(s, c).state.HasUser(u) <==> s.HasUser(u) || c == NewUserCommand(u)
  {
    match c
    case AcceptGroupCommand(_, h, v) => if h in s.rooms && s.IsPending(v, h) { AcceptedClears(s, v, h); }
    case RejectGroupCommand(_, h, v) => if h in s.rooms && s.IsPending(v, h) { RemovalFindsMatches(s, v, h); }
    case _ =>
  }

  lemma StepNextId(s: Groups, c: GroupCommand)
    requires Inv(s)
    ensures Do(s, c).state.nextRoom == s.nextRoom + if c.CreateGroupCommand? && s.HasUser(c.self) then 1 else 0
  {
    match c
    case AcceptGroupCommand(_, h, v) => if h in s.rooms && s.IsPending(v, h) { AcceptedClears(s, v, h); }
    case RejectGroupCommand(_, h, v) => if h in s.rooms && s.IsPending(v, h) { RemovalFindsMatches(s, v, h); }
    case _ =>
  }

  lemma StepFounder(s: Groups, c: GroupCommand, g: GroupID, founder: Option<UserID>)
    requires Inv(s) && RoomIs(s, g, founder)
    ensures RoomIs(Do(s, c).state, g,
                   if c.CreateGroupCommand? && s.HasUser(c.self) && g == s.nextRoom then Some(c.self)
                   else if c.RemoveGroupCommand? && c.group == g && founder == Some(c.self) then None
                   else founder)
  {
    match c
    case AcceptGroupCommand(self, h, v) => AcceptRoom(s, self, h, v);
    case RejectGroupCommand(self, h, v) => RejectRoom(s, self, h, v);
    case AddGroupCommand(self, h) => AddRoom(s, self, h);
    case SendGroupMessageCommand(_, _, _, _) => MessageRoom(s, c, g);
    case _ => PlainFounder(s, c, g, founder);
  }

  lemma PlainFounder(s: Groups, c: GroupCommand, g: GroupID, founder: Option<UserID>)
    requires Plain(c) && RoomIs(s, g, founder) && (g in s.rooms ==> s.HasUser(s.rooms[g].admin) && g != s.nextRoom)
    ensures RoomIs(Do(s, c).state, g,
                   if c.CreateGroupCommand? && s.HasUser(c.self) && g == s.nextRoom then Some(c.self)
                   else if c.RemoveGroupCommand? && c.group == g && founder == Some(c.self) then None
                   else founder)
  {
  }

  lemma {:induction false} UsersAreHistory(cmds: seq<GroupCommand>, u: UserID)
    requires LegalRun(cmds)
    ensures Run(cmds).HasUser(u) <==> Registered(cmds, u)
  {
    if cmds != [] {
      var before, c := cmds[..|cmds| - 1], cmds[|cmds| - 1];
      UsersAreHistory(before, u);
      InvAlways(before);
      assert cmds == before + [c];
      StepUsers(Run(before), c, u);
    }
  }

  lemma {:induction false} FounderIsHistory(cmds: seq<GroupCommand>, g: GroupID)
    requires LegalRun(cmds)
    ensures Run(cmds).nextRoom == NextId(cmds)
    ensures RoomIs(Run(cmds), g, Founder(cmds, g))
  {
    if cmds != [] {
      var before, c := cmds[..|cmds| - 1], cmds[|cmds| - 1];
      FounderIsHistory(before, g);
      InvAlways(before);
      if c.CreateGroupCommand? {
        UsersAreHistory(before, c.self);
      }
      StepNextId(Run(before), c);
      StepFounder(Run(before), c, g, Founder(before, g));
    }
  }

  lemma AddGroupAnswer(s: Groups, u: UserID, g: GroupID)
    requires Inv(s)
    ensures AddGroup(s, u, g).1 == Success <==>
              s.HasUser(u) && g in s.rooms && !s.IsMember(u, g) && !s.IsPending(u, g)
  {
    if s.HasUser(u) {
      AddGroupKeeps(s, u, g);
    }
  }

  /** All tables, for every user and group, on every run. */
  lemma {:induction false} HistoryDecides(cmds: seq<GroupCommand>, u: UserID, g: GroupID)
    requires LegalRun(cmds)
    ensures RoomIs(Run(cmds), g, Founder(cmds, g))
    ensures Run(cmds).HasUser(u) <==> Registered(cmds, u)
    ensures Run(cmds).IsPending(u, g) <==> Waiting(cmds, u, g)
    ensures Run(cmds).IsMember(u, g) <==> Belongs(cmds, u, g)
    ensures g in Run(cmds).List(u) <==> HasEntered(cmds, u, g)
    decreases |cmds|
  {
    FounderIsHistory(cmds, g);
    UsersAreHistory(cmds, u);
    if cmds != [] {
      var before, c := cmds[..|cmds| - 1], cmds[|cmds| - 1];
      HistoryDecides(before, u, g);
      InvAlways(before);
      FounderIsHistory(before, g);
      AddGroupAnswer(Run(before), u, g);
      StepPending(Run(before), c, u, g);
      StepMember(Run(before), c, u, g);
      StepList(Run(before), c, u, g);
    }
  }

  /**
   * And so the commands decide all answers. An application succeeds if and only if the
   * group lives and the applicant neither belongs to it nor waits for an answer.
   */
  lemma AnswersAreHistory(cmds: seq<GroupCommand>, self: UserID, g: GroupID, u: UserID)
    requires LegalRun(cmds) && Registered(cmds, self)
    ensures var (s, leads) := (Run(cmds), Founder(cmds, g) == Some(self));
            && AddGroup(s, self, g).1 == Answered(MayJoin(cmds, self, g))
            && RejectGroup(s, self, g, u).1 == Answered(leads && Waiting(cmds, u, g))
            && AcceptGroup(s, self, g, u).1 == (if leads && !Belongs(cmds, u, g) && !Waiting(cmds, u, g) then Thrown
                                                else Answered(leads && Waiting(cmds, u, g)))
            && CreateGroup(s, self).1 == Success
            && RemoveGroup(s, self, g).1 == Answered(leads)
            && LeaveGroup(s, self, g).1 == Answered(Founder(cmds, g).Some? && !leads)
  {
    HistoryDecides(cmds, self, g);
    HistoryDecides(cmds, u, g);
    InvAlways(cmds);
    AddGroupKeeps(Run(cmds), self, g);
    RejectGroupKeeps(Run(cmds), self, g, u);
    AcceptGroupKeeps(Run(cmds), self, g, u);
  }

  function Answered(success: bool): Reply { if success then Success else Failure }

  // ------------------------------------------------------------------------
  // A room under commands is a room under its own events
  // ------------------------------------------------------------------------

  /** What command `c` means for live group `g`: at most one event. */
  function EventsOf(s: Groups, c: GroupCommand, g: GroupID): (evs: seq<RoomEvent>)
    ensures |evs| <= 1
  {
    match c
    case AcceptGroupCommand(self, h, u) => if h == g && AcceptGroup(s, self, h, u).1 == Success then [Join(u)] else []
    case LeaveGroupCommand(self, h) => if h == g && s.HasUser(self) then [Leave(self)] else []
    case SendGroupMessageCommand(self, h, text, now) =>
      if h == g && s.HasUser(self) && g in s.List(self) then [Send(self, text, now)] else []
    case CleanGroupLog(h, now) => if h == g then [CleanUp(now)] else []
    case _ => []
  }

  /** Everything that has happened in `g` since it was created. */
  function EventsIn(cmds: seq<GroupCommand>, g: GroupID): seq<RoomEvent> {
    if cmds == [] then []
    else
      var before := cmds[..|cmds| - 1];
      if g !in Run(before).rooms then [] else EventsIn(before, g) + EventsOf(Run(before), cmds[|cmds| - 1], g)
  }

  lemma StepRoom(s: Groups, c: GroupCommand, g: GroupID)
    requires Inv(s) && Legal(s, c) && g in Do(s, c).state.rooms
    ensures var (r, evs) := (Do(s, c).state.rooms[g], EventsOf(s, c, g));
            if g !in s.rooms then r == NewRoom(r.admin)
            else r.admin == s.rooms[g].admin && r == if evs == [] then s.rooms[g]
                else GroupRooms.Step(s.rooms[g], evs[0])
  {
    match c
    case AcceptGroupCommand(self, h, u) => AcceptRoom(s, self, h, u);
    case RejectGroupCommand(self, h, u) => RejectRoom(s, self, h, u);
    case AddGroupCommand(self, h) => AddRoom(s, self, h);
    case SendGroupMessageCommand(_, _, _, _) => MessageRoom(s, c, g);
    case _ => OtherRoom(s, c, g);
  }

  lemma OtherRoom(s: Groups, c: GroupCommand, g: GroupID)
    requires Plain(c) && s.nextRoom !in s.rooms && g in Do(s, c).state.rooms
    ensures var (r, evs) := (Do(s, c).state.rooms[g], EventsOf(s, c, g));
            if g !in s.rooms then r == NewRoom(r.admin)
            else r.admin == s.rooms[g].admin && r == if evs == [] then s.rooms[g]
                else GroupRooms.Step(s.rooms[g], evs[0])
  {
  }

  lemma AddRoom(s: Groups, self: UserID, g: GroupID)
    ensures AddGroup(s, self, g).0.rooms == s.rooms
  {
  }

  lemma MessageRoom(s: Groups, c: GroupCommand, g: GroupID)
    requires c.SendGroupMessageCommand?
    ensures Do(s, c).state.rooms.Keys == s.rooms.Keys
    ensures var evs := EventsOf(s, c, g);
            g in s.rooms ==> Do(s, c).state.rooms[g] == if evs == [] then s.rooms[g]
                else GroupRooms.Step(s.rooms[g], evs[0])
  {
  }

  lemma RejectRoom(s: Groups, self: UserID, g: GroupID, u: UserID)
    requires Inv(s)
    ensures RejectGroup(s, self, g, u).0.rooms == s.rooms
  {
    if g in s.rooms && s.IsPending(u, g) {
      RemovalFindsMatches(s, u, g);
    }
  }

  lemma AcceptRoom(s: Groups, self: UserID, g: GroupID, u: UserID)
    requires Inv(s)
    ensures var (s', reply) := AcceptGroup(s, self, g, u);
            if reply == Success then g in s.rooms && s'.rooms == s.rooms[g := AddMember(s.rooms[g], u)]
                else s'.rooms == s.rooms
  {
    if g in s.rooms && s.IsPending(u, g) {
      AcceptedRooms(s, u, g);
    }
  }

  lemma AcceptedRooms(s: Groups, u: UserID, g: GroupID)
    requires Inv(s) && g in s.rooms && s.IsPending(u, g)
    ensures Accept(s, u, g) == (Accept(s, u, g).0, NoFault)
    ensures Accept(s, u, g).0.rooms == s.rooms[g := AddMember(s.rooms[g], u)]
  {
    AcceptKeeps(s, u, g);
    AcceptedClears(s, u, g);
  }

  /** So what is proved of a room under any events holds of every group under any commands. */
  lemma {:induction false} RoomIsRun(cmds: seq<GroupCommand>, g: GroupID)
    requires LegalRun(cmds) && g in Run(cmds).rooms
    ensures Run(cmds).rooms[g] == GroupRooms.Run(NewRoom(Run(cmds).rooms[g].admin), EventsIn(cmds, g))
  {
    var before, c := cmds[..|cmds| - 1], cmds[|cmds| - 1];
    var s, evs := Run(before), EventsOf(Run(before), c, g);
    InvAlways(before);
    StepRoom(s, c, g);
    if g in s.rooms {
      RoomIsRun(before, g);
      var all := EventsIn(cmds, g);
      if evs == [] {
        assert all == EventsIn(before, g);
      } else {
        assert all[..|all| - 1] == EventsIn(before, g);
      }
    }
  }

  function CommandTime(c: GroupCommand, clock: Time): Time {
    if c.SendGroupMessageCommand? || c.CleanGroupLog? then c.now else clock
  }

  function CommandClock(start: Time, cmds: seq<GroupCommand>): Time {
    if cmds == [] then start else CommandTime(cmds[|cmds| - 1], CommandClock(start, cmds[..|cmds| - 1]))
  }

  predicate TimedRun(start: Time, cmds: seq<GroupCommand>) {
    cmds != [] ==>
      var before, c := cmds[..|cmds| - 1], cmds[|cmds| - 1];
      TimedRun(start, before) && CommandClock(start, before) <= CommandTime(c, CommandClock(start, before))
  }

  lemma {:induction false} EventsTimed(start: Time, cmds: seq<GroupCommand>, g: GroupID)
    requires TimedRun(start, cmds)
    ensures Timed(start, EventsIn(cmds, g))
    ensures start <= CommandClock(start, cmds) && Clock(start, EventsIn(cmds, g)) <= CommandClock(start, cmds)
  {
    if cmds != [] {
      var before, c := cmds[..|cmds| - 1], cmds[|cmds| - 1];
      EventsTimed(start, before, g);
      var all, evs := EventsIn(cmds, g), EventsOf(Run(before), c, g);
      if g in Run(before).rooms && evs != [] {
        assert all[..|all| - 1] == EventsIn(before, g);
      } else if g in Run(before).rooms {
        assert all == EventsIn(before, g);
      }
    }
  }

  /**
   * On every command run over a clock that does not go backwards, looking up the
   * messages of a live group gives what its members sent to it, in that order, less
   * what has expired.
   */
  lemma GroupLookUpIsHistory(start: Time, cmds: seq<GroupCommand>, g: GroupID, from: Time, to: Time,
                             messages: Posts, r: Room, evs: seq<RoomEvent>)
    requires LegalRun(cmds) && TimedRun(start, cmds)
    requires g in Run(cmds).rooms && r == Run(cmds).rooms[g] && evs == EventsIn(cmds, g)
    requires IsListing(messages, r.log, from, to)
    ensures messages == Select(Accepted(NewRoom(r.admin), start, evs), Later(from, Cutoff(start, evs) + 1), to)
  {
    RoomIsRun(cmds, g);
    EventsTimed(start, cmds, g);
    LookUpIsHistory(NewRoom(r.admin), start, evs, from, to, messages);
  }
}
