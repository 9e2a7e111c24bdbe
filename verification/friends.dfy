// Friendship: applications, friend lists and private rooms as the commands change
// them (server/user/user.cpp, server/manager/verificationManager.cpp,
// server/manager/manager.cpp, server/jsonMessageProcess/JsonMsgProcessCommand.cpp).

module Friendship {
  import opened Ids
  import opened Errors
  import opened Histories

  datatype PrivateRoom = PrivateRoom(user1: UserID, user2: UserID, recipients: set<UserID>)
  {
    function Pair(): (UserID, UserID) { Key(user1, user2) }
  }

  /** The key of the pair index, which takes no notice of the order of the two ids. */
  function Key(u: UserID, v: UserID): (UserID, UserID) {
    if u <= v then (u, v) else (v, u)
  }

  /** Equality of keys is the `operator==` of the index. */
  lemma KeyEquality(a: UserID, b: UserID, c: UserID, d: UserID)
    ensures Key(a, b) == Key(c, d) <==> (a == c && b == d) || (b == c && a == d)
  {
  }

  datatype Friends = Friends(
    lists: map<UserID, set<UserID>>,
    entries: map<UserID, map<UserID, VerificationType>>,
    pending: map<(UserID, UserID), bool>,
    rooms: map<GroupID, PrivateRoom>,
    pairIndex: map<(UserID, UserID), GroupID>,
    nextRoom: GroupID)
  {
    predicate HasUser(u: UserID) { u in lists }

    function List(u: UserID): set<UserID> { if u in lists then lists[u] else {} }

    function Entries(u: UserID): map<UserID, VerificationType> { if u in entries then entries[u] else map[] }

    predicate IsFriend(u: UserID, v: UserID) { v in List(u) }

    function Entry(u: UserID, v: UserID): (e: Option<VerificationType>)
      ensures e == None || e == Some(Sent) || e == Some(Received)
    {
      if v !in Entries(u) then None
      else match Entries(u)[v]
           case Sent => Some(Sent)
           case Received => Some(Received)
    }

    predicate HasRoom(u: UserID, v: UserID) { Key(u, v) in pairIndex }

    function PendingCount(u: UserID, v: UserID): nat {
      (if (u, v) in pending then 1 else 0) + (if (v, u) in pending then 1 else 0)
    }

    /** The private rooms ever created for the pair: no command removes one. */
    function RoomsOf(u: UserID, v: UserID): set<GroupID> {
      set id | id in rooms && rooms[id].Pair() == Key(u, v)
    }
  }

  const EMPTY := Friends(map[], map[], map[], map[], map[], FIRST_ID)

  // ------------------------------------------------------------------------
  // Operations
  // ------------------------------------------------------------------------

  function NewUser(f: Friends, u: UserID): Friends {
    f.(lists := f.lists[u := {}], entries := f.entries[u := map[]])
  }

  function AddEntry(f: Friends, u: UserID, v: UserID, kind: VerificationType): Friends {
    f.(entries := f.entries[u := Emplace(f.Entries(u), v, kind)])
  }

  function RemoveEntry(f: Friends, u: UserID, v: UserID): Friends {
    f.(entries := f.entries[u := f.Entries(u) - {v}])
  }

  function Apply(f: Friends, sender: UserID, receiver: UserID): Result<Friends> {
    if sender == receiver then Err(InvalidVerification)
    else if !f.HasUser(sender) then Err(UserNotExisted)
    else if !f.HasUser(receiver) then Err(UserNotExisted)
    else if f.HasRoom(sender, receiver) then Err(PrivateRoomExisted)
    else if (sender, receiver) in f.pending then Err(VerificationExisted)
    else Ok(Enter(f, sender, receiver))
  }

  function Enter(f: Friends, sender: UserID, receiver: UserID): Friends {
    var f1 := f.(pending := f.pending[(sender, receiver) := false]);
    AddEntry(AddEntry(f1, sender, receiver, Sent), receiver, sender, Received)
  }

  function RemoveVerification(f: Friends, sender: UserID, receiver: UserID): Friends {
    if (sender, receiver) !in f.pending then f
    else
      var f1 := f.(pending := f.pending - {(sender, receiver)});
      RemoveEntry(RemoveEntry(f1, sender, receiver), receiver, sender)
  }

  function AddPrivateRoom(f: Friends, user1: UserID, user2: UserID): Friends {
    f.(rooms := f.rooms[f.nextRoom := PrivateRoom(user1, user2, {user1, user2})],
       pairIndex := f.pairIndex[Key(user1, user2) := f.nextRoom],
       nextRoom := f.nextRoom + 1)
  }

  function Befriend(f: Friends, u: UserID, v: UserID): Friends {
    f.(lists := f.lists[u := f.List(u) + {v}])
  }

  function Unfriend(f: Friends, u: UserID, v: UserID): Friends {
    f.(lists := f.lists[u := f.List(u) - {v}])
  }

  function AcceptVerification(f: Friends, sender: UserID, receiver: UserID): Result<Friends> {
    if sender == receiver then Err(InvalidVerification)
    else if (sender, receiver) !in f.pending then Err(VerificationNotExisted)
    else
      var f1 := AddPrivateRoom(f.(pending := f.pending[(sender, receiver) := true]), sender, receiver);
      Ok(RemoveVerification(Befriend(Befriend(f1, sender, receiver), receiver, sender), sender, receiver))
  }

  // Called for users who do not exist, these three stop half way.

  function TryRemoveVerification(f: Friends, sender: UserID, receiver: UserID): (r: (Friends, Option<Errc>))
    ensures sender != receiver && f.HasUser(sender) && f.HasUser(receiver)
            ==> r == (RemoveVerification(f, sender, receiver), None)
  {
    if sender == receiver then (f, Some(InvalidVerification))
    else if (sender, receiver) !in f.pending then (f, None)
    else
      var f1 := f.(pending := f.pending - {(sender, receiver)});
      if !f.HasUser(sender) then (f1, Some(UserNotExisted))
      else
        var f2 := RemoveEntry(f1, sender, receiver);
        if !f.HasUser(receiver) then (f2, Some(UserNotExisted)) else (RemoveEntry(f2, receiver, sender), None)
  }

  /** The id is used up even if there is to be no room. */
  function TryAddPrivateRoom(f: Friends, user1: UserID, user2: UserID): (Friends, Option<Errc>) {
    if f.HasUser(user1) && f.HasUser(user2) then (AddPrivateRoom(f, user1, user2), None)
    else (f.(nextRoom := f.nextRoom + 1), Some(UserNotExisted))
  }

  function TryAcceptVerification(f: Friends, sender: UserID, receiver: UserID): (r: (Friends, Option<Errc>))
    ensures f.HasUser(sender) && f.HasUser(receiver) ==>
              r == match AcceptVerification(f, sender, receiver)
                   case Ok(f') => (f', None)
                   case Err(e) => (f, Some(e))
  {
    if sender == receiver then (f, Some(InvalidVerification))
    else if (sender, receiver) !in f.pending then (f, Some(VerificationNotExisted))
    else
      var (f1, error) := TryAddPrivateRoom(f.(pending := f.pending[(sender, receiver) := true]), sender, receiver);
      if error.Some? then (f1, error)
      else TryRemoveVerification(Befriend(Befriend(f1, sender, receiver), receiver, sender), sender, receiver)
  }

  // ------------------------------------------------------------------------
  // Commands
  // ------------------------------------------------------------------------

  function AddFriend(f: Friends, self: UserID, u: UserID): (Friends, Reply) {
    if !f.HasUser(u) then (f, Failure)
    else if !f.HasUser(self) then (f, Thrown)
    else if self == u || f.HasRoom(self, u) || (self, u) in f.pending then (f, Failure)
    else
      var applied := Apply(f, self, u);
      if applied.Ok? then (applied.value, Success) else (f, Thrown)
  }

  /** A success message even if there was nothing to accept. */
  function AcceptFriend(f: Friends, self: UserID, u: UserID): (Friends, Reply) {
    if !f.HasUser(u) then (f, Failure)
    else if !f.HasUser(self) then (f, Thrown)
    else if self == u || (u, self) !in f.pending then (f, Success)
    else
      var accepted := AcceptVerification(f, u, self);
      if accepted.Ok? then (accepted.value, Success) else (f, Thrown)
  }

  function RejectFriend(f: Friends, self: UserID, u: UserID): (Friends, Reply) {
    if !f.HasUser(u) then (f, Failure)
    else if !f.HasUser(self) then (f, Thrown)
    else if self == u || (u, self) !in f.pending then (f, Failure)
    else (RemoveVerification(f, u, self), Success)
  }

  /** As written: the second erase looks for the friend in the friend's own list. */
  function RemoveFriend(f: Friends, self: UserID, u: UserID): (Friends, Reply) {
    if !f.HasUser(u) then (f, Failure)
    else if !f.HasUser(self) then (f, Thrown)
    else if self == u || !f.IsFriend(self, u) then (f, Failure)
    else (Unfriend(Unfriend(f, self, u), u, u), Success)
  }

  /** Who the message is delivered to, and the answer. */
  function SendFriendMessage(f: Friends, self: UserID, u: UserID): (set<UserID>, Reply) {
    if !f.HasUser(u) then ({}, Failure)
    else if !f.HasUser(self) then ({}, Thrown)
    else if !f.IsFriend(self, u) then ({}, Failure)
    else if !f.HasRoom(self, u) then ({}, Thrown)
    else if f.pairIndex[Key(self, u)] !in f.rooms then ({}, Thrown)
    else
      var room := f.rooms[f.pairIndex[Key(self, u)]];
      (if self in room.recipients then room.recipients else {}, Success)
  }

  datatype FriendCommand =
    | NewUserCommand(user: UserID)
    | AddFriendCommand(self: UserID, user: UserID)
    | AcceptFriendCommand(self: UserID, user: UserID)
    | RejectFriendCommand(self: UserID, user: UserID)
    | RemoveFriendCommand(self: UserID, user: UserID)

  function Step(f: Friends, c: FriendCommand): Friends {
    match c
    case NewUserCommand(u) => NewUser(f, u)
    case AddFriendCommand(self, u) => AddFriend(f, self, u).0
    case AcceptFriendCommand(self, u) => AcceptFriend(f, self, u).0
    case RejectFriendCommand(self, u) => RejectFriend(f, self, u).0
    case RemoveFriendCommand(self, u) => RemoveFriend(f, self, u).0
  }

  // ------------------------------------------------------------------------
  // What every command keeps
  // ------------------------------------------------------------------------

  ghost predicate PendingInv(f: Friends) {
    forall p <- f.pending :: p.0 != p.1 && f.HasUser(p.0) && f.HasUser(p.1) && !f.pending[p]
  }

  /** Rooms and index: every room is live, has its two members as recipients, and is fresh. */
  ghost predicate RoomInv(f: Friends) {
    && (forall id <- f.rooms ::
          var r := f.rooms[id];
          && id < f.nextRoom && r.user1 != r.user2 && f.HasUser(r.user1) && f.HasUser(r.user2)
          && r.recipients == {r.user1, r.user2} && r.Pair() in f.pairIndex)
    && (forall k <- f.pairIndex :: f.pairIndex[k] in f.rooms && f.rooms[f.pairIndex[k]].Pair() == k)
  }

  ghost predicate ListInv(f: Friends) {
    && f.entries.Keys == f.lists.Keys
    && forall u, v :: f.IsFriend(u, v) ==> u != v && f.HasUser(u) && f.HasUser(v) && f.HasRoom(u, v)
  }

  /** A Sent entry faces a Received entry, and stands for a pending application. */
  ghost predicate EntryInv(f: Friends) {
    forall u, v ::
      && (f.Entry(u, v) == Some(Sent) <==> f.Entry(v, u) == Some(Received))
      && (f.Entry(u, v) == Some(Sent) ==> (u, v) in f.pending)
  }

  /** Rooms ever created for a pair and applications still pending make two at most. */
  ghost predicate CountInv(f: Friends, most: nat) {
    forall u, v :: |f.RoomsOf(u, v)| + f.PendingCount(u, v) <= most
  }

  ghost predicate Inv(f: Friends) {
    PendingInv(f) && RoomInv(f) && ListInv(f) && EntryInv(f) && CountInv(f, 2)
  }

  /** On runs without crossed applications: one at most, and entries say all that is pending. */
  ghost predicate Uncrossed(f: Friends) {
    && CountInv(f, 1)
    && forall u, v :: (u, v) in f.pending ==> f.Entry(u, v) == Some(Sent)
  }

  lemma RoomsOfIndexed(f: Friends, u: UserID, v: UserID)
    requires RoomInv(f)
    ensures f.RoomsOf(u, v) == {} <==> !f.HasRoom(u, v)
  {
    if f.HasRoom(u, v) {
      assert f.pairIndex[Key(u, v)] in f.RoomsOf(u, v);
    } else {
      forall id | id in f.rooms
        ensures id !in f.RoomsOf(u, v)
      {
        assert f.rooms[id].Pair() in f.pairIndex;
      }
    }
  }

  lemma SameLists(f: Friends, f': Friends)
    requires ListInv(f) && f'.lists == f.lists && f'.entries.Keys == f.entries.Keys
            && f.pairIndex.Keys <= f'.pairIndex.Keys
    ensures ListInv(f')
  {
    assert forall u, v :: f'.IsFriend(u, v) == f.IsFriend(u, v);
    assert forall u, v :: f.HasRoom(u, v) ==> f'.HasRoom(u, v);
  }

  // ---- an application

  lemma AddedEntry(f: Friends, s: UserID, r: UserID, kind: VerificationType, u: UserID, v: UserID)
    ensures AddEntry(f, s, r, kind).Entry(u, v)
            == if (u, v) == (s, r) && f.Entry(s, r) == None then Some(kind) else f.Entry(u, v)
  {
  }

  lemma ApplyEntry(f: Friends, s: UserID, r: UserID, u: UserID, v: UserID)
    requires EntryInv(f) && Apply(f, s, r).Ok?
    ensures Apply(f, s, r).value.Entry(u, v) ==
              if (u, v) == (s, r) && f.Entry(s, r) == None then Some(Sent)
              else if (u, v) == (r, s) && f.Entry(s, r) == None then Some(Received)
              else f.Entry(u, v)
  {
    EntriesFace(f, s, r);
    var f1 := f.(pending := f.pending[(s, r) := false]);
    AddedEntry(f1, s, r, Sent, u, v);
    AddedEntry(f1, s, r, Sent, r, s);
    AddedEntry(AddEntry(f1, s, r, Sent), r, s, Received, u, v);
  }

  lemma ApplyEntries(f: Friends, s: UserID, r: UserID)
    requires EntryInv(f) && Apply(f, s, r).Ok?
    ensures var f' := Apply(f, s, r).value;
            forall u, v :: f'.Entry(u, v) ==
              if (u, v) == (s, r) && f.Entry(s, r) == None then Some(Sent)
              else if (u, v) == (r, s) && f.Entry(s, r) == None then Some(Received)
              else f.Entry(u, v)
    ensures EntryInv(Apply(f, s, r).value)
  {
    var f' := Apply(f, s, r).value;
    forall u, v
      ensures f'.Entry(u, v) ==
                if (u, v) == (s, r) && f.Entry(s, r) == None then Some(Sent)
                else if (u, v) == (r, s) && f.Entry(s, r) == None then Some(Received)
                else f.Entry(u, v)
    {
      ApplyEntry(f, s, r, u, v);
    }
    EntriesFace(f, s, r);
  }

  lemma EntriesFace(f: Friends, s: UserID, r: UserID)
    requires EntryInv(f)
    ensures f.Entry(s, r) == None <==> f.Entry(r, s) == None
  {
    assert f.Entry(s, r) == Some(Sent) <==> f.Entry(r, s) == Some(Received);
    assert f.Entry(r, s) == Some(Sent) <==> f.Entry(s, r) == Some(Received);
  }

  lemma ApplyCounts(f: Friends, s: UserID, r: UserID)
    requires RoomInv(f) && Apply(f, s, r).Ok?
    ensures CountInv(f, 2) ==> CountInv(Apply(f, s, r).value, 2)
    ensures CountInv(f, 1) && (r, s) !in f.pending ==> CountInv(Apply(f, s, r).value, 1)
  {
    var f' := Apply(f, s, r).value;
    RoomsOfIndexed(f, s, r);
    forall u, v
      ensures f'.RoomsOf(u, v) == f.RoomsOf(u, v)
      ensures Key(u, v) != Key(s, r) ==> f'.PendingCount(u, v) == f.PendingCount(u, v)
      ensures Key(u, v) == Key(s, r) ==>
                f.RoomsOf(u, v) == {} && f'.PendingCount(u, v) == if (r, s) in f.pending then 2 else 1
    {
    }
  }

  lemma ApplyKeeps(f: Friends, s: UserID, r: UserID)
    requires Inv(f) && Apply(f, s, r).Ok?
    ensures Inv(Apply(f, s, r).value)
  {
    ApplyEntries(f, s, r);
    ApplyCounts(f, s, r);
    SameLists(f, Apply(f, s, r).value);
  }

  lemma ApplyUncrossed(f: Friends, s: UserID, r: UserID)
    requires Inv(f) && Uncrossed(f) && Apply(f, s, r).Ok? && (r, s) !in f.pending
    ensures Uncrossed(Apply(f, s, r).value)
  {
    ApplyEntries(f, s, r);
    ApplyCounts(f, s, r);
    assert f.Entry(s, r) != Some(Sent) && f.Entry(r, s) != Some(Sent);
  }

  // ---- a rejection, or the end of an acceptance

  lemma RemovedEntry(f: Friends, s: UserID, r: UserID, u: UserID, v: UserID)
    requires (s, r) in f.pending
    ensures RemoveVerification(f, s, r).Entry(u, v)
            == if (u, v) == (s, r) || (u, v) == (r, s) then None else f.Entry(u, v)
  {
    var f1 := RemoveEntry(f.(pending := f.pending - {(s, r)}), s, r);
    assert f1.Entry(u, v) == if (u, v) == (s, r) then None else f.Entry(u, v);
  }

  lemma RemovedEntries(f: Friends, s: UserID, r: UserID)
    requires EntryInv(f) && (s, r) in f.pending
    ensures var f' := RemoveVerification(f, s, r);
            forall u, v :: f'.Entry(u, v) == if (u, v) == (s, r) || (u, v) == (r, s) then None else f.Entry(u, v)
    ensures EntryInv(RemoveVerification(f, s, r))
  {
    var f' := RemoveVerification(f, s, r);
    forall u, v
      ensures f'.Entry(u, v) == if (u, v) == (s, r) || (u, v) == (r, s) then None else f.Entry(u, v)
    {
      RemovedEntry(f, s, r, u, v);
    }
  }

  lemma RemovedCounts(f: Friends, s: UserID, r: UserID)
    requires (s, r) in f.pending && s != r
    ensures var f' := RemoveVerification(f, s, r);
            forall u, v :: f'.RoomsOf(u, v) == f.RoomsOf(u, v)
              && f'.PendingCount(u, v) == if Key(u, v) == Key(s, r) then f.PendingCount(u, v) - 1
                  else f.PendingCount(u, v)
  {
    var f' := RemoveVerification(f, s, r);
    forall u, v
      ensures f'.RoomsOf(u, v) == f.RoomsOf(u, v)
      ensures f'.PendingCount(u, v) == if Key(u, v) == Key(s, r) then f.PendingCount(u, v) - 1 else f.PendingCount(u, v)
    {
    }
  }

  lemma NotCrossed(f: Friends, s: UserID, r: UserID)
    requires CountInv(f, 1) && (s, r) in f.pending && s != r
    ensures (r, s) !in f.pending
  {
    assert f.PendingCount(s, r) <= 1;
  }

  lemma RejectCounts(f: Friends, s: UserID, r: UserID, most: nat)
    requires (s, r) in f.pending && s != r && CountInv(f, most)
    ensures CountInv(RemoveVerification(f, s, r), most)
  {
    RemovedCounts(f, s, r);
  }

  lemma RejectKeeps(f: Friends, s: UserID, r: UserID)
    requires Inv(f) && (s, r) in f.pending
    ensures Inv(RemoveVerification(f, s, r))
  {
    RemovedEntries(f, s, r);
    RejectCounts(f, s, r, 2);
    SameLists(f, RemoveVerification(f, s, r));
  }

  lemma RejectUncrossed(f: Friends, s: UserID, r: UserID)
    requires Inv(f) && Uncrossed(f) && (s, r) in f.pending
    ensures Uncrossed(RemoveVerification(f, s, r))
  {
    RemovedEntries(f, s, r);
    NotCrossed(f, s, r);
    RejectCounts(f, s, r, 1);
  }

  // ---- an acceptance

  /** A new room and two list entries, before the application is taken off the tables. */
  function Joined(f: Friends, s: UserID, r: UserID): Friends {
    Befriend(Befriend(AddPrivateRoom(f.(pending := f.pending[(s, r) := true]), s, r), s, r), r, s)
  }

  lemma JoinedCounts(f: Friends, s: UserID, r: UserID)
    requires RoomInv(f) && (s, r) in f.pending
    ensures forall u, v ::
              |Joined(f, s, r).RoomsOf(u, v)| == |f.RoomsOf(u, v)| + (if Key(u, v) == Key(s, r) then 1 else 0)
    ensures forall u, v :: Joined(f, s, r).PendingCount(u, v) == f.PendingCount(u, v)
  {
    forall u, v
      ensures |Joined(f, s, r).RoomsOf(u, v)| == |f.RoomsOf(u, v)| + (if Key(u, v) == Key(s, r) then 1 else 0)
    {
      JoinedRoomsOf(f, s, r, u, v);
    }
  }

  lemma JoinedRoomsOf(f: Friends, s: UserID, r: UserID, u: UserID, v: UserID)
    requires f.nextRoom !in f.rooms
    ensures |Joined(f, s, r).RoomsOf(u, v)| == |f.RoomsOf(u, v)| + (if Key(u, v) == Key(s, r) then 1 else 0)
  {
    var f' := Joined(f, s, r);
    assert f'.rooms == f.rooms[f.nextRoom := PrivateRoom(s, r, {s, r})];
    if Key(u, v) == Key(s, r) {
      assert f'.RoomsOf(u, v) == f.RoomsOf(u, v) + {f.nextRoom};
    } else {
      assert f'.RoomsOf(u, v) == f.RoomsOf(u, v);
    }
  }

  lemma JoinedRooms(f: Friends, s: UserID, r: UserID)
    requires RoomInv(f) && s != r && f.HasUser(s) && f.HasUser(r)
    ensures RoomInv(Joined(f, s, r))
  {
  }

  lemma JoinedLists(f: Friends, s: UserID, r: UserID)
    requires ListInv(f) && s != r && f.HasUser(s) && f.HasUser(r)
    ensures ListInv(Joined(f, s, r))
  {
    var f' := Joined(f, s, r);
    assert forall u, v :: f'.IsFriend(u, v) <==> f.IsFriend(u, v) || (u, v) == (s, r) || (u, v) == (r, s);
    assert forall u, v :: f.HasRoom(u, v) ==> f'.HasRoom(u, v);
    assert f'.HasRoom(s, r) && f'.HasRoom(r, s);
  }

  lemma JoinedEntries(f: Friends, s: UserID, r: UserID)
    requires EntryInv(f) && (s, r) in f.pending
    ensures EntryInv(Joined(f, s, r))
    ensures forall u, v :: Joined(f, s, r).Entry(u, v) == f.Entry(u, v)
  {
    assert forall u, v :: Joined(f, s, r).Entry(u, v) == f.Entry(u, v);
  }

  lemma AcceptedTables(f: Friends, s: UserID, r: UserID)
    requires Inv(f) && AcceptVerification(f, s, r).Ok?
    ensures var f' := AcceptVerification(f, s, r).value;
            f' == RemoveVerification(Joined(f, s, r), s, r) && PendingInv(f') && RoomInv(f') && ListInv(f')
  {
    JoinedRooms(f, s, r);
    JoinedLists(f, s, r);
    SameLists(Joined(f, s, r), AcceptVerification(f, s, r).value);
  }

  lemma AcceptKeeps(f: Friends, s: UserID, r: UserID)
    requires Inv(f) && AcceptVerification(f, s, r).Ok?
    ensures Inv(AcceptVerification(f, s, r).value)
    ensures Uncrossed(f) ==> Uncrossed(AcceptVerification(f, s, r).value)
  {
    AcceptedTables(f, s, r);
    JoinedEntries(f, s, r);
    RemovedEntries(Joined(f, s, r), s, r);
    AcceptCounts(f, s, r, 2);
    if Uncrossed(f) {
      NotCrossed(f, s, r);
      AcceptCounts(f, s, r, 1);
    }
  }

  lemma AcceptCounts(f: Friends, s: UserID, r: UserID, most: nat)
    requires RoomInv(f) && (s, r) in f.pending && s != r && CountInv(f, most)
    ensures CountInv(RemoveVerification(Joined(f, s, r), s, r), most)
  {
    JoinedCounts(f, s, r);
    RemovedCounts(Joined(f, s, r), s, r);
  }

  // ---- all commands

  lemma SameRooms(f: Friends, f': Friends)
    requires f'.rooms == f.rooms && f'.pairIndex == f.pairIndex && f'.pending == f.pending && f'.nextRoom == f.nextRoom
    requires f.lists.Keys <= f'.lists.Keys
    ensures PendingInv(f) ==> PendingInv(f')
    ensures RoomInv(f) ==> RoomInv(f')
    ensures forall most :: CountInv(f, most) ==> CountInv(f', most)
  {
    assert forall u, v :: f'.RoomsOf(u, v) == f.RoomsOf(u, v) && f'.PendingCount(u, v) == f.PendingCount(u, v);
  }

  lemma SameEntries(f: Friends, f': Friends)
    requires f'.rooms == f.rooms && f'.pairIndex == f.pairIndex && f'.pending == f.pending && f'.nextRoom == f.nextRoom
    requires forall u, v :: f'.Entry(u, v) == f.Entry(u, v)
    ensures EntryInv(f) ==> EntryInv(f')
    ensures Uncrossed(f) && CountInv(f', 1) ==> Uncrossed(f')
  {
  }

  lemma FewerFriends(f: Friends, f': Friends)
    requires ListInv(f) && f'.pairIndex == f.pairIndex
    requires f'.entries.Keys == f'.lists.Keys && f.lists.Keys <= f'.lists.Keys
    requires forall u, v :: f'.IsFriend(u, v) ==> f.IsFriend(u, v)
    ensures ListInv(f')
  {
    assert forall u, v :: f'.HasRoom(u, v) == f.HasRoom(u, v);
  }

  lemma NewUserViews(f: Friends, u: UserID)
    requires u !in f.lists && u !in f.entries
    ensures forall a, b :: NewUser(f, u).Entry(a, b) == f.Entry(a, b)
    ensures forall a, b :: NewUser(f, u).IsFriend(a, b) == f.IsFriend(a, b)
  {
    forall a
      ensures NewUser(f, u).Entries(a) == f.Entries(a) && NewUser(f, u).List(a) == f.List(a)
    {
    }
  }

  lemma NewUserKeeps(f: Friends, u: UserID)
    requires Inv(f) && !f.HasUser(u)
    ensures Inv(NewUser(f, u))
    ensures Uncrossed(f) ==> Uncrossed(NewUser(f, u))
  {
    var f' := NewUser(f, u);
    assert u !in f.entries;
    SameRooms(f, f');
    NewUserViews(f, u);
    SameEntries(f, f');
    FewerFriends(f, f');
  }

  lemma UnfriendKeeps(f: Friends, u: UserID, v: UserID)
    requires Inv(f) && f.HasUser(u)
    ensures Inv(Unfriend(f, u, v))
    ensures Uncrossed(f) ==> Uncrossed(Unfriend(f, u, v))
  {
    var f' := Unfriend(f, u, v);
    SameRooms(f, f');
    assert forall a, b :: f'.Entry(a, b) == f.Entry(a, b);
    SameEntries(f, f');
    assert forall a, b :: f'.IsFriend(a, b) ==> f.IsFriend(a, b);
    FewerFriends(f, f');
  }

  lemma AddKeeps(f: Friends, self: UserID, u: UserID)
    requires Inv(f)
    ensures Inv(AddFriend(f, self, u).0)
    ensures Uncrossed(f) && (u, self) !in f.pending ==> Uncrossed(AddFriend(f, self, u).0)
  {
    if Apply(f, self, u).Ok? {
      ApplyKeeps(f, self, u);
      if Uncrossed(f) && (u, self) !in f.pending {
        ApplyUncrossed(f, self, u);
      }
    }
  }

  lemma AnswerKeeps(f: Friends, self: UserID, u: UserID)
    requires Inv(f)
    ensures Inv(RejectFriend(f, self, u).0)
    ensures Uncrossed(f) ==> Uncrossed(RejectFriend(f, self, u).0)
  {
    if (u, self) in f.pending {
      RejectKeeps(f, u, self);
      if Uncrossed(f) {
        RejectUncrossed(f, u, self);
      }
    }
  }

  lemma RemovalKeeps(f: Friends, self: UserID, u: UserID)
    requires Inv(f)
    ensures Inv(RemoveFriend(f, self, u).0)
    ensures Uncrossed(f) ==> Uncrossed(RemoveFriend(f, self, u).0)
  {
    if f.HasUser(self) && f.HasUser(u) {
      UnfriendKeeps(f, self, u);
      UnfriendKeeps(Unfriend(f, self, u), u, u);
    }
  }

  /** Every command keeps the invariant; an application keeps runs uncrossed unless it crosses one. */
  lemma StepKeeps(f: Friends, c: FriendCommand)
    requires Inv(f) && (c.NewUserCommand? ==> !f.HasUser(c.user))
    ensures Inv(Step(f, c))
    ensures Uncrossed(f) && !(c.AddFriendCommand? && (c.user, c.self) in f.pending) ==> Uncrossed(Step(f, c))
  {
    match c
    case NewUserCommand(u) => NewUserKeeps(f, u);
    case AddFriendCommand(self, u) => AddKeeps(f, self, u);
    case AcceptFriendCommand(self, u) =>
      if AcceptVerification(f, u, self).Ok? {
        AcceptKeeps(f, u, self);
      }
    case RejectFriendCommand(self, u) => AnswerKeeps(f, self, u);
    case RemoveFriendCommand(self, u) => RemovalKeeps(f, self, u);
  }

  // ------------------------------------------------------------------------
  // Runs
  // ------------------------------------------------------------------------

  function RunFrom(f: Friends, cmds: seq<FriendCommand>): Friends {
    if cmds == [] then f else Step(RunFrom(f, cmds[..|cmds| - 1]), cmds[|cmds| - 1])
  }

  function Run(cmds: seq<FriendCommand>): Friends { RunFrom(EMPTY, cmds) }

  /** Every registration gets an id that no user has yet. */
  ghost predicate FreshIds(f: Friends, cmds: seq<FriendCommand>) {
    cmds != [] ==>
      var before, c := cmds[..|cmds| - 1], cmds[|cmds| - 1];
      FreshIds(f, before) && (c.NewUserCommand? ==> !RunFrom(f, before).HasUser(c.user))
  }

  /** No one applies to a user whose own application to them is pending. */
  ghost predicate NeverCrosses(cmds: seq<FriendCommand>) {
    cmds != [] ==>
      var before, c := cmds[..|cmds| - 1], cmds[|cmds| - 1];
      NeverCrosses(before) && !(c.AddFriendCommand? && (c.user, c.self) in Run(before).pending)
  }

  lemma {:induction false} InvFrom(f: Friends, cmds: seq<FriendCommand>)
    requires Inv(f) && FreshIds(f, cmds)
    ensures Inv(RunFrom(f, cmds))
  {
    if cmds != [] {
      InvFrom(f, cmds[..|cmds| - 1]);
      StepKeeps(RunFrom(f, cmds[..|cmds| - 1]), cmds[|cmds| - 1]);
    }
  }

  /**
   * In every reachable state: rooms ever created plus applications pending in either
   * direction make two at most for each pair of users, new rooms never replace a live
   * one, and the users' own tables agree with each other and with the central one.
   */
  lemma InvAlways(cmds: seq<FriendCommand>)
    requires FreshIds(EMPTY, cmds)
    ensures Inv(Run(cmds))
  {
    assert forall u, v :: EMPTY.RoomsOf(u, v) == {};
    InvFrom(EMPTY, cmds);
  }

  /** One at most, and pending exactly where a Sent entry says so, if no applications cross. */
  lemma {:induction false} UncrossedAlways(cmds: seq<FriendCommand>)
    requires FreshIds(EMPTY, cmds) && NeverCrosses(cmds)
    ensures CountInv(Run(cmds), 1)
    ensures forall u, v :: (u, v) in Run(cmds).pending <==> Run(cmds).Entry(u, v) == Some(Sent)
  {
    InvAlways(cmds);
    UncrossedRun(cmds);
  }

  lemma {:induction false} UncrossedRun(cmds: seq<FriendCommand>)
    requires FreshIds(EMPTY, cmds) && NeverCrosses(cmds)
    ensures Uncrossed(Run(cmds))
  {
    if cmds == [] {
      assert forall u, v :: EMPTY.RoomsOf(u, v) == {};
    } else {
      var before := cmds[..|cmds| - 1];
      UncrossedRun(before);
      InvAlways(before);
      StepKeeps(Run(before), cmds[|cmds| - 1]);
    }
  }

  /** Two rooms do come about when applications cross and both are accepted. */
  lemma CrossedApplicationsMakeTwoRooms()
    ensures var a, b := 10000, 10001;
            var f := Run([NewUserCommand(a), NewUserCommand(b), AddFriendCommand(a, b), AddFriendCommand(b, a),
                          AcceptFriendCommand(b, a), AcceptFriendCommand(a, b)]);
            |f.RoomsOf(a, b)| == 2
  {
    var a, b := 10000, 10001;
    var c1, c2, c3, c4 := NewUserCommand(a), NewUserCommand(b), AddFriendCommand(a, b), AddFriendCommand(b, a);
    Unfold6(c1, c2, c3, c4, AcceptFriendCommand(b, a), AcceptFriendCommand(a, b));
    CrossedFourth(a, b);
    BothAccepted(Step(Step(Step(Step(EMPTY, c1), c2), c3), c4), a, b);
  }

  lemma CrossedFourth(a: UserID, b: UserID)
    requires a != b
    ensures var f2 := Step(Step(EMPTY, NewUserCommand(a)), NewUserCommand(b));
            var f := Step(Step(f2, AddFriendCommand(a, b)), AddFriendCommand(b, a));
            && f.pending == map[(a, b) := false, (b, a) := false] && f.lists == map[a := {}, b := {}]
            && f.rooms == map[] && f.pairIndex == map[]
  {
  }

  lemma BothAccepted(f: Friends, a: UserID, b: UserID)
    requires RoomInv(f) && a != b && f.HasUser(a) && f.HasUser(b)
    requires (a, b) in f.pending && (b, a) in f.pending
    ensures |Step(Step(f, AcceptFriendCommand(b, a)), AcceptFriendCommand(a, b)).RoomsOf(a, b)| == |f.RoomsOf(a, b)| + 2
  {
    var f1 := AcceptFriend(f, b, a).0;
    AcceptAddsRoom(f, a, b);
    assert (b, a) in f1.pending && f1.HasUser(a) && f1.HasUser(b);
    AcceptAddsRoom(f1, b, a);
  }

  lemma AcceptAddsRoom(f: Friends, s: UserID, r: UserID)
    requires RoomInv(f) && s != r && f.HasUser(s) && f.HasUser(r) && (s, r) in f.pending
    ensures RoomInv(AcceptFriend(f, r, s).0)
    ensures |AcceptFriend(f, r, s).0.RoomsOf(s, r)| == |f.RoomsOf(s, r)| + 1
    ensures AcceptFriend(f, r, s).0.RoomsOf(r, s) == AcceptFriend(f, r, s).0.RoomsOf(s, r)
  {
    JoinedRooms(f, s, r);
    JoinedCounts(f, s, r);
    RemovedCounts(Joined(f, s, r), s, r);
  }

  /** After every command of the run each pair has at most one room or pending application. */
  ghost predicate AlwaysOne(cmds: seq<FriendCommand>) {
    CountInv(Run(cmds), 1) && (cmds != [] ==> AlwaysOne(cmds[..|cmds| - 1]))
  }

  lemma CrossingBreaks(f: Friends, self: UserID, u: UserID)
    requires Inv(f) && CountInv(f, 1) && (u, self) in f.pending
    ensures !CountInv(Step(f, AddFriendCommand(self, u)), 1)
  {
    var f' := Step(f, AddFriendCommand(self, u));
    RoomsOfIndexed(f, self, u);
    assert |f.RoomsOf(self, u)| + f.PendingCount(self, u) <= 1;
    assert f'.PendingCount(self, u) == 2;
  }

  /** One at most at every moment, if and only if no application crosses another. */
  lemma {:induction false} OneUnlessCrossed(cmds: seq<FriendCommand>)
    requires FreshIds(EMPTY, cmds)
    ensures AlwaysOne(cmds) <==> NeverCrosses(cmds)
  {
    if cmds == [] {
      UncrossedRun(cmds);
    } else {
      var before, c := cmds[..|cmds| - 1], cmds[|cmds| - 1];
      OneUnlessCrossed(before);
      if NeverCrosses(cmds) {
        UncrossedRun(cmds);
      } else if AlwaysOne(before) {
        InvAlways(before);
        CrossingBreaks(Run(before), c.self, c.user);
      }
    }
  }

  /** The pending applications are exactly the Sent entries. */
  ghost predicate PendingShown(f: Friends) {
    forall u, v :: (u, v) in f.pending <==> f.Entry(u, v) == Some(Sent)
  }

  ghost predicate AlwaysPendingShown(cmds: seq<FriendCommand>) {
    PendingShown(Run(cmds)) && (cmds != [] ==> AlwaysPendingShown(cmds[..|cmds| - 1]))
  }

  /** The application that crosses another finds the entry of that one in the place of its own. */
  lemma CrossingHidden(f: Friends, self: UserID, u: UserID)
    requires Inv(f) && Uncrossed(f) && (u, self) in f.pending
    ensures !PendingShown(Step(f, AddFriendCommand(self, u)))
  {
    RoomsOfIndexed(f, self, u);
    assert |f.RoomsOf(self, u)| + f.PendingCount(self, u) <= 1;
    assert f.Entry(u, self) == Some(Sent) && f.Entry(self, u) == Some(Received);
    assert Apply(f, self, u).Ok?;
    ApplyEntry(f, self, u, self, u);
  }

  /** Entries show exactly what is pending at every moment, if and only if no application crosses another. */
  lemma {:induction false} ShownUnlessCrossed(cmds: seq<FriendCommand>)
    requires FreshIds(EMPTY, cmds)
    ensures AlwaysPendingShown(cmds) <==> NeverCrosses(cmds)
  {
    if cmds != [] {
      var before, c := cmds[..|cmds| - 1], cmds[|cmds| - 1];
      ShownUnlessCrossed(before);
      if NeverCrosses(cmds) {
        UncrossedAlways(cmds);
      } else if NeverCrosses(before) {
        InvAlways(before);
        UncrossedRun(before);
        CrossingHidden(Run(before), c.self, c.user);
      }
    }
  }

  lemma Unfold5(c1: FriendCommand, c2: FriendCommand, c3: FriendCommand, c4: FriendCommand, c5: FriendCommand)
    ensures Run([c1, c2, c3, c4, c5]) == Step(Step(Step(Step(Step(EMPTY, c1), c2), c3), c4), c5)
  {
    var cs := [c1, c2, c3, c4, c5];
    assert cs[..4] == [c1, c2, c3, c4] && cs[..4][..3] == [c1, c2, c3] && cs[..4][..3][..2] == [c1, c2];
    assert [c1, c2][..1] == [c1] && [c1][..0] == [];
    assert Run([]) == EMPTY;
    assert Run([c1]) == Step(Run([]), c1);
    assert Run([c1, c2]) == Step(Run([c1]), c2);
    assert Run([c1, c2, c3]) == Step(Run([c1, c2]), c3);
    assert Run([c1, c2, c3, c4]) == Step(Run([c1, c2, c3]), c4);
  }

  lemma Unfold6(c1: FriendCommand, c2: FriendCommand, c3: FriendCommand, c4: FriendCommand, c5: FriendCommand,
      c6: FriendCommand)
    ensures Run([c1, c2, c3, c4, c5, c6]) == Step(Step(Step(Step(Step(Step(EMPTY, c1), c2), c3), c4), c5), c6)
  {
    Unfold5(c1, c2, c3, c4, c5);
    assert [c1, c2, c3, c4, c5, c6][..5] == [c1, c2, c3, c4, c5];
  }

  /** The friendships one command adds, on top of those it keeps. */
  predicate Adds(f: Friends, c: FriendCommand, u: UserID, v: UserID) {
    c.AcceptFriendCommand? && Key(u, v) == Key(c.self, c.user) && u != v && (c.user, c.self) in f.pending
    && f.HasUser(c.self) && f.HasUser(c.user)
  }

  lemma StepFriends(f: Friends, c: FriendCommand, u: UserID, v: UserID)
    requires c.NewUserCommand? ==> !f.HasUser(c.user)
    requires c.RemoveFriendCommand? ==> RemoveFriend(f, c.self, c.user).1 != Success
    ensures Step(f, c).IsFriend(u, v) <==> f.IsFriend(u, v) || Adds(f, c, u, v)
  {
    match c
    case NewUserCommand(_) =>
    case AddFriendCommand(self, a) => assert Step(f, c).lists == f.lists;
    case AcceptFriendCommand(self, a) => KeyEquality(u, v, self, a);
    case RejectFriendCommand(self, a) => assert Step(f, c).lists == f.lists;
    case RemoveFriendCommand(self, a) =>
  }

  lemma NewFriend(f: Friends, c: FriendCommand, u: UserID, v: UserID)
    requires c.NewUserCommand? ==> !f.HasUser(c.user)
    requires Step(f, c).IsFriend(u, v) && !f.IsFriend(u, v)
    ensures Adds(f, c, u, v)
  {
    if !c.RemoveFriendCommand? {
      StepFriends(f, c, u, v);
    }
  }

  // ------------------------------------------------------------------------
  // Where a friendship comes from, and what it gives
  // ------------------------------------------------------------------------

  /** Command `i` was an application of `x` to `y` that the server took. */
  ghost predicate Applied(cmds: seq<FriendCommand>, i: nat, x: UserID, y: UserID) {
    i < |cmds| && cmds[i] == AddFriendCommand(x, y) && AddFriend(Run(cmds[..i]), x, y).1 == Success
  }

  /** Command `j` was `y` accepting the pending application of `x`. */
  ghost predicate Accepted(cmds: seq<FriendCommand>, j: nat, x: UserID, y: UserID) {
    j < |cmds| && cmds[j] == AcceptFriendCommand(y, x) && x != y && (x, y) in Run(cmds[..j]).pending
  }

  ghost predicate Agreed(cmds: seq<FriendCommand>, x: UserID, y: UserID) {
    exists i, j :: 0 <= i < j && Applied(cmds, i, x, y) && Accepted(cmds, j, x, y)
  }

  lemma NewlyPending(f: Friends, c: FriendCommand, x: UserID, y: UserID)
    requires (x, y) in Step(f, c).pending && (x, y) !in f.pending
    ensures c == AddFriendCommand(x, y) && AddFriend(f, x, y).1 == Success
  {
    match c
    case NewUserCommand(_) =>
    case AddFriendCommand(self, u) =>
    case AcceptFriendCommand(self, u) =>
    case RejectFriendCommand(self, u) =>
    case RemoveFriendCommand(self, u) =>
  }

  lemma {:induction false} PendingApplied(cmds: seq<FriendCommand>, x: UserID, y: UserID) returns (i: nat)
    requires (x, y) in Run(cmds).pending
    ensures Applied(cmds, i, x, y)
  {
    var before := cmds[..|cmds| - 1];
    if (x, y) in Run(before).pending {
      i := PendingApplied(before, x, y);
      assert before[..i] == cmds[..i];
    } else {
      i := |cmds| - 1;
      NewlyPending(Run(before), cmds[i], x, y);
    }
  }

  /**
   * If v is in u's list, one of the two applied to the other at some earlier point and
   * the other accepted it after that.
   */
  lemma {:induction false} FriendsAgreed(cmds: seq<FriendCommand>, u: UserID, v: UserID)
    requires FreshIds(EMPTY, cmds) && Run(cmds).IsFriend(u, v)
    ensures Agreed(cmds, u, v) || Agreed(cmds, v, u)
  {
    var before, c := cmds[..|cmds| - 1], cmds[|cmds| - 1];
    if Run(before).IsFriend(u, v) {
      FriendsAgreed(before, u, v);
      if Agreed(before, u, v) {
        AgreedLater(cmds, u, v);
      } else {
        AgreedLater(cmds, v, u);
      }
    } else {
      NewFriend(Run(before), c, u, v);
      KeyEquality(u, v, c.self, c.user);
      AgreedNow(cmds, c.user, c.self);
    }
  }

  lemma AgreedLater(cmds: seq<FriendCommand>, x: UserID, y: UserID)
    requires cmds != [] && Agreed(cmds[..|cmds| - 1], x, y)
    ensures Agreed(cmds, x, y)
  {
    var before := cmds[..|cmds| - 1];
    var i, j :| 0 <= i < j && Applied(before, i, x, y) && Accepted(before, j, x, y);
    assert before[..i] == cmds[..i] && before[..j] == cmds[..j];
    assert Applied(cmds, i, x, y) && Accepted(cmds, j, x, y);
  }

  lemma AgreedNow(cmds: seq<FriendCommand>, x: UserID, y: UserID)
    requires cmds != [] && Accepted(cmds, |cmds| - 1, x, y)
    ensures Agreed(cmds, x, y)
  {
    var before := cmds[..|cmds| - 1];
    var i := PendingApplied(before, x, y);
    assert before[..i] == cmds[..i];
    assert Applied(cmds, i, x, y);
  }

  // ---- both tables are their histories

  /** An application makes (x, y) pending, any answer of y to x ends it. */
  function PendingMark(f: Friends, c: FriendCommand, x: UserID, y: UserID): Mark {
    if c == AddFriendCommand(x, y) && AddFriend(f, x, y).1 == Success then Makes
    else if c == AcceptFriendCommand(y, x) || c == RejectFriendCommand(y, x) then Ends
    else Neither
  }

  /** An acceptance between the two makes v a friend of u, a removal by u ends it. */
  function FriendMark(f: Friends, c: FriendCommand, u: UserID, v: UserID): Mark {
    if Adds(f, c, u, v) then Makes else if c == RemoveFriendCommand(u, v) then Ends else Neither
  }

  function PendingMarks(cmds: seq<FriendCommand>, x: UserID, y: UserID): seq<Mark> {
    if cmds == [] then []
    else
      var before := cmds[..|cmds| - 1];
      PendingMarks(before, x, y) + [PendingMark(Run(before), cmds[|cmds| - 1], x, y)]
  }

  function FriendMarks(cmds: seq<FriendCommand>, u: UserID, v: UserID): seq<Mark> {
    if cmds == [] then []
    else
      var before := cmds[..|cmds| - 1];
      FriendMarks(before, u, v) + [FriendMark(Run(before), cmds[|cmds| - 1], u, v)]
  }

  lemma StepPending(f: Friends, c: FriendCommand, x: UserID, y: UserID)
    requires PendingInv(f)
    ensures (x, y) in Step(f, c).pending <==>
              PendingMark(f, c, x, y) == Makes || (PendingMark(f, c, x, y) != Ends && (x, y) in f.pending)
  {
    match c
    case NewUserCommand(_) =>
    case AddFriendCommand(self, u) =>
    case AcceptFriendCommand(self, u) =>
      if (u, self) in f.pending {
        assert f.HasUser(u) && f.HasUser(self) && u != self;
      }
    case RejectFriendCommand(self, u) =>
      if (u, self) in f.pending {
        assert f.HasUser(u) && f.HasUser(self) && u != self;
      }
    case RemoveFriendCommand(self, u) =>
  }

  /** Pending is what has been applied for and not been answered since, nothing else. */
  lemma {:induction false} PendingIsHistory(cmds: seq<FriendCommand>, x: UserID, y: UserID)
    requires FreshIds(EMPTY, cmds)
    ensures (x, y) in Run(cmds).pending <==> Holds(PendingMarks(cmds, x, y))
  {
    if cmds != [] {
      var before, c := cmds[..|cmds| - 1], cmds[|cmds| - 1];
      PendingIsHistory(before, x, y);
      InvAlways(before);
      StepPending(Run(before), c, x, y);
      HoldsNext(PendingMarks(before, x, y), PendingMark(Run(before), c, x, y));
    }
  }

  lemma StepList(f: Friends, c: FriendCommand, u: UserID, v: UserID)
    requires Inv(f) && (c.NewUserCommand? ==> !f.HasUser(c.user))
    ensures Step(f, c).IsFriend(u, v) <==>
              FriendMark(f, c, u, v) == Makes || (FriendMark(f, c, u, v) != Ends && f.IsFriend(u, v))
  {
    if c.RemoveFriendCommand? {
      if RemoveFriend(f, c.self, c.user).1 == Success {
        RemovedOneWay(f, c.self, c.user);
      } else {
        assert f.IsFriend(u, v) ==> f.HasUser(u) && f.HasUser(v) && u != v;
      }
    } else {
      StepFriends(f, c, u, v);
    }
  }

  /**
   * The friend lists say exactly what happened: v is in the list of u if and only if one
   * of them accepted a pending application of the other and u has not removed v since.
   */
  lemma {:induction false} FriendshipIsHistory(cmds: seq<FriendCommand>, u: UserID, v: UserID)
    requires FreshIds(EMPTY, cmds)
    ensures Run(cmds).IsFriend(u, v) <==> Holds(FriendMarks(cmds, u, v))
  {
    if cmds != [] {
      var before, c := cmds[..|cmds| - 1], cmds[|cmds| - 1];
      FriendshipIsHistory(before, u, v);
      InvAlways(before);
      StepList(Run(before), c, u, v);
      HoldsNext(FriendMarks(before, u, v), FriendMark(Run(before), c, u, v));
    }
  }

  lemma StepRooms(f: Friends, c: FriendCommand, u: UserID, v: UserID)
    requires Inv(f)
    ensures |Step(f, c).RoomsOf(u, v)| == |f.RoomsOf(u, v)| + if Adds(f, c, u, v) then 1 else 0
  {
    if c.AcceptFriendCommand? && AcceptVerification(f, c.user, c.self).Ok? && f.HasUser(c.self) && f.HasUser(c.user) {
      KeyEquality(u, v, c.self, c.user);
      JoinedCounts(f, c.user, c.self);
      RemovedCounts(Joined(f, c.user, c.self), c.user, c.self);
    } else {
      assert Step(f, c).RoomsOf(u, v) == f.RoomsOf(u, v);
    }
  }

  /** A pair has as many rooms as there were acceptances between the two. */
  lemma {:induction false} RoomsAreAcceptances(cmds: seq<FriendCommand>, u: UserID, v: UserID)
    requires FreshIds(EMPTY, cmds)
    ensures |Run(cmds).RoomsOf(u, v)| == multiset(FriendMarks(cmds, u, v))[Makes]
  {
    if cmds != [] {
      var before, c := cmds[..|cmds| - 1], cmds[|cmds| - 1];
      RoomsAreAcceptances(before, u, v);
      InvAlways(before);
      StepRooms(Run(before), c, u, v);
    }
  }

  // ------------------------------------------------------------------------
  // The commands alone decide
  // ------------------------------------------------------------------------

  // What follows speaks of commands only: of registrations, applications and answers,
  // never of a table or of a reply.

  predicate Registered(cmds: seq<FriendCommand>, u: UserID) { NewUserCommand(u) in cmds }

  /** x has applied to y when it could, and y has not answered since. */
  predicate Open(cmds: seq<FriendCommand>, x: UserID, y: UserID)
    decreases |cmds|, 0
  {
    cmds != [] &&
      var before, c := cmds[..|cmds| - 1], cmds[|cmds| - 1];
      if c == AddFriendCommand(x, y) then Open(before, x, y) || MayApply(before, x, y)
      else c != AcceptFriendCommand(y, x) && c != RejectFriendCommand(y, x) && Open(before, x, y)
  }

  /** Both exist, are not the same, have not met, and x does not wait for an answer. */
  predicate MayApply(cmds: seq<FriendCommand>, x: UserID, y: UserID)
    decreases |cmds|, 2
  {
    Registered(cmds, x) && Registered(cmds, y) && x != y && !Met(cmds, x, y) && !Open(cmds, x, y)
  }

  /** The last command is one of the two accepting the other. */
  predicate JustMet(cmds: seq<FriendCommand>, x: UserID, y: UserID)
    requires cmds != []
    decreases |cmds|, 0
  {
    var before, c := cmds[..|cmds| - 1], cmds[|cmds| - 1];
    (c == AcceptFriendCommand(y, x) && Open(before, x, y)) || (c == AcceptFriendCommand(x, y) && Open(before, y, x))
  }

  /** One of the two has accepted the other at some point. */
  predicate Met(cmds: seq<FriendCommand>, x: UserID, y: UserID)
    decreases |cmds|, 1
  {
    cmds != [] && (JustMet(cmds, x, y) || Met(cmds[..|cmds| - 1], x, y))
  }

  /** ... and u has not removed v since. */
  predicate Listed(cmds: seq<FriendCommand>, u: UserID, v: UserID)
    decreases |cmds|, 1
  {
    cmds != [] &&
      (JustMet(cmds, u, v)
       || (cmds[|cmds| - 1] != RemoveFriendCommand(u, v) && Listed(cmds[..|cmds| - 1], u, v)))
  }

  /** The exact answer of the command. */
  lemma AddFriendAnswer(f: Friends, self: UserID, u: UserID)
    requires Inv(f)
    ensures var able := self != u && !f.HasRoom(self, u) && (self, u) !in f.pending;
            AddFriend(f, self, u).1 == if !f.HasUser(u) then Failure else if !f.HasUser(self) then Thrown
                else if able then Success else Failure
  {
  }

  lemma StepUsers(f: Friends, c: FriendCommand, u: UserID)
    requires Inv(f)
    ensures Step(f, c).HasUser(u) <==> f.HasUser(u) || c == NewUserCommand(u)
  {
    if c.AcceptFriendCommand? && (c.user, c.self) in f.pending {
      assert f.HasUser(c.user) && f.HasUser(c.self);
    }
  }

  lemma StepHasRoom(f: Friends, c: FriendCommand, u: UserID, v: UserID)
    requires Inv(f)
    ensures Step(f, c).HasRoom(u, v) <==> f.HasRoom(u, v) || Adds(f, c, u, v)
  {
    if c.AcceptFriendCommand? {
      KeyEquality(u, v, c.self, c.user);
    }
  }

  lemma AddsIs(f: Friends, c: FriendCommand, u: UserID, v: UserID)
    requires Inv(f)
    ensures Adds(f, c, u, v) <==>
              (c == AcceptFriendCommand(v, u) && (u, v) in f.pending)
              || (c == AcceptFriendCommand(u, v) && (v, u) in f.pending)
  {
    if c.AcceptFriendCommand? {
      KeyEquality(u, v, c.self, c.user);
    }
  }

  /** All four tables, for every pair, on every run. */
  lemma {:induction false} HistoryDecides(cmds: seq<FriendCommand>, x: UserID, y: UserID)
    requires FreshIds(EMPTY, cmds)
    ensures Run(cmds).HasUser(x) <==> Registered(cmds, x)
    ensures Run(cmds).HasUser(y) <==> Registered(cmds, y)
    ensures (x, y) in Run(cmds).pending <==> Open(cmds, x, y)
    ensures (y, x) in Run(cmds).pending <==> Open(cmds, y, x)
    ensures Run(cmds).HasRoom(x, y) <==> Met(cmds, x, y)
    ensures Run(cmds).IsFriend(x, y) <==> Listed(cmds, x, y)
    ensures Met(cmds, x, y) == Met(cmds, y, x)
    decreases |cmds|
  {
    if cmds != [] {
      var before, c := cmds[..|cmds| - 1], cmds[|cmds| - 1];
      var f := Run(before);
      HistoryDecides(before, x, y);
      InvAlways(before);
      assert cmds == before + [c];
      StepUsers(f, c, x);
      StepUsers(f, c, y);
      AddFriendAnswer(f, x, y);
      AddFriendAnswer(f, y, x);
      StepPending(f, c, x, y);
      StepPending(f, c, y, x);
      AddsIs(f, c, x, y);
      StepHasRoom(f, c, x, y);
      StepList(f, c, x, y);
    }
  }

  /**
   * And so all answers are decided by the commands so far. An application succeeds if
   * and only if the two exist and differ, neither has ever accepted the other, and the
   * applicant is not waiting for an answer already.
   */
  lemma AnswersAreHistory(cmds: seq<FriendCommand>, self: UserID, u: UserID)
    requires FreshIds(EMPTY, cmds)
    ensures var f := Run(cmds);
            && AddFriend(f, self, u).1 == Answered(cmds, self, u, MayApply(cmds, self, u))
            && AcceptFriend(f, self, u).1 == Answered(cmds, self, u, true)
            && RejectFriend(f, self, u).1 == Answered(cmds, self, u, Open(cmds, u, self))
            && RemoveFriend(f, self, u).1 == Answered(cmds, self, u, Listed(cmds, self, u))
            && SendFriendMessage(f, self, u).1 == Answered(cmds, self, u, Listed(cmds, self, u))
  {
    HistoryDecides(cmds, self, u);
    InvAlways(cmds);
    AddFriendAnswer(Run(cmds), self, u);
    if Registered(cmds, self) {
      FriendMessageDelivered(Run(cmds), self, u);
    }
  }

  /** Success or failure; an exception if the executor does not exist. */
  function Answered(cmds: seq<FriendCommand>, self: UserID, u: UserID, success: bool): Reply {
    if !Registered(cmds, u) then Failure else if !Registered(cmds, self) then Thrown
    else if success then Success else Failure
  }

  /** Rooms get consecutive ids, in the order in which they are made. */
  lemma {:induction false} RoomIds(cmds: seq<FriendCommand>)
    requires FreshIds(EMPTY, cmds)
    ensures forall id :: id in Run(cmds).rooms <==> FIRST_ID <= id < Run(cmds).nextRoom
    ensures Run(cmds).nextRoom >= FIRST_ID
  {
    if cmds != [] {
      RoomIds(cmds[..|cmds| - 1]);
      StepRoomIds(Run(cmds[..|cmds| - 1]), cmds[|cmds| - 1]);
    }
  }

  lemma StepRoomIds(f: Friends, c: FriendCommand)
    ensures Step(f, c).rooms.Keys == f.rooms.Keys + if Step(f, c).nextRoom == f.nextRoom then {} else {f.nextRoom}
    ensures Step(f, c).nextRoom == f.nextRoom || Step(f, c).nextRoom == f.nextRoom + 1
  {
  }

  /**
   * A message to a listed friend finds its room, and reaches exactly the two of them;
   * the exceptions of the two look-ups cannot be seen in any reachable state.
   */
  lemma FriendMessageDelivered(f: Friends, self: UserID, u: UserID)
    requires Inv(f) && f.HasUser(self)
    ensures SendFriendMessage(f, self, u) == if f.IsFriend(self, u) then ({self, u}, Success) else ({}, Failure)
  {
    if f.IsFriend(self, u) {
      assert f.HasRoom(self, u) && self != u && f.HasUser(u);
      var id := f.pairIndex[Key(self, u)];
      assert id in f.rooms && f.rooms[id].Pair() == Key(self, u);
      KeyEquality(f.rooms[id].user1, f.rooms[id].user2, self, u);
      assert f.rooms[id].recipients == {self, u};
    }
  }

  // ------------------------------------------------------------------------
  // Symmetry
  // ------------------------------------------------------------------------

  ghost predicate Symmetric(f: Friends) {
    forall u, v :: f.IsFriend(u, v) ==> f.IsFriend(v, u)
  }

  /** Only the removal of a friend can make the lists of two users disagree. */
  lemma StepKeepsSymmetry(f: Friends, c: FriendCommand)
    requires Symmetric(f) && (c.NewUserCommand? ==> !f.HasUser(c.user))
    requires c.RemoveFriendCommand? ==> RemoveFriend(f, c.self, c.user).1 != Success
    ensures Symmetric(Step(f, c))
  {
    forall u, v | Step(f, c).IsFriend(u, v)
      ensures Step(f, c).IsFriend(v, u)
    {
      StepFriends(f, c, u, v);
      StepFriends(f, c, v, u);
    }
  }

  /** A removal leaves the friend's own list as it was. */
  lemma RemovedOneWay(f: Friends, self: UserID, u: UserID)
    requires Inv(f) && RemoveFriend(f, self, u).1 == Success
    ensures forall a, b :: RemoveFriend(f, self, u).0.IsFriend(a, b) <==> f.IsFriend(a, b) && (a, b) != (self, u)
  {
  }

  /**
   * So after the removal of a friend the two agree exactly if the friend had already
   * removed the remover; and from a symmetric state a removal leaves a symmetric one if
   * and only if there was no friend to remove.
   */
  lemma RemovalAndSymmetry(f: Friends, self: UserID, u: UserID)
    requires Inv(f)
    ensures var f' := RemoveFriend(f, self, u).0;
            && (f.IsFriend(self, u) ==>
                  (f'.IsFriend(self, u) == f'.IsFriend(u, self) <==> !f.IsFriend(u, self)))
            && (Symmetric(f) ==> (Symmetric(f') <==> !f.IsFriend(self, u)))
  {
    var (f', reply) := RemoveFriend(f, self, u);
    if f.IsFriend(self, u) {
      assert self != u && f.HasUser(self) && f.HasUser(u);
      RemovedOneWay(f, self, u);
      assert f'.IsFriend(u, self) == f.IsFriend(u, self) && !f'.IsFriend(self, u);
    }
  }

  lemma RemovalLeavesOneSide()
    ensures var a, b := 10000, 10001;
            var f := Run([NewUserCommand(a), NewUserCommand(b), AddFriendCommand(a, b), AcceptFriendCommand(b, a),
                          RemoveFriendCommand(a, b)]);
            !f.IsFriend(a, b) && f.IsFriend(b, a)
  {
    var a, b := 10000, 10001;
    var c1, c2, c3 := NewUserCommand(a), NewUserCommand(b), AddFriendCommand(a, b);
    var c4, c5 := AcceptFriendCommand(b, a), RemoveFriendCommand(a, b);
    Unfold5(c1, c2, c3, c4, c5);
    var f3 := Step(Step(Step(EMPTY, c1), c2), c3);
    assert f3.lists == map[a := {}, b := {}] && f3.pending == map[(a, b) := false];
    var f4 := Step(f3, c4);
    assert f4.IsFriend(a, b) && f4.IsFriend(b, a);
    var f5 := Step(f4, c5);
    assert !f5.IsFriend(a, b) && f5.IsFriend(b, a);
  }

  /** No command of the run removes someone who is on the list. */
  ghost predicate NoFriendRemoved(cmds: seq<FriendCommand>) {
    cmds != [] ==>
      var before, c := cmds[..|cmds| - 1], cmds[|cmds| - 1];
      NoFriendRemoved(before) && !(c.RemoveFriendCommand? && Run(before).IsFriend(c.self, c.user))
  }

  ghost predicate AlwaysSymmetric(cmds: seq<FriendCommand>) {
    Symmetric(Run(cmds)) && (cmds != [] ==> AlwaysSymmetric(cmds[..|cmds| - 1]))
  }

  /** Friendship is symmetric at every moment of a run if and only if no friend is ever removed. */
  lemma {:induction false} SymmetricUnlessRemoved(cmds: seq<FriendCommand>)
    requires FreshIds(EMPTY, cmds)
    ensures AlwaysSymmetric(cmds) <==> NoFriendRemoved(cmds)
  {
    if cmds != [] {
      var before, c := cmds[..|cmds| - 1], cmds[|cmds| - 1];
      SymmetricUnlessRemoved(before);
      InvAlways(before);
      if AlwaysSymmetric(before) {
        if c.RemoveFriendCommand? {
          RemovalAndSymmetry(Run(before), c.self, c.user);
        } else {
          StepKeepsSymmetry(Run(before), c);
        }
      }
    }
  }

  /** What the second erase is plainly meant to do: take the remover off the friend's list. */
  function RemoveFriendBothWays(f: Friends, self: UserID, u: UserID): (Friends, Reply) {
    var (f', reply) := RemoveFriend(f, self, u);
    if reply == Success then (Unfriend(Unfriend(f, self, u), u, self), reply) else (f', reply)
  }

  lemma RemovalBothWaysKeepsSymmetry(f: Friends, self: UserID, u: UserID)
    requires Inv(f) && Symmetric(f)
    ensures Symmetric(RemoveFriendBothWays(f, self, u).0)
  {
    var (f', reply) := RemoveFriendBothWays(f, self, u);
    if reply == Success {
      assert forall a, b :: f'.IsFriend(a, b) <==> f.IsFriend(a, b) && (a, b) != (self, u) && (a, b) != (u, self);
    }
  }

  function IntendedStep(f: Friends, c: FriendCommand): Friends {
    if c.RemoveFriendCommand? then RemoveFriendBothWays(f, c.self, c.user).0 else Step(f, c)
  }

  function IntendedRun(cmds: seq<FriendCommand>): Friends {
    if cmds == [] then EMPTY else IntendedStep(IntendedRun(cmds[..|cmds| - 1]), cmds[|cmds| - 1])
  }

  ghost predicate IntendedFresh(cmds: seq<FriendCommand>) {
    cmds != [] ==>
      var before, c := cmds[..|cmds| - 1], cmds[|cmds| - 1];
      IntendedFresh(before) && (c.NewUserCommand? ==> !IntendedRun(before).HasUser(c.user))
  }

  lemma IntendedStepKeeps(f: Friends, c: FriendCommand)
    requires Inv(f) && Symmetric(f) && (c.NewUserCommand? ==> !f.HasUser(c.user))
    ensures Inv(IntendedStep(f, c)) && Symmetric(IntendedStep(f, c))
  {
    if !c.RemoveFriendCommand? {
      StepKeeps(f, c);
      StepKeepsSymmetry(f, c);
    } else {
      RemovalBothWaysKeepsSymmetry(f, c.self, c.user);
      if RemoveFriend(f, c.self, c.user).1 == Success {
        UnfriendKeeps(f, c.self, c.user);
        UnfriendKeeps(Unfriend(f, c.self, c.user), c.user, c.self);
      }
    }
  }

  /** With the erasure that was meant, friendship is symmetric on every run. */
  lemma {:induction false} IntendedSymmetric(cmds: seq<FriendCommand>)
    requires IntendedFresh(cmds)
    ensures Inv(IntendedRun(cmds)) && Symmetric(IntendedRun(cmds))
  {
    if cmds == [] {
      InvAlways([]);
    } else {
      IntendedSymmetric(cmds[..|cmds| - 1]);
      IntendedStepKeeps(IntendedRun(cmds[..|cmds| - 1]), cmds[|cmds| - 1]);
    }
  }

  // ------------------------------------------------------------------------
  // Removal is for ever
  // ------------------------------------------------------------------------

  /** The pair has a room, which no command takes away, and nothing is pending between them. */
  ghost predicate Settled(f: Friends, u: UserID, v: UserID) {
    f.HasRoom(u, v) && f.PendingCount(u, v) == 0
  }

  lemma {:induction false} SettledForever(f: Friends, cmds: seq<FriendCommand>, u: UserID, v: UserID)
    requires Settled(f, u, v) && !f.IsFriend(u, v)
    ensures Settled(RunFrom(f, cmds), u, v) && !RunFrom(f, cmds).IsFriend(u, v)
  {
    if cmds != [] {
      SettledForever(f, cmds[..|cmds| - 1], u, v);
      StepSettled(RunFrom(f, cmds[..|cmds| - 1]), cmds[|cmds| - 1], u, v);
    }
  }

  lemma StepSettled(f: Friends, c: FriendCommand, u: UserID, v: UserID)
    requires Settled(f, u, v) && !f.IsFriend(u, v)
    ensures Settled(Step(f, c), u, v) && !Step(f, c).IsFriend(u, v)
  {
    if !c.NewUserCommand? {
      KeyEquality(u, v, c.self, c.user);
    }
  }

  /** Whatever the commands from here on, v does not get onto u's list. */
  ghost predicate NeverFriends(f: Friends, u: UserID, v: UserID) {
    forall cmds :: FreshIds(f, cmds) ==> !RunFrom(f, cmds).IsFriend(u, v)
  }

  /**
   * The room outlives the friendship and blocks every new application: a friend taken
   * off a list never comes back to it, unless an application from before the room is
   * still pending; if one is, its acceptance brings the friend back.
   */
  lemma RemovedForever(f: Friends, u: UserID, v: UserID)
    requires Inv(f) && f.HasRoom(u, v) && !f.IsFriend(u, v)
    ensures NeverFriends(f, u, v) <==> f.PendingCount(u, v) == 0
  {
    if f.PendingCount(u, v) == 0 {
      forall cmds | FreshIds(f, cmds)
        ensures !RunFrom(f, cmds).IsFriend(u, v)
      {
        SettledForever(f, cmds, u, v);
      }
    } else if (u, v) in f.pending {
      BackAgain(f, AcceptFriendCommand(v, u), u, v);
    } else {
      BackAgain(f, AcceptFriendCommand(u, v), u, v);
    }
  }

  lemma BackAgain(f: Friends, c: FriendCommand, u: UserID, v: UserID)
    requires c.AcceptFriendCommand? && Adds(f, c, u, v)
    ensures !NeverFriends(f, u, v)
  {
    StepFriends(f, c, u, v);
    assert [c][..0] == [] && RunFrom(f, []) == f;
    assert RunFrom(f, [c]) == Step(f, c) && FreshIds(f, [c]);
  }
}
