// The objects behind the server: users, rooms and the tables of the manager and the
// verification manager, changed in place (server/user/user.cpp,
// server/manager/manager.cpp, server/manager/verificationManager.cpp).

module ChatServers {
  import opened Ids
  import opened Errors
  import opened GroupRooms
  import F = Friendship
  import G = GroupMembership
  import C = Connections
  import S = Servers

  class User {
    const userID: UserID
    var friendSet: set<UserID>
    var friendVerification: map<UserID, VerificationType>
    var groupSet: set<GroupID>
    var groupVerification: G.EntryMap
    var connectionMap: C.ConnectionMap

    constructor (userID: UserID)
      ensures this.userID == userID
      ensures friendSet == {} && friendVerification == map[] && groupSet == {}
      ensures groupVerification == map[] && connectionMap == map[]
    {
      this.userID := userID;
      friendSet, friendVerification, groupSet, groupVerification, connectionMap := {}, map[], {}, map[], map[];
    }

    method AddFriendVerification(v: UserID, kind: VerificationType)
      modifies this`friendVerification
      ensures friendVerification == Emplace(old(friendVerification), v, kind)
    {
      if v !in friendVerification {
        friendVerification := friendVerification[v := kind];
      }
    }

    method RemoveFriendVerification(v: UserID)
      modifies this`friendVerification
      ensures friendVerification == old(friendVerification) - {v}
    {
      if v !in friendVerification {
        assert friendVerification - {v} == friendVerification;
        return;
      }
      friendVerification := friendVerification - {v};
    }

    method AddGroupVerification(g: GroupID, e: G.GroupEntry)
      modifies this`groupVerification
      ensures groupVerification == G.Insert(old(groupVerification), g, e)
    {
      groupVerification := groupVerification[g := G.EqualRange(groupVerification, g) + [e]];
    }

    /** The iterator is a position in the run of equal keys; past its end it is in another run. */
    method RemoveGroupVerification(g: GroupID, u: UserID) returns (fault: G.Fault)
      modifies this`groupVerification
      ensures (groupVerification, fault) == G.Erase(old(groupVerification), g, u)
    {
      var run := G.EqualRange(groupVerification, g);
      if |run| == 0 {
        return G.Threw;
      }
      var iter := 0;
      while iter < |run|
        invariant iter <= G.FirstOf(run, u)
      {
        if run[iter].user == u {
          groupVerification := groupVerification[g := run[..iter] + run[iter + 1..]];
          return G.NoFault;
        }
        iter := iter + 1;
      }
      fault := G.RanPast;
    }

    method AddConnection(c: ConnectionID, device: C.DeviceType) returns (fault: C.Fault)
      modifies this`connectionMap
      ensures (connectionMap, fault) == C.Added(old(connectionMap), c, device)
    {
      if c in connectionMap {
        return C.Failed(SocketPointerExisted);
      }
      connectionMap := connectionMap[c := device];
      fault := C.Fine;
    }

    method RemoveConnection(c: ConnectionID) returns (fault: C.Fault)
      modifies this`connectionMap
      ensures (connectionMap, fault) == C.Removed(old(connectionMap), c)
    {
      if c !in connectionMap {
        return C.Failed(NullSocketPointer);
      }
      connectionMap := connectionMap - {c};
      fault := C.Fine;
    }
  }

  class ChatServer {
    var newUserId: UserID
    var newPrivateRoomId: GroupID
    var newGroupRoomId: GroupID
    var userMap: map<UserID, User>
    var privateRoomMap: map<GroupID, F.PrivateRoom>
    var privateRoomIDMap: map<(UserID, UserID), GroupID>
    var groupRoomMap: map<GroupID, GroupRoom>
    var connectionMap: map<ConnectionID, UserID>
    var friendPending: map<(UserID, UserID), bool>
    var groupPending: map<(UserID, GroupID), bool>
    var sessions: map<ConnectionID, UserID>

    /** Every object is under its own id, so no object is under two. */
    ghost predicate Valid()
      reads this
    {
      && (forall u <- userMap :: userMap[u].userID == u)
      && (forall g <- groupRoomMap :: groupRoomMap[g].groupID == g)
    }

    ghost function FriendLists(): map<UserID, set<UserID>>
      reads this`userMap, userMap.Values`friendSet
    {
      map u | u in userMap :: userMap[u].friendSet
    }

    ghost function FriendEntries(): map<UserID, map<UserID, VerificationType>>
      reads this`userMap, userMap.Values`friendVerification
    {
      map u | u in userMap :: userMap[u].friendVerification
    }

    ghost function GroupLists(): map<UserID, set<GroupID>>
      reads this`userMap, userMap.Values`groupSet
    {
      map u | u in userMap :: userMap[u].groupSet
    }

    ghost function GroupEntries(): map<UserID, G.EntryMap>
      reads this`userMap, userMap.Values`groupVerification
    {
      map u | u in userMap :: userMap[u].groupVerification
    }

    ghost function ConnectionMaps(): map<UserID, C.ConnectionMap>
      reads this`userMap, userMap.Values`connectionMap
    {
      map u | u in userMap :: userMap[u].connectionMap
    }

    ghost function Rooms(): map<GroupID, Room>
      reads this`groupRoomMap, groupRoomMap.Values`administrator, groupRoomMap.Values`userMap,
            groupRoomMap.Values`tcpUserMap
      reads groupRoomMap.Values`mutedUserMap, groupRoomMap.Values`messageMap
    {
      map g | g in groupRoomMap :: groupRoomMap[g].View()
    }

    /** The two room counters have changed places in the manager. */
    ghost function FriendsView(): F.Friends
      reads this`userMap, userMap.Values`friendSet, userMap.Values`friendVerification
      reads this`friendPending, this`privateRoomMap, this`privateRoomIDMap, this`newGroupRoomId
    {
      F.Friends(FriendLists(), FriendEntries(), friendPending, privateRoomMap, privateRoomIDMap, newGroupRoomId)
    }

    ghost function GroupsView(): G.Groups
      reads this`userMap, userMap.Values`groupSet, userMap.Values`groupVerification
      reads this`groupPending, this`groupRoomMap, this`newPrivateRoomId
      reads groupRoomMap.Values`administrator, groupRoomMap.Values`userMap, groupRoomMap.Values`tcpUserMap
      reads groupRoomMap.Values`mutedUserMap, groupRoomMap.Values`messageMap
    {
      G.Groups(GroupLists(), GroupEntries(), groupPending, Rooms(), newPrivateRoomId)
    }

    ghost function ConnsView(): C.Conns
      reads this`userMap, userMap.Values`connectionMap, this`connectionMap, this`sessions
    {
      C.Conns(ConnectionMaps(), connectionMap, sessions)
    }

    ghost function View(): S.Server
      reads this, userMap.Values, groupRoomMap.Values
    {
      S.Server(newUserId, FriendsView(), GroupsView(), ConnsView())
    }

    constructor ()
      ensures Valid() && View() == S.START
    {
      newUserId, newPrivateRoomId, newGroupRoomId := FIRST_ID, FIRST_ID, FIRST_ID;
      userMap, privateRoomMap, privateRoomIDMap, groupRoomMap := map[], map[], map[], map[];
      connectionMap, friendPending, groupPending, sessions := map[], map[], map[], map[];
    }

    // A part of the view stays as it is if its fields do.

    twostate lemma FriendsStay()
      requires userMap == old(userMap) && friendPending == old(friendPending) && newGroupRoomId == old(newGroupRoomId)
      requires privateRoomMap == old(privateRoomMap) && privateRoomIDMap == old(privateRoomIDMap)
      requires forall x <- userMap.Values :: unchanged(x`friendSet) && unchanged(x`friendVerification)
      ensures FriendsView() == old(FriendsView())
    {
    }

    twostate lemma GroupRecordsStay()
      requires userMap == old(userMap)
      requires forall x <- userMap.Values :: unchanged(x`groupSet) && unchanged(x`groupVerification)
      ensures GroupLists() == old(GroupLists()) && GroupEntries() == old(GroupEntries())
    {
    }

    twostate lemma RoomsStay()
      requires groupRoomMap == old(groupRoomMap)
      requires forall r <- groupRoomMap.Values :: unchanged(r`administrator) && unchanged(r`mutedUserMap)
      requires forall r <- groupRoomMap.Values :: unchanged(r`userMap) && unchanged(r`tcpUserMap)
      requires forall r <- groupRoomMap.Values :: unchanged(r`messageMap)
      ensures Rooms() == old(Rooms())
    {
    }

    twostate lemma GroupsStay()
      requires userMap == old(userMap) && groupRoomMap == old(groupRoomMap)
      requires groupPending == old(groupPending) && newPrivateRoomId == old(newPrivateRoomId)
      requires forall x <- userMap.Values :: unchanged(x`groupSet) && unchanged(x`groupVerification)
      requires forall r <- groupRoomMap.Values :: unchanged(r)
      ensures GroupsView() == old(GroupsView())
    {
    }

    twostate lemma ConnsStay()
      requires userMap == old(userMap) && connectionMap == old(connectionMap) && sessions == old(sessions)
      requires forall x <- userMap.Values :: unchanged(x`connectionMap)
      ensures ConnsView() == old(ConnsView())
    {
    }

    // ---- one user's record

    method AddFriendEntry(u: UserID, v: UserID, kind: VerificationType)
      requires Valid() && u in userMap
      modifies userMap.Values`friendVerification
      ensures FriendsView() == F.AddEntry(old(FriendsView()), u, v, kind)
    {
      userMap[u].AddFriendVerification(v, kind);
      assert forall x <- userMap :: x != u ==> userMap[x] != userMap[u];
      assert forall x <- userMap :: userMap[x].friendVerification ==
               if x == u then Emplace(old(userMap[u].friendVerification), v, kind)
                   else old(userMap[x].friendVerification);
    }

    method RemoveFriendEntry(u: UserID, v: UserID)
      requires Valid() && u in userMap
      modifies userMap.Values`friendVerification
      ensures FriendsView() == F.RemoveEntry(old(FriendsView()), u, v)
    {
      userMap[u].RemoveFriendVerification(v);
      assert forall x <- userMap :: x != u ==> userMap[x] != userMap[u];
      assert forall x <- userMap :: userMap[x].friendVerification ==
               if x == u then old(userMap[u].friendVerification) - {v} else old(userMap[x].friendVerification);
    }

    method UpdateFriendList(u: UserID, list: set<UserID>)
      requires Valid() && u in userMap
      modifies userMap.Values`friendSet
      ensures FriendsView() == old(FriendsView()).(lists := old(FriendsView()).lists[u := list])
    {
      userMap[u].friendSet := list;
      assert forall x <- userMap :: x != u ==> userMap[x] != userMap[u];
    }

    // ---- friends: the central table and the private rooms

    predicate HasPrivateRoom(u: UserID, v: UserID)
      reads this
    {
      F.Key(u, v) in privateRoomIDMap
    }

    method ApplyFriend(sender: UserID, receiver: UserID) returns (error: Option<Errc>)
      requires Valid()
      modifies this`friendPending, userMap.Values`friendVerification
      ensures match F.Apply(old(FriendsView()), sender, receiver)
              case Ok(f) => error == None && FriendsView() == f
              case Err(e) => error == Some(e) && FriendsView() == old(FriendsView())
    {
      if sender == receiver {
        return Some(InvalidVerification);
      }
      if sender !in userMap || receiver !in userMap {
        return Some(UserNotExisted);
      }
      if HasPrivateRoom(sender, receiver) {
        return Some(PrivateRoomExisted);
      }
      if (sender, receiver) in friendPending {
        return Some(VerificationExisted);
      }
      EnterApplication(sender, receiver);
      error := None;
    }

    method EnterApplication(sender: UserID, receiver: UserID)
      requires Valid() && sender in userMap && receiver in userMap
      modifies this`friendPending, userMap.Values`friendVerification
      ensures FriendsView() == F.Enter(old(FriendsView()), sender, receiver)
    {
      friendPending := friendPending[(sender, receiver) := false];
      assert FriendsView() == old(FriendsView()).(pending := friendPending);
      AddFriendEntry(sender, receiver, Sent);
      AddFriendEntry(receiver, sender, Received);
    }

    method RemoveFriendVerification(sender: UserID, receiver: UserID) returns (error: Option<Errc>)
      requires Valid()
      modifies this`friendPending, userMap.Values`friendVerification
      ensures (FriendsView(), error) == F.TryRemoveVerification(old(FriendsView()), sender, receiver)
    {
      if sender == receiver {
        return Some(InvalidVerification);
      }
      if (sender, receiver) !in friendPending {
        return None;
      }
      friendPending := friendPending - {(sender, receiver)};
      if sender !in userMap {
        return Some(UserNotExisted);
      }
      RemoveFriendEntry(sender, receiver);
      if receiver !in userMap {
        return Some(UserNotExisted);
      }
      RemoveFriendEntry(receiver, sender);
      error := None;
    }

    /** The constructor of the room looks both users up. */
    method AddPrivateRoom(user1: UserID, user2: UserID) returns (error: Option<Errc>)
      modifies this`newGroupRoomId, this`privateRoomMap, this`privateRoomIDMap
      ensures (FriendsView(), error) == F.TryAddPrivateRoom(old(FriendsView()), user1, user2)
    {
      var id := newGroupRoomId;
      newGroupRoomId := newGroupRoomId + 1;
      if user1 !in userMap || user2 !in userMap {
        return Some(UserNotExisted);
      }
      privateRoomMap := privateRoomMap[id := F.PrivateRoom(user1, user2, {user1, user2})];
      privateRoomIDMap := privateRoomIDMap[F.Key(user1, user2) := id];
      error := None;
    }

    method MakeFriends(u: UserID, v: UserID)
      requires Valid() && u in userMap && v in userMap
      modifies userMap.Values`friendSet
      ensures FriendsView() == F.Befriend(F.Befriend(old(FriendsView()), u, v), v, u)
    {
      UpdateFriendList(u, userMap[u].friendSet + {v});
      UpdateFriendList(v, userMap[v].friendSet + {u});
    }

    method AcceptFriendVerification(sender: UserID, receiver: UserID) returns (error: Option<Errc>)
      requires Valid()
      modifies this`friendPending, this`newGroupRoomId, this`privateRoomMap, this`privateRoomIDMap
      modifies userMap.Values`friendVerification, userMap.Values`friendSet
      ensures (FriendsView(), error) == F.TryAcceptVerification(old(FriendsView()), sender, receiver)
    {
      if sender == receiver {
        return Some(InvalidVerification);
      }
      if (sender, receiver) !in friendPending {
        return Some(VerificationNotExisted);
      }
      friendPending := friendPending[(sender, receiver) := true];
      assert FriendsView() == old(FriendsView()).(pending := friendPending);
      error := AddPrivateRoom(sender, receiver);
      if error != None {
        return;
      }
      MakeFriends(sender, receiver);
      error := RemoveFriendVerification(sender, receiver);
    }

    // ---- friend commands

    method AddFriend(self: UserID, u: UserID) returns (reply: Reply)
      requires Valid()
      modifies this`friendPending, userMap.Values`friendVerification
      ensures (FriendsView(), reply) == F.AddFriend(old(FriendsView()), self, u)
      ensures Rooms() == old(Rooms())
    {
      if u !in userMap {
        return Failure;
      }
      if self !in userMap {
        return Thrown;
      }
      if self == u || HasPrivateRoom(self, u) || (self, u) in friendPending {
        return Failure;
      }
      var error := ApplyFriend(self, u);
      reply := if error == None then Success else Thrown;
      RoomsStay();
    }

    method AcceptFriend(self: UserID, u: UserID) returns (reply: Reply)
      requires Valid()
      modifies this`friendPending, this`newGroupRoomId, this`privateRoomMap, this`privateRoomIDMap
      modifies userMap.Values`friendVerification, userMap.Values`friendSet
      ensures (FriendsView(), reply) == F.AcceptFriend(old(FriendsView()), self, u)
      ensures Rooms() == old(Rooms())
    {
      if u !in userMap {
        return Failure;
      }
      if self !in userMap {
        return Thrown;
      }
      if self == u || (u, self) !in friendPending {
        return Success;
      }
      var error := AcceptFriendVerification(u, self);
      reply := if error == None then Success else Thrown;
      RoomsStay();
    }

    method RejectFriend(self: UserID, u: UserID) returns (reply: Reply)
      requires Valid()
      modifies this`friendPending, userMap.Values`friendVerification
      ensures (FriendsView(), reply) == F.RejectFriend(old(FriendsView()), self, u)
      ensures Rooms() == old(Rooms())
    {
      if u !in userMap {
        return Failure;
      }
      if self !in userMap {
        return Thrown;
      }
      if self == u || (u, self) !in friendPending {
        return Failure;
      }
      var error := RemoveFriendVerification(u, self);
      reply := if error == None then Success else Thrown;
      RoomsStay();
    }

    method RemoveFriend(self: UserID, u: UserID) returns (reply: Reply)
      requires Valid()
      modifies userMap.Values`friendSet
      ensures (FriendsView(), reply) == F.RemoveFriend(old(FriendsView()), self, u)
      ensures Rooms() == old(Rooms())
    {
      if u !in userMap {
        return Failure;
      }
      if self !in userMap {
        return Thrown;
      }
      if self == u || u !in userMap[self].friendSet {
        return Failure;
      }
      UpdateFriendList(self, userMap[self].friendSet - {u});
      UpdateFriendList(u, userMap[u].friendSet - {u});
      reply := Success;
      RoomsStay();
    }

    // ---- groups: one user's record and one room

    method AddGroupEntry(u: UserID, g: GroupID, e: G.GroupEntry)
      requires Valid() && u in userMap
      modifies userMap.Values`groupVerification
      ensures GroupsView() == G.AddEntry(old(GroupsView()), u, g, e)
    {
      userMap[u].AddGroupVerification(g, e);
      assert forall x <- userMap :: x != u ==> userMap[x] != userMap[u];
      assert forall x <- userMap :: userMap[x].groupVerification ==
               if x == u then G.Insert(old(userMap[u].groupVerification), g, e) else old(userMap[x].groupVerification);
    }

    method EraseGroupEntry(u: UserID, g: GroupID, who: UserID) returns (fault: G.Fault)
      requires Valid()
      modifies userMap.Values`groupVerification
      ensures (GroupsView(), fault) == G.EraseEntry(old(GroupsView()), u, g, who)
    {
      if u !in userMap {
        return G.Threw;
      }
      fault := userMap[u].RemoveGroupVerification(g, who);
      assert forall x <- userMap :: x != u ==> userMap[x] != userMap[u];
      assert forall x <- userMap :: userMap[x].groupVerification ==
               if x == u then G.Erase(old(userMap[u].groupVerification), g, who).0
                   else old(userMap[x].groupVerification);
      assert GroupEntries() == old(GroupEntries())[u := G.Erase(old(GroupEntries())[u], g, who).0];
      assert fault == G.Erase(old(GroupsView()).Entries(u), g, who).1;
    }

    method AddToGroupList(u: UserID, g: GroupID)
      requires Valid() && u in userMap
      modifies userMap.Values`groupSet
      ensures GroupsView() == G.ListGroup(old(GroupsView()), u, g)
    {
      userMap[u].groupSet := userMap[u].groupSet + {g};
      assert forall x <- userMap :: x != u ==> userMap[x] != userMap[u];
    }

    method AddGroupMember(u: UserID, g: GroupID)
      requires Valid() && g in groupRoomMap
      modifies groupRoomMap.Values
      ensures GroupsView() == G.SetRoom(old(GroupsView()), g, AddMember(old(groupRoomMap[g].View()), u))
      ensures groupRoomMap[g].administrator == old(groupRoomMap[g].administrator)
    {
      groupRoomMap[g].JoinMember(u);
      RoomsChanged(g);
    }

    /** A method that has changed a single room has changed a single entry of the view. */
    twostate lemma RoomsChanged(g: GroupID)
      requires Valid() && g in groupRoomMap && groupRoomMap == old(groupRoomMap)
      requires forall r <- groupRoomMap.Values :: r != groupRoomMap[g] ==> unchanged(r)
      ensures Rooms() == old(Rooms())[g := groupRoomMap[g].View()]
    {
      forall h | h in groupRoomMap && h != g
        ensures groupRoomMap[h].View() == old(groupRoomMap[h].View())
      {
        assert groupRoomMap[h] in groupRoomMap.Values && groupRoomMap[h] != groupRoomMap[g];
      }
    }

    // ---- groups: the central table

    method ApplyGroup(sender: UserID, g: GroupID) returns (fault: G.Fault)
      requires Valid()
      modifies this`groupPending, userMap.Values`groupVerification
      ensures (GroupsView(), fault) == G.Apply(old(GroupsView()), sender, g)
    {
      if g !in groupRoomMap || sender !in userMap || (sender, g) in groupPending {
        return G.Threw;
      }
      fault := EnterGroupApplication(sender, g);
    }

    method EnterGroupApplication(sender: UserID, g: GroupID) returns (fault: G.Fault)
      requires Valid() && sender in userMap && g in groupRoomMap
      modifies this`groupPending, userMap.Values`groupVerification
      ensures (GroupsView(), fault) == G.Enter(old(GroupsView()), sender, g)
    {
      groupPending := groupPending[(sender, g) := false];
      ghost var s1 := GroupsView();
      assert s1 == old(GroupsView()).(pending := groupPending);
      AddGroupEntry(sender, g, G.GroupEntry(sender, Sent));
      assert groupRoomMap[g].administrator == s1.rooms[g].admin;
      if groupRoomMap[g].administrator !in userMap {
        return G.Threw;
      }
      AddGroupEntry(groupRoomMap[g].administrator, g, G.GroupEntry(sender, Received));
      fault := G.NoFault;
    }

    method RemoveGroupVerification(sender: UserID, g: GroupID) returns (fault: G.Fault)
      requires Valid()
      modifies this`groupPending, userMap.Values`groupVerification
      ensures (GroupsView(), fault) == G.RemoveVerification(old(GroupsView()), sender, g)
    {
      if (sender, g) !in groupPending {
        return G.Threw;
      }
      groupPending := groupPending - {(sender, g)};
      assert GroupsView() == old(GroupsView()).(pending := groupPending);
      if g !in groupRoomMap {
        return G.Threw;
      }
      fault := EraseGroupEntry(groupRoomMap[g].administrator, g, sender);
      if fault == G.NoFault {
        fault := EraseGroupEntry(sender, g, sender);
      }
    }

    method AcceptGroupRoom(sender: UserID, g: GroupID) returns (fault: G.Fault)
      requires Valid()
      modifies this`groupPending, userMap.Values`groupVerification, userMap.Values`groupSet, groupRoomMap.Values
      ensures Valid()
      ensures (GroupsView(), fault) == G.Accept(old(GroupsView()), sender, g)
    {
      if (sender, g) !in groupPending {
        return G.Threw;
      }
      groupPending := groupPending[(sender, g) := true];
      assert GroupsView() == old(GroupsView()).(pending := groupPending);
      if g !in groupRoomMap || sender !in userMap {
        return G.Threw;
      }
      AdmitMember(sender, g);
      assert GroupsView() == G.Admitted(old(GroupsView()), sender, g);
      fault := RemoveGroupVerification(sender, g);
    }

    method AdmitMember(u: UserID, g: GroupID)
      requires Valid() && u in userMap && g in groupRoomMap
      modifies userMap.Values`groupSet, groupRoomMap.Values
      ensures GroupsView() == G.Admit(old(GroupsView()), u, g)
    {
      AddGroupMember(u, g);
      AddToGroupList(u, g);
    }

    // ---- group commands

    method AddGroup(self: UserID, g: GroupID) returns (reply: Reply)
      requires Valid()
      modifies this`groupPending, userMap.Values`groupVerification
      ensures (GroupsView(), reply) == G.AddGroup(old(GroupsView()), self, g)
    {
      if g !in groupRoomMap {
        return Failure;
      }
      if self !in userMap {
        return Thrown;
      }
      if self in groupRoomMap[g].userMap || (self, g) in groupPending {
        return Failure;
      }
      var fault := ApplyGroup(self, g);
      reply := G.Answer(fault);
    }

    method AcceptGroup(self: UserID, g: GroupID, u: UserID) returns (reply: Reply)
      requires Valid()
      modifies this`groupPending, userMap.Values`groupVerification, userMap.Values`groupSet, groupRoomMap.Values
      ensures (GroupsView(), reply) == G.AcceptGroup(old(GroupsView()), self, g, u)
    {
      if self !in userMap {
        return Thrown;
      }
      if g !in groupRoomMap || u in groupRoomMap[g].userMap || self != groupRoomMap[g].administrator {
        return Failure;
      }
      var fault := AcceptGroupRoom(u, g);
      reply := G.Answer(fault);
    }

    method RejectGroup(self: UserID, g: GroupID, u: UserID) returns (reply: Reply)
      requires Valid()
      modifies this`groupPending, userMap.Values`groupVerification
      ensures (GroupsView(), reply) == G.RejectGroup(old(GroupsView()), self, g, u)
    {
      if self !in userMap {
        return Thrown;
      }
      if g !in groupRoomMap || u in groupRoomMap[g].userMap || self != groupRoomMap[g].administrator {
        return Failure;
      }
      if (u, g) !in groupPending {
        return Failure;
      }
      var fault := RemoveGroupVerification(u, g);
      reply := G.Answer(fault);
    }

    /** The constructor of the room looks its creator up. */
    method AddGroupRoom(creator: UserID) returns (id: GroupID, fault: G.Fault)
      requires Valid()
      modifies this`newPrivateRoomId, this`groupRoomMap
      ensures Valid() && id == old(newPrivateRoomId)
      ensures (GroupsView(), fault) == G.AddGroupRoom(old(GroupsView()), creator)
      ensures fresh(groupRoomMap.Values - old(groupRoomMap.Values))
    {
      id := newPrivateRoomId;
      newPrivateRoomId := newPrivateRoomId + 1;
      if creator !in userMap {
        return id, G.Threw;
      }
      assert GroupsView() == old(GroupsView()).(nextRoom := id + 1);
      OpenGroupRoom(id, creator);
      fault := G.NoFault;
    }

    method OpenGroupRoom(g: GroupID, creator: UserID)
      requires Valid()
      modifies this`groupRoomMap
      ensures Valid() && GroupsView() == G.SetRoom(old(GroupsView()), g, NewRoom(creator))
      ensures fresh(groupRoomMap.Values - old(groupRoomMap.Values))
    {
      var room := new GroupRoom(g, creator);
      groupRoomMap := groupRoomMap[g := room];
      RoomAdded(g, room);
    }

    twostate lemma RoomAdded(g: GroupID, new room: GroupRoom)
      requires groupRoomMap == old(groupRoomMap)[g := room]
      requires forall r <- old(groupRoomMap.Values) :: unchanged(r)
      ensures Rooms() == old(Rooms())[g := room.View()]
    {
      forall h | h in old(groupRoomMap) && h != g
        ensures h in groupRoomMap && groupRoomMap[h].View() == old(groupRoomMap[h].View())
      {
        assert old(groupRoomMap)[h] in old(groupRoomMap.Values);
      }
    }

    method CreateGroup(self: UserID) returns (reply: Reply)
      requires Valid()
      modifies this`newPrivateRoomId, this`groupRoomMap, userMap.Values`groupSet
      ensures Valid()
      ensures (GroupsView(), reply) == G.CreateGroup(old(GroupsView()), self)
      ensures fresh(groupRoomMap.Values - old(groupRoomMap.Values))
    {
      if self !in userMap {
        return Failure;
      }
      var id, fault := AddGroupRoom(self);
      AddToGroupList(self, id);
      reply := Success;
    }

    method RemoveGroup(self: UserID, g: GroupID) returns (reply: Reply)
      requires Valid()
      modifies this`groupRoomMap
      ensures Valid() && groupRoomMap.Values <= old(groupRoomMap.Values)
      ensures (GroupsView(), reply) == G.RemoveGroup(old(GroupsView()), self, g)
    {
      if self !in userMap {
        return Thrown;
      }
      if g !in groupRoomMap || self != groupRoomMap[g].administrator {
        return Failure;
      }
      groupRoomMap := groupRoomMap - {g};
      assert Rooms() == old(Rooms()) - {g};
      reply := Success;
    }

    /** The member is dropped before the answer is known. */
    method LeaveGroup(self: UserID, g: GroupID) returns (reply: Reply)
      requires Valid()
      modifies groupRoomMap.Values
      ensures (GroupsView(), reply) == G.LeaveGroup(old(GroupsView()), self, g)
    {
      if self !in userMap {
        return Thrown;
      }
      if g !in groupRoomMap {
        return Failure;
      }
      groupRoomMap[g].DropMember(self);
      RoomsChanged(g);
      reply := if groupRoomMap[g].administrator == self then Failure else Success;
    }

    method SendGroupMessage(self: UserID, g: GroupID, text: string, now: Time)
      returns (reply: Reply, delivered: set<UserID>)
      requires Valid()
      modifies groupRoomMap.Values
      ensures G.Outcome(GroupsView(), reply, delivered) == G.SendGroupMessage(old(GroupsView()), self, g, text, now)
    {
      if g !in groupRoomMap {
        return Failure, {};
      }
      if self !in userMap {
        return Thrown, {};
      }
      if g !in userMap[self].groupSet {
        return Failure, {};
      }
      delivered := groupRoomMap[g].SendMessage(self, text, now);
      RoomsChanged(g);
      reply := Success;
    }

    method CleanGroupLog(g: GroupID, now: Time)
      requires Valid()
      modifies groupRoomMap.Values
      ensures GroupsView() == G.Do(old(GroupsView()), G.CleanGroupLog(g, now)).state
    {
      if g in groupRoomMap {
        groupRoomMap[g].Clean(now);
        RoomsChanged(g);
      }
    }

    // ---- connections

    method RegisterConnection(c: ConnectionID) returns (fault: C.Fault)
      modifies this`connectionMap
      ensures (ConnsView(), fault) == C.Register(old(ConnsView()), c)
    {
      if c in connectionMap {
        return C.Failed(SocketPointerExisted);
      }
      connectionMap := connectionMap[c := NO_USER];
      fault := C.Fine;
    }

    method AddUserConnection(u: UserID, c: ConnectionID, device: C.DeviceType) returns (fault: C.Fault)
      requires Valid() && u in userMap
      modifies userMap.Values`connectionMap
      ensures var (m, f) := C.Added(old(ConnsView()).Map(u), c, device);
              fault == f && ConnsView() == old(ConnsView()).(maps := old(ConnsView()).maps[u := m])
    {
      fault := userMap[u].AddConnection(c, device);
      assert forall x <- userMap :: x != u ==> userMap[x] != userMap[u];
      assert ConnectionMaps() == old(ConnectionMaps())[u := C.Added(old(ConnectionMaps())[u], c, device).0];
    }

    method RemoveUserConnection(u: UserID, c: ConnectionID) returns (fault: C.Fault)
      requires Valid() && u in userMap
      modifies userMap.Values`connectionMap
      ensures var (m, f) := C.Removed(old(ConnsView()).Map(u), c);
              fault == f && ConnsView() == old(ConnsView()).(maps := old(ConnsView()).maps[u := m])
    {
      fault := userMap[u].RemoveConnection(c);
      assert forall x <- userMap :: x != u ==> userMap[x] != userMap[u];
      assert ConnectionMaps() == old(ConnectionMaps())[u := C.Removed(old(ConnectionMaps())[u], c).0];
    }

    method Detach(c: ConnectionID) returns (fault: C.Fault)
      requires Valid() && c in connectionMap
      modifies userMap.Values`connectionMap
      ensures (ConnsView(), fault) == C.Detach(old(ConnsView()), c)
    {
      var u := connectionMap[c];
      if u == NO_USER {
        return C.Fine;
      }
      if u !in userMap {
        return C.BadIterator;
      }
      fault := RemoveUserConnection(u, c);
    }

    method ModifyUserOfConnection(c: ConnectionID, u: UserID, device: C.DeviceType) returns (fault: C.Fault)
      requires Valid()
      modifies this`connectionMap, userMap.Values`connectionMap
      ensures (ConnsView(), fault) == C.ModifyUser(old(ConnsView()), c, u, device)
    {
      if u !in userMap {
        return C.Failed(UserNotExisted);
      }
      if c !in connectionMap {
        return C.Failed(SocketPointerNotExisted);
      }
      fault := Detach(c);
      if fault != C.Fine {
        return;
      }
      ghost var s1 := ConnsView();
      fault := AddUserConnection(u, c, device);
      if fault != C.Fine {
        assert s1.maps[u := s1.Map(u)] == s1.maps;
        return;
      }
      connectionMap := connectionMap[c := u];
    }

    method RemoveConnection(c: ConnectionID) returns (fault: C.Fault)
      requires Valid()
      modifies this`connectionMap, userMap.Values`connectionMap
      ensures (ConnsView(), fault) == C.RemoveConnection(old(ConnsView()), c)
    {
      if c !in connectionMap {
        return C.Failed(SocketPointerNotExisted);
      }
      fault := Detach(c);
      if fault == C.Fine {
        connectionMap := connectionMap - {c};
      }
    }

    method OpenSession(c: ConnectionID) returns (fault: C.Fault)
      modifies this`connectionMap, this`sessions
      ensures (ConnsView(), fault) == C.OpenSession(old(ConnsView()), c)
    {
      fault := RegisterConnection(c);
      if fault == C.Fine {
        StartSession(c);
      }
    }

    method StartSession(c: ConnectionID)
      modifies this`sessions
      ensures ConnsView() == C.StartSession(old(ConnsView()), c)
    {
      sessions := sessions[c := NO_USER];
    }

    /** The session takes over the user id only after the table has. */
    method LogIn(c: ConnectionID, u: UserID, passwordOk: bool, device: C.DeviceType)
      returns (reply: Reply, fault: C.Fault)
      requires Valid()
      modifies this`connectionMap, this`sessions, userMap.Values`connectionMap
      ensures (ConnsView(), reply, fault) == C.LogIn(old(ConnsView()), c, u, passwordOk, device)
    {
      if u !in userMap {
        return Failure, C.Fine;
      }
      if passwordOk {
        fault := ModifyUserOfConnection(c, u, device);
        if fault == C.BadIterator {
          return Undefined, fault;
        }
        if fault != C.Fine {
          return Thrown, fault;
        }
        sessions := sessions[c := u];
        return Success, fault;
      }
      return Failure, C.Fine;
    }

    method CloseSession(c: ConnectionID) returns (fault: C.Fault)
      requires Valid()
      modifies this`connectionMap, this`sessions, userMap.Values`connectionMap
      ensures (ConnsView(), fault) == C.CloseSession(old(ConnsView()), c)
    {
      sessions := sessions - {c};
      fault := RemoveConnection(c);
    }

    /** `sendData` of a room over `notifyAll` of its users, one after the other. */
    method SendData(users: set<UserID>) returns (reached: set<ConnectionID>)
      requires Valid()
      ensures reached == S.Reached(View(), users)
    {
      reached := {};
      var rest := users;
      while rest != {}
        invariant rest <= users
        invariant forall c :: c in reached <==> exists u :: u in users && u !in rest && c in ConnsView().Map(u)
        decreases rest
      {
        SomeUser(rest);
        var u :| u in rest;
        rest := rest - {u};
        if u in userMap {
          reached := reached + userMap[u].connectionMap.Keys;
        }
      }
      assert View().conns == ConnsView();
      assert forall c :: c in reached <==> c in S.Reached(View(), users);
    }

    // ---- what arrives

    // Adding an object to the user map adds one record to each view and leaves the others.

    twostate lemma AddedFriendLists(u: UserID, new user: User)
      requires userMap == old(userMap)[u := user]
      requires forall x <- old(userMap) :: old(userMap)[x].friendSet == old(userMap[x].friendSet)
      ensures FriendLists() == old(FriendLists())[u := user.friendSet]
    {
      assert FriendLists().Keys == userMap.Keys && old(FriendLists()).Keys == old(userMap.Keys);
      assert forall x <- old(userMap) :: x != u ==> FriendLists()[x] == old(userMap[x].friendSet);
    }

    twostate lemma AddedFriendEntries(u: UserID, new user: User)
      requires userMap == old(userMap)[u := user]
      requires forall x <- old(userMap) :: old(userMap)[x].friendVerification == old(userMap[x].friendVerification)
      ensures FriendEntries() == old(FriendEntries())[u := user.friendVerification]
    {
      assert FriendEntries().Keys == userMap.Keys && old(FriendEntries()).Keys == old(userMap.Keys);
      assert forall x <- old(userMap) :: x != u ==> FriendEntries()[x] == old(userMap[x].friendVerification);
    }

    twostate lemma AddedGroupLists(u: UserID, new user: User)
      requires userMap == old(userMap)[u := user]
      requires forall x <- old(userMap) :: old(userMap)[x].groupSet == old(userMap[x].groupSet)
      ensures GroupLists() == old(GroupLists())[u := user.groupSet]
    {
      assert GroupLists().Keys == userMap.Keys && old(GroupLists()).Keys == old(userMap.Keys);
      assert forall x <- old(userMap) :: x != u ==> GroupLists()[x] == old(userMap[x].groupSet);
    }

    twostate lemma AddedGroupEntries(u: UserID, new user: User)
      requires userMap == old(userMap)[u := user]
      requires forall x <- old(userMap) :: old(userMap)[x].groupVerification == old(userMap[x].groupVerification)
      ensures GroupEntries() == old(GroupEntries())[u := user.groupVerification]
    {
      assert GroupEntries().Keys == userMap.Keys && old(GroupEntries()).Keys == old(userMap.Keys);
      assert forall x <- old(userMap) :: x != u ==> GroupEntries()[x] == old(userMap[x].groupVerification);
    }

    twostate lemma AddedConnectionMaps(u: UserID, new user: User)
      requires userMap == old(userMap)[u := user]
      requires forall x <- old(userMap) :: old(userMap)[x].connectionMap == old(userMap[x].connectionMap)
      ensures ConnectionMaps() == old(ConnectionMaps())[u := user.connectionMap]
    {
      assert ConnectionMaps().Keys == userMap.Keys && old(ConnectionMaps()).Keys == old(userMap.Keys);
      assert forall x <- old(userMap) :: x != u ==> ConnectionMaps()[x] == old(userMap[x].connectionMap);
    }

    method AddNewUser() returns (u: UserID)
      requires Valid()
      modifies this`newUserId, this`userMap
      ensures Valid() && fresh(userMap.Values - old(userMap.Values))
      ensures u == old(newUserId) && newUserId == u + 1
      ensures FriendLists() == old(FriendLists())[u := {}]
      ensures FriendEntries() == old(FriendEntries())[u := map[]]
      ensures GroupLists() == old(GroupLists())[u := {}]
      ensures GroupEntries() == old(GroupEntries())[u := map[]]
      ensures ConnectionMaps() == old(ConnectionMaps())[u := map[]]
    {
      u := newUserId;
      newUserId := newUserId + 1;
      var user := new User(u);
      userMap := userMap[u := user];
      AddedFriendLists(u, user);
      AddedFriendEntries(u, user);
      AddedGroupLists(u, user);
      AddedGroupEntries(u, user);
      AddedConnectionMaps(u, user);
    }

    method Register() returns (reply: Reply)
      requires Valid()
      modifies this`newUserId, this`userMap
      ensures Valid() && fresh(userMap.Values - old(userMap.Values))
      ensures View() == S.Execute(old(View()), NO_USER, S.Register).server && reply == Success
    {
      var u := AddNewUser();
      reply := Success;
    }

    method SendFriendMessage(self: UserID, u: UserID) returns (reply: Reply, delivered: set<UserID>)
      requires Valid()
      ensures (delivered, reply) == F.SendFriendMessage(FriendsView(), self, u)
    {
      if u !in userMap {
        return Failure, {};
      }
      if self !in userMap {
        return Thrown, {};
      }
      if u !in userMap[self].friendSet {
        return Failure, {};
      }
      if !HasPrivateRoom(self, u) || privateRoomIDMap[F.Key(self, u)] !in privateRoomMap {
        return Thrown, {};
      }
      var room := privateRoomMap[privateRoomIDMap[F.Key(self, u)]];
      delivered := if self in room.recipients then room.recipients else {};
      reply := Success;
    }

    method FriendStep(c: F.FriendCommand) returns (reply: Reply)
      requires Valid() && !c.NewUserCommand?
      modifies this`friendPending, this`newGroupRoomId, this`privateRoomMap, this`privateRoomIDMap
      modifies userMap.Values`friendVerification, userMap.Values`friendSet
      ensures FriendsView() == F.Step(old(FriendsView()), c) && reply == S.FriendReply(old(FriendsView()), c)
      ensures ConnsView() == old(ConnsView()) && Rooms() == old(Rooms())
      ensures GroupLists() == old(GroupLists()) && GroupEntries() == old(GroupEntries())
    {
      match c {
        case AddFriendCommand(self, u) => reply := AddFriend(self, u);
        case AcceptFriendCommand(self, u) => reply := AcceptFriend(self, u);
        case RejectFriendCommand(self, u) => reply := RejectFriend(self, u);
        case RemoveFriendCommand(self, u) => reply := RemoveFriend(self, u);
      }
      ConnsStay();
      GroupRecordsStay();
    }

    method DoFriendCommand(c: F.FriendCommand) returns (reply: Reply)
      requires Valid() && !c.NewUserCommand?
      modifies this`friendPending, this`newGroupRoomId, this`privateRoomMap, this`privateRoomIDMap
      modifies userMap.Values`friendVerification, userMap.Values`friendSet
      ensures FriendsView() == F.Step(old(FriendsView()), c) && reply == S.FriendReply(old(FriendsView()), c)
      ensures GroupsView() == old(GroupsView()) && ConnsView() == old(ConnsView())
    {
      reply := FriendStep(c);
    }

    /** The commands about applications. */
    method ApplicationStep(c: G.GroupCommand) returns (reply: Reply)
      requires Valid() && (c.AddGroupCommand? || c.AcceptGroupCommand? || c.RejectGroupCommand?)
      modifies this`groupPending, userMap.Values`groupVerification, userMap.Values`groupSet, groupRoomMap.Values
      ensures G.Outcome(GroupsView(), reply, {}) == G.Do(old(GroupsView()), c)
    {
      match c {
        case AddGroupCommand(self, g) => reply := AddGroup(self, g);
        case AcceptGroupCommand(self, g, u) => reply := AcceptGroup(self, g, u);
        case RejectGroupCommand(self, g, u) => reply := RejectGroup(self, g, u);
      }
    }

    /** And those about rooms and what is said in them. */
    method RoomStep(c: G.GroupCommand) returns (reply: Reply, delivered: set<UserID>)
      requires Valid() && !c.NewUserCommand?
      requires !c.AddGroupCommand? && !c.AcceptGroupCommand? && !c.RejectGroupCommand?
      modifies this`newPrivateRoomId, this`groupRoomMap, userMap.Values`groupSet, groupRoomMap.Values
      ensures Valid() && fresh(groupRoomMap.Values - old(groupRoomMap.Values))
      ensures G.Outcome(GroupsView(), reply, delivered) == G.Do(old(GroupsView()), c)
    {
      delivered := {};
      match c {
        case CreateGroupCommand(self) => reply := CreateGroup(self);
        case RemoveGroupCommand(self, g) => reply := RemoveGroup(self, g);
        case LeaveGroupCommand(self, g) => reply := LeaveGroup(self, g);
        case SendGroupMessageCommand(self, g, text, now) => reply, delivered := SendGroupMessage(self, g, text, now);
        case CleanGroupLog(g, now) => CleanGroupLog(g, now); reply := Success;
      }
    }

    method GroupStep(c: G.GroupCommand) returns (reply: Reply, delivered: set<UserID>)
      requires Valid() && !c.NewUserCommand?
      modifies this`groupPending, this`newPrivateRoomId, this`groupRoomMap
      modifies userMap.Values`groupVerification, userMap.Values`groupSet, groupRoomMap.Values
      ensures Valid() && fresh(groupRoomMap.Values - old(groupRoomMap.Values))
      ensures G.Outcome(GroupsView(), reply, delivered) == G.Do(old(GroupsView()), c)
      ensures ConnsView() == old(ConnsView())
    {
      if c.AddGroupCommand? || c.AcceptGroupCommand? || c.RejectGroupCommand? {
        reply := ApplicationStep(c);
        delivered := {};
      } else {
        reply, delivered := RoomStep(c);
      }
      ConnsStay();
    }

    method DoGroupCommand(c: G.GroupCommand) returns (reply: Reply, delivered: set<UserID>)
      requires Valid() && !c.NewUserCommand?
      modifies this`groupPending, this`newPrivateRoomId, this`groupRoomMap
      modifies userMap.Values`groupVerification, userMap.Values`groupSet, groupRoomMap.Values
      ensures Valid() && fresh(groupRoomMap.Values - old(groupRoomMap.Values))
      ensures G.Outcome(GroupsView(), reply, delivered) == G.Do(old(GroupsView()), c)
      ensures FriendsView() == old(FriendsView()) && ConnsView() == old(ConnsView())
    {
      reply, delivered := GroupStep(c);
      FriendsStay();
    }

    method FriendRequest(c: F.FriendCommand) returns (reply: Reply)
      requires Valid() && !c.NewUserCommand?
      modifies this, userMap.Values
      ensures Valid() && userMap == old(userMap) && groupRoomMap == old(groupRoomMap)
      ensures View() == old(View()).(friends := F.Step(old(FriendsView()), c))
              && reply == S.FriendReply(old(FriendsView()), c)
    {
      reply := DoFriendCommand(c);
    }

    method GroupRequest(c: G.GroupCommand) returns (reply: Reply, delivered: set<UserID>)
      requires Valid() && !c.NewUserCommand?
      modifies this, userMap.Values, groupRoomMap.Values
      ensures Valid() && userMap == old(userMap) && fresh(groupRoomMap.Values - old(groupRoomMap.Values))
      ensures var out := G.Do(old(GroupsView()), c);
              View() == old(View()).(groups := out.state) && reply == out.reply && delivered == out.delivered
    {
      reply, delivered := DoGroupCommand(c);
    }

    method SentGroupRequest(c: G.GroupCommand) returns (reply: Reply, reached: set<ConnectionID>)
      requires Valid() && !c.NewUserCommand?
      modifies this, userMap.Values, groupRoomMap.Values
      ensures Valid() && userMap == old(userMap) && fresh(groupRoomMap.Values - old(groupRoomMap.Values))
      ensures var out := G.Do(old(GroupsView()), c);
              && View() == old(View()).(groups := out.state)
              && reply == out.reply && reached == S.Reached(View(), out.delivered)
    {
      var delivered;
      reply, delivered := GroupRequest(c);
      reached := SendData(delivered);
    }

    method MessageRequest(self: UserID, u: UserID) returns (reply: Reply, reached: set<ConnectionID>)
      requires Valid()
      ensures var (users, answer) := F.SendFriendMessage(FriendsView(), self, u);
              reply == answer && reached == S.Reached(View(), users)
    {
      var delivered;
      reply, delivered := SendFriendMessage(self, u);
      reached := SendData(delivered);
    }

    /** Only a registration adds users. */
    predicate NoNewUser(friend: Option<F.FriendCommand>, group: Option<G.GroupCommand>) {
      (friend.Some? ==> !friend.value.NewUserCommand?) && (group.Some? ==> !group.value.NewUserCommand?)
    }

    lemma PartsNotNew(nextUser: UserID, self: UserID, cmd: S.Command)
      requires !cmd.Register?
      ensures NoNewUser(S.FriendPart(nextUser, self, cmd), S.GroupPart(nextUser, self, cmd))
    {
    }

    method ExecuteParts(friend: Option<F.FriendCommand>, group: Option<G.GroupCommand>)
      returns (reply: Reply, reached: set<ConnectionID>)
      requires Valid() && NoNewUser(friend, group)
      modifies this, userMap.Values, groupRoomMap.Values
      ensures Valid() && userMap == old(userMap) && fresh(groupRoomMap.Values - old(groupRoomMap.Values))
      ensures S.Outcome(View(), reply, reached) == S.ExecuteParts(old(View()), friend, group)
    {
      reached := {};
      if friend.Some? {
        reply := FriendRequest(friend.value);
      } else if group.Some? {
        reply, reached := SentGroupRequest(group.value);
      } else {
        reply := Failure;
      }
    }

    method Execute(self: UserID, cmd: S.Command) returns (reply: Reply, reached: set<ConnectionID>)
      requires Valid()
      modifies this, userMap.Values, groupRoomMap.Values
      ensures Valid()
      ensures S.Outcome(View(), reply, reached) == S.Execute(old(View()), self, cmd)
      ensures fresh(userMap.Values - old(userMap.Values)) && fresh(groupRoomMap.Values - old(groupRoomMap.Values))
    {
      if cmd.Register? {
        reply := Register();
        reached := {};
      } else if cmd.SendFriendMessage? {
        reply, reached := MessageRequest(self, cmd.user);
      } else {
        PartsNotNew(newUserId, self, cmd);
        reply, reached := ExecuteParts(S.FriendPart(newUserId, self, cmd), S.GroupPart(newUserId, self, cmd));
      }
    }

    /** Everything that happens to a connection, by the manager and the session. */
    method ConnectionEvent(e: C.Event) returns (reply: Reply)
      requires Valid() && !e.NewUserEvent?
      modifies this, userMap.Values
      ensures Valid() && userMap == old(userMap) && groupRoomMap == old(groupRoomMap)
      ensures View() == old(View()).(conns := C.Do(old(ConnsView()), e).0)
      ensures reply == if e.Login? then C.LogIn(old(ConnsView()), e.conn, e.user, e.passwordOk, e.device).1 else Success
    {
      reply := Success;
      match e {
        case Connect(c) => var _ := OpenSession(c);
        case Login(c, u, ok, device) => var answer, _ := LogIn(c, u, ok, device); reply := answer;
        case Disconnect(c) => var _ := CloseSession(c);
      }
      FriendsStay();
      GroupsStay();
    }

    /**
     * Everything the server does: the objects go through the states of the model, keep
     * all its invariants, and answer and deliver as it does.
     */
    method Handle(e: S.Event) returns (reply: Reply, reached: set<ConnectionID>)
      requires Valid() && S.Inv(View()) && S.Legal(View(), e)
      modifies this, userMap.Values, groupRoomMap.Values
      ensures Valid() && S.Inv(View())
      ensures S.Outcome(View(), reply, reached) == S.Do(old(View()), e)
      ensures fresh(userMap.Values - old(userMap.Values)) && fresh(groupRoomMap.Values - old(groupRoomMap.Values))
    {
      S.StepKeeps(View(), e);
      reply, reached := Success, {};
      match e
      case Connect(c) => reply := ConnectionEvent(C.Connect(c));
      case Login(c, u, ok, device) => reply := ConnectionEvent(C.Login(c, u, ok, device));
      case Disconnect(c) => reply := ConnectionEvent(C.Disconnect(c));
      case Request(c, cmd) => reply, reached := Execute(sessions[c], cmd);
      case CleanLog(g, now) => var _, _ := GroupRequest(G.CleanGroupLog(g, now));
    }
  }

  lemma SomeUser(s: set<UserID>)
    ensures s == {} || exists x :: x in s
  {
    if forall x :: x !in s {
      assert s == {};
    }
  }
}
