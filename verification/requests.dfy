// What each request does to the tables of the server, and what it is answered, on a
// connection that belongs to a user (server/jsonMessageProcess/JsonMsgProcess.cpp,
// server/jsonMessageProcess/JsonMsgProcessCommand.cpp).

module Requests {
  import opened Ids
  import opened Errors
  import opened Histories
  import opened Servers
  import F = Friendship
  import G = GroupMembership
  import C = Connections
  import R = GroupRooms

  /** On a connection of `self` a request is served for `self`. */
  lemma ServedFor(evs: seq<Event>, c: ConnectionID, self: UserID, cmd: Command)
    requires LegalRun(evs) && BelongsTo(evs, c, self)
    ensures Inv(Run(evs)) && Run(evs).friends.HasUser(self) && Run(evs).groups.HasUser(self)
    ensures Do(Run(evs), Request(c, cmd)) == Execute(Run(evs), self, cmd)
  {
    InvAlways(evs);
    ConnectionsOf(evs, c, self);
    UserOfConnection(evs, c, self);
  }

  lemma ServedFriend(evs: seq<Event>, c: ConnectionID, self: UserID, cmd: Command, fc: F.FriendCommand)
    requires LegalRun(evs) && BelongsTo(evs, c, self)
    requires !cmd.Register? && FriendPart(Run(evs).nextUser, self, cmd) == Some(fc)
    ensures F.Inv(Run(evs).friends) && Run(evs).friends.HasUser(self)
    ensures var s := Run(evs);
            Do(s, Request(c, cmd)) == Outcome(s.(friends := F.Step(s.friends, fc)), FriendReply(s.friends, fc), {})
  {
    ServedFor(evs, c, self, cmd);
    FriendExecuted(Run(evs), self, cmd, fc);
  }

  lemma FriendExecuted(s: Server, self: UserID, cmd: Command, fc: F.FriendCommand)
    requires Inv(s) && !cmd.Register? && FriendPart(s.nextUser, self, cmd) == Some(fc)
    ensures F.Inv(s.friends)
    ensures Execute(s, self, cmd) == Outcome(s.(friends := F.Step(s.friends, fc)), FriendReply(s.friends, fc), {})
  {
  }

  lemma ServedGroup(evs: seq<Event>, c: ConnectionID, self: UserID, cmd: Command, gc: G.GroupCommand)
    requires LegalRun(evs) && BelongsTo(evs, c, self)
    requires !cmd.Register? && GroupPart(Run(evs).nextUser, self, cmd) == Some(gc)
    ensures G.Inv(Run(evs).groups) && Run(evs).groups.HasUser(self)
    ensures var (s, out) := (Run(evs), G.Do(Run(evs).groups, gc));
            && Do(s, Request(c, cmd)).server == s.(groups := out.state) && Do(s, Request(c, cmd)).reply == out.reply
            && (out.delivered == {} ==> Do(s, Request(c, cmd)).delivered == {})
  {
    ServedFor(evs, c, self, cmd);
    GroupExecuted(Run(evs), self, cmd, gc);
  }

  lemma GroupExecuted(s: Server, self: UserID, cmd: Command, gc: G.GroupCommand)
    requires Inv(s) && !cmd.Register? && GroupPart(s.nextUser, self, cmd) == Some(gc)
    ensures G.Inv(s.groups)
    ensures var (r, out) := (Execute(s, self, cmd), G.Do(s.groups, gc));
            && r.server == s.(groups := out.state) && r.reply == out.reply
            && (out.delivered == {} ==> r.delivered == {})
  {
  }

  predicate Answers(out: Outcome, success: bool) {
    out.reply == (if success then Success else Failure) && out.delivered == {}
  }

  // ------------------------------------------------------------------------
  // Friends
  // ------------------------------------------------------------------------

  ghost predicate SameLists(f: F.Friends, f': F.Friends) {
    forall x, y :: f'.IsFriend(x, y) <==> f.IsFriend(x, y)
  }

  ghost predicate SamePending(f: F.Friends, f': F.Friends) {
    forall x, y :: (x, y) in f'.pending <==> (x, y) in f.pending
  }

  ghost predicate SameEntries(f: F.Friends, f': F.Friends) {
    forall x, y :: f'.Entry(x, y) == f.Entry(x, y)
  }

  ghost predicate SameRooms(f: F.Friends, f': F.Friends) {
    f'.rooms == f.rooms && f'.pairIndex == f.pairIndex && f'.nextRoom == f.nextRoom
  }

  /** The two have no entries for each other any more; all others are as before. */
  ghost predicate EntriesGone(f: F.Friends, f': F.Friends, u: UserID, v: UserID) {
    forall x, y :: f'.Entry(x, y) == if (x, y) == (u, v) || (x, y) == (v, u) then None else f.Entry(x, y)
  }

  lemma Pending(f: F.Friends, c: F.FriendCommand)
    requires F.Inv(f)
    ensures forall x, y :: (x, y) in F.Step(f, c).pending <==>
              F.PendingMark(f, c, x, y) == Makes || (F.PendingMark(f, c, x, y) != Ends && (x, y) in f.pending)
  {
    forall x, y { F.StepPending(f, c, x, y); }
  }

  // ---- an application

  ghost predicate Applies(f: F.Friends, f': F.Friends, self: UserID, u: UserID, able: bool) {
    && SameLists(f, f') && SameRooms(f, f')
    && (forall x, y :: (x, y) in f'.pending <==> (x, y) in f.pending || (able && (x, y) == (self, u)))
    && (if able && f.Entry(self, u) == None
        then forall x, y :: f'.Entry(x, y) == if (x, y) == (self, u) then Some(Sent)
                                              else if (x, y) == (u, self) then Some(Received) else f.Entry(x, y)
        else SameEntries(f, f'))
  }

  lemma Applied(f: F.Friends, self: UserID, u: UserID)
    requires F.Inv(f) && f.HasUser(self)
    ensures var able := f.HasUser(u) && self != u && !f.HasRoom(self, u) && (self, u) !in f.pending;
            && F.AddFriend(f, self, u).1 == (if able then Success else Failure)
            && Applies(f, F.AddFriend(f, self, u).0, self, u, able)
  {
    F.AddFriendAnswer(f, self, u);
    if F.Apply(f, self, u).Ok? {
      F.ApplyEntries(f, self, u);
    }
  }

  lemma AddFriendRequest(evs: seq<Event>, c: ConnectionID, self: UserID, u: UserID)
    requires LegalRun(evs) && BelongsTo(evs, c, self)
    ensures var (s, out) := (Run(evs), Do(Run(evs), Request(c, AddFriend(u))));
            var able := s.friends.HasUser(u) && self != u && !s.friends.HasRoom(self, u)
                        && (self, u) !in s.friends.pending;
            && Answers(out, able) && out.server == s.(friends := out.server.friends)
            && Applies(s.friends, out.server.friends, self, u, able)
  {
    ServedFriend(evs, c, self, AddFriend(u), F.AddFriendCommand(self, u));
    Applied(Run(evs).friends, self, u);
  }

  // ---- an acceptance: success even if there was nothing to accept

  ghost predicate Accepts(f: F.Friends, f': F.Friends, self: UserID, u: UserID, took: bool) {
    && (forall x, y :: (x, y) in f'.pending <==> (x, y) in f.pending && (x, y) != (u, self))
    && (forall x, y :: f'.IsFriend(x, y) <==>
          f.IsFriend(x, y) || (took && ((x, y) == (self, u) || (x, y) == (u, self))))
    && (forall x, y :: |f'.RoomsOf(x, y)| == |f.RoomsOf(x, y)|
          + if took && ((x, y) == (self, u) || (x, y) == (u, self)) then 1 else 0)
    && (if took then EntriesGone(f, f', u, self) else SameEntries(f, f'))
  }

  lemma Accepted(f: F.Friends, self: UserID, u: UserID)
    requires F.Inv(f) && f.HasUser(self)
    ensures F.AcceptFriend(f, self, u).1 == if f.HasUser(u) then Success else Failure
    ensures Accepts(f, F.AcceptFriend(f, self, u).0, self, u, (u, self) in f.pending)
  {
    var f' := F.AcceptFriend(f, self, u).0;
    AcceptedPending(f, self, u);
    AcceptedLists(f, self, u);
    AcceptedRooms(f, self, u);
    AcceptedEntries(f, self, u);
    assert f' == F.Step(f, F.AcceptFriendCommand(self, u));
  }

  lemma AcceptedPending(f: F.Friends, self: UserID, u: UserID)
    requires F.Inv(f)
    ensures forall x, y :: (x, y) in F.Step(f, F.AcceptFriendCommand(self, u)).pending <==>
              (x, y) in f.pending && (x, y) != (u, self)
  {
    Pending(f, F.AcceptFriendCommand(self, u));
  }

  lemma AcceptedLists(f: F.Friends, self: UserID, u: UserID)
    requires F.Inv(f)
    ensures forall x, y :: F.Step(f, F.AcceptFriendCommand(self, u)).IsFriend(x, y) <==>
              f.IsFriend(x, y) || ((u, self) in f.pending && ((x, y) == (self, u) || (x, y) == (u, self)))
  {
    forall x, y
      ensures F.Step(f, F.AcceptFriendCommand(self, u)).IsFriend(x, y) <==>
                f.IsFriend(x, y) || ((u, self) in f.pending && ((x, y) == (self, u) || (x, y) == (u, self)))
    {
      F.StepList(f, F.AcceptFriendCommand(self, u), x, y);
      F.AddsIs(f, F.AcceptFriendCommand(self, u), x, y);
    }
  }

  lemma AcceptedRooms(f: F.Friends, self: UserID, u: UserID)
    requires F.Inv(f)
    ensures forall x, y :: |F.Step(f, F.AcceptFriendCommand(self, u)).RoomsOf(x, y)| == |f.RoomsOf(x, y)|
              + if (u, self) in f.pending && ((x, y) == (self, u) || (x, y) == (u, self)) then 1 else 0
  {
    forall x, y
      ensures |F.Step(f, F.AcceptFriendCommand(self, u)).RoomsOf(x, y)| == |f.RoomsOf(x, y)|
                + if (u, self) in f.pending && ((x, y) == (self, u) || (x, y) == (u, self)) then 1 else 0
    {
      F.StepRooms(f, F.AcceptFriendCommand(self, u), x, y);
      F.AddsIs(f, F.AcceptFriendCommand(self, u), x, y);
    }
  }

  lemma AcceptedEntries(f: F.Friends, self: UserID, u: UserID)
    requires F.Inv(f)
    ensures forall x, y :: F.Step(f, F.AcceptFriendCommand(self, u)).Entry(x, y) ==
              if (u, self) in f.pending && ((x, y) == (u, self) || (x, y) == (self, u)) then None else f.Entry(x, y)
  {
    if (u, self) in f.pending {
      F.JoinedEntries(f, u, self);
      F.RemovedEntries(F.Joined(f, u, self), u, self);
    }
  }

  lemma AcceptFriendRequest(evs: seq<Event>, c: ConnectionID, self: UserID, u: UserID)
    requires LegalRun(evs) && BelongsTo(evs, c, self)
    ensures var (s, out) := (Run(evs), Do(Run(evs), Request(c, AcceptFriend(u))));
            && Answers(out, s.friends.HasUser(u)) && out.server == s.(friends := out.server.friends)
            && Accepts(s.friends, out.server.friends, self, u, (u, self) in s.friends.pending)
  {
    ServedFriend(evs, c, self, AcceptFriend(u), F.AcceptFriendCommand(self, u));
    Accepted(Run(evs).friends, self, u);
  }

  // ---- a rejection

  ghost predicate Rejects(f: F.Friends, f': F.Friends, self: UserID, u: UserID, took: bool) {
    && SameLists(f, f') && SameRooms(f, f')
    && (forall x, y :: (x, y) in f'.pending <==> (x, y) in f.pending && (x, y) != (u, self))
    && (if took then EntriesGone(f, f', u, self) else SameEntries(f, f'))
  }

  lemma Rejected(f: F.Friends, self: UserID, u: UserID)
    requires F.Inv(f) && f.HasUser(self)
    ensures F.RejectFriend(f, self, u).1 == if (u, self) in f.pending then Success else Failure
    ensures Rejects(f, F.RejectFriend(f, self, u).0, self, u, (u, self) in f.pending)
  {
    if (u, self) in f.pending {
      assert f.HasUser(u) && u != self;
      F.RemovedEntries(f, u, self);
    }
  }

  lemma RejectFriendRequest(evs: seq<Event>, c: ConnectionID, self: UserID, u: UserID)
    requires LegalRun(evs) && BelongsTo(evs, c, self)
    ensures var (s, out) := (Run(evs), Do(Run(evs), Request(c, RejectFriend(u))));
            var took := (u, self) in s.friends.pending;
            && Answers(out, took) && out.server == s.(friends := out.server.friends)
            && Rejects(s.friends, out.server.friends, self, u, took)
  {
    ServedFriend(evs, c, self, RejectFriend(u), F.RejectFriendCommand(self, u));
    Rejected(Run(evs).friends, self, u);
  }

  // ---- a removal

  ghost predicate Removes(f: F.Friends, f': F.Friends, self: UserID, u: UserID) {
    && SamePending(f, f') && SameRooms(f, f') && SameEntries(f, f')
    && (forall x, y :: f'.IsFriend(x, y) <==> f.IsFriend(x, y) && (x, y) != (self, u))
  }

  lemma Removed(f: F.Friends, self: UserID, u: UserID)
    requires F.Inv(f) && f.HasUser(self)
    ensures F.RemoveFriend(f, self, u).1 == if f.IsFriend(self, u) then Success else Failure
    ensures Removes(f, F.RemoveFriend(f, self, u).0, self, u)
  {
    assert f.IsFriend(self, u) ==> f.HasUser(u) && u != self;
    if f.IsFriend(self, u) {
      F.RemovedOneWay(f, self, u);
    }
  }

  lemma RemoveFriendRequest(evs: seq<Event>, c: ConnectionID, self: UserID, u: UserID)
    requires LegalRun(evs) && BelongsTo(evs, c, self)
    ensures var (s, out) := (Run(evs), Do(Run(evs), Request(c, RemoveFriend(u))));
            && Answers(out, s.friends.IsFriend(self, u)) && out.server == s.(friends := out.server.friends)
            && Removes(s.friends, out.server.friends, self, u)
  {
    ServedFriend(evs, c, self, RemoveFriend(u), F.RemoveFriendCommand(self, u));
    Removed(Run(evs).friends, self, u);
  }

  lemma FriendMessageRequest(evs: seq<Event>, c: ConnectionID, self: UserID, u: UserID)
    requires LegalRun(evs) && BelongsTo(evs, c, self)
    ensures Do(Run(evs), Request(c, SendFriendMessage(u))).server == Run(evs)
  {
    ServedFor(evs, c, self, SendFriendMessage(u));
  }

  // ------------------------------------------------------------------------
  // Groups
  // ------------------------------------------------------------------------

  ghost predicate OnlyGroups(s: Server, s': Server) { s' == s.(groups := s'.groups) }

  ghost predicate SameGroupLists(s: Server, s': Server) {
    forall x, h :: h in s'.groups.List(x) <==> h in s.groups.List(x)
  }

  /** The administrator of a live group. */
  predicate Leads(s: Server, u: UserID, g: GroupID) { g in s.groups.rooms && s.groups.rooms[g].admin == u }

  lemma GroupTables(s: G.Groups, c: G.GroupCommand)
    requires G.Inv(s) && G.Legal(s, c)
    ensures forall x, h :: G.Do(s, c).state.IsPending(x, h) <==>
              G.PendingMark(s, c, x, h) == Makes || (G.PendingMark(s, c, x, h) != Ends && s.IsPending(x, h))
    ensures forall x, h :: h in G.Do(s, c).state.List(x) <==>
              h in s.List(x) || G.MemberMark(s, c, x, h) == Makes
  {
    forall x, h { G.StepPending(s, c, x, h); }
    forall x, h { G.StepList(s, c, x, h); }
  }

  lemma AddGroupRequest(evs: seq<Event>, c: ConnectionID, self: UserID, g: GroupID)
    requires LegalRun(evs) && BelongsTo(evs, c, self)
    ensures var (s, out) := (Run(evs), Do(Run(evs), Request(c, AddGroup(g))));
            var able := g in s.groups.rooms && !s.groups.IsMember(self, g) && !s.groups.IsPending(self, g);
            && Answers(out, able) && OnlyGroups(s, out.server) && SameGroupLists(s, out.server)
            && out.server.groups.rooms == s.groups.rooms
            && forall x, h :: out.server.groups.IsPending(x, h) <==>
                 s.groups.IsPending(x, h) || (able && (x, h) == (self, g))
  {
    ServedGroup(evs, c, self, AddGroup(g), G.AddGroupCommand(self, g));
    var s := Run(evs).groups;
    G.AddGroupKeeps(s, self, g);
    G.AddRoom(s, self, g);
    GroupTables(s, G.AddGroupCommand(self, g));
  }

  lemma AcceptGroupRequest(evs: seq<Event>, c: ConnectionID, self: UserID, g: GroupID, u: UserID)
    requires LegalRun(evs) && BelongsTo(evs, c, self)
    ensures var (s, out) := (Run(evs), Do(Run(evs), Request(c, AcceptGroup(g, u))));
            var took := Leads(s, self, g) && s.groups.IsPending(u, g);
            && out.reply == (if took then Success
                             else if Leads(s, self, g) && !s.groups.IsMember(u, g) then Thrown else Failure)
            && out.delivered == {} && OnlyGroups(s, out.server)
            && out.server.groups.rooms == (if took then
                 var r := s.groups.rooms[g];
                 s.groups.rooms[g := r.(members := r.members + {u}, recipients := r.recipients + {u})]
               else s.groups.rooms)
            && (forall x, h :: h in out.server.groups.List(x) <==>
                  h in s.groups.List(x) || (took && (x, h) == (u, g)))
            && (forall x, h :: out.server.groups.IsPending(x, h) <==>
                  s.groups.IsPending(x, h) && !(took && (x, h) == (u, g)))
  {
    ServedGroup(evs, c, self, AcceptGroup(g, u), G.AcceptGroupCommand(self, g, u));
    var s := Run(evs).groups;
    G.AcceptGroupKeeps(s, self, g, u);
    G.AcceptRoom(s, self, g, u);
    AcceptedTables(s, self, g, u);
  }

  lemma AcceptedTables(s: G.Groups, self: UserID, g: GroupID, u: UserID)
    requires G.Inv(s) && s.HasUser(self)
    ensures var (s', took) :=
              (G.AcceptGroup(s, self, g, u).0, g in s.rooms && s.rooms[g].admin == self && s.IsPending(u, g));
            && (forall x, h :: h in s'.List(x) <==> h in s.List(x) || (took && (x, h) == (u, g)))
            && (forall x, h :: s'.IsPending(x, h) <==> s.IsPending(x, h) && !(took && (x, h) == (u, g)))
  {
    G.AcceptEndsPending(s, self, g, u);
    forall x { G.AcceptList(s, self, g, u, x); }
  }

  lemma RejectGroupRequest(evs: seq<Event>, c: ConnectionID, self: UserID, g: GroupID, u: UserID)
    requires LegalRun(evs) && BelongsTo(evs, c, self)
    ensures var (s, out) := (Run(evs), Do(Run(evs), Request(c, RejectGroup(g, u))));
            var took := Leads(s, self, g) && s.groups.IsPending(u, g);
            && Answers(out, took) && OnlyGroups(s, out.server) && SameGroupLists(s, out.server)
            && out.server.groups.rooms == s.groups.rooms
            && forall x, h :: out.server.groups.IsPending(x, h) <==>
                 s.groups.IsPending(x, h) && !(took && (x, h) == (u, g))
  {
    ServedGroup(evs, c, self, RejectGroup(g, u), G.RejectGroupCommand(self, g, u));
    RejectedTables(Run(evs).groups, self, g, u);
  }

  lemma RejectedTables(s: G.Groups, self: UserID, g: GroupID, u: UserID)
    requires G.Inv(s) && s.HasUser(self)
    ensures var ((s', reply), took) :=
              (G.RejectGroup(s, self, g, u), g in s.rooms && s.rooms[g].admin == self && s.IsPending(u, g));
            && reply == (if took then Success else Failure) && s'.rooms == s.rooms
            && (forall x, h :: h in s'.List(x) <==> h in s.List(x))
            && (forall x, h :: s'.IsPending(x, h) <==> s.IsPending(x, h) && !(took && (x, h) == (u, g)))
  {
    G.RejectGroupKeeps(s, self, g, u);
    G.RejectRoom(s, self, g, u);
    G.RejectEndsPending(s, self, g, u);
    if g in s.rooms && s.IsPending(u, g) {
      G.RemovalFindsMatches(s, u, g);
    }
  }

  ghost predicate Founds(s: G.Groups, s': G.Groups, self: UserID) {
    && (forall x, h :: s'.IsPending(x, h) <==> s.IsPending(x, h))
    && s.nextRoom !in s.rooms && s'.nextRoom == s.nextRoom + 1
    && s'.rooms == s.rooms[s.nextRoom := R.Room(self, {self}, {self}, map[], map[])]
    && forall x, h :: h in s'.List(x) <==> h in s.List(x) || (x, h) == (self, s.nextRoom)
  }

  lemma Founded(s: G.Groups, self: UserID)
    requires G.Inv(s) && s.HasUser(self)
    ensures var out := G.Do(s, G.CreateGroupCommand(self));
            out.reply == Success && out.delivered == {} && Founds(s, out.state, self)
  {
  }

  /** The creator is administrator and only member of a room without messages under a new id. */
  lemma CreateGroupRequest(evs: seq<Event>, c: ConnectionID, self: UserID)
    requires LegalRun(evs) && BelongsTo(evs, c, self)
    ensures var (s, out) := (Run(evs), Do(Run(evs), Request(c, CreateGroup)));
            Answers(out, true) && OnlyGroups(s, out.server) && Founds(s.groups, out.server.groups, self)
  {
    ServedGroup(evs, c, self, CreateGroup, G.CreateGroupCommand(self));
    Founded(Run(evs).groups, self);
  }

  ghost predicate Disbands(s: G.Groups, s': G.Groups, self: UserID, g: GroupID) {
    && s' == s.(rooms := s'.rooms)
    && s'.rooms == if g in s.rooms && s.rooms[g].admin == self then s.rooms - {g} else s.rooms
  }

  lemma Disbanded(s: G.Groups, self: UserID, g: GroupID)
    requires s.HasUser(self)
    ensures var out := G.Do(s, G.RemoveGroupCommand(self, g));
            && out.reply == (if g in s.rooms && s.rooms[g].admin == self then Success else Failure)
            && out.delivered == {} && Disbands(s, out.state, self, g)
  {
  }

  /** The room goes, and nothing else: not the group from the lists, not the applications to it. */
  lemma RemoveGroupRequest(evs: seq<Event>, c: ConnectionID, self: UserID, g: GroupID)
    requires LegalRun(evs) && BelongsTo(evs, c, self)
    ensures var (s, out) := (Run(evs), Do(Run(evs), Request(c, RemoveGroup(g))));
            && Answers(out, Leads(s, self, g))
            && OnlyGroups(s, out.server) && Disbands(s.groups, out.server.groups, self, g)
  {
    ServedGroup(evs, c, self, RemoveGroup(g), G.RemoveGroupCommand(self, g));
    Disbanded(Run(evs).groups, self, g);
  }

  ghost predicate Leaves(s: G.Groups, s': G.Groups, self: UserID, g: GroupID) {
    && s' == s.(rooms := s'.rooms)
    && s'.rooms == if g !in s.rooms then s.rooms
                   else
                     var r := s.rooms[g];
                     s.rooms[g := r.(members := r.members - {self}, recipients := r.recipients - {self})]
  }

  lemma Left(s: G.Groups, self: UserID, g: GroupID)
    requires s.HasUser(self)
    ensures var out := G.Do(s, G.LeaveGroupCommand(self, g));
            && out.reply == (if g in s.rooms && s.rooms[g].admin != self then Success else Failure)
            && out.delivered == {} && Leaves(s, out.state, self, g)
  {
  }

  /** The member goes even if the administrator is told that it failed. */
  lemma LeaveGroupRequest(evs: seq<Event>, c: ConnectionID, self: UserID, g: GroupID)
    requires LegalRun(evs) && BelongsTo(evs, c, self)
    ensures var (s, out) := (Run(evs), Do(Run(evs), Request(c, LeaveGroup(g))));
            && Answers(out, g in s.groups.rooms && !Leads(s, self, g))
            && OnlyGroups(s, out.server) && Leaves(s.groups, out.server.groups, self, g)
  {
    ServedGroup(evs, c, self, LeaveGroup(g), G.LeaveGroupCommand(self, g));
    Left(Run(evs).groups, self, g);
  }

  ghost predicate Posts(s: G.Groups, s': G.Groups, self: UserID, g: GroupID, text: string, now: R.Time) {
    && s' == s.(rooms := s'.rooms)
    && s'.rooms == if !s.IsMember(self, g) then s.rooms
                   else
                     var r, m := s.rooms[g], R.Message(self, text, R.NormalMessage, None);
                     s.rooms[g := r.(log := r.log[R.LeastFree(r.log.Keys, now) := m])]
  }

  lemma Posted(s: G.Groups, self: UserID, g: GroupID, text: string, now: R.Time)
    requires G.Inv(s) && s.HasUser(self)
    ensures var out := G.Do(s, G.SendGroupMessageCommand(self, g, text, now));
            && out.reply == (if g in s.rooms && g in s.List(self) then Success else Failure)
            && Posts(s, out.state, self, g, text, now)
  {
    if g in s.rooms {
      G.GroupMessageDelivered(s, self, g, text, now);
    }
  }

  /** Success is for whoever has the group on the list; the message is stored for members only. */
  lemma GroupMessageRequest(evs: seq<Event>, c: ConnectionID, self: UserID, g: GroupID, text: string, now: R.Time)
    requires LegalRun(evs) && BelongsTo(evs, c, self)
    ensures var (s, out) := (Run(evs), Do(Run(evs), Request(c, SendGroupMessage(g, text, now))));
            && out.reply == (if g in s.groups.rooms && g in s.groups.List(self) then Success else Failure)
            && OnlyGroups(s, out.server) && Posts(s.groups, out.server.groups, self, g, text, now)
  {
    ServedGroup(evs, c, self, SendGroupMessage(g, text, now), G.SendGroupMessageCommand(self, g, text, now));
    Posted(Run(evs).groups, self, g, text, now);
  }

  // ------------------------------------------------------------------------
  // Registration, login, and requests of nobody
  // ------------------------------------------------------------------------

  /** One user more, without friends, groups, entries or connections, whoever asks. */
  lemma RegisterRequest(evs: seq<Event>, c: ConnectionID)
    requires LegalRun(evs) && Run(evs).conns.IsOpen(c)
    ensures var (s, out) := (Run(evs), Do(Run(evs), Request(c, Register)));
            var (s', u) := (out.server, s.nextUser);
            && Answers(out, true) && s'.nextUser == u + 1
            && u !in s.friends.lists && u !in s.groups.lists && u !in s.conns.maps
            && s'.friends == s.friends.(lists := s.friends.lists[u := {}], entries := s.friends.entries[u := map[]])
            && s'.groups == s.groups.(lists := s.groups.lists[u := {}], entries := s.groups.entries[u := map[]])
            && s'.conns == s.conns.(maps := s.conns.maps[u := map[]])
  {
    InvAlways(evs);
    assert !Run(evs).friends.HasUser(Run(evs).nextUser) && !Run(evs).groups.HasUser(Run(evs).nextUser);
    assert !Run(evs).conns.HasUser(Run(evs).nextUser);
  }

  /** What connects, logs in or disconnects changes no relation; a login succeeds for the right password of a user. */
  lemma ConnectionEvents(evs: seq<Event>, e: Event)
    requires LegalRun(evs) && Legal(Run(evs), e) && (e.Connect? || e.Login? || e.Disconnect?)
    ensures var (s, out) := (Run(evs), Do(Run(evs), e));
            && out.server == s.(conns := out.server.conns)
            && Answers(out, e.Login? ==> e.passwordOk && FIRST_ID <= e.user < s.nextUser)
  {
    InvAlways(evs);
    if e.Login? {
      C.LogInMaps(Run(evs).conns, e.conn, e.user, e.passwordOk, e.device);
      assert Run(evs).conns.HasUser(e.user) <==> FIRST_ID <= e.user < Run(evs).nextUser;
    }
  }

  /** Without a login a request other than a registration changes nothing, reaches nobody and does not succeed. */
  lemma RequestOfNobody(evs: seq<Event>, c: ConnectionID, cmd: Command)
    requires LegalRun(evs) && Run(evs).conns.IsOpen(c) && cmd != Register
    requires forall u :: !BelongsTo(evs, c, u)
    ensures var out := Do(Run(evs), Request(c, cmd));
            out.server == Run(evs) && out.delivered == {} && out.reply != Success
  {
    InvAlways(evs);
    NobodyIs(evs, c);
    assert !Run(evs).friends.HasUser(NO_USER) && !Run(evs).groups.HasUser(NO_USER);
    ExecuteForNobody(Run(evs), NO_USER, cmd);
  }

  lemma ExecuteForNobody(s: Server, none: UserID, cmd: Command)
    requires !s.friends.HasUser(none) && !s.groups.HasUser(none) && cmd != Register
    ensures var out := Execute(s, none, cmd);
            out.server == s && out.delivered == {} && out.reply != Success
  {
    var friend, group := FriendPart(s.nextUser, none, cmd), GroupPart(s.nextUser, none, cmd);
    if friend.Some? {
      FriendsOfNobody(s.friends, friend.value);
    } else if group.Some? {
      G.OthersChangeNothing(s.groups, group.value);
    }
    assert Reached(s, {}) == {};
  }

  lemma FriendsOfNobody(f: F.Friends, c: F.FriendCommand)
    requires !c.NewUserCommand? && !f.HasUser(c.self)
    ensures F.Step(f, c) == f && FriendReply(f, c) != Success
  {
  }

  lemma NobodyIs(evs: seq<Event>, c: ConnectionID)
    requires LegalRun(evs) && Run(evs).conns.IsOpen(c) && forall u :: !BelongsTo(evs, c, u)
    ensures Run(evs).conns.sessions[c] == NO_USER
  {
    var u := Run(evs).conns.sessions[c];
    ConnectionsOf(evs, c, u);
    assert !BelongsTo(evs, c, u);
  }

  /** The clean-up of a group erases what is seven days old in its log, and nothing else anywhere. */
  lemma CleanUpEvent(evs: seq<Event>, g: GroupID, now: R.Time)
    requires LegalRun(evs)
    ensures var (s, out) := (Run(evs), Do(Run(evs), CleanLog(g, now)));
            && out.server == s.(groups := s.groups.(rooms := out.server.groups.rooms)) && out.delivered == {}
            && out.server.groups.rooms == (if g in s.groups.rooms then
                 var r := s.groups.rooms[g];
                 s.groups.rooms[g := r.(log := map k | k in r.log && k > now - R.EXPIRY :: r.log[k])]
               else s.groups.rooms)
  {
  }
}
