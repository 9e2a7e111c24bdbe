// The server as a whole: what arrives on a connection is executed for the user its
// session works for, on the friends, the groups and the connections together
// (server/jsonMessageProcess/JsonMsgProcess.cpp, JsonMsgProcessCommand.cpp,
// server/manager/manager.cpp).

module Servers {
  import opened Ids
  import opened Errors
  import opened GroupRooms
  import F = Friendship
  import G = GroupMembership
  import C = Connections

  datatype Server = Server(nextUser: UserID, friends: F.Friends, groups: G.Groups, conns: C.Conns)

  const START := Server(FIRST_ID, F.EMPTY, G.EMPTY, C.EMPTY)

  datatype Command =
    | Register
    | AddFriend(user: UserID)
    | AcceptFriend(user: UserID)
    | RejectFriend(user: UserID)
    | RemoveFriend(user: UserID)
    | SendFriendMessage(user: UserID)
    | AddGroup(group: GroupID)
    | AcceptGroup(group: GroupID, user: UserID)
    | RejectGroup(group: GroupID, user: UserID)
    | CreateGroup
    | RemoveGroup(group: GroupID)
    | LeaveGroup(group: GroupID)
    | SendGroupMessage(group: GroupID, text: string, now: Time)

  datatype Event =
    | Connect(conn: ConnectionID)
    | Login(conn: ConnectionID, user: UserID, passwordOk: bool, device: C.DeviceType)
    | Disconnect(conn: ConnectionID)
    | Request(conn: ConnectionID, command: Command)
    | CleanLog(group: GroupID, now: Time)

  /** The new state, the answer, and the connections that a message went out on. */
  datatype Outcome = Outcome(server: Server, reply: Reply, delivered: set<ConnectionID>)

  // ------------------------------------------------------------------------
  // One event
  // ------------------------------------------------------------------------

  /** The connections of `users`. */
  function Reached(s: Server, users: set<UserID>): set<ConnectionID> {
    set u, c | u in users && c in s.conns.Map(u) :: c
  }

  /** The friend command behind a request of `self`, if it is one. */
  function FriendPart(nextUser: UserID, self: UserID, cmd: Command): Option<F.FriendCommand> {
    match cmd
    case Register => Some(F.NewUserCommand(nextUser))
    case AddFriend(u) => Some(F.AddFriendCommand(self, u))
    case AcceptFriend(u) => Some(F.AcceptFriendCommand(self, u))
    case RejectFriend(u) => Some(F.RejectFriendCommand(self, u))
    case RemoveFriend(u) => Some(F.RemoveFriendCommand(self, u))
    case _ => None
  }

  function GroupPart(nextUser: UserID, self: UserID, cmd: Command): Option<G.GroupCommand> {
    match cmd
    case Register => Some(G.NewUserCommand(nextUser))
    case AddGroup(g) => Some(G.AddGroupCommand(self, g))
    case AcceptGroup(g, u) => Some(G.AcceptGroupCommand(self, g, u))
    case RejectGroup(g, u) => Some(G.RejectGroupCommand(self, g, u))
    case CreateGroup => Some(G.CreateGroupCommand(self))
    case RemoveGroup(g) => Some(G.RemoveGroupCommand(self, g))
    case LeaveGroup(g) => Some(G.LeaveGroupCommand(self, g))
    case SendGroupMessage(g, text, now) => Some(G.SendGroupMessageCommand(self, g, text, now))
    case _ => None
  }

  function FriendReply(f: F.Friends, c: F.FriendCommand): Reply {
    match c
    case NewUserCommand(_) => Success
    case AddFriendCommand(self, u) => F.AddFriend(f, self, u).1
    case AcceptFriendCommand(self, u) => F.AcceptFriend(f, self, u).1
    case RejectFriendCommand(self, u) => F.RejectFriend(f, self, u).1
    case RemoveFriendCommand(self, u) => F.RemoveFriend(f, self, u).1
  }

  function Execute(s: Server, self: UserID, cmd: Command): Outcome {
    if cmd.Register? then
      Outcome(Server(s.nextUser + 1, F.NewUser(s.friends, s.nextUser), G.NewUser(s.groups, s.nextUser),
                     C.NewUser(s.conns, s.nextUser)), Success, {})
    else if cmd.SendFriendMessage? then
      var (users, reply) := F.SendFriendMessage(s.friends, self, cmd.user);
      Outcome(s, reply, Reached(s, users))
    else ExecuteParts(s, FriendPart(s.nextUser, self, cmd), GroupPart(s.nextUser, self, cmd))
  }

  function ExecuteParts(s: Server, friend: Option<F.FriendCommand>, group: Option<G.GroupCommand>): Outcome {
    match friend
    case Some(c) => Outcome(s.(friends := F.Step(s.friends, c)), FriendReply(s.friends, c), {})
    case None =>
      match group
      case Some(c) =>
        var out := G.Do(s.groups, c);
        Outcome(s.(groups := out.state), out.reply, Reached(s, out.delivered))
      case None => Outcome(s, Failure, {})
  }

  function Do(s: Server, e: Event): Outcome {
    match e
    case Connect(c) => Outcome(s.(conns := C.OpenSession(s.conns, c).0), Success, {})
    case Login(c, u, ok, device) =>
      var (conns, reply, _) := C.LogIn(s.conns, c, u, ok, device);
      Outcome(s.(conns := conns), reply, {})
    case Disconnect(c) => Outcome(s.(conns := C.CloseSession(s.conns, c).0), Success, {})
    case Request(c, cmd) => if s.conns.IsOpen(c) then Execute(s, s.conns.sessions[c], cmd) else Outcome(s, Failure, {})
    case CleanLog(g, now) => Outcome(s.(groups := G.Do(s.groups, G.CleanGroupLog(g, now)).state), Success, {})
  }

  /** The network opens what is closed, and hears from and closes what is open. */
  predicate Legal(s: Server, e: Event) {
    match e
    case Connect(c) => !s.conns.IsOpen(c)
    case CleanLog(_, _) => true
    case _ => s.conns.IsOpen(e.conn)
  }

  function Run(evs: seq<Event>): Server {
    if evs == [] then START else Do(Run(evs[..|evs| - 1]), evs[|evs| - 1]).server
  }

  ghost predicate LegalRun(evs: seq<Event>) {
    evs != [] ==> LegalRun(evs[..|evs| - 1]) && Legal(Run(evs[..|evs| - 1]), evs[|evs| - 1])
  }

  // ------------------------------------------------------------------------
  // What holds of each part holds of the server
  // ------------------------------------------------------------------------

  /** The three parts know the same users: those whose ids have been given out. */
  ghost predicate SameUsers(s: Server) {
    && FIRST_ID <= s.nextUser
    && forall u :: && (s.friends.HasUser(u) <==> FIRST_ID <= u < s.nextUser)
                   && (s.groups.HasUser(u) <==> FIRST_ID <= u < s.nextUser)
                   && (s.conns.HasUser(u) <==> FIRST_ID <= u < s.nextUser)
  }

  ghost predicate Inv(s: Server) {
    SameUsers(s) && F.Inv(s.friends) && G.Inv(s.groups) && C.Agree(s.conns)
  }

  lemma FriendUsers(f: F.Friends, c: F.FriendCommand, u: UserID)
    requires F.Inv(f)
    ensures F.Step(f, c).HasUser(u) <==> f.HasUser(u) || c == F.NewUserCommand(u)
  {
    match c
    case NewUserCommand(_) =>
    case AddFriendCommand(_, _) =>
    case AcceptFriendCommand(self, v) =>
      if (v, self) in f.pending {
        assert f.HasUser(v) && f.HasUser(self);
      }
    case RejectFriendCommand(_, _) =>
    case RemoveFriendCommand(_, _) =>
  }

  lemma GroupUsers(s: G.Groups, c: G.GroupCommand, u: UserID)
    requires G.Inv(s)
    ensures G.Do(s, c).state.HasUser(u) <==> s.HasUser(u) || c == G.NewUserCommand(u)
  {
    match c
    case AcceptGroupCommand(_, g, v) => if g in s.rooms && s.IsPending(v, g) { G.AcceptedClears(s, v, g); }
    case RejectGroupCommand(_, g, v) => if g in s.rooms && s.IsPending(v, g) { G.RemovalFindsMatches(s, v, g); }
    case _ =>
  }

  lemma RegisterKeeps(s: Server, self: UserID)
    requires Inv(s)
    ensures Inv(Execute(s, self, Register).server)
  {
    var u, s' := s.nextUser, Execute(s, self, Register).server;
    C.StepKeeps(s.conns, C.NewUserEvent(u));
    F.StepKeeps(s.friends, F.NewUserCommand(u));
    G.StepKeeps(s.groups, G.NewUserCommand(u));
    assert forall v :: s'.friends.HasUser(v) <==> s.friends.HasUser(v) || v == u;
    assert forall v :: s'.groups.HasUser(v) <==> s.groups.HasUser(v) || v == u;
    assert forall v :: s'.conns.HasUser(v) <==> s.conns.HasUser(v) || v == u;
    assert s'.friends == F.Step(s.friends, F.NewUserCommand(u));
    assert s'.groups == G.Do(s.groups, G.NewUserCommand(u)).state;
    assert s'.conns == C.Do(s.conns, C.NewUserEvent(u)).0;
  }

  lemma RequestKeeps(s: Server, self: UserID, cmd: Command)
    requires Inv(s)
    ensures Inv(Execute(s, self, cmd).server)
  {
    var s' := Execute(s, self, cmd).server;
    var fc, gc := FriendPart(s.nextUser, self, cmd), GroupPart(s.nextUser, self, cmd);
    if cmd.Register? {
      RegisterKeeps(s, self);
    } else if fc.Some? {
      FriendRequestKeeps(s, fc.value);
      assert s' == s.(friends := F.Step(s.friends, fc.value));
    } else if gc.Some? {
      GroupRequestKeeps(s, gc.value);
      assert s' == s.(groups := G.Do(s.groups, gc.value).state);
    }
  }

  lemma FriendRequestKeeps(s: Server, c: F.FriendCommand)
    requires Inv(s) && !c.NewUserCommand?
    ensures Inv(s.(friends := F.Step(s.friends, c)))
  {
    F.StepKeeps(s.friends, c);
    forall u { FriendUsers(s.friends, c, u); }
  }

  lemma GroupRequestKeeps(s: Server, c: G.GroupCommand)
    requires Inv(s) && !c.NewUserCommand?
    ensures Inv(s.(groups := G.Do(s.groups, c).state))
  {
    G.StepKeeps(s.groups, c);
    forall u { GroupUsers(s.groups, c, u); }
  }

  lemma StepKeeps(s: Server, e: Event)
    requires Inv(s) && Legal(s, e)
    ensures Inv(Do(s, e).server)
  {
    match e
    case Connect(c) => C.StepKeeps(s.conns, C.Connect(c));
    case Login(c, u, ok, device) =>
      C.StepKeeps(s.conns, C.Login(c, u, ok, device));
      C.SameUsers(s.conns, C.Login(c, u, ok, device));
    case Disconnect(c) =>
      C.StepKeeps(s.conns, C.Disconnect(c));
      C.SameUsers(s.conns, C.Disconnect(c));
    case Request(c, cmd) => RequestKeeps(s, s.conns.sessions[c], cmd);
    case CleanLog(g, now) =>
      GroupRequestKeeps(s, G.CleanGroupLog(g, now));
  }

  /**
   * Whatever connects, logs in and asks for anything: in every reachable state the
   * friends, the groups and the connections keep all their invariants, over one and
   * the same set of users.
   */
  lemma {:induction false} InvAlways(evs: seq<Event>)
    requires LegalRun(evs)
    ensures Inv(Run(evs))
  {
    if evs == [] {
      F.InvAlways([]);
      assert G.Inv(G.EMPTY) by { G.InvAlways([]); }
    } else {
      InvAlways(evs[..|evs| - 1]);
      StepKeeps(Run(evs[..|evs| - 1]), evs[|evs| - 1]);
    }
  }

  // ------------------------------------------------------------------------
  // Runs of the parts
  // ------------------------------------------------------------------------

  function FriendCommands(s: Server, e: Event): (cs: seq<F.FriendCommand>)
    ensures |cs| <= 1
  {
    if !e.Request? || !s.conns.IsOpen(e.conn) then []
    else
      var part := FriendPart(s.nextUser, s.conns.sessions[e.conn], e.command);
      if part.Some? then [part.value] else []
  }

  function GroupCommands(s: Server, e: Event): (cs: seq<G.GroupCommand>)
    ensures |cs| <= 1
  {
    if e.CleanLog? then [G.CleanGroupLog(e.group, e.now)]
    else if !e.Request? || !s.conns.IsOpen(e.conn) then []
    else
      var part := GroupPart(s.nextUser, s.conns.sessions[e.conn], e.command);
      if part.Some? then [part.value] else []
  }

  function ConnEvents(s: Server, e: Event): (cs: seq<C.Event>)
    ensures |cs| <= 1
  {
    match e
    case Connect(c) => [C.Connect(c)]
    case Login(c, u, ok, device) => [C.Login(c, u, ok, device)]
    case Disconnect(c) => [C.Disconnect(c)]
    case Request(c, cmd) => if s.conns.IsOpen(c) && cmd.Register? then [C.NewUserEvent(s.nextUser)] else []
    case CleanLog(_, _) => []
  }

  function FriendTrace(evs: seq<Event>): seq<F.FriendCommand> {
    if evs == [] then []
    else FriendTrace(evs[..|evs| - 1]) + FriendCommands(Run(evs[..|evs| - 1]), evs[|evs| - 1])
  }

  function GroupTrace(evs: seq<Event>): seq<G.GroupCommand> {
    if evs == [] then []
    else GroupTrace(evs[..|evs| - 1]) + GroupCommands(Run(evs[..|evs| - 1]), evs[|evs| - 1])
  }

  function ConnTrace(evs: seq<Event>): seq<C.Event> {
    if evs == [] then []
    else ConnTrace(evs[..|evs| - 1]) + ConnEvents(Run(evs[..|evs| - 1]), evs[|evs| - 1])
  }

  lemma RequestParts(s: Server, self: UserID, cmd: Command)
    requires SameUsers(s)
    ensures var (fp, gp) := (FriendPart(s.nextUser, self, cmd), GroupPart(s.nextUser, self, cmd));
            var s' := Execute(s, self, cmd).server;
            && s'.friends == (if fp.Some? then F.Step(s.friends, fp.value) else s.friends)
            && s'.groups == (if gp.Some? then G.Do(s.groups, gp.value).state else s.groups)
            && s'.conns == (if cmd.Register? then C.NewUser(s.conns, s.nextUser) else s.conns)
            && (fp.Some? && fp.value.NewUserCommand? ==> !s.friends.HasUser(fp.value.user))
            && (gp.Some? ==> G.Legal(s.groups, gp.value))
  {
  }

  lemma StepParts(s: Server, e: Event)
    requires SameUsers(s) && Legal(s, e)
    ensures var (fs, gs, cs, s') := (FriendCommands(s, e), GroupCommands(s, e), ConnEvents(s, e), Do(s, e).server);
            && (if fs == [] then s'.friends == s.friends
                else s'.friends == F.Step(s.friends, fs[0])
                     && (fs[0].NewUserCommand? ==> !s.friends.HasUser(fs[0].user)))
            && (if gs == [] then s'.groups == s.groups
                else s'.groups == G.Do(s.groups, gs[0]).state && G.Legal(s.groups, gs[0]))
            && (if cs == [] then s'.conns == s.conns
                else s'.conns == C.Do(s.conns, cs[0]).0 && C.Legal(s.conns, cs[0]))
  {
    if e.Request? {
      RequestParts(s, s.conns.sessions[e.conn], e.command);
    }
  }

  /** The friends, the groups and the connections of the server go through legal runs of their own. */
  lemma {:induction false} PartsRun(evs: seq<Event>)
    requires LegalRun(evs)
    ensures Run(evs).friends == F.Run(FriendTrace(evs)) && F.FreshIds(F.EMPTY, FriendTrace(evs))
    ensures Run(evs).groups == G.Run(GroupTrace(evs)) && G.LegalRun(GroupTrace(evs))
    ensures Run(evs).conns == C.Run(ConnTrace(evs)) && C.LegalRun(ConnTrace(evs))
  {
    if evs != [] {
      var before, e := evs[..|evs| - 1], evs[|evs| - 1];
      var s := Run(before);
      PartsRun(before);
      InvAlways(before);
      StepParts(s, e);
      FriendsRun(FriendTrace(before), FriendCommands(s, e));
      GroupsRun(GroupTrace(before), GroupCommands(s, e));
      ConnsRun(ConnTrace(before), ConnEvents(s, e));
    }
  }

  lemma FriendsRun(before: seq<F.FriendCommand>, cs: seq<F.FriendCommand>)
    requires |cs| <= 1 && F.FreshIds(F.EMPTY, before)
    requires cs != [] && cs[0].NewUserCommand? ==> !F.Run(before).HasUser(cs[0].user)
    ensures F.Run(before + cs) == if cs == [] then F.Run(before) else F.Step(F.Run(before), cs[0])
    ensures F.FreshIds(F.EMPTY, before + cs)
  {
    if cs == [] {
      assert before + cs == before;
    } else {
      assert (before + cs)[..|before + cs| - 1] == before;
    }
  }

  lemma GroupsRun(before: seq<G.GroupCommand>, cs: seq<G.GroupCommand>)
    requires |cs| <= 1 && G.LegalRun(before) && (cs != [] ==> G.Legal(G.Run(before), cs[0]))
    ensures G.Run(before + cs) == if cs == [] then G.Run(before) else G.Do(G.Run(before), cs[0]).state
    ensures G.LegalRun(before + cs)
  {
    if cs == [] {
      assert before + cs == before;
    } else {
      assert (before + cs)[..|before + cs| - 1] == before;
    }
  }

  lemma ConnsRun(before: seq<C.Event>, cs: seq<C.Event>)
    requires |cs| <= 1 && C.LegalRun(before) && (cs != [] ==> C.Legal(C.Run(before), cs[0]))
    ensures C.Run(before + cs) == if cs == [] then C.Run(before) else C.Do(C.Run(before), cs[0]).0
    ensures C.LegalRun(before + cs)
  {
    if cs == [] {
      assert before + cs == before;
    } else {
      assert (before + cs)[..|before + cs| - 1] == before;
    }
  }

  // ------------------------------------------------------------------------
  // Who a message reaches
  // ------------------------------------------------------------------------

  /** The user who last logged in on `d`, if `d` is open and someone has. */
  ghost predicate BelongsTo(evs: seq<Event>, d: ConnectionID, u: UserID) {
    var owner := C.OwnerAfter(ConnTrace(evs), d);
    owner.LoggedIn? && owner.user == u
  }

  lemma ConnectionsOf(evs: seq<Event>, d: ConnectionID, u: UserID)
    requires LegalRun(evs)
    ensures d in Run(evs).conns.Map(u) <==> BelongsTo(evs, d, u)
    ensures Run(evs).conns.IsOpen(d) && Run(evs).conns.sessions[d] == u != NO_USER <==> BelongsTo(evs, d, u)
  {
    PartsRun(evs);
    InvAlways(evs);
    C.RecordsFollowLogins(ConnTrace(evs), d);
    C.AgreeAlways(ConnTrace(evs));
  }

  /**
   * A group message goes out on exactly the open connections whose last login was by a
   * member, and only if the connection it came in on belongs to a member.
   */
  lemma GroupMessageReaches(evs: seq<Event>, c: ConnectionID, self: UserID, g: GroupID, text: string, now: Time)
    requires LegalRun(evs) && BelongsTo(evs, c, self)
    ensures var (s, out) := (Run(evs), Do(Run(evs), Request(c, SendGroupMessage(g, text, now))));
            forall d :: d in out.delivered <==>
              s.groups.IsMember(self, g) && exists u :: BelongsTo(evs, d, u) && s.groups.IsMember(u, g)
  {
    var s := Run(evs);
    InvAlways(evs);
    ConnectionsOf(evs, c, self);
    UserOfConnection(evs, c, self);
    GroupDelivery(s, self, g, text, now);
    ReachedBelong(evs, Audience(s, self, g));
  }

  /** The members, if `self` is one. */
  function Audience(s: Server, self: UserID, g: GroupID): set<UserID> {
    if s.groups.IsMember(self, g) then s.groups.rooms[g].members else {}
  }

  lemma GroupDelivery(s: Server, self: UserID, g: GroupID, text: string, now: Time)
    requires Inv(s) && s.groups.HasUser(self)
    ensures Execute(s, self, SendGroupMessage(g, text, now)).delivered == Reached(s, Audience(s, self, g))
  {
    if g in s.groups.rooms {
      G.GroupMessageDelivered(s.groups, self, g, text, now);
    }
  }

  lemma UserOfConnection(evs: seq<Event>, c: ConnectionID, u: UserID)
    requires LegalRun(evs) && BelongsTo(evs, c, u)
    ensures Run(evs).friends.HasUser(u) && Run(evs).groups.HasUser(u)
  {
    ConnectionsOf(evs, c, u);
    InvAlways(evs);
    assert Run(evs).conns.HasUser(u);
  }

  lemma ReachedBelong(evs: seq<Event>, users: set<UserID>)
    requires LegalRun(evs)
    ensures forall d :: d in Reached(Run(evs), users) <==> exists u :: BelongsTo(evs, d, u) && u in users
  {
    forall d
      ensures d in Reached(Run(evs), users) <==> exists u :: BelongsTo(evs, d, u) && u in users
    {
      forall u
        ensures d in Run(evs).conns.Map(u) <==> BelongsTo(evs, d, u)
      {
        ConnectionsOf(evs, d, u);
      }
    }
  }

  /** A message to a friend goes out on exactly the connections of the two. */
  lemma FriendMessageReaches(evs: seq<Event>, c: ConnectionID, self: UserID, v: UserID)
    requires LegalRun(evs) && BelongsTo(evs, c, self)
    ensures var (s, out) := (Run(evs), Do(Run(evs), Request(c, SendFriendMessage(v))));
            && out.reply == (if s.friends.IsFriend(self, v) then Success else Failure)
            && forall d :: d in out.delivered <==>
                 s.friends.IsFriend(self, v) && (BelongsTo(evs, d, self) || BelongsTo(evs, d, v))
  {
    var s := Run(evs);
    InvAlways(evs);
    ConnectionsOf(evs, c, self);
    UserOfConnection(evs, c, self);
    FriendDelivery(s, self, v);
    ReachedBelong(evs, Pair(s, self, v));
  }

  /** The two, if they are friends in the eyes of `self`. */
  function Pair(s: Server, self: UserID, v: UserID): set<UserID> {
    if s.friends.IsFriend(self, v) then {self, v} else {}
  }

  lemma FriendDelivery(s: Server, self: UserID, v: UserID)
    requires Inv(s) && s.friends.HasUser(self)
    ensures var out := Execute(s, self, SendFriendMessage(v));
            && out.reply == (if s.friends.IsFriend(self, v) then Success else Failure)
            && out.delivered == Reached(s, Pair(s, self, v))
  {
    F.FriendMessageDelivered(s.friends, self, v);
  }

  // ------------------------------------------------------------------------
  // Where a friendship and a membership come from
  // ------------------------------------------------------------------------

  /** Event `i` asked for `cmd` on a connection that belonged to `self`. */
  ghost predicate Asked(evs: seq<Event>, i: nat, self: UserID, cmd: Command) {
    i < |evs| && evs[i].Request? && evs[i].command == cmd && BelongsTo(evs[..i], evs[i].conn, self)
  }

  /** An application of `x` to `y` that the server took, and later the acceptance of `y`. */
  ghost predicate BecameFriends(evs: seq<Event>, i: nat, j: nat, x: UserID, y: UserID) {
    && i < j < |evs| && Asked(evs, i, x, AddFriend(y)) && Asked(evs, j, y, AcceptFriend(x))
    && Do(Run(evs[..i]), evs[i]).reply == Success && (x, y) in Run(evs[..j]).friends.pending
  }

  ghost predicate BecameMember(evs: seq<Event>, i: nat, j: nat, u: UserID, g: GroupID) {
    && i < j < |evs| && Asked(evs, i, u, AddGroup(g)) && Do(Run(evs[..i]), evs[i]).reply == Success
    && g in Run(evs[..j]).groups.rooms && Run(evs[..j]).groups.IsPending(u, g)
    && Asked(evs, j, Run(evs[..j]).groups.rooms[g].admin, AcceptGroup(g, u))
  }

  ghost predicate FoundedGroup(evs: seq<Event>, i: nat, u: UserID, g: GroupID) {
    i < |evs| && Asked(evs, i, u, CreateGroup) && Run(evs[..i]).groups.nextRoom == g
  }

  lemma {:induction false} FriendCommandAt(evs: seq<Event>, k: nat) returns (i: nat)
    requires k < |FriendTrace(evs)|
    ensures i < |evs| && FriendTrace(evs[..i]) == FriendTrace(evs)[..k]
    ensures FriendCommands(Run(evs[..i]), evs[i]) == [FriendTrace(evs)[k]]
  {
    var before := evs[..|evs| - 1];
    if k < |FriendTrace(before)| {
      i := FriendCommandAt(before, k);
      assert before[..i] == evs[..i];
      assert FriendTrace(before)[..k] == FriendTrace(evs)[..k];
    } else {
      i := |evs| - 1;
      assert FriendTrace(evs)[..k] == FriendTrace(before);
    }
  }

  lemma {:induction false} GroupCommandAt(evs: seq<Event>, k: nat) returns (i: nat)
    requires k < |GroupTrace(evs)|
    ensures i < |evs| && GroupTrace(evs[..i]) == GroupTrace(evs)[..k]
    ensures GroupCommands(Run(evs[..i]), evs[i]) == [GroupTrace(evs)[k]]
  {
    var before := evs[..|evs| - 1];
    if k < |GroupTrace(before)| {
      i := GroupCommandAt(before, k);
      assert before[..i] == evs[..i];
      assert GroupTrace(before)[..k] == GroupTrace(evs)[..k];
    } else {
      i := |evs| - 1;
      assert GroupTrace(evs)[..k] == GroupTrace(before);
    }
  }

  lemma FriendCommandsAt(evs: seq<Event>, k1: nat, k2: nat) returns (i: nat, j: nat)
    requires k1 < k2 < |FriendTrace(evs)|
    ensures i < j < |evs| && FriendTrace(evs[..i]) == FriendTrace(evs)[..k1]
            && FriendTrace(evs[..j]) == FriendTrace(evs)[..k2]
    ensures FriendCommands(Run(evs[..i]), evs[i]) == [FriendTrace(evs)[k1]]
    ensures FriendCommands(Run(evs[..j]), evs[j]) == [FriendTrace(evs)[k2]]
  {
    j := FriendCommandAt(evs, k2);
    i := FriendCommandAt(evs[..j], k1);
    assert evs[..j][..i] == evs[..i] && FriendTrace(evs)[..k2][..k1] == FriendTrace(evs)[..k1];
  }

  lemma GroupCommandsAt(evs: seq<Event>, k1: nat, k2: nat) returns (i: nat, j: nat)
    requires k1 < k2 < |GroupTrace(evs)|
    ensures i < j < |evs| && GroupTrace(evs[..i]) == GroupTrace(evs)[..k1]
            && GroupTrace(evs[..j]) == GroupTrace(evs)[..k2]
    ensures GroupCommands(Run(evs[..i]), evs[i]) == [GroupTrace(evs)[k1]]
    ensures GroupCommands(Run(evs[..j]), evs[j]) == [GroupTrace(evs)[k2]]
  {
    j := GroupCommandAt(evs, k2);
    i := GroupCommandAt(evs[..j], k1);
    assert evs[..j][..i] == evs[..i] && GroupTrace(evs)[..k2][..k1] == GroupTrace(evs)[..k1];
  }

  lemma {:induction false} LegalPrefix(evs: seq<Event>, i: nat)
    requires LegalRun(evs) && i <= |evs|
    ensures LegalRun(evs[..i])
    ensures i < |evs| ==> Legal(Run(evs[..i]), evs[i])
  {
    if i == |evs| {
      assert evs[..i] == evs;
    } else {
      LegalPrefix(evs[..|evs| - 1], i);
      assert evs[..|evs| - 1][..i] == evs[..i];
    }
  }

  lemma AskedAs(evs: seq<Event>, i: nat, self: UserID)
    requires LegalRun(evs) && i < |evs| && evs[i].Request?
    requires Run(evs[..i]).conns.IsOpen(evs[i].conn)
    requires Run(evs[..i]).conns.sessions[evs[i].conn] == self != NO_USER
    ensures Asked(evs, i, self, evs[i].command)
  {
    LegalPrefix(evs, i);
    ConnectionsOf(evs[..i], evs[i].conn, self);
  }

  lemma UsersHaveIds(evs: seq<Event>, u: UserID)
    requires LegalRun(evs)
    ensures Run(evs).friends.HasUser(u) || Run(evs).groups.HasUser(u) ==> u != NO_USER
  {
    InvAlways(evs);
  }

  lemma FriendRequest(s: Server, e: Event, c: F.FriendCommand)
    requires FriendCommands(s, e) == [c] && !c.NewUserCommand?
    ensures e.Request? && s.conns.IsOpen(e.conn) && s.conns.sessions[e.conn] == c.self
    ensures c.AddFriendCommand? ==>
              e.command == AddFriend(c.user) && Do(s, e).reply == F.AddFriend(s.friends, c.self, c.user).1
    ensures c.AcceptFriendCommand? ==> e.command == AcceptFriend(c.user)
  {
  }

  lemma FriendAsked(evs: seq<Event>, i: nat, c: F.FriendCommand)
    requires LegalRun(evs) && i < |evs| && FriendCommands(Run(evs[..i]), evs[i]) == [c]
    requires !c.NewUserCommand? && Run(evs[..i]).friends.HasUser(c.self)
    ensures evs[i].Request? && Asked(evs, i, c.self, evs[i].command)
  {
    FriendRequest(Run(evs[..i]), evs[i], c);
    LegalPrefix(evs, i);
    UsersHaveIds(evs[..i], c.self);
    AskedAs(evs, i, c.self);
  }

  lemma ApplicationAsked(evs: seq<Event>, i: nat, x: UserID, y: UserID)
    requires LegalRun(evs) && i < |evs| && FriendCommands(Run(evs[..i]), evs[i]) == [F.AddFriendCommand(x, y)]
    requires F.AddFriend(F.Run(FriendTrace(evs[..i])), x, y).1 == Success
    ensures Asked(evs, i, x, AddFriend(y)) && Do(Run(evs[..i]), evs[i]).reply == Success
  {
    LegalPrefix(evs, i);
    PartsRun(evs[..i]);
    FriendRequest(Run(evs[..i]), evs[i], F.AddFriendCommand(x, y));
    FriendAsked(evs, i, F.AddFriendCommand(x, y));
  }

  lemma AcceptanceAsked(evs: seq<Event>, j: nat, x: UserID, y: UserID)
    requires LegalRun(evs) && j < |evs| && FriendCommands(Run(evs[..j]), evs[j]) == [F.AcceptFriendCommand(y, x)]
    requires (x, y) in F.Run(FriendTrace(evs[..j])).pending
    ensures Asked(evs, j, y, AcceptFriend(x)) && (x, y) in Run(evs[..j]).friends.pending
  {
    LegalPrefix(evs, j);
    PartsRun(evs[..j]);
    assert Run(evs[..j]).friends.HasUser(y) by {
      InvAlways(evs[..j]);
    }
    FriendRequest(Run(evs[..j]), evs[j], F.AcceptFriendCommand(y, x));
    FriendAsked(evs, j, F.AcceptFriendCommand(y, x));
  }

  lemma AgreementAsked(evs: seq<Event>, k1: nat, k2: nat, x: UserID, y: UserID) returns (i: nat, j: nat)
    requires LegalRun(evs)
    requires k1 < k2 && F.Applied(FriendTrace(evs), k1, x, y) && F.Accepted(FriendTrace(evs), k2, x, y)
    ensures BecameFriends(evs, i, j, x, y)
  {
    i, j := FriendCommandsAt(evs, k1, k2);
    ApplicationAsked(evs, i, x, y);
    AcceptanceAsked(evs, j, x, y);
  }

  /**
   * Behind every entry of a friend list there are two requests: one of the two applied
   * on a connection of theirs, and after that the other accepted on one of theirs.
   */
  lemma FriendshipHistory(evs: seq<Event>, u: UserID, v: UserID) returns (i: nat, j: nat)
    requires LegalRun(evs) && Run(evs).friends.IsFriend(u, v)
    ensures BecameFriends(evs, i, j, u, v) || BecameFriends(evs, i, j, v, u)
  {
    var cmds := FriendTrace(evs);
    PartsRun(evs);
    F.FriendsAgreed(cmds, u, v);
    if F.Agreed(cmds, u, v) {
      var k1, k2 :| 0 <= k1 < k2 && F.Applied(cmds, k1, u, v) && F.Accepted(cmds, k2, u, v);
      i, j := AgreementAsked(evs, k1, k2, u, v);
    } else {
      var k1, k2 :| 0 <= k1 < k2 && F.Applied(cmds, k1, v, u) && F.Accepted(cmds, k2, v, u);
      i, j := AgreementAsked(evs, k1, k2, v, u);
    }
  }

  lemma GroupRequest(s: Server, e: Event, c: G.GroupCommand)
    requires GroupCommands(s, e) == [c] && !c.NewUserCommand? && !c.CleanGroupLog?
    ensures e.Request? && s.conns.IsOpen(e.conn) && s.conns.sessions[e.conn] == c.self
    ensures c.AddGroupCommand? ==>
              e.command == AddGroup(c.group) && Do(s, e).reply == G.AddGroup(s.groups, c.self, c.group).1
    ensures c.AcceptGroupCommand? ==> e.command == AcceptGroup(c.group, c.user)
    ensures c.CreateGroupCommand? ==> e.command == CreateGroup
  {
  }

  lemma GroupAsked(evs: seq<Event>, i: nat, c: G.GroupCommand)
    requires LegalRun(evs) && i < |evs| && GroupCommands(Run(evs[..i]), evs[i]) == [c]
    requires !c.NewUserCommand? && !c.CleanGroupLog? && Run(evs[..i]).groups.HasUser(c.self)
    ensures evs[i].Request? && Asked(evs, i, c.self, evs[i].command)
  {
    GroupRequest(Run(evs[..i]), evs[i], c);
    LegalPrefix(evs, i);
    UsersHaveIds(evs[..i], c.self);
    AskedAs(evs, i, c.self);
  }

  lemma CreationAsked(evs: seq<Event>, j: nat, u: UserID, g: GroupID)
    requires LegalRun(evs) && j < |evs| && GroupCommands(Run(evs[..j]), evs[j]) == [G.CreateGroupCommand(u)]
    requires G.Run(GroupTrace(evs[..j])).HasUser(u) && G.Run(GroupTrace(evs[..j])).nextRoom == g
    ensures FoundedGroup(evs, j, u, g)
  {
    LegalPrefix(evs, j);
    PartsRun(evs[..j]);
    GroupRequest(Run(evs[..j]), evs[j], G.CreateGroupCommand(u));
    GroupAsked(evs, j, G.CreateGroupCommand(u));
  }

  lemma JoiningAsked(evs: seq<Event>, i: nat, u: UserID, g: GroupID)
    requires LegalRun(evs) && i < |evs| && GroupCommands(Run(evs[..i]), evs[i]) == [G.AddGroupCommand(u, g)]
    requires G.AddGroup(G.Run(GroupTrace(evs[..i])), u, g).1 == Success
    ensures Asked(evs, i, u, AddGroup(g)) && Do(Run(evs[..i]), evs[i]).reply == Success
  {
    LegalPrefix(evs, i);
    PartsRun(evs[..i]);
    GroupRequest(Run(evs[..i]), evs[i], G.AddGroupCommand(u, g));
    GroupAsked(evs, i, G.AddGroupCommand(u, g));
  }

  lemma AdmissionAsked(evs: seq<Event>, j: nat, u: UserID, g: GroupID)
    requires LegalRun(evs) && j < |evs|
    requires var s := G.Run(GroupTrace(evs[..j]));
             g in s.rooms && s.IsPending(u, g)
             && GroupCommands(Run(evs[..j]), evs[j]) == [G.AcceptGroupCommand(s.rooms[g].admin, g, u)]
    ensures var s := Run(evs[..j]).groups;
            g in s.rooms && s.IsPending(u, g) && Asked(evs, j, s.rooms[g].admin, AcceptGroup(g, u))
  {
    LegalPrefix(evs, j);
    PartsRun(evs[..j]);
    var admin := Run(evs[..j]).groups.rooms[g].admin;
    assert Run(evs[..j]).groups.HasUser(admin) by {
      InvAlways(evs[..j]);
    }
    GroupRequest(Run(evs[..j]), evs[j], G.AcceptGroupCommand(admin, g, u));
    GroupAsked(evs, j, G.AcceptGroupCommand(admin, g, u));
  }

  lemma EntryAsked(evs: seq<Event>, k1: nat, k2: nat, u: UserID, g: GroupID) returns (i: nat, j: nat)
    requires LegalRun(evs)
    requires k1 < k2 && G.Applied(GroupTrace(evs), k1, u, g) && G.AcceptedBy(GroupTrace(evs), k2, u, g)
    ensures BecameMember(evs, i, j, u, g)
  {
    i, j := GroupCommandsAt(evs, k1, k2);
    JoiningAsked(evs, i, u, g);
    AdmissionAsked(evs, j, u, g);
  }

  /**
   * Behind every membership of a live group there is the request that created it, or an
   * application by the member and after that its acceptance by the administrator.
   */
  lemma MembershipHistory(evs: seq<Event>, u: UserID, g: GroupID) returns (i: nat, j: nat)
    requires LegalRun(evs) && Run(evs).groups.IsMember(u, g)
    ensures FoundedGroup(evs, j, u, g) || BecameMember(evs, i, j, u, g)
  {
    var cmds := GroupTrace(evs);
    i, j := 0, 0;
    PartsRun(evs);
    G.MembersJoined(cmds, u, g);
    if k: nat :| G.Created(cmds, k, u, g) {
      j := GroupCommandAt(evs, k);
      CreationAsked(evs, j, u, g);
    } else {
      var k1, k2 :| 0 <= k1 < k2 && G.Applied(cmds, k1, u, g) && G.AcceptedBy(cmds, k2, u, g);
      i, j := EntryAsked(evs, k1, k2, u, g);
    }
  }

  // ------------------------------------------------------------------------
  // When a request ends in an exception
  // ------------------------------------------------------------------------

  lemma FriendReplies(f: F.Friends, c: F.FriendCommand)
    requires F.Inv(f) && !c.NewUserCommand? && f.HasUser(c.self)
    ensures FriendReply(f, c) == Success || FriendReply(f, c) == Failure
  {
  }

  /**
   * The request of a logged-in user ends in an exception in one case only, the
   * acceptance into a group of someone who has not applied; every other error the
   * managers check for is ruled out before they are called, and nothing is undefined.
   */
  lemma WhenThrown(s: Server, self: UserID, cmd: Command)
    requires Inv(s) && s.friends.HasUser(self)
    ensures Execute(s, self, cmd).reply != Undefined
    ensures Execute(s, self, cmd).reply == Thrown <==>
              cmd.AcceptGroup? && cmd.group in s.groups.rooms && s.groups.rooms[cmd.group].admin == self
              && !s.groups.IsMember(cmd.user, cmd.group) && !s.groups.IsPending(cmd.user, cmd.group)
  {
    var fp, gp := FriendPart(s.nextUser, self, cmd), GroupPart(s.nextUser, self, cmd);
    if cmd.SendFriendMessage? {
      F.FriendMessageDelivered(s.friends, self, cmd.user);
    } else if !cmd.Register? && fp.Some? {
      FriendReplies(s.friends, fp.value);
    } else if !cmd.Register? && gp.Some? {
      G.WhenThrown(s.groups, gp.value);
    }
  }
}
