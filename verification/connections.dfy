// Connections and logins: the manager's connection table, each user's connection map
// and each session's user id (server/manager/manager.cpp, server/user/user.cpp,
// server/jsonMessageProcess/JsonMsgProcess.cpp, server/network/network.cpp).

module Connections {
  import opened Ids
  import opened Errors

  datatype DeviceType = Unknown | PersonalComputer | Phone | Web

  type ConnectionMap = map<ConnectionID, DeviceType>

  /** `sessions` holds the user id that the session of each open connection works for. */
  datatype Conns = Conns(
    maps: map<UserID, ConnectionMap>,
    table: map<ConnectionID, UserID>,
    sessions: map<ConnectionID, UserID>)
  {
    predicate HasUser(u: UserID) { u in maps }

    function Map(u: UserID): ConnectionMap { if u in maps then maps[u] else map[] }

    predicate IsOpen(c: ConnectionID) { c in sessions }
  }

  const EMPTY := Conns(map[], map[], map[])

  /** How a call ended; `BadIterator` is the use of an iterator that points nowhere. */
  datatype Fault = Fine | Failed(error: Errc) | BadIterator

  // ------------------------------------------------------------------------
  // A user's connection map
  // ------------------------------------------------------------------------

  function Added(m: ConnectionMap, c: ConnectionID, device: DeviceType): (ConnectionMap, Fault) {
    if c in m then (m, Failed(SocketPointerExisted)) else (m[c := device], Fine)
  }

  function Removed(m: ConnectionMap, c: ConnectionID): (ConnectionMap, Fault) {
    if c !in m then (m, Failed(NullSocketPointer)) else (m - {c}, Fine)
  }

  // ------------------------------------------------------------------------
  // The manager
  // ------------------------------------------------------------------------

  function NewUser(s: Conns, u: UserID): Conns { s.(maps := s.maps[u := map[]]) }

  function Register(s: Conns, c: ConnectionID): (Conns, Fault) {
    if c in s.table then (s, Failed(SocketPointerExisted)) else (s.(table := s.table[c := NO_USER]), Fine)
  }

  /** Takes `c` out of the map of the user it was logged in as, if any. */
  function Detach(s: Conns, c: ConnectionID): (Conns, Fault)
    requires c in s.table
  {
    var u := s.table[c];
    if u == NO_USER then (s, Fine)
    else if !s.HasUser(u) then (s, BadIterator)
    else
      var (m, fault) := Removed(s.maps[u], c);
      (s.(maps := s.maps[u := m]), fault)
  }

  function ModifyUser(s: Conns, c: ConnectionID, u: UserID, device: DeviceType): (Conns, Fault) {
    if !s.HasUser(u) then (s, Failed(UserNotExisted))
    else if c !in s.table then (s, Failed(SocketPointerNotExisted))
    else
      var (s1, fault) := Detach(s, c);
      if fault != Fine then (s1, fault)
      else
        var (m, fault2) := Added(s1.Map(u), c, device);
        if fault2 != Fine then (s1, fault2)
        else (s1.(maps := s1.maps[u := m], table := s1.table[c := u]), Fine)
  }

  function RemoveConnection(s: Conns, c: ConnectionID): (Conns, Fault) {
    if c !in s.table then (s, Failed(SocketPointerNotExisted))
    else
      var (s1, fault) := Detach(s, c);
      if fault != Fine then (s1, fault) else (s1.(table := s1.table - {c}), Fine)
  }

  // ------------------------------------------------------------------------
  // What happens to a connection
  // ------------------------------------------------------------------------

  datatype Event =
    | NewUserEvent(user: UserID)
    | Connect(conn: ConnectionID)
    | Login(conn: ConnectionID, user: UserID, passwordOk: bool, device: DeviceType)
    | Disconnect(conn: ConnectionID)

  /** The session starts with no user. */
  function StartSession(s: Conns, c: ConnectionID): Conns { s.(sessions := s.sessions[c := NO_USER]) }

  function OpenSession(s: Conns, c: ConnectionID): (Conns, Fault) {
    var (s1, fault) := Register(s, c);
    if fault != Fine then (s1, fault) else (StartSession(s1, c), Fine)
  }

  function LogIn(s: Conns, c: ConnectionID, u: UserID, passwordOk: bool, device: DeviceType): (Conns, Reply, Fault) {
    if !s.HasUser(u) || !passwordOk then (s, Failure, Fine)
    else
      var (s1, fault) := ModifyUser(s, c, u, device);
      if fault == BadIterator then (s1, Undefined, fault)
      else if fault != Fine then (s1, Thrown, fault)
      else (s1.(sessions := s1.sessions[c := u]), Success, Fine)
  }

  function CloseSession(s: Conns, c: ConnectionID): (Conns, Fault) {
    RemoveConnection(s.(sessions := s.sessions - {c}), c)
  }

  function Do(s: Conns, e: Event): (Conns, Fault) {
    match e
    case NewUserEvent(u) => (NewUser(s, u), Fine)
    case Connect(c) => OpenSession(s, c)
    case Login(c, u, passwordOk, device) => var (s', _, fault) := LogIn(s, c, u, passwordOk, device); (s', fault)
    case Disconnect(c) => CloseSession(s, c)
  }

  /** The network opens what is closed, and hears from and closes what is open; ids are fresh. */
  predicate Legal(s: Conns, e: Event) {
    match e
    case NewUserEvent(u) => !s.HasUser(u) && u >= FIRST_ID
    case Connect(c) => !s.IsOpen(c)
    case Login(c, _, _, _) => s.IsOpen(c)
    case Disconnect(c) => s.IsOpen(c)
  }

  // ------------------------------------------------------------------------
  // The three records agree
  // ------------------------------------------------------------------------

  ghost predicate Agree(s: Conns) {
    && s.table == s.sessions
    && (forall u <- s.maps :: u >= FIRST_ID)
    && (forall c <- s.table :: s.table[c] == NO_USER || s.HasUser(s.table[c]))
    && (forall u, c :: s.HasUser(u) ==> (c in s.Map(u) <==> c in s.table && s.table[c] == u))
  }

  lemma DetachKeeps(s: Conns, c: ConnectionID)
    requires Agree(s) && c in s.table
    ensures var (s', fault) := Detach(s, c);
            && fault == Fine && s' == s.(maps := s'.maps) && s'.maps.Keys == s.maps.Keys
            && forall u :: s'.Map(u) == s.Map(u) - {c}
  {
    var s' := Detach(s, c).0;
    if s.table[c] != NO_USER {
      assert c in s.Map(s.table[c]);
    }
    forall u
      ensures s'.Map(u) == s.Map(u) - {c}
    {
      if u != s.table[c] && s.HasUser(u) {
        assert c !in s.Map(u);
      }
    }
  }

  /**
   * Each kind of event keeps the three records in agreement, and none of the errors
   * "already exists" and "does not exist" can come up on the way.
   */
  lemma StepKeeps(s: Conns, e: Event)
    requires Agree(s) && Legal(s, e)
    ensures Do(s, e).1 == Fine && Agree(Do(s, e).0)
  {
    var s' := Do(s, e).0;
    match e
    case NewUserEvent(u) =>
      assert forall v :: s'.Map(v) == s.Map(v);
      assert forall c :: c in s.table ==> s.table[c] != u;
    case Connect(c) =>
      assert s'.maps == s.maps;
      assert forall u :: s'.Map(u) == s.Map(u);
    case Login(c, u, passwordOk, device) =>
      LogInMaps(s, c, u, passwordOk, device);
      assert s' == LogIn(s, c, u, passwordOk, device).0;
    case Disconnect(c) =>
      CloseMaps(s, c);
      assert s' == CloseSession(s, c).0;
  }

  /** A login that succeeds moves the connection over to the user; any other changes nothing. */
  lemma LogInMaps(s: Conns, c: ConnectionID, u: UserID, ok: bool, device: DeviceType)
    requires Agree(s) && c in s.table
    ensures var (s', reply, fault) := LogIn(s, c, u, ok, device);
            && fault == Fine && reply == (if ok && s.HasUser(u) then Success else Failure)
            && s'.maps.Keys == s.maps.Keys
            && s'.table == (if reply == Success then s.table[c := u] else s.table)
            && s'.sessions == (if reply == Success then s.sessions[c := u] else s.sessions)
            && forall v :: s'.Map(v) == if reply != Success then s.Map(v)
                                        else if v == u then (s.Map(v) - {c})[c := device]
                                        else s.Map(v) - {c}
  {
    if ok && s.HasUser(u) {
      DetachKeeps(s, c);
      var s1, s' := Detach(s, c).0, LogIn(s, c, u, ok, device).0;
      assert s1.Map(u) == s.Map(u) - {c};
      assert forall v :: s'.Map(v) == if v == u then s1.Map(v)[c := device] else s1.Map(v);
    }
  }

  lemma CloseMaps(s: Conns, c: ConnectionID)
    requires Agree(s) && c in s.table
    ensures var (s', fault) := CloseSession(s, c);
            && fault == Fine && s'.maps.Keys == s.maps.Keys
            && s'.table == s.table - {c} && s'.sessions == s.sessions - {c}
            && forall u :: s'.Map(u) == s.Map(u) - {c}
  {
    var s0 := s.(sessions := s.sessions - {c});
    DetachKeeps(s, c);
    var s1, s' := Detach(s, c).0, CloseSession(s, c).0;
    assert Detach(s0, c) == (s1.(sessions := s0.sessions), Fine);
    assert forall u :: s'.Map(u) == s1.Map(u);
  }

  // ---- one connection from start to end

  /** `s'` is `s` with one more connection, which may be logged in, and perhaps more users. */
  ghost predicate OneMore(s: Conns, s': Conns, c: ConnectionID) {
    && Agree(s') && c in s'.table && c !in s.table
    && s'.table - {c} == s.table && s'.sessions - {c} == s.sessions && s'.maps.Keys >= s.maps.Keys
    && forall u :: s'.Map(u) - {c} == s.Map(u)
  }

  lemma OneMoreOpened(s: Conns, c: ConnectionID)
    requires Agree(s) && c !in s.table
    ensures OneMore(s, OpenSession(s, c).0, c)
  {
    var s' := OpenSession(s, c).0;
    StepKeeps(s, Connect(c));
    forall u
      ensures s'.Map(u) - {c} == s.Map(u)
    {
      assert c !in s.Map(u) && s'.Map(u) == s.Map(u);
    }
    assert s'.table - {c} == s.table && s'.sessions - {c} == s.sessions;
  }

  lemma OneMoreLoggedIn(s: Conns, s1: Conns, c: ConnectionID, u: UserID, ok: bool, device: DeviceType)
    requires OneMore(s, s1, c)
    ensures OneMore(s, LogIn(s1, c, u, ok, device).0, c)
  {
    var s' := LogIn(s1, c, u, ok, device).0;
    StepKeeps(s1, Login(c, u, ok, device));
    LogInMaps(s1, c, u, ok, device);
    forall v
      ensures s'.Map(v) - {c} == s.Map(v)
    {
      assert s'.Map(v) - {c} == s1.Map(v) - {c};
    }
    assert s'.table - {c} == s1.table - {c} && s'.sessions - {c} == s1.sessions - {c};
  }

  lemma OneMoreRegistered(s: Conns, s1: Conns, c: ConnectionID, u: UserID)
    requires OneMore(s, s1, c) && !s1.HasUser(u) && u >= FIRST_ID
    ensures OneMore(s, NewUser(s1, u), c)
  {
    var s' := NewUser(s1, u);
    StepKeeps(s1, NewUserEvent(u));
    forall v
      ensures s'.Map(v) - {c} == s.Map(v)
    {
      assert s'.Map(v) == s1.Map(v);
    }
  }

  /** Closing it leaves everything as it was before it came, logged in or not, but for users that are new. */
  lemma OneMoreClosed(s: Conns, s1: Conns, c: ConnectionID)
    requires OneMore(s, s1, c)
    ensures var (s', fault) := CloseSession(s1, c);
            && fault == Fine && s' == s.(maps := s'.maps) && s'.maps.Keys == s1.maps.Keys
            && (forall u :: s'.Map(u) == s.Map(u))
            && (s1.maps.Keys == s.maps.Keys ==> s' == s)
  {
    var s' := CloseSession(s1, c).0;
    CloseMaps(s1, c);
    forall u
      ensures s'.Map(u) == s.Map(u)
    {
      assert s'.Map(u) == s1.Map(u) - {c};
    }
    if s1.maps.Keys == s.maps.Keys {
      forall u | u in s.maps
        ensures s'.maps[u] == s.maps[u]
      {
        assert s'.Map(u) == s.Map(u);
      }
      assert s'.maps == s.maps;
    }
  }

  // ------------------------------------------------------------------------
  // Runs
  // ------------------------------------------------------------------------

  function Run(evs: seq<Event>): Conns {
    if evs == [] then EMPTY else Do(Run(evs[..|evs| - 1]), evs[|evs| - 1]).0
  }

  ghost predicate LegalRun(evs: seq<Event>) {
    evs != [] ==> LegalRun(evs[..|evs| - 1]) && Legal(Run(evs[..|evs| - 1]), evs[|evs| - 1])
  }

  lemma {:induction false} AgreeAlways(evs: seq<Event>)
    requires LegalRun(evs)
    ensures Agree(Run(evs))
    ensures evs != [] ==> Do(Run(evs[..|evs| - 1]), evs[|evs| - 1]).1 == Fine
  {
    if evs != [] {
      AgreeAlways(evs[..|evs| - 1]);
      StepKeeps(Run(evs[..|evs| - 1]), evs[|evs| - 1]);
    }
  }

  // ---- the records say exactly who logged in last

  datatype Owner = Closed | Anonymous | LoggedIn(user: UserID, device: DeviceType)

  ghost predicate Registered(evs: seq<Event>, u: UserID) {
    NewUserEvent(u) in evs
  }

  /** Who a connection belongs to, read off what has happened alone. */
  ghost function OwnerAfter(evs: seq<Event>, c: ConnectionID): Owner {
    if evs == [] then Closed
    else
      var before, e := evs[..|evs| - 1], evs[|evs| - 1];
      match e
      case NewUserEvent(_) => OwnerAfter(before, c)
      case Connect(d) => if d == c then Anonymous else OwnerAfter(before, c)
      case Login(d, u, passwordOk, device) =>
        if d == c && passwordOk && Registered(before, u) then LoggedIn(u, device) else OwnerAfter(before, c)
      case Disconnect(d) => if d == c then Closed else OwnerAfter(before, c)
  }

  lemma {:induction false} UsersAreRegistered(evs: seq<Event>, u: UserID)
    requires LegalRun(evs)
    ensures Run(evs).HasUser(u) <==> Registered(evs, u)
  {
    if evs != [] {
      var before, e := evs[..|evs| - 1], evs[|evs| - 1];
      UsersAreRegistered(before, u);
      AgreeAlways(before);
      assert evs == before + [e];
      SameUsers(Run(before), e);
    }
  }

  lemma SameUsers(s: Conns, e: Event)
    requires Agree(s) && Legal(s, e)
    ensures Do(s, e).0.maps.Keys == if e.NewUserEvent? then s.maps.Keys + {e.user} else s.maps.Keys
  {
    var s' := Do(s, e).0;
    match e
    case NewUserEvent(u) =>
    case Connect(c) =>
    case Login(c, u, passwordOk, device) => LogInMaps(s, c, u, passwordOk, device);
    case Disconnect(c) =>
      CloseMaps(s, c);
      assert s' == CloseSession(s, c).0;
  }

  /** The records of `c` when it belongs to `owner`. */
  ghost predicate Shows(s: Conns, c: ConnectionID, owner: Owner) {
    match owner
    case Closed => c !in s.table && c !in s.sessions && forall u :: c !in s.Map(u)
    case Anonymous => c in s.table && s.table[c] == NO_USER && forall u :: c !in s.Map(u)
    case LoggedIn(v, device) =>
      c in s.table && s.table[c] == v && s.HasUser(v) && forall u :: c in s.Map(u) <==> u == v
  }

  ghost predicate ShowsDevice(s: Conns, c: ConnectionID, owner: Owner) {
    owner.LoggedIn? ==> c in s.Map(owner.user) && s.Map(owner.user)[c] == owner.device
  }

  /**
   * However connections, logins (again as the same user or as another one) and
   * disconnects are interleaved: a connection is in the map of the user who last logged
   * in on it and in no other, under the device of that login, and the table and the
   * session name that user; a failed login changes nothing.
   */
  lemma {:induction false} RecordsFollowLogins(evs: seq<Event>, c: ConnectionID)
    requires LegalRun(evs)
    ensures Run(evs).table == Run(evs).sessions
    ensures Shows(Run(evs), c, OwnerAfter(evs, c)) && ShowsDevice(Run(evs), c, OwnerAfter(evs, c))
  {
    AgreeAlways(evs);
    if evs != [] {
      var before, e := evs[..|evs| - 1], evs[|evs| - 1];
      RecordsFollowLogins(before, c);
      AgreeAlways(before);
      if e.Login? {
        UsersAreRegistered(before, e.user);
      }
      StepShows(Run(before), e, c, OwnerAfter(before, c), OwnerAfter(evs, c));
    }
  }

  lemma StepShows(s: Conns, e: Event, c: ConnectionID, owner: Owner, owner': Owner)
    requires Agree(s) && Legal(s, e) && Shows(s, c, owner) && ShowsDevice(s, c, owner)
    requires owner' == match e
                       case NewUserEvent(_) => owner
                       case Connect(d) => if d == c then Anonymous else owner
                       case Login(d, u, ok, device) =>
                         if d == c && ok && s.HasUser(u) then LoggedIn(u, device) else owner
                       case Disconnect(d) => if d == c then Closed else owner
    ensures Shows(Do(s, e).0, c, owner') && ShowsDevice(Do(s, e).0, c, owner')
  {
    var s' := Do(s, e).0;
    match e
    case NewUserEvent(u) => assert forall v :: s'.Map(v) == s.Map(v);
    case Connect(d) => assert forall u :: s'.Map(u) == s.Map(u);
    case Login(d, u, ok, device) =>
      LogInMaps(s, d, u, ok, device);
      assert s' == LogIn(s, d, u, ok, device).0;
    case Disconnect(d) =>
      CloseMaps(s, d);
      assert s' == CloseSession(s, d).0;
  }
}
