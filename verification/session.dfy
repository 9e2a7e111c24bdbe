// One server connection from accept to close (Network::process in
// server/network/network.cpp): rate limiter, registration, handshake, the read loop
// over the reassembly buffer, the frame decoder and the heartbeat monitor.

module Sessions {
  import opened Bytes
  import opened Errors
  import opened DataPackages
  import opened PackageBuffer
  import opened Heartbeats
  import opened Ids
  import C = Connections
  import F = Framing
  import R = RateLimiting
  import S = ChatServers
  import V = Servers

  /** What a request asks for, as far as the connection itself is concerned. */
  datatype Request = Other | Register | Login(user: UserID, passwordOk: bool, device: C.DeviceType)

  /**
   * What the socket brings: a chunk, read at `now`, or the end (an error, a timeout or
   * the peer leaving). If the chunk completes a package, `request` is what the package
   * asks for, and `serviceFails` says whether serving it throws in the end.
   */
  datatype Arrival = Chunk(bytes: seq<Byte>, now: real, request: Request, serviceFails: bool) | Broken

  datatype Exit = Open | BadFrame(error: Errc) | TooManyHeartBeats | ServiceFailed | ReadFailed

  datatype Session = Session(buffer: seq<Byte>, handled: seq<DataPackage>, monitor: Monitor, exit: Exit)

  function Handle(s: Session, p: DataPackage, now: real, serviceFails: bool): Session {
    var s' := s.(handled := s.handled + [p]);
    if p.kind == HEART_BEAT then
      if Drops(s.monitor, now) then s'.(exit := TooManyHeartBeats) else s'.(monitor := Beat(s.monitor, now))
    else if serviceFails then s'.(exit := ServiceFailed)
    else s'
  }

  function Step(s: Session, a: Arrival): Session {
    if s.exit != Open then s
    else if a.Broken? then s.(exit := ReadFailed)
    else
      var bytes := s.buffer + a.bytes;
      if !Readable(bytes) then s.(buffer := bytes)
      else
        var (frame, rest) := ReadFrom(bytes);
        if frame.Err? then s.(buffer := bytes, exit := BadFrame(frame.error))
        else
          var pack := Decode(frame.value);
          if pack.Err? then s.(buffer := rest, exit := BadFrame(pack.error))
          else Handle(s.(buffer := rest), pack.value, a.now, a.serviceFails)
  }

  function Run(start: real, arrivals: seq<Arrival>): Session {
    if arrivals == [] then Session([], [], Monitor(0, start), Open)
    else Step(Run(start, arrivals[..|arrivals| - 1]), arrivals[|arrivals| - 1])
  }

  /** The package that an arrival completes. */
  function Completed(s: Session, a: Arrival): Option<DataPackage> {
    if s.exit != Open || a.Broken? || !Readable(s.buffer + a.bytes) then None
    else
      var frame := ReadFrom(s.buffer + a.bytes).0;
      if frame.Err? || Decode(frame.value).Err? then None else Some(Decode(frame.value).value)
  }

  /** What registrations and logins on the connection change in the manager. */
  datatype Tables = Tables(nextUser: UserID, conns: C.Conns)

  function TablesAfter(t: Tables, c: ConnectionID, start: real, arrivals: seq<Arrival>): Tables {
    if arrivals == [] then t
    else
      var before, a := arrivals[..|arrivals| - 1], arrivals[|arrivals| - 1];
      match Completed(Run(start, before), a)
      case None => TablesAfter(t, c, start, before)
      case Some(p) => Served(TablesAfter(t, c, start, before), c, p, a.request)
  }

  /** Neither needs a login. */
  function Served(t: Tables, c: ConnectionID, p: DataPackage, request: Request): Tables {
    if p.kind != TEXT then t
    else
      match request
      case Other => t
      case Register => Tables(t.nextUser + 1, C.NewUser(t.conns, t.nextUser))
      case Login(u, passwordOk, device) => t.(conns := C.LogIn(t.conns, c, u, passwordOk, device).0)
  }

  function Opened(t: Tables, c: ConnectionID): Tables {
    t.(conns := C.OpenSession(t.conns, c).0)
  }

  /** The records of connections agree, and ids yet to be given out belong to nobody. */
  ghost predicate Sound(t: Tables) {
    C.Agree(t.conns) && t.nextUser >= FIRST_ID && forall u <- t.conns.maps :: u < t.nextUser
  }

  lemma SoundAlways(evs: seq<V.Event>)
    requires V.LegalRun(evs)
    ensures Sound(Tables(V.Run(evs).nextUser, V.Run(evs).conns))
  {
    V.InvAlways(evs);
    assert forall u <- V.Run(evs).conns.maps :: V.Run(evs).conns.HasUser(u);
  }

  /** The users are those of before and one for each id given out since. */
  ghost predicate UsersSince(was: Tables, t: Tables) {
    was.nextUser <= t.nextUser
    && forall u :: t.conns.HasUser(u) <==> was.conns.HasUser(u) || was.nextUser <= u < t.nextUser
  }

  lemma SameUsersSince(was: Tables, t: Tables, t': Tables)
    requires UsersSince(was, t) && t'.nextUser == t.nextUser && t'.conns.maps.Keys == t.conns.maps.Keys
    ensures UsersSince(was, t')
  {
    assert forall u :: t'.conns.HasUser(u) <==> t.conns.HasUser(u);
  }

  /** Whatever is served, the connection and the users it has registered remain all that is new. */
  lemma {:induction false} TablesGainOne(was: Tables, c: ConnectionID, start: real, arrivals: seq<Arrival>)
    requires Sound(was) && c !in was.conns.table
    ensures var t := TablesAfter(Opened(was, c), c, start, arrivals);
            C.OneMore(was.conns, t.conns, c) && Sound(t) && UsersSince(was, t)
  {
    if arrivals == [] {
      C.OneMoreOpened(was.conns, c);
    } else {
      var before, a := arrivals[..|arrivals| - 1], arrivals[|arrivals| - 1];
      TablesGainOne(was, c, start, before);
      match Completed(Run(start, before), a)
      case None =>
      case Some(p) => ServedGainsOne(was, TablesAfter(Opened(was, c), c, start, before), c, p, a.request);
    }
  }

  lemma ServedGainsOne(was: Tables, t: Tables, c: ConnectionID, p: DataPackage, request: Request)
    requires C.OneMore(was.conns, t.conns, c) && Sound(t) && UsersSince(was, t)
    ensures C.OneMore(was.conns, Served(t, c, p, request).conns, c)
    ensures Sound(Served(t, c, p, request)) && UsersSince(was, Served(t, c, p, request))
  {
    if p.kind == TEXT {
      match request
      case Other =>
      case Register =>
        C.OneMoreRegistered(was.conns, t.conns, c, t.nextUser);
        assert forall u :: Served(t, c, p, request).conns.HasUser(u) <==> t.conns.HasUser(u) || u == t.nextUser;
      case Login(u, passwordOk, device) =>
        C.OneMoreLoggedIn(was.conns, t.conns, c, u, passwordOk, device);
        C.LogInMaps(t.conns, c, u, passwordOk, device);
        assert forall v :: Served(t, c, p, request).conns.HasUser(v) <==> t.conns.HasUser(v);
    }
  }

  lemma {:induction false} ClosedTables(t: Tables, c: ConnectionID, start: real, arrivals: seq<Arrival>, i: nat)
    requires i <= |arrivals| && Run(start, arrivals[..i]).exit != Open
    ensures TablesAfter(t, c, start, arrivals) == TablesAfter(t, c, start, arrivals[..i])
    decreases |arrivals|
  {
    if i < |arrivals| {
      var before := arrivals[..|arrivals| - 1];
      assert before[..i] == arrivals[..i];
      ClosedStays(start, before, i);
      ClosedTables(t, c, start, before, i);
    } else {
      assert arrivals[..i] == arrivals;
    }
  }

  lemma {:induction false} ClosedStays(start: real, arrivals: seq<Arrival>, i: nat)
    requires i <= |arrivals| && Run(start, arrivals[..i]).exit != Open
    ensures Run(start, arrivals) == Run(start, arrivals[..i])
    decreases |arrivals|
  {
    if i < |arrivals| {
      var before := arrivals[..|arrivals| - 1];
      assert before[..i] == arrivals[..i];
      ClosedStays(start, before, i);
    } else {
      assert arrivals[..i] == arrivals;
    }
  }

  // ------------------------------------------------------------------------
  // The coroutine
  // ------------------------------------------------------------------------

  ghost function TablesOf(manager: S.ChatServer): Tables
    reads manager, manager.userMap.Values
  {
    Tables(manager.newUserId, manager.ConnsView())
  }

  /** The connection table and the sessions of before, each user's connections of before, and new users without any. */
  ghost predicate LeftAsFound(was: Tables, now: Tables) {
    && now.conns == was.conns.(maps := now.conns.maps)
    && (forall u :: now.conns.Map(u) == was.conns.Map(u))
    && UsersSince(was, now)
  }

  /**
   * It ends with the state of the run, and on every way out it leaves the manager's
   * tables as it found them, whoever has been logged in on the connection: registered
   * once, removed once, never removed twice. All that remains are the users it created.
   */
  method Process(limiter: R.RateLimiter, manager: S.ChatServer, addr: R.Address, accepted: real,
                 c: ConnectionID, handshakeOk: bool, start: real, arrivals: seq<Arrival>)
    returns (letIn: bool, s: Session)
    requires manager.Valid() && Sound(TablesOf(manager)) && c !in manager.connectionMap
    modifies limiter, manager, manager.userMap.Values
    ensures letIn == R.Allows(old(limiter.View()), addr, accepted)
    ensures limiter.View() == R.AfterAttempt(old(limiter.View()), addr, accepted)
    ensures letIn && handshakeOk ==> s == Run(start, arrivals)
    ensures manager.newUserId ==
            if letIn && handshakeOk then TablesAfter(Opened(old(TablesOf(manager)), c), c, start, arrivals).nextUser
            else old(manager.newUserId)
    ensures if letIn && handshakeOk && s.exit == Open
            then TablesOf(manager) == TablesAfter(Opened(old(TablesOf(manager)), c), c, start, arrivals)
            else LeftAsFound(old(TablesOf(manager)), TablesOf(manager))
  {
    s := Session([], [], Monitor(0, start), ReadFailed);
    letIn := limiter.AllowConnection(addr, accepted);
    if letIn {
      s := ServeConnection(manager, c, handshakeOk, start, arrivals);
    }
  }

  method ServeConnection(manager: S.ChatServer, c: ConnectionID, handshakeOk: bool, start: real, arrivals: seq<Arrival>)
    returns (s: Session)
    requires manager.Valid() && Sound(TablesOf(manager)) && c !in manager.connectionMap
    modifies manager, manager.userMap.Values
    ensures s == if handshakeOk then Run(start, arrivals) else Session([], [], Monitor(0, start), ReadFailed)
    ensures manager.newUserId ==
            if handshakeOk then TablesAfter(Opened(old(TablesOf(manager)), c), c, start, arrivals).nextUser
            else old(manager.newUserId)
    ensures if s.exit == Open
            then TablesOf(manager) == TablesAfter(Opened(old(TablesOf(manager)), c), c, start, arrivals)
            else LeftAsFound(old(TablesOf(manager)), TablesOf(manager))
  {
    s := Session([], [], Monitor(0, start), ReadFailed);
    ghost var before := TablesOf(manager);
    var registered := manager.RegisterConnection(c);
    assert registered == C.Fine;
    if !handshakeOk {
      var removed := manager.RemoveConnection(c);
      assert before.conns.table[c := NO_USER] - {c} == before.conns.table;
      return;
    }
    manager.StartSession(c);
    assert TablesOf(manager) == Opened(before, c);
    s := ReadLoop(manager, c, start, arrivals);
    TablesGainOne(before, c, start, arrivals);
    if s.exit != Open {
      CloseConnection(manager, c, before);
    }
  }

  method CloseConnection(manager: S.ChatServer, c: ConnectionID, ghost was: Tables)
    requires manager.Valid()
    requires C.OneMore(was.conns, manager.ConnsView(), c) && UsersSince(was, TablesOf(manager))
    modifies manager`connectionMap, manager`sessions, manager.userMap.Values`connectionMap
    ensures LeftAsFound(was, TablesOf(manager))
  {
    ghost var t := TablesOf(manager);
    C.OneMoreClosed(was.conns, t.conns, c);
    var closed := manager.CloseSession(c);
    assert closed == C.Fine;
    assert TablesOf(manager) == Tables(t.nextUser, C.CloseSession(t.conns, c).0);
    SameUsersSince(was, t, TablesOf(manager));
  }

  method ReadLoop(manager: S.ChatServer, c: ConnectionID, start: real, arrivals: seq<Arrival>) returns (s: Session)
    requires manager.Valid()
    modifies manager, manager.userMap.Values
    ensures manager.Valid() && fresh(manager.userMap.Values - old(manager.userMap.Values))
    ensures s == Run(start, arrivals)
    ensures TablesOf(manager) == TablesAfter(old(TablesOf(manager)), c, start, arrivals)
  {
    var receiver := new Package();
    var monitor := new HeartbeatMonitor(start);
    s := Session([], [], Monitor(0, start), Open);
    var i := 0;
    while i < |arrivals| && s.exit == Open
      invariant 0 <= i <= |arrivals|
      invariant fresh(receiver) && fresh(monitor)
      invariant manager.Valid() && fresh(manager.userMap.Values - old(manager.userMap.Values))
      invariant s == Run(start, arrivals[..i])
      invariant s.exit == Open ==> receiver.buffer == s.buffer && monitor.View() == s.monitor
      invariant TablesOf(manager) == TablesAfter(old(TablesOf(manager)), c, start, arrivals[..i])
    {
      assert arrivals[..i + 1][..i] == arrivals[..i];
      s := Turn(manager, receiver, monitor, c, s, arrivals[i]);
      i := i + 1;
    }
    if s.exit == Open {
      assert arrivals[..i] == arrivals;
    } else {
      ClosedStays(start, arrivals, i);
      ClosedTables(old(TablesOf(manager)), c, start, arrivals, i);
    }
  }

  /** One read and, if it completes a package, what is done with that. */
  method Turn(manager: S.ChatServer, receiver: Package, monitor: HeartbeatMonitor,
              c: ConnectionID, s: Session, a: Arrival)
    returns (s': Session)
    requires manager.Valid() && s.exit == Open && receiver.buffer == s.buffer && monitor.View() == s.monitor
    modifies manager, manager.userMap.Values, receiver, monitor
    ensures manager.Valid() && fresh(manager.userMap.Values - old(manager.userMap.Values))
    ensures s' == Step(s, a)
    ensures s'.exit == Open ==> receiver.buffer == s'.buffer && monitor.View() == s'.monitor
    ensures TablesOf(manager) == match Completed(s, a)
                                 case None => old(TablesOf(manager))
                                 case Some(p) => Served(old(TablesOf(manager)), c, p, a.request)
  {
    if a.Broken? {
      return s.(exit := ReadFailed);
    }
    var pack := Receive(receiver, a.bytes);
    s' := s.(buffer := receiver.buffer);
    if pack == None {
      return;
    }
    if pack.value.Err? {
      return s'.(exit := BadFrame(pack.value.error));
    }
    s' := Dispatch(manager, monitor, c, s', pack.value.value, a);
  }

  /** Nothing yet, or the next frame decoded. */
  method Receive(receiver: Package, bytes: seq<Byte>) returns (pack: Option<Result<DataPackage>>)
    modifies receiver
    ensures var all := old(receiver.buffer) + bytes;
            if !Readable(all) then pack == None && receiver.buffer == all
            else
              var (frame, rest) := ReadFrom(all);
              && receiver.buffer == rest
              && pack == Some(if frame.Ok? then Decode(frame.value) else Err(frame.error))
  {
    receiver.Write(bytes);
    var readable := receiver.CanRead();
    if !readable {
      return None;
    }
    var frame := receiver.Read();
    if frame.Err? {
      return Some(Err(frame.error));
    }
    var decoded := StringToPackage(frame.value);
    pack := Some(decoded);
  }

  method Serve(manager: S.ChatServer, c: ConnectionID, request: Request)
    requires manager.Valid()
    modifies manager, manager.userMap.Values
    ensures manager.Valid() && fresh(manager.userMap.Values - old(manager.userMap.Values))
    ensures forall p: DataPackage ::
              p.kind == TEXT ==> TablesOf(manager) == Served(old(TablesOf(manager)), c, p, request)
  {
    match request {
      case Other =>
      case Register => var _ := manager.AddNewUser();
      case Login(u, passwordOk, device) => var _, _ := manager.LogIn(c, u, passwordOk, device);
    }
  }

  method Dispatch(manager: S.ChatServer, monitor: HeartbeatMonitor,
                  c: ConnectionID, s: Session, p: DataPackage, a: Arrival)
    returns (s': Session)
    requires manager.Valid() && a.Chunk? && s.exit == Open && monitor.View() == s.monitor
    modifies manager, manager.userMap.Values, monitor
    ensures manager.Valid() && fresh(manager.userMap.Values - old(manager.userMap.Values))
    ensures s' == Handle(s, p, a.now, a.serviceFails)
    ensures s'.exit == Open ==> monitor.View() == s'.monitor
    ensures TablesOf(manager) == Served(old(TablesOf(manager)), c, p, a.request)
  {
    s' := s.(handled := s.handled + [p]);
    if p.kind == HEART_BEAT {
      var drop := monitor.OnHeartBeat(a.now);
      if drop {
        return s'.(exit := TooManyHeartBeats);
      }
      return s'.(monitor := Monitor(monitor.heartBeatTimes, monitor.heartBeatTimePoint));
    }
    if p.kind == TEXT {
      Serve(manager, c, a.request);
    }
    if a.serviceFails {
      s' := s'.(exit := ServiceFailed);
    }
  }

  // ------------------------------------------------------------------------
  // What a well-behaved client gets
  // ------------------------------------------------------------------------

  ghost predicate AllWellFormed(ps: seq<DataPackage>) {
    forall i :: 0 <= i < |ps| ==> ps[i].WellFormed()
  }

  /** What the client puts on the wire for them. */
  function Sent(ps: seq<DataPackage>): (fs: seq<F.Frame>)
    requires AllWellFormed(ps)
    ensures |fs| == |ps|
  {
    if ps == [] then [] else Sent(ps[..|ps| - 1]) + [Encode(ps[|ps| - 1])]
  }

  lemma {:induction false} SentAt(ps: seq<DataPackage>, k: nat)
    requires AllWellFormed(ps) && k < |ps|
    ensures Sent(ps)[k] == Encode(ps[k])
  {
    if k < |ps| - 1 {
      SentAt(ps[..|ps| - 1], k);
    }
  }

  function Chunks(arrivals: seq<Arrival>): (chunks: seq<seq<Byte>>)
    ensures |chunks| == |arrivals|
  {
    if arrivals == [] then []
    else
      var a := arrivals[|arrivals| - 1];
      Chunks(arrivals[..|arrivals| - 1]) + [if a.Chunk? then a.bytes else []]
  }

  lemma EncodedIsFrame(p: DataPackage)
    requires p.WellFormed()
    ensures F.IsFrame(Encode(p))
  {
    DecodeEncode(p);
    EncodeDecode(Encode(p));
  }

  lemma SentAreFrames(ps: seq<DataPackage>)
    requires AllWellFormed(ps)
    ensures F.AllFrames(Sent(ps))
  {
    forall i | 0 <= i < |ps|
      ensures F.IsFrame(Sent(ps)[i])
    {
      SentAt(ps, i);
      EncodedIsFrame(ps[i]);
    }
  }

  /** One turn of the session and one of the bare receiver, on the same chunk; `fs` stands for `ps` on the wire. */
  lemma TurnDelivers(ps: seq<DataPackage>, fs: seq<F.Frame>, s: Session, a: Arrival, r: F.Receiver)
    requires s.exit == Open && a.Chunk? && !r.failed
    requires s.buffer == r.buffer && s.handled <= ps && |s.handled| == |r.delivered| && |fs| == |ps|
    requires |s.handled| < |ps| ==> Decode(fs[|s.handled|]) == Ok(ps[|s.handled|])
    requires !F.Feed(r, a.bytes).failed && F.Feed(r, a.bytes).delivered <= fs
    ensures Step(s, a).handled <= ps
    ensures Step(s, a).buffer == F.Feed(r, a.bytes).buffer
    ensures |Step(s, a).handled| == |F.Feed(r, a.bytes).delivered|
    ensures !a.serviceFails ==> Step(s, a).exit in {Open, TooManyHeartBeats}
  {
    var k := |s.handled|;
    if Readable(s.buffer + a.bytes) {
      NextDelivered(r, a.bytes, fs);
      HandledNext(s, a, fs[k], ps[k]);
      assert s.handled + [ps[k]] == ps[..k + 1];
    }
  }

  lemma SentDecodes(ps: seq<DataPackage>, k: nat)
    requires AllWellFormed(ps) && k < |ps|
    ensures Decode(Sent(ps)[k]) == Ok(ps[k])
  {
    SentAt(ps, k);
    DecodeEncode(ps[k]);
  }

  lemma HandledNext(s: Session, a: Arrival, frame: F.Frame, p: DataPackage)
    requires s.exit == Open && a.Chunk? && Decode(frame) == Ok(p)
    requires Readable(s.buffer + a.bytes) && ReadFrom(s.buffer + a.bytes).0 == Ok(frame)
    ensures Step(s, a).handled == s.handled + [p] && Step(s, a).buffer == ReadFrom(s.buffer + a.bytes).1
    ensures !a.serviceFails ==> Step(s, a).exit in {Open, TooManyHeartBeats}
  {
  }

  lemma NextDelivered(r: F.Receiver, chunk: seq<Byte>, fs: seq<F.Frame>)
    requires !r.failed && !F.Feed(r, chunk).failed && Readable(r.buffer + chunk)
    requires F.Feed(r, chunk).delivered <= fs
    ensures |r.delivered| < |fs| && ReadFrom(r.buffer + chunk).0 == Ok(fs[|r.delivered|])
  {
    var d' := F.Feed(r, chunk).delivered;
    assert d'[|r.delivered|] == fs[|r.delivered|];
  }

  /** What has arrived so far is the beginning of these packages, encoded one after the other. */
  ghost predicate Carries(arrivals: seq<Arrival>, ps: seq<DataPackage>) {
    AllWellFormed(ps) && F.Concat(Chunks(arrivals)) <= F.Concat(Sent(ps))
  }

  /**
   * Packages that a client encodes one after the other are handed on decoded, in order,
   * none lost or repeated, however the stream is cut; and while nothing breaks on the
   * socket and no request makes the service throw, the only way to lose the connection
   * is too many heartbeats.
   */
  lemma {:induction false} PackagesArriveInOrder(ps: seq<DataPackage>, start: real, arrivals: seq<Arrival>)
    requires Carries(arrivals, ps)
    ensures Run(start, arrivals).handled <= ps
    ensures Run(start, arrivals).exit == Open ==>
              && |Run(start, arrivals).handled| == |F.FeedAll(Chunks(arrivals)).delivered|
              && Run(start, arrivals).buffer == F.FeedAll(Chunks(arrivals)).buffer
    ensures (forall i :: 0 <= i < |arrivals| ==> arrivals[i].Chunk? && !arrivals[i].serviceFails) ==>
              Run(start, arrivals).exit in {Open, TooManyHeartBeats}
  {
    if arrivals != [] {
      var before, a := arrivals[..|arrivals| - 1], arrivals[|arrivals| - 1];
      var s := Run(start, before);
      assert Chunks(arrivals)[..|arrivals| - 1] == Chunks(before);
      PackagesArriveInOrder(ps, start, before);
      if s.exit == Open && a.Chunk? {
        SentAreFrames(ps);
        F.DeliveryIsPrefix(Sent(ps), Chunks(before));
        F.DeliveryIsPrefix(Sent(ps), Chunks(arrivals));
        if |s.handled| < |ps| {
          SentDecodes(ps, |s.handled|);
        }
        TurnDelivers(ps, Sent(ps), s, a, F.FeedAll(Chunks(before)));
      }
    }
  }

  // ------------------------------------------------------------------------
  // What ends a session
  // ------------------------------------------------------------------------

  /** When the heartbeats among the packages arrived. */
  function BeatTimes(start: real, arrivals: seq<Arrival>): seq<real> {
    if arrivals == [] then []
    else
      var before, a := arrivals[..|arrivals| - 1], arrivals[|arrivals| - 1];
      var pack := Completed(Run(start, before), a);
      BeatTimes(start, before) + if pack.Some? && pack.value.kind == HEART_BEAT then [a.now] else []
  }

  /** Too many heartbeats are what the monitor takes for too many, whatever else is sent. */
  lemma {:induction false} EndedByHeartBeats(start: real, arrivals: seq<Arrival>)
    ensures Run(start, arrivals).exit == TooManyHeartBeats
            <==> Dropped(Monitor(0, start), BeatTimes(start, arrivals))
    ensures Run(start, arrivals).exit == Open ==>
              Run(start, arrivals).monitor == After(Monitor(0, start), BeatTimes(start, arrivals))
  {
    if arrivals != [] {
      var before, a := arrivals[..|arrivals| - 1], arrivals[|arrivals| - 1];
      EndedByHeartBeats(start, before);
      NextEnd(Run(start, before), a);
      if a.Chunk? {
        OneMoreBeat(Monitor(0, start), BeatTimes(start, before), a.now);
      }
      assert BeatTimes(start, before) + [] == BeatTimes(start, before);
    }
  }

  lemma NextEnd(s: Session, a: Arrival)
    ensures var (s', pack) := (Step(s, a), Completed(s, a));
            && (pack.Some? ==> a.Chunk? && s.exit == Open)
            && (if pack.Some? && pack.value.kind == HEART_BEAT
                then if Drops(s.monitor, a.now) then s'.exit == TooManyHeartBeats
                     else s'.exit == Open && s'.monitor == Beat(s.monitor, a.now)
                else s'.monitor == s.monitor && (s'.exit == TooManyHeartBeats <==> s.exit == TooManyHeartBeats)
                     && (s'.exit == Open ==> s.exit == Open))
  {
  }

  /**
   * A client that sends well-formed packages, its heartbeats 10/9 of a second apart or
   * more, keeps its connection as long as nothing breaks, however many other packages
   * it sends.
   */
  lemma SpacedClientStays(ps: seq<DataPackage>, start: real, arrivals: seq<Arrival>, gap: real)
    requires Carries(arrivals, ps) && gap >= 10.0 / 9.0 && Spaced(BeatTimes(start, arrivals), start, gap)
    requires forall i :: 0 <= i < |arrivals| ==> arrivals[i].Chunk? && !arrivals[i].serviceFails
    ensures Run(start, arrivals).exit == Open
  {
    PackagesArriveInOrder(ps, start, arrivals);
    EndedByHeartBeats(start, arrivals);
    SpacedNeverDropped(Monitor(0, start), BeatTimes(start, arrivals), start, gap, 0.0);
  }

  /** What an open session has handled is what the receiver has delivered, decoded, for any bytes at all. */
  ghost predicate Follows(s: Session, r: F.Receiver) {
    && !r.failed && s.buffer == r.buffer && |s.handled| == |r.delivered|
    && forall k :: 0 <= k < |s.handled| ==> Decode(r.delivered[k]) == Ok(s.handled[k])
  }

  lemma StepFollows(s: Session, r: F.Receiver, a: Arrival, s': Session, r': F.Receiver)
    requires s' == Step(s, a) && s'.exit == Open && (s.exit == Open ==> Follows(s, r))
    requires a.Chunk? ==> r' == F.Feed(r, a.bytes)
    ensures s.exit == Open && a.Chunk? && Follows(s', r')
  {
  }

  lemma LastChunk(arrivals: seq<Arrival>)
    requires arrivals != [] && arrivals[|arrivals| - 1].Chunk?
    ensures F.FeedAll(Chunks(arrivals)) ==
            F.Feed(F.FeedAll(Chunks(arrivals[..|arrivals| - 1])), arrivals[|arrivals| - 1].bytes)
  {
    assert Chunks(arrivals)[..|arrivals| - 1] == Chunks(arrivals[..|arrivals| - 1]);
  }

  lemma {:induction false} OpenFollowsReceiver(start: real, arrivals: seq<Arrival>)
    requires Run(start, arrivals).exit == Open
    ensures Follows(Run(start, arrivals), F.FeedAll(Chunks(arrivals)))
  {
    if arrivals != [] {
      var before, a := arrivals[..|arrivals| - 1], arrivals[|arrivals| - 1];
      if Run(start, before).exit == Open {
        OpenFollowsReceiver(start, before);
      }
      if a.Chunk? {
        LastChunk(arrivals);
      }
      StepFollows(Run(start, before), F.FeedAll(Chunks(before)), a,
                  Run(start, arrivals), F.FeedAll(Chunks(arrivals)));
    }
  }

  /**
   * How an open session goes on: a read that fails ends it, and so does a chunk that
   * completes a frame the receiver or the decoder rejects; a heartbeat ends it if it is
   * one too many, any other package if serving it throws; nothing else does.
   */
  lemma NextExit(start: real, arrivals: seq<Arrival>, a: Arrival)
    requires Run(start, arrivals).exit == Open
    ensures var (exit, r) := (Run(start, arrivals + [a]).exit, F.FeedAll(Chunks(arrivals)));
            if a.Broken? then exit == ReadFailed
            else
              var r' := F.Feed(r, a.bytes);
              if r'.failed then exit == BadFrame(EmptyLength)
              else if r'.delivered == r.delivered then exit == Open
              else match Decode(r'.delivered[|r.delivered|])
                   case Err(error) => exit == BadFrame(error)
                   case Ok(p) =>
                     exit == if p.kind == HEART_BEAT
                             then if Dropped(Monitor(0, start), BeatTimes(start, arrivals) + [a.now])
                                  then TooManyHeartBeats else Open
                             else if a.serviceFails then ServiceFailed else Open
  {
    var all := arrivals + [a];
    assert all[..|all| - 1] == arrivals;
    OpenFollowsReceiver(start, arrivals);
    EndedByHeartBeats(start, arrivals);
    if a.Chunk? {
      OneMoreBeat(Monitor(0, start), BeatTimes(start, arrivals), a.now);
    }
  }

  // ------------------------------------------------------------------------
  // Who a connection belongs to in the end
  // ------------------------------------------------------------------------

  /** What is asked for by the text package that an arrival completes. */
  function Asked(s: Session, a: Arrival): Request {
    var pack := Completed(s, a);
    if pack.Some? && pack.value.kind == TEXT then a.request else Other
  }

  function Registrations(start: real, arrivals: seq<Arrival>): nat {
    if arrivals == [] then 0
    else
      var before, a := arrivals[..|arrivals| - 1], arrivals[|arrivals| - 1];
      Registrations(start, before) + if Asked(Run(start, before), a) == Register then 1 else 0
  }

  /** The user of the last login with the right password, if the user existed by then. */
  function LastLogin(was: Tables, start: real, arrivals: seq<Arrival>): UserID {
    if arrivals == [] then NO_USER
    else
      var before, a := arrivals[..|arrivals| - 1], arrivals[|arrivals| - 1];
      match Asked(Run(start, before), a)
      case Login(u, passwordOk, _) =>
        if passwordOk && (was.conns.HasUser(u)
                          || was.nextUser <= u < was.nextUser + Registrations(start, before)) then u
        else LastLogin(was, start, before)
      case _ => LastLogin(was, start, before)
  }

  /**
   * Table, session and user maps say who has last logged in on the connection, be it a
   * user that was registered on it just before.
   */
  lemma {:induction false} LoginsTakeEffect(was: Tables, c: ConnectionID, start: real, arrivals: seq<Arrival>)
    requires Sound(was) && c !in was.conns.table
    ensures var (t, owner) := (TablesAfter(Opened(was, c), c, start, arrivals), LastLogin(was, start, arrivals));
            && t.nextUser == was.nextUser + Registrations(start, arrivals)
            && c in t.conns.table && t.conns.table[c] == owner && t.conns.sessions == t.conns.table
            && forall u :: c in t.conns.Map(u) <==> u == owner != NO_USER
  {
    TablesGainOne(was, c, start, arrivals);
    if arrivals != [] {
      var before, a := arrivals[..|arrivals| - 1], arrivals[|arrivals| - 1];
      TablesGainOne(was, c, start, before);
      LoginsTakeEffect(was, c, start, before);
      var t := TablesAfter(Opened(was, c), c, start, before);
      var request := Asked(Run(start, before), a);
      if request.Login? {
        assert t.conns.HasUser(request.user) <==>
            was.conns.HasUser(request.user) || was.nextUser <= request.user < t.nextUser;
        C.LogInMaps(t.conns, c, request.user, request.passwordOk, request.device);
      }
    }
    OwnerIsInMaps(TablesAfter(Opened(was, c), c, start, arrivals).conns, c);
  }

  lemma OwnerIsInMaps(s: C.Conns, c: ConnectionID)
    requires C.Agree(s) && c in s.table
    ensures s.sessions == s.table && forall u :: c in s.Map(u) <==> u == s.table[c] != NO_USER
  {
  }
}
