// Requests and replies: the client keeps a callback for each request it has sent, and
// the server answers each request once under the id it came with
// (testclient/network.cpp, server/socketFunctions/socketFunctions.cpp,
// server/network/network.cpp).

module Correlation {
  import opened Errors
  import opened Histories
  import P = DataPackages

  type RequestID = int

  /** A callback is known by the number of the request it was given with. */
  type Callback = nat

  /** `origin` is the number of the request that a packet is, or answers. */
  datatype Packet = Packet(requestID: RequestID, kind: int, data: string, origin: nat)

  // ------------------------------------------------------------------------
  // The client
  // ------------------------------------------------------------------------

  datatype Client = Client(outstanding: set<RequestID>, callbacks: map<RequestID, Callback>, receiving: bool, next: nat)

  /** What becomes of a packet: a callback runs, or the general ones do, or `erase(end())`. */
  datatype Delivery = Fired(callback: Callback) | General | Broken

  /** Where the generator first gives a number that no outstanding request has. */
  function FirstFree(draws: seq<RequestID>, taken: set<RequestID>): (i: nat)
    ensures i <= |draws|
    ensures forall j :: 0 <= j < i ==> draws[j] in taken
    ensures i < |draws| ==> draws[i] !in taken
  {
    if draws == [] then 0 else if draws[0] !in taken then 0 else 1 + FirstFree(draws[1..], taken)
  }

  predicate Draws(draws: seq<RequestID>, taken: set<RequestID>) {
    FirstFree(draws, taken) < |draws|
  }

  function Sent(c: Client, draws: seq<RequestID>, kind: int, data: string): (Client, Option<Packet>)
    requires Draws(draws, c.outstanding)
  {
    if !c.receiving then (c, None)
    else
      var id := draws[FirstFree(draws, c.outstanding)];
      (c.(outstanding := c.outstanding + {id}, callbacks := c.callbacks[id := c.next], next := c.next + 1),
       Some(Packet(id, kind, data, c.next)))
  }

  /** A callback that throws leaves its own entry behind. */
  function Received(c: Client, id: RequestID, throws: bool): (Client, Delivery) {
    if id == 0 || id !in c.outstanding then (c, General)
    else
      var c1 := c.(outstanding := c.outstanding - {id});
      if id !in c.callbacks then (c1, Broken)
      else (if throws then c1 else c1.(callbacks := c1.callbacks - {id}), Fired(c.callbacks[id]))
  }

  class Network {
    var requestIDSet: set<RequestID>
    var requestID2FunctionMap: map<RequestID, Callback>
    var isReceiving: bool
    var sent: nat

    ghost function View(): Client
      reads this
    {
      Client(requestIDSet, requestID2FunctionMap, isReceiving, sent)
    }

    constructor ()
      ensures View() == Client({}, map[], false, 0)
    {
      requestIDSet, requestID2FunctionMap, isReceiving, sent := {}, map[], false, 0;
    }

    /** `draws` is what the generator is going to give. */
    method SendDataWithOption(draws: seq<RequestID>, kind: int, data: string) returns (pack: Option<Packet>)
      requires Draws(draws, requestIDSet)
      modifies this
      ensures (View(), pack) == Sent(old(View()), draws, kind, data)
    {
      if !isReceiving {
        return None;
      }
      var i := 0;
      var requestID := draws[i];
      while requestID in requestIDSet
        invariant i <= FirstFree(draws, requestIDSet) && requestID == draws[i]
        decreases |draws| - i
      {
        i := i + 1;
        requestID := draws[i];
      }
      assert i == FirstFree(draws, requestIDSet);
      requestIDSet := requestIDSet + {requestID};
      requestID2FunctionMap := requestID2FunctionMap[requestID := sent];
      pack := Some(Packet(requestID, kind, data, sent));
      sent := sent + 1;
    }

    method CallReceived(id: RequestID, throws: bool) returns (delivery: Delivery)
      modifies this
      ensures (View(), delivery) == Received(old(View()), id, throws)
    {
      delivery := General;
      if id != 0 {
        var needMovingData := false;
        if id in requestIDSet {
          needMovingData := true;
          requestIDSet := requestIDSet - {id};
        }
        if needMovingData {
          if id !in requestID2FunctionMap {
            return Broken;
          }
          delivery := Fired(requestID2FunctionMap[id]);
          if throws {
            return;
          }
          requestID2FunctionMap := requestID2FunctionMap - {id};
        }
      }
    }
  }

  // ------------------------------------------------------------------------
  // The server
  // ------------------------------------------------------------------------

  const ERROR_TYPE := "Error type"
  const NOT_LOGGED_IN := "You haven't logged in!"

  /** One reply to whatever is not a heartbeat, under the same id; `answer` is what the commands return. */
  function Reply(p: Packet, answer: string, loggedIn: bool): Packet {
    var data := if p.kind == P.TEXT then answer else if loggedIn then ERROR_TYPE else NOT_LOGGED_IN;
    Packet(p.requestID, P.TEXT, data, p.origin)
  }

  // ------------------------------------------------------------------------
  // Client and server over two channels
  // ------------------------------------------------------------------------

  /** `fired` and `general` are what the callbacks got, `served` the replies, all in order of time. */
  datatype Link = Link(
    client: Client,
    toServer: seq<Packet>,
    toClient: seq<Packet>,
    fired: seq<(Callback, Packet)>,
    general: seq<Packet>,
    served: seq<Packet>,
    broken: bool)

  const START := Link(Client({}, map[], false, 0), [], [], [], [], [], false)

  datatype Event =
    | Connected
    | Send(draws: seq<RequestID>, kind: int, data: string)
    | Beat
    | Serve(answer: string, loggedIn: bool)
    | Push(data: string)
    | Receive(throws: bool)
    | Lost

  function Transmit(s: Link, draws: seq<RequestID>, kind: int, data: string): Link
    requires Draws(draws, s.client.outstanding)
  {
    var (client, pack) := Sent(s.client, draws, kind, data);
    s.(client := client, toServer := if pack.Some? then s.toServer + [pack.value] else s.toServer)
  }

  function ServeNext(s: Link, answer: string, loggedIn: bool): Link {
    if s.toServer == [] then s
    else
      var p, s1 := s.toServer[0], s.(toServer := s.toServer[1..]);
      if p.kind == P.HEART_BEAT then s1
      else
        var reply := Reply(p, answer, loggedIn);
        s1.(toClient := s1.toClient + [reply], served := s1.served + [reply])
  }

  function ReceiveNext(s: Link, throws: bool): Link {
    if s.toClient == [] then s
    else
      var p := s.toClient[0];
      var (client, delivery) := Received(s.client, p.requestID, throws);
      var s1 := s.(client := client, toClient := s.toClient[1..]);
      match delivery
      case Fired(callback) => s1.(fired := s1.fired + [(callback, p)])
      case General => s1.(general := s1.general + [p])
      case Broken => s1.(broken := true)
  }

  /** As long as the generator gives nothing but numbers in use, a send does not get anywhere. */
  function Do(s: Link, e: Event): Link {
    match e
    case Connected => s.(client := s.client.(receiving := true))
    case Send(draws, kind, data) => if Draws(draws, s.client.outstanding) then Transmit(s, draws, kind, data) else s
    case Beat =>
      if s.client.receiving then s.(toServer := s.toServer + [Packet(0, P.HEART_BEAT, "heartbeat", 0)]) else s
    case Serve(answer, loggedIn) => ServeNext(s, answer, loggedIn)
    case Push(data) => if s.client.receiving then s.(toClient := s.toClient + [Packet(0, P.TEXT, data, 0)]) else s
    case Receive(throws) => ReceiveNext(s, throws)
    case Lost => s.(client := s.client.(receiving := false), toServer := [], toClient := [])
  }

  function Run(evs: seq<Event>): Link {
    if evs == [] then START else Do(Run(evs[..|evs| - 1]), evs[|evs| - 1])
  }

  // ------------------------------------------------------------------------
  // The ledger
  // ------------------------------------------------------------------------

  /** The requests that the packets are or answer, leaving out packets without an id. */
  function Origins(ps: seq<Packet>): seq<nat> {
    if ps == [] then [] else OriginOf(ps[0]) + Origins(ps[1..])
  }

  function OriginOf(p: Packet): seq<nat> {
    if p.requestID != 0 then [p.origin] else []
  }

  function Callbacks(fired: seq<(Callback, Packet)>): seq<nat> {
    seq(|fired|, i requires 0 <= i < |fired| => fired[i].0)
  }

  /** Requests whose callback has run, then those with a reply on the way, then those on their way. */
  function Ledger(s: Link): seq<nat> {
    Callbacks(s.fired) + Origins(s.toClient) + Origins(s.toServer)
  }

  ghost predicate Increasing(ns: seq<nat>) {
    forall i, j :: 0 <= i < j < |ns| ==> ns[i] < ns[j]
  }

  ghost predicate Below(ns: seq<nat>, n: nat) {
    forall k :: k in ns ==> k < n
  }

  /** The request a packet belongs to is outstanding, and its id leads to its own callback. */
  predicate Expected(c: Client, p: Packet) {
    p.requestID != 0 ==>
      p.requestID in c.outstanding && p.requestID in c.callbacks && c.callbacks[p.requestID] == p.origin
  }

  ghost predicate Inv(s: Link) {
    && Increasing(Ledger(s)) && Below(Ledger(s), s.client.next)
    && (forall p <- s.toServer :: Expected(s.client, p))
    && (forall p <- s.toClient :: Expected(s.client, p) && (p.requestID != 0 ==> p in s.served))
    && s.client.outstanding <= s.client.callbacks.Keys
    && (forall f <- s.fired :: f.0 == f.1.origin && f.1.requestID != 0 && f.1 in s.served)
    && (forall p <- s.general :: p.requestID == 0)
    && !s.broken
  }

  lemma Associate(a: seq<nat>, b: seq<nat>, c: seq<nat>)
    ensures a + b + c == a + (b + c)
  {
  }

  lemma {:induction false} OriginsOfConcat(ps: seq<Packet>, qs: seq<Packet>)
    ensures Origins(ps + qs) == Origins(ps) + Origins(qs)
  {
    if ps == [] {
      assert ps + qs == qs;
    } else {
      OriginsOfConcat(ps[1..], qs);
      assert (ps + qs)[0] == ps[0] && (ps + qs)[1..] == ps[1..] + qs;
      Associate(OriginOf(ps[0]), Origins(ps[1..]), Origins(qs));
    }
  }

  lemma {:induction false} OriginIn(ps: seq<Packet>, p: Packet)
    requires p in ps && p.requestID != 0
    ensures p.origin in Origins(ps)
  {
    if ps[0] != p {
      OriginIn(ps[1..], p);
    }
  }

  // ---- what each step does to the ledger

  lemma OriginsOfLast(ps: seq<Packet>, p: Packet)
    ensures Origins(ps + [p]) == Origins(ps) + OriginOf(p)
  {
    OriginsOfConcat(ps, [p]);
    assert [p][1..] == [];
  }

  lemma SendLedger(s: Link, draws: seq<RequestID>, kind: int, data: string)
    requires Draws(draws, s.client.outstanding)
    ensures Ledger(Transmit(s, draws, kind, data)) ==
              Ledger(s) + (if s.client.receiving && draws[FirstFree(draws, s.client.outstanding)] != 0
                  then [s.client.next] else [])
  {
    if s.client.receiving {
      OriginsOfLast(s.toServer, Sent(s.client, draws, kind, data).1.value);
    }
  }

  lemma SendKeeps(s: Link, draws: seq<RequestID>, kind: int, data: string)
    requires Inv(s) && Draws(draws, s.client.outstanding)
    ensures Inv(Transmit(s, draws, kind, data))
  {
    SendLedger(s, draws, kind, data);
    if s.client.receiving {
      Appended(Ledger(s), s.client.next);
      SentExpected(s, draws, kind, data);
    }
  }

  lemma SentExpected(s: Link, draws: seq<RequestID>, kind: int, data: string)
    requires Draws(draws, s.client.outstanding) && s.client.receiving
    ensures var s' := Transmit(s, draws, kind, data);
            && (forall p :: Expected(s.client, p) ==> Expected(s'.client, p))
            && (forall p <- s'.toServer :: p in s.toServer || Expected(s'.client, p))
  {
  }

  lemma Appended(ns: seq<nat>, n: nat)
    requires Increasing(ns) && Below(ns, n)
    ensures Increasing(ns + [n]) && Below(ns + [n], n + 1) && Below(ns, n + 1)
  {
    assert forall i :: 0 <= i < |ns| ==> ns[i] in ns;
  }

  lemma ServedLedger(s: Link, answer: string, loggedIn: bool)
    requires Inv(s) && s.toServer != []
    ensures var (p, s') := (s.toServer[0], ServeNext(s, answer, loggedIn));
            if p.kind == P.HEART_BEAT && p.requestID != 0
            then Increasing(Ledger(s')) && forall k :: k in Ledger(s') ==> k in Ledger(s)
            else Ledger(s') == Ledger(s)
  {
    var p, s' := s.toServer[0], ServeNext(s, answer, loggedIn);
    var before, rest := Callbacks(s.fired) + Origins(s.toClient), Origins(s.toServer[1..]);
    assert Ledger(s) == before + OriginOf(p) + rest by {
      Associate(before, OriginOf(p), rest);
    }
    if p.kind == P.HEART_BEAT {
      assert Ledger(s') == before + rest;
      Without(before, OriginOf(p), rest);
      if p.requestID == 0 {
        assert before + [] == before;
      }
    } else {
      OriginsOfLast(s.toClient, Reply(p, answer, loggedIn));
      assert OriginOf(Reply(p, answer, loggedIn)) == OriginOf(p);
      Associate(Callbacks(s.fired), Origins(s.toClient), OriginOf(p));
    }
  }

  lemma ServeKeeps(s: Link, answer: string, loggedIn: bool)
    requires Inv(s)
    ensures Inv(ServeNext(s, answer, loggedIn))
  {
    if s.toServer != [] {
      var p, s' := s.toServer[0], ServeNext(s, answer, loggedIn);
      ServedLedger(s, answer, loggedIn);
      assert Expected(s.client, p);
      assert forall q <- s'.toClient :: q in s.toClient || (p.kind != P.HEART_BEAT && q == Reply(p, answer, loggedIn));
    }
  }

  lemma Without(a: seq<nat>, b: seq<nat>, c: seq<nat>)
    requires Increasing(a + b + c)
    ensures Increasing(a + c)
    ensures forall k :: k in a + c ==> k in a + b + c
  {
    forall i, j | 0 <= i < j < |a + c|
      ensures (a + c)[i] < (a + c)[j]
    {
      var i', j' := if i < |a| then i else i + |b|, if j < |a| then j else j + |b|;
      assert (a + c)[i] == (a + b + c)[i'] && (a + c)[j] == (a + b + c)[j'];
    }
  }

  lemma ReceivedLedger(s: Link, throws: bool)
    requires Inv(s)
    ensures Ledger(ReceiveNext(s, throws)) == Ledger(s)
  {
    if s.toClient != [] {
      var p, s' := s.toClient[0], ReceiveNext(s, throws);
      assert Expected(s.client, p);
      assert Callbacks(s'.fired) == Callbacks(s.fired) + OriginOf(p);
    }
  }

  lemma ReceivedExpected(s: Link, throws: bool)
    requires Inv(s) && s.toClient != []
    ensures var s' := ReceiveNext(s, throws);
            && (forall q :: q in s.toClient[1..] || q in s.toServer ==> Expected(s'.client, q))
            && s'.client.outstanding <= s'.client.callbacks.Keys
  {
    if s.toClient[0].requestID != 0 {
      OthersDiffer(s);
    }
  }

  lemma ReceiveKeeps(s: Link, throws: bool)
    requires Inv(s)
    ensures Inv(ReceiveNext(s, throws)) && Ledger(ReceiveNext(s, throws)) == Ledger(s)
  {
    ReceivedLedger(s, throws);
    if s.toClient != [] {
      ReceivedExpected(s, throws);
      assert Expected(s.client, s.toClient[0]);
    }
  }

  /** No other packet on the way has the id of the next one to arrive. */
  lemma OthersDiffer(s: Link)
    requires Inv(s) && s.toClient != [] && s.toClient[0].requestID != 0
    ensures forall q :: q in s.toClient[1..] || q in s.toServer ==> q.requestID != s.toClient[0].requestID
  {
    var p, fired := s.toClient[0], Callbacks(s.fired);
    var rest := Origins(s.toClient[1..]) + Origins(s.toServer);
    assert Ledger(s) == fired + [p.origin] + rest;
    forall q | (q in s.toClient[1..] || q in s.toServer) && q.requestID != 0
      ensures q.requestID != p.requestID
    {
      if q in s.toServer { OriginIn(s.toServer, q); } else { OriginIn(s.toClient[1..], q); }
      assert q.origin in rest;
      var k :| 0 <= k < |rest| && rest[k] == q.origin;
      assert Ledger(s)[|fired|] == p.origin && Ledger(s)[|fired| + 1 + k] == q.origin;
    }
  }

  lemma LostKeeps(s: Link)
    requires Inv(s)
    ensures Inv(Do(s, Lost))
  {
    var fired, rest := Callbacks(s.fired), Origins(s.toClient) + Origins(s.toServer);
    assert Ledger(s) == fired + rest + [];
    assert Ledger(Do(s, Lost)) == fired + [];
    Without(fired, rest, []);
  }

  /** Nothing that a callback waits for. */
  predicate Plain(e: Event) { e.Connected? || e.Beat? || e.Push? }

  lemma PlainLedger(s: Link, e: Event)
    requires Plain(e)
    ensures Ledger(Do(s, e)) == Ledger(s)
  {
    match e
    case Connected =>
    case Beat => OriginsOfLast(s.toServer, Packet(0, P.HEART_BEAT, "heartbeat", 0));
    case Push(data) => OriginsOfLast(s.toClient, Packet(0, P.TEXT, data, 0));
  }

  lemma PlainKeeps(s: Link, e: Event)
    requires Inv(s) && Plain(e)
    ensures Inv(Do(s, e))
  {
    PlainLedger(s, e);
    var s' := Do(s, e);
    assert forall p <- s'.toServer :: p in s.toServer || p.requestID == 0;
    assert forall p <- s'.toClient :: p in s.toClient || p.requestID == 0;
  }

  lemma StepKeeps(s: Link, e: Event)
    requires Inv(s)
    ensures Inv(Do(s, e))
  {
    if Plain(e) {
      PlainKeeps(s, e);
    } else {
      match e
      case Send(draws, kind, data) => if Draws(draws, s.client.outstanding) { SendKeeps(s, draws, kind, data); }
      case Serve(answer, loggedIn) => ServeKeeps(s, answer, loggedIn);
      case Receive(throws) => ReceiveKeeps(s, throws);
      case Lost => LostKeeps(s);
    }
  }

  lemma {:induction false} InvAlways(evs: seq<Event>)
    ensures Inv(Run(evs))
  {
    if evs != [] {
      InvAlways(evs[..|evs| - 1]);
      StepKeeps(Run(evs[..|evs| - 1]), evs[|evs| - 1]);
    }
  }

  // ------------------------------------------------------------------------
  // Over all runs
  // ------------------------------------------------------------------------

  /**
   * On every run, with connections lost and callbacks throwing as they may: callbacks
   * run in the order of their requests, so each at most once; each runs on the reply
   * the server gave to its own request; what goes to the general callbacks has no id;
   * and no reply finds its id in the set but not in the map.
   */
  lemma CallbacksMatch(evs: seq<Event>)
    ensures var s := Run(evs);
            && (forall i, j :: 0 <= i < j < |s.fired| ==> s.fired[i].0 < s.fired[j].0)
            && (forall f <- s.fired :: f.1.requestID != 0 && f.1.origin == f.0 && f.1 in s.served)
            && (forall p <- s.general :: p.requestID == 0)
            && !s.broken
  {
    InvAlways(evs);
    var s := Run(evs);
    forall i, j | 0 <= i < j < |s.fired|
      ensures s.fired[i].0 < s.fired[j].0
    {
      assert Ledger(s)[i] == s.fired[i].0 && Ledger(s)[j] == s.fired[j].0;
    }
  }

  function InFlight(s: Link): seq<Packet> { s.toClient + s.toServer }

  /**
   * On every run a request id other than 0 is on the way at most once, and then it is
   * outstanding and leads to the callback of that very request.
   */
  lemma IdsInFlight(evs: seq<Event>)
    ensures var s := Run(evs);
            && (forall i, j :: 0 <= i < j < |InFlight(s)| && InFlight(s)[i].requestID != 0 ==>
                  InFlight(s)[i].requestID != InFlight(s)[j].requestID)
            && (forall p <- InFlight(s) :: Expected(s.client, p))
            && s.client.outstanding <= s.client.callbacks.Keys
  {
    InvAlways(evs);
    FlightGrows(Run(evs));
    var all := InFlight(Run(evs));
    forall i, j | 0 <= i < j < |all| && all[i].requestID != 0
      ensures all[i].requestID != all[j].requestID
    {
      if all[j].requestID != 0 {
        OriginsGrow(all, i, j);
        FlightExpected(Run(evs), all[i]);
        FlightExpected(Run(evs), all[j]);
      }
    }
    forall p | p in all { FlightExpected(Run(evs), p); }
  }

  lemma FlightExpected(s: Link, p: Packet)
    requires Inv(s) && p in InFlight(s)
    ensures Expected(s.client, p)
  {
  }

  lemma FlightGrows(s: Link)
    requires Inv(s)
    ensures Increasing(Origins(InFlight(s)))
  {
    var ns := Origins(InFlight(s));
    OriginsOfConcat(s.toClient, s.toServer);
    Associate(Callbacks(s.fired), Origins(s.toClient), Origins(s.toServer));
    assert Ledger(s) == Callbacks(s.fired) + ns;
    assert forall i :: 0 <= i < |ns| ==> ns[i] == Ledger(s)[|s.fired| + i];
  }

  lemma {:induction false} OriginsGrow(ps: seq<Packet>, i: nat, j: nat)
    requires i < j < |ps| && ps[i].requestID != 0 && ps[j].requestID != 0 && Increasing(Origins(ps))
    ensures ps[i].origin < ps[j].origin
  {
    var rest := Origins(ps[1..]);
    assert Origins(ps) == OriginOf(ps[0]) + rest;
    if i == 0 {
      assert ps[j] == ps[1..][j - 1];
      OriginIn(ps[1..], ps[j]);
      var k :| 0 <= k < |rest| && rest[k] == ps[j].origin;
      assert Origins(ps)[0] == ps[0].origin && Origins(ps)[k + 1] == ps[j].origin;
    } else {
      assert forall k :: 0 <= k < |rest| ==> rest[k] == Origins(ps)[k + |OriginOf(ps[0])|];
      OriginsGrow(ps[1..], i - 1, j - 1);
    }
  }

  // ------------------------------------------------------------------------
  // What a callback gets
  // ------------------------------------------------------------------------

  /** Event `k` sent out request number `n`, which drew `id`. */
  ghost predicate SentAs(evs: seq<Event>, k: nat, n: nat, id: RequestID) {
    k < |evs| && evs[k].Send?
    && var c := Run(evs[..k]).client;
       c.receiving && c.next == n && Draws(evs[k].draws, c.outstanding)
       && evs[k].draws[FirstFree(evs[k].draws, c.outstanding)] == id
  }

  /** Event `j` was the server serving the packet of request number `n`. */
  ghost predicate ServedAs(evs: seq<Event>, j: nat, n: nat) {
    j < |evs| && evs[j].Serve?
    && var packets := Run(evs[..j]).toServer;
       packets != [] && packets[0].requestID != 0 && packets[0].origin == n
  }

  /** The packet is the request that event `k` sent, as it was given. */
  ghost predicate Carries(evs: seq<Event>, k: nat, p: Packet) {
    SentAs(evs, k, p.origin, p.requestID) && p.kind == evs[k].kind && p.data == evs[k].data
  }

  /**
   * The packet answers the request that event `k` sent and event `j` served: text
   * requests with what the commands return, others with an error text.
   */
  ghost predicate Answers(evs: seq<Event>, k: nat, j: nat, p: Packet) {
    && k < j && SentAs(evs, k, p.origin, p.requestID) && ServedAs(evs, j, p.origin)
    && p.kind == P.TEXT
    && p.data == if evs[k].kind == P.TEXT then evs[j].answer
                 else if evs[j].loggedIn then "Error type" else "You haven't logged in!"
  }

  lemma SamePast(evs: seq<Event>, i: nat)
    requires evs != [] && i < |evs| - 1
    ensures Run(evs[..|evs| - 1][..i]) == Run(evs[..i]) && evs[..|evs| - 1][i] == evs[i]
  {
    assert evs[..|evs| - 1][..i] == evs[..i];
  }

  lemma NewRequest(s: Link, e: Event, p: Packet)
    requires p in Do(s, e).toServer && p !in s.toServer && p.requestID != 0
    ensures e.Send? && s.client.receiving && Draws(e.draws, s.client.outstanding)
    ensures p == Packet(e.draws[FirstFree(e.draws, s.client.outstanding)], e.kind, e.data, s.client.next)
  {
  }

  /** Every request on its way carries what it was sent with. */
  lemma {:induction false} RequestsCarry(evs: seq<Event>, p: Packet) returns (k: nat)
    requires p in Run(evs).toServer && p.requestID != 0
    ensures Carries(evs, k, p)
  {
    var before := evs[..|evs| - 1];
    if p in Run(before).toServer {
      k := RequestsCarry(before, p);
      SamePast(evs, k);
    } else {
      k := |evs| - 1;
      NewRequest(Run(before), evs[k], p);
    }
  }

  lemma NewReply(s: Link, e: Event, p: Packet)
    requires p in Do(s, e).toClient && p !in s.toClient && p.requestID != 0
    ensures e.Serve? && s.toServer != []
    ensures var q := s.toServer[0];
            && q.requestID == p.requestID && q.origin == p.origin && p.kind == P.TEXT
            && p.data == if q.kind == P.TEXT then e.answer
                         else if e.loggedIn then "Error type" else "You haven't logged in!"
  {
  }

  /** Every reply on its way answers its own request. */
  lemma {:induction false} RepliesAnswer(evs: seq<Event>, p: Packet) returns (k: nat, j: nat)
    requires p in Run(evs).toClient && p.requestID != 0
    ensures Answers(evs, k, j, p)
  {
    var before := evs[..|evs| - 1];
    if p in Run(before).toClient {
      k, j := RepliesAnswer(before, p);
      SamePast(evs, k);
      SamePast(evs, j);
    } else {
      j := |evs| - 1;
      NewReply(Run(before), evs[j], p);
      k := RequestsCarry(before, Run(before).toServer[0]);
      SamePast(evs, k);
    }
  }

  /** A packet that arrives goes to its own callback if it has an id, and to the general ones otherwise. */
  lemma StepDeliveries(s: Link, e: Event)
    requires Inv(s)
    ensures var (s', arrives) := (Do(s, e), e.Receive? && s.toClient != []);
            && s'.fired == s.fired + (if arrives && s.toClient[0].requestID != 0
                                      then [(s.toClient[0].origin, s.toClient[0])] else [])
            && s'.general == s.general + if arrives && s.toClient[0].requestID == 0 then [s.toClient[0]] else []
  {
    if e.Receive? && s.toClient != [] {
      assert Expected(s.client, s.toClient[0]);
    }
  }

  /** And so every callback gets the answer to the request it was given with. */
  lemma {:induction false} CallbacksGetAnswers(evs: seq<Event>, i: nat) returns (k: nat, j: nat)
    requires i < |Run(evs).fired|
    ensures var (callback, p) := Run(evs).fired[i];
            p.origin == callback && p.requestID != 0 && Answers(evs, k, j, p)
  {
    var before := evs[..|evs| - 1];
    InvAlways(before);
    StepDeliveries(Run(before), evs[|evs| - 1]);
    if i < |Run(before).fired| {
      k, j := CallbacksGetAnswers(before, i);
      InvHasIds(before, i);
    } else {
      k, j := RepliesAnswer(before, Run(before).toClient[0]);
    }
    AnswersLater(evs, k, j, Run(evs).fired[i].1);
  }

  lemma InvHasIds(evs: seq<Event>, i: nat)
    requires i < |Run(evs).fired|
    ensures Run(evs).fired[i].1.requestID != 0
  {
    InvAlways(evs);
    assert Run(evs).fired[i] in Run(evs).fired;
  }

  lemma AnswersLater(evs: seq<Event>, k: nat, j: nat, p: Packet)
    requires evs != [] && Answers(evs[..|evs| - 1], k, j, p)
    ensures Answers(evs, k, j, p)
  {
    SamePast(evs, k);
    SamePast(evs, j);
  }

  /** A number is given to one request only. */
  lemma SentOnce(evs: seq<Event>, k: nat, k': nat, n: nat, id: RequestID, id': RequestID)
    requires SentAs(evs, k, n, id) && SentAs(evs, k', n, id')
    ensures k == k' && id == id'
  {
    if k < k' {
      NumbersGrow(evs, k, k');
    } else if k' < k {
      NumbersGrow(evs, k', k);
    }
  }

  lemma StepNumber(s: Link, e: Event)
    ensures Do(s, e).client.next == s.client.next +
              if e.Send? && Draws(e.draws, s.client.outstanding) && s.client.receiving then 1 else 0
  {
  }

  lemma {:induction false} NumbersGrow(evs: seq<Event>, k: nat, k': nat)
    requires k < k' <= |evs|
    ensures Run(evs[..k']).client.next >= Run(evs[..k]).client.next +
              if evs[k].Send? && Draws(evs[k].draws, Run(evs[..k]).client.outstanding) && Run(evs[..k]).client.receiving
              then 1 else 0
    decreases k'
  {
    assert evs[..k'][..k' - 1] == evs[..k' - 1];
    StepNumber(Run(evs[..k' - 1]), evs[k' - 1]);
    if k < k' - 1 {
      NumbersGrow(evs, k, k' - 1);
    }
  }

  // ---- nothing that arrives is lost, and it arrives in the order in which it was sent

  function TakenOff(s: Link, e: Event): seq<Packet> {
    if e.Receive? && s.toClient != [] then [s.toClient[0]] else []
  }

  /** A reply to whatever is not a heartbeat, or a push. */
  function Added(s: Link, e: Event): seq<Packet> {
    if e.Serve? && s.toServer != [] && s.toServer[0].kind != P.HEART_BEAT
    then [Reply(s.toServer[0], e.answer, e.loggedIn)]
    else if e.Push? && s.client.receiving then [Packet(0, P.TEXT, e.data, 0)]
    else []
  }

  /** What the client has taken off the channel. */
  function Arrived(evs: seq<Event>): seq<Packet> {
    if evs == [] then []
    else
      var before := evs[..|evs| - 1];
      Arrived(before) + TakenOff(Run(before), evs[|evs| - 1])
  }

  /** What the server has put on it. */
  function PutOn(evs: seq<Event>): seq<Packet> {
    if evs == [] then []
    else
      var before := evs[..|evs| - 1];
      PutOn(before) + Added(Run(before), evs[|evs| - 1])
  }

  predicate NeverLost(evs: seq<Event>) {
    evs != [] ==> NeverLost(evs[..|evs| - 1]) && !evs[|evs| - 1].Lost?
  }

  lemma StepChannel(s: Link, e: Event)
    requires !e.Lost?
    ensures TakenOff(s, e) + Do(s, e).toClient == s.toClient + Added(s, e)
  {
  }

  lemma {:induction false} ArrivesInOrder(evs: seq<Event>)
    requires NeverLost(evs)
    ensures Arrived(evs) + Run(evs).toClient == PutOn(evs)
  {
    if evs != [] {
      var before, e := evs[..|evs| - 1], evs[|evs| - 1];
      ArrivesInOrder(before);
      StepChannel(Run(before), e);
      Reassociate(Arrived(before), TakenOff(Run(before), e), Run(evs).toClient,
                  Run(before).toClient, Added(Run(before), e));
    }
  }

  lemma Reassociate(a: seq<Packet>, taken: seq<Packet>, rest: seq<Packet>, was: seq<Packet>, added: seq<Packet>)
    requires taken + rest == was + added
    ensures a + taken + rest == a + was + added
  {
    assert a + taken + rest == a + (taken + rest);
    assert a + was + added == a + (was + added);
  }

  /** The packets with an id, or those without one. */
  function Those(ps: seq<Packet>, withId: bool): seq<Packet> {
    if ps == [] then []
    else
      var p := ps[|ps| - 1];
      Those(ps[..|ps| - 1], withId) + if (p.requestID != 0) == withId then [p] else []
  }

  function Replies(fired: seq<(Callback, Packet)>): seq<Packet> {
    seq(|fired|, i requires 0 <= i < |fired| => fired[i].1)
  }

  lemma ThoseNext(ps: seq<Packet>, p: Packet, withId: bool)
    ensures Those(ps + [p], withId) == Those(ps, withId) + if (p.requestID != 0) == withId then [p] else []
  {
    assert (ps + [p])[..|ps|] == ps;
  }

  /** On every run: what arrives without an id goes to the general callbacks, the rest to its own, all in order. */
  lemma {:induction false} ArrivedIsDelivered(evs: seq<Event>)
    ensures Run(evs).general == Those(Arrived(evs), false)
    ensures Replies(Run(evs).fired) == Those(Arrived(evs), true)
  {
    if evs != [] {
      var before, e := evs[..|evs| - 1], evs[|evs| - 1];
      ArrivedIsDelivered(before);
      InvAlways(before);
      StepDeliveries(Run(before), e);
      SplitNext(Arrived(before), TakenOff(Run(before), e), Run(before).fired, Run(evs).fired);
    }
  }

  lemma SplitNext(ps: seq<Packet>, more: seq<Packet>, fired: seq<(Callback, Packet)>, fired': seq<(Callback, Packet)>)
    requires |more| <= 1
    requires fired' == fired + if more != [] && more[0].requestID != 0 then [(more[0].origin, more[0])] else []
    ensures Those(ps + more, false) == Those(ps, false) + if more != [] && more[0].requestID == 0 then more else []
    ensures Those(ps + more, true) == Those(ps, true) + if more != [] && more[0].requestID != 0 then more else []
    ensures Replies(fired') == Replies(fired) + if more != [] && more[0].requestID != 0 then more else []
  {
    if more == [] {
      assert ps + more == ps && fired' == fired;
    } else {
      assert more == [more[0]];
      ThoseNext(ps, more[0], false);
      ThoseNext(ps, more[0], true);
    }
  }

  // ------------------------------------------------------------------------
  // Runs that lose nothing
  // ------------------------------------------------------------------------

  /** The connection stays, and no request is disguised as a heartbeat. */
  predicate Lossless(evs: seq<Event>) {
    evs != [] ==>
      var e := evs[|evs| - 1];
      Lossless(evs[..|evs| - 1]) && e != Lost && !(e.Send? && e.kind == P.HEART_BEAT)
  }

  predicate NoneThrows(evs: seq<Event>) {
    evs != [] ==>
      var e := evs[|evs| - 1];
      NoneThrows(evs[..|evs| - 1]) && !(e.Receive? && e.throws)
  }

  /** The numbers of the requests that went out with an id, in order. */
  function Requests(evs: seq<Event>): seq<nat> {
    if evs == [] then []
    else
      var before, e := evs[..|evs| - 1], evs[|evs| - 1];
      var c := Run(before).client;
      if e.Send? && Draws(e.draws, c.outstanding) && c.receiving && e.draws[FirstFree(e.draws, c.outstanding)] != 0
      then Requests(before) + [c.next]
      else Requests(before)
  }

  /** Only heartbeats without an id are on the way to the server. */
  ghost predicate AllAnswered(s: Link) {
    forall p <- s.toServer :: p.kind == P.HEART_BEAT ==> p.requestID == 0
  }

  /** Nothing lost, nothing twice: the ledger is exactly what has been sent, in that order. */
  lemma {:induction false} LedgerIsRequests(evs: seq<Event>)
    requires Lossless(evs)
    ensures Ledger(Run(evs)) == Requests(evs) && AllAnswered(Run(evs))
  {
    if evs != [] {
      var before, e := evs[..|evs| - 1], evs[|evs| - 1];
      LedgerIsRequests(before);
      InvAlways(before);
      StepLedger(Run(before), e);
    }
  }

  lemma StepLedger(s: Link, e: Event)
    requires Inv(s) && AllAnswered(s) && e != Lost && !(e.Send? && e.kind == P.HEART_BEAT)
    ensures AllAnswered(Do(s, e))
    ensures Ledger(Do(s, e)) ==
              if e.Send? && Draws(e.draws, s.client.outstanding) && s.client.receiving
                 && e.draws[FirstFree(e.draws, s.client.outstanding)] != 0
              then Ledger(s) + [s.client.next] else Ledger(s)
  {
    if Plain(e) {
      PlainLedger(s, e);
      assert forall p <- Do(s, e).toServer :: p in s.toServer || p.requestID == 0;
    } else {
      match e
      case Send(draws, kind, data) => if Draws(draws, s.client.outstanding) { SendLedger(s, draws, kind, data); }
      case Serve(answer, loggedIn) => if s.toServer != [] { ServedLedger(s, answer, loggedIn); }
      case Receive(throws) => ReceiveKeeps(s, throws);
    }
  }

  /** Every outstanding id other than 0 is on the way. */
  ghost predicate AllOnTheWay(s: Link) {
    forall id <- s.client.outstanding :: id != 0 ==> exists p :: p in InFlight(s) && p.requestID == id
  }

  lemma {:induction false} OutstandingInFlight(evs: seq<Event>)
    requires Lossless(evs)
    ensures AllOnTheWay(Run(evs))
  {
    if evs != [] {
      var before, e := evs[..|evs| - 1], evs[|evs| - 1];
      OutstandingInFlight(before);
      LedgerIsRequests(before);
      StepOnTheWay(Run(before), e);
    }
  }

  lemma StepOnTheWay(s: Link, e: Event)
    requires AllOnTheWay(s) && AllAnswered(s) && e != Lost
    ensures AllOnTheWay(Do(s, e))
  {
    var s' := Do(s, e);
    forall id | id in s'.client.outstanding && id != 0
      ensures exists p :: p in InFlight(s') && p.requestID == id
    {
      if id in s.client.outstanding {
        var p :| p in InFlight(s) && p.requestID == id;
        StillOnTheWay(s, e, p);
      } else {
        assert s'.toServer[|s.toServer|].requestID == id;
        assert s'.toServer[|s.toServer|] in InFlight(s');
      }
    }
  }

  lemma StillOnTheWay(s: Link, e: Event, p: Packet)
    requires AllAnswered(s) && e != Lost && p in InFlight(s) && p.requestID != 0
    requires p.requestID in Do(s, e).client.outstanding
    ensures exists q :: q in InFlight(Do(s, e)) && q.requestID == p.requestID
  {
    var s' := Do(s, e);
    if p in InFlight(s') {
    } else if e.Serve? {
      assert p == s.toServer[0];
      assert Reply(p, e.answer, e.loggedIn) == s'.toClient[|s.toClient|];
      assert Reply(p, e.answer, e.loggedIn) in InFlight(s');
    }
  }

  /**
   * On a run that loses nothing, once both channels are empty every request that went
   * out with an id has been answered: its callback has run, in order, exactly once, and
   * nothing but the id 0 can be left outstanding.
   */
  lemma Drained(evs: seq<Event>)
    requires Lossless(evs) && InFlight(Run(evs)) == []
    ensures Callbacks(Run(evs).fired) == Requests(evs)
    ensures Run(evs).client.outstanding <= {0}
  {
    LedgerIsRequests(evs);
    OutstandingInFlight(evs);
    EmptyChannels(Run(evs));
  }

  lemma EmptyChannels(s: Link)
    requires InFlight(s) == [] && AllOnTheWay(s)
    ensures Ledger(s) == Callbacks(s.fired) && s.client.outstanding <= {0}
  {
    assert |s.toClient| + |s.toServer| == |InFlight(s)|;
    assert s.toClient == [] && s.toServer == [];
    assert forall id <- s.client.outstanding :: id == 0;
  }

  /** A callback of the request that threw, or a new request with the same id. */
  function LeftMark(s: Link, e: Event, id: RequestID): Mark {
    var c := s.client;
    if e.Receive? && e.throws && s.toClient != [] && s.toClient[0].requestID == id && id != 0 && id in c.outstanding
    then Makes
    else if e.Send? && Draws(e.draws, c.outstanding) && c.receiving && e.draws[FirstFree(e.draws, c.outstanding)] == id
    then Ends
    else Neither
  }

  function LeftMarks(evs: seq<Event>, id: RequestID): seq<Mark> {
    if evs == [] then []
    else
      var before := evs[..|evs| - 1];
      LeftMarks(before, id) + [LeftMark(Run(before), evs[|evs| - 1], id)]
  }

  /** The callback of `id` has thrown, and no request has been given that id since. */
  ghost predicate LeftBehind(evs: seq<Event>, id: RequestID) { Holds(LeftMarks(evs, id)) }

  lemma StepLeft(s: Link, e: Event, id: RequestID)
    requires Inv(s)
    ensures var (c, c') := (s.client, Do(s, e).client);
            id in c'.callbacks && id !in c'.outstanding <==>
              LeftMark(s, e, id) == Makes
              || (LeftMark(s, e, id) != Ends && id in c.callbacks && id !in c.outstanding)
  {
    if e.Receive? && s.toClient != [] {
      assert Expected(s.client, s.toClient[0]);
    }
  }

  /**
   * On every run the keys of the map are the outstanding ids and, apart from those, the
   * ids whose callback has thrown and that no request has drawn again.
   */
  lemma {:induction false} KeysAre(evs: seq<Event>, id: RequestID)
    ensures var c := Run(evs).client;
            && (id in c.callbacks <==> id in c.outstanding || LeftBehind(evs, id))
            && !(id in c.outstanding && LeftBehind(evs, id))
  {
    InvAlways(evs);
    if evs != [] {
      var before, e := evs[..|evs| - 1], evs[|evs| - 1];
      KeysAre(before, id);
      InvAlways(before);
      StepLeft(Run(before), e, id);
      HoldsNext(LeftMarks(before, id), LeftMark(Run(before), e, id));
    }
  }

  ghost predicate NothingLeftBehind(evs: seq<Event>) {
    forall id :: !LeftBehind(evs, id)
  }

  /** So set and map agree if and only if nothing is left behind, as on runs where no callback throws. */
  lemma SameKeys(evs: seq<Event>)
    ensures Run(evs).client.outstanding == Run(evs).client.callbacks.Keys <==> NothingLeftBehind(evs)
    ensures NoneThrows(evs) ==> NothingLeftBehind(evs)
  {
    var c := Run(evs).client;
    if NothingLeftBehind(evs) {
      KeysIfNothingLeft(evs);
    }
    if c.outstanding == c.callbacks.Keys {
      NothingLeftIfKeys(evs);
    }
    if NoneThrows(evs) {
      KeysWithoutThrows(evs);
      NothingLeftIfKeys(evs);
    }
  }

  lemma NothingLeftIfKeys(evs: seq<Event>)
    requires Run(evs).client.outstanding == Run(evs).client.callbacks.Keys
    ensures NothingLeftBehind(evs)
  {
    forall id
      ensures !LeftBehind(evs, id)
    {
      KeysAre(evs, id);
    }
  }

  lemma KeysIfNothingLeft(evs: seq<Event>)
    requires NothingLeftBehind(evs)
    ensures Run(evs).client.outstanding == Run(evs).client.callbacks.Keys
  {
    var c := Run(evs).client;
    forall id
      ensures id in c.callbacks.Keys <==> id in c.outstanding
    {
      KeysAre(evs, id);
      assert !LeftBehind(evs, id);
    }
  }

  lemma Unfold4(e1: Event, e2: Event, e3: Event, e4: Event)
    ensures Run([e1, e2, e3, e4]) == Do(Do(Do(Do(START, e1), e2), e3), e4)
  {
    var evs := [e1, e2, e3, e4];
    assert evs[..3] == [e1, e2, e3] && evs[..3][..2] == [e1, e2] && evs[..3][..2][..1] == [e1] && [e1][..0] == [];
    assert Run([]) == START;
    assert Run([e1]) == Do(Run([]), e1);
    assert Run([e1, e2]) == Do(Run([e1]), e2);
    assert Run([e1, e2, e3]) == Do(Run([e1, e2]), e3);
  }

  /** A client connects, sends one request that draws `id`, and gets the reply. */
  function OneRequest(id: RequestID, throws: bool): seq<Event> {
    [Connected, Send([id], P.TEXT, ""), Serve("", true), Receive(throws)]
  }

  lemma AfterOneRequest(id: RequestID, throws: bool)
    ensures var s := Run(OneRequest(id, throws));
            && InFlight(s) == []
            && s.client.outstanding == (if id == 0 then {0} else {})
            && s.client.callbacks == (if id == 0 || throws then map[id := 0] else map[])
            && |s.fired| == (if id == 0 then 0 else 1) && |s.general| == (if id == 0 then 1 else 0)
  {
    var e2, e3, e4 := Send([id], P.TEXT, ""), Serve("", true), Receive(throws);
    Unfold4(Connected, e2, e3, e4);
    var s2 := Do(Do(START, Connected), e2);
    assert [id][FirstFree([id], {})] == id;
    assert s2.client == Client({id}, map[id := 0], true, 1) && s2.toServer == [Packet(id, P.TEXT, "", 0)];
    var s3 := Do(s2, e3);
    assert s3.toClient == [Packet(id, P.TEXT, "", 0)] && s3.toServer == [];
  }

  /** Both do happen: an entry left behind by a callback that throws ... */
  lemma ThrowLeavesKey()
    ensures LeftBehind(OneRequest(5, true), 5)
    ensures Run(OneRequest(5, true)).client.outstanding != Run(OneRequest(5, true)).client.callbacks.Keys
  {
    AfterOneRequest(5, true);
    KeysAre(OneRequest(5, true), 5);
    assert 5 in Run(OneRequest(5, true)).client.callbacks.Keys;
  }

  /** ... and a request with the id 0, answered but outstanding, its callback never run. */
  lemma ZeroDrawn()
    ensures var s := Run(OneRequest(0, false));
            InFlight(s) == [] && 0 in s.client.outstanding && s.fired == [] && |s.general| == 1
  {
    AfterOneRequest(0, false);
  }

  lemma {:induction false} KeysWithoutThrows(evs: seq<Event>)
    requires NoneThrows(evs)
    ensures Run(evs).client.outstanding == Run(evs).client.callbacks.Keys
  {
    if evs != [] {
      KeysWithoutThrows(evs[..|evs| - 1]);
    }
  }

  /** A request that drew the id 0 is never answered: its reply passes for a push. */
  lemma {:induction false} ZeroStays(evs: seq<Event>, i: nat)
    requires i <= |evs| && 0 in Run(evs[..i]).client.outstanding
    ensures 0 in Run(evs).client.outstanding
  {
    if i == |evs| {
      assert evs[..i] == evs;
    } else {
      assert evs[..|evs| - 1][..i] == evs[..i];
      ZeroStays(evs[..|evs| - 1], i);
      StepZero(Run(evs[..|evs| - 1]), evs[|evs| - 1]);
    }
  }

  lemma StepZero(s: Link, e: Event)
    requires 0 in s.client.outstanding
    ensures 0 in Do(s, e).client.outstanding
  {
  }
}
