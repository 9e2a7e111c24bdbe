// A group room (server/room/groupRoom/groupRoom.cpp over server/room/room.cpp): its
// members, the users its TCP side sends to, and its time-keyed message log.

module GroupRooms {
  import opened Ids
  import opened Errors

  /** Ticks of the UTC clock, which does not run backwards. */
  type Time = int

  const TICKS_PER_DAY: Time := 24 * 60 * 60 * 1_000_000_000
  const EXPIRY: Time := 7 * TICKS_PER_DAY

  datatype MessageKind = NormalMessage | TipMessage

  datatype Message = Message(sender: UserID, text: string, kind: MessageKind, receiver: Option<UserID>)

  /** `muted` holds the moment a user's muting ends. */
  datatype Room = Room(
    admin: UserID,
    members: set<UserID>,
    recipients: set<UserID>,
    muted: map<UserID, Time>,
    log: map<Time, Message>)

  function NewRoom(admin: UserID): Room {
    Room(admin, {admin}, {admin}, map[], map[])
  }

  /** The first moment from `t` on that is not taken. */
  function LeastFree(taken: set<Time>, t: Time): (k: Time)
    ensures t <= k && k !in taken
    ensures forall i :: t <= i < k ==> i in taken
    decreases taken
  {
    if t !in taken then t
    else
      var k := LeastFree(taken - {t}, t + 1);
      k
  }

  predicate IsMuted(r: Room, sender: UserID, now: Time) {
    sender in r.muted && r.muted[sender] >= now
  }

  /** The checks before a message is stored: `member` is in the room, `sender` is not muted. */
  predicate Accepts(r: Room, member: UserID, sender: UserID, now: Time) {
    member in r.members && !IsMuted(r, sender, now)
  }

  /** A muting that has run out is forgotten on the way. */
  function Post(r: Room, member: UserID, m: Message, now: Time): Room {
    if !Accepts(r, member, m.sender, now) then r
    else r.(muted := r.muted - {m.sender}, log := r.log[LeastFree(r.log.Keys, now) := m])
  }

  function AddMember(r: Room, u: UserID): Room {
    r.(members := r.members + {u}, recipients := r.recipients + {u})
  }

  function RemoveMember(r: Room, u: UserID): Room {
    r.(members := r.members - {u}, recipients := r.recipients - {u})
  }

  function Expire(r: Room, now: Time): Room {
    r.(log := map k | k in r.log && k > now - EXPIRY :: r.log[k])
  }

  function NormalOf(sender: UserID, text: string): Message { Message(sender, text, NormalMessage, None) }

  function TipOf(sender: UserID, text: string): Message { Message(sender, text, TipMessage, None) }

  function UserTipOf(sender: UserID, text: string, receiver: UserID): Message {
    Message(sender, text, TipMessage, Some(receiver))
  }

  // ------------------------------------------------------------------------
  // What a look-up returns
  // ------------------------------------------------------------------------

  type Posts = seq<(Time, Message)>

  ghost predicate Increasing(ps: Posts) {
    forall i, j :: 0 <= i < j < |ps| ==> ps[i].0 < ps[j].0
  }

  /** The entries of `log` with keys in [from, to], in the order of the keys. */
  ghost predicate IsListing(ps: Posts, log: map<Time, Message>, from: Time, to: Time) {
    && Increasing(ps)
    && forall k, m :: (k, m) in ps <==> k in log && log[k] == m && from <= k <= to
  }

  lemma {:induction false} ListingUnique(ps: Posts, qs: Posts)
    requires Increasing(ps) && Increasing(qs)
    requires forall p :: p in ps <==> p in qs
    ensures ps == qs
  {
    if ps != [] {
      assert ps[0] in qs;
    }
    if qs != [] {
      assert qs[0] in ps;
      var p, q := ps[|ps| - 1], qs[|qs| - 1];
      assert p in qs && q in ps;
      assert p == q;
      var ps', qs' := ps[..|ps| - 1], qs[..|qs| - 1];
      forall x
        ensures x in ps' <==> x in qs'
      {
        ButLast(ps, x);
        ButLast(qs, x);
      }
      ListingUnique(ps', qs');
    }
  }

  lemma ButLast(ps: Posts, x: (Time, Message))
    requires Increasing(ps) && ps != []
    ensures x in ps[..|ps| - 1] <==> x in ps && x != ps[|ps| - 1]
  {
  }

  // ------------------------------------------------------------------------
  // The room
  // ------------------------------------------------------------------------

  class GroupRoom {
    const groupID: GroupID
    var administrator: UserID
    var userMap: set<UserID>
    var tcpUserMap: set<UserID>
    var mutedUserMap: map<UserID, Time>
    var messageMap: map<Time, Message>

    ghost function View(): Room
      reads `administrator, `userMap, `tcpUserMap, `mutedUserMap, `messageMap
    {
      Room(administrator, userMap, tcpUserMap, mutedUserMap, messageMap)
    }

    constructor (groupID: GroupID, administrator: UserID)
      ensures this.groupID == groupID
      ensures View() == NewRoom(administrator)
    {
      this.groupID, this.administrator := groupID, administrator;
      userMap, tcpUserMap := {administrator}, {administrator};
      mutedUserMap, messageMap := map[], map[];
    }

    method JoinMember(u: UserID)
      modifies this
      ensures View() == AddMember(old(View()), u)
    {
      if u !in userMap {
        userMap := userMap + {u};
      }
      if u !in tcpUserMap {
        tcpUserMap := tcpUserMap + {u};
      }
    }

    method DropMember(u: UserID)
      modifies this
      ensures View() == RemoveMember(old(View()), u)
    {
      if u in userMap {
        userMap := userMap - {u};
      }
      if u in tcpUserMap {
        tcpUserMap := tcpUserMap - {u};
      }
    }

    method Store(now: Time, m: Message)
      modifies this`messageMap
      ensures messageMap == old(messageMap)[LeastFree(old(messageMap).Keys, now) := m]
    {
      var timePoint := now;
      while timePoint in messageMap
        invariant now <= timePoint <= LeastFree(messageMap.Keys, now)
        decreases LeastFree(messageMap.Keys, now) - timePoint
      {
        timePoint := timePoint + 1;
      }
      messageMap := messageMap[timePoint := m];
    }

    /** Both kinds of message to the room; `delivered` is who it is sent on to. */
    method SendToAll(m: Message, now: Time) returns (delivered: set<UserID>)
      modifies this
      ensures View() == Post(old(View()), m.sender, m, now)
      ensures delivered == if Accepts(old(View()), m.sender, m.sender, now) then old(tcpUserMap) else {}
    {
      if m.sender !in userMap {
        return {};
      }
      if m.sender in mutedUserMap {
        if mutedUserMap[m.sender] >= now {
          return {};
        }
        mutedUserMap := mutedUserMap - {m.sender};
      } else {
        assert mutedUserMap - {m.sender} == mutedUserMap;
      }
      Store(now, m);
      delivered := tcpUserMap;
    }

    method SendMessage(sender: UserID, text: string, now: Time) returns (delivered: set<UserID>)
      modifies this
      ensures View() == Post(old(View()), sender, NormalOf(sender, text), now)
      ensures delivered == if Accepts(old(View()), sender, sender, now) then old(tcpUserMap) else {}
    {
      delivered := SendToAll(NormalOf(sender, text), now);
    }

    method SendTipMessage(sender: UserID, text: string, now: Time) returns (delivered: set<UserID>)
      modifies this
      ensures View() == Post(old(View()), sender, TipOf(sender, text), now)
      ensures delivered == if Accepts(old(View()), sender, sender, now) then old(tcpUserMap) else {}
    {
      delivered := SendToAll(TipOf(sender, text), now);
    }

    /** Only the receiver has to be a member; it throws if the TCP side does not know it. */
    method SendUserTipMessage(sender: UserID, text: string, receiver: UserID, now: Time)
      returns (delivered: Result<set<UserID>>)
      modifies this
      ensures View() == Post(old(View()), receiver, UserTipOf(sender, text, receiver), now)
      ensures delivered ==
              if !Accepts(old(View()), receiver, sender, now) then Ok({})
              else if receiver in old(tcpUserMap) then Ok({receiver})
              else Err(LogicError)
    {
      if receiver !in userMap {
        return Ok({});
      }
      if sender in mutedUserMap {
        if mutedUserMap[sender] >= now {
          return Ok({});
        }
        mutedUserMap := mutedUserMap - {sender};
      } else {
        assert mutedUserMap - {sender} == mutedUserMap;
      }
      Store(now, UserTipOf(sender, text, receiver));
      delivered := if receiver in tcpUserMap then Ok({receiver}) else Err(LogicError);
    }

    /** From lower_bound(from) to upper_bound(to), one entry after the other. */
    method GetMessage(from: Time, to: Time) returns (messages: Posts)
      ensures IsListing(messages, messageMap, from, to)
    {
      messages := [];
      if from > to {
        return;
      }
      var start := LowerBound(messageMap.Keys, from);
      var end := LowerBound(messageMap.Keys, to + 1);
      while start != end
        invariant AtOrBefore(start, end) && (start.Some? ==> start.value in messageMap && from <= start.value)
        invariant Increasing(messages)
        invariant forall k, m :: (k, m) in messages <==>
                    k in messageMap && messageMap[k] == m && from <= k <= to && Before(k, start)
        decreases Rest(messageMap.Keys, start)
      {
        ghost var at, rest := start.value, Rest(messageMap.Keys, start);
        messages := messages + [(start.value, messageMap[start.value])];
        start := LowerBound(messageMap.Keys, start.value + 1);
        assert at in rest && at !in Rest(messageMap.Keys, start);
      }
    }

    method Clean(now: Time)
      modifies this
      ensures View() == Expire(old(View()), now)
    {
      messageMap := map k | k in messageMap && k > now - EXPIRY :: messageMap[k];
    }
  }

  /** The iterator to the first key from `t` on; None is the end. */
  function LowerBound(keys: set<Time>, t: Time): (k: Option<Time>)
    ensures k.None? ==> forall i :: i in keys ==> i < t
    ensures k.Some? ==> k.value in keys && t <= k.value && forall i :: i in keys && t <= i ==> k.value <= i
  {
    if forall i :: i in keys ==> i < t then None
    else
      var later := set i | i in keys && t <= i;
      assert exists i :: i in later by {
        var i :| i in keys && t <= i;
        assert i in later;
      }
      LeastExists(later);
      var k :| k in later && forall i :: i in later ==> k <= i;
      assert forall i :: i in keys && t <= i ==> i in later;
      Some(k)
  }

  lemma LeastExists(s: set<Time>)
    requires exists x :: x in s
    ensures exists k :: k in s && forall i :: i in s ==> k <= i
  {
    var x :| x in s;
    var k := Least(s, x);
    assert k in s;
  }

  lemma {:induction false} Least(s: set<Time>, x: Time) returns (k: Time)
    requires x in s
    ensures k in s && forall i :: i in s ==> k <= i
    decreases s
  {
    k := x;
    if y :| y in s && y < x {
      k := Least(s - {x}, y);
      assert forall i :: i in s ==> i == x || i in s - {x};
    }
  }

  ghost function Rest(keys: set<Time>, iter: Option<Time>): set<Time> {
    set k | k in keys && !Before(k, iter)
  }

  predicate AtOrBefore(iter: Option<Time>, end: Option<Time>) {
    end.Some? ==> iter.Some? && iter.value <= end.value
  }

  predicate Before(k: Time, iter: Option<Time>) {
    iter.Some? ==> k < iter.value
  }

  // ------------------------------------------------------------------------
  // The log over whole runs
  // ------------------------------------------------------------------------

  datatype RoomEvent =
    | Send(sender: UserID, text: string, now: Time)
    | SendTip(sender: UserID, text: string, now: Time)
    | SendUserTip(sender: UserID, text: string, receiver: UserID, now: Time)
    | CleanUp(now: Time)
    | Join(user: UserID)
    | Leave(user: UserID)

  predicate IsPost(e: RoomEvent) { e.Send? || e.SendTip? || e.SendUserTip? }

  function MessageOf(e: RoomEvent): Message
    requires IsPost(e)
  {
    match e
    case Send(sender, text, _) => NormalOf(sender, text)
    case SendTip(sender, text, _) => TipOf(sender, text)
    case SendUserTip(sender, text, receiver, _) => UserTipOf(sender, text, receiver)
  }

  /** Whose membership the event is checked against. */
  function MemberOf(e: RoomEvent): UserID
    requires IsPost(e)
  {
    if e.SendUserTip? then e.receiver else e.sender
  }

  function Step(r: Room, e: RoomEvent): Room {
    match e
    case CleanUp(now) => Expire(r, now)
    case Join(u) => AddMember(r, u)
    case Leave(u) => RemoveMember(r, u)
    case _ => Post(r, MemberOf(e), MessageOf(e), e.now)
  }

  function Run(r: Room, evs: seq<RoomEvent>): Room {
    if evs == [] then r else Step(Run(r, evs[..|evs| - 1]), evs[|evs| - 1])
  }

  function TimeOf(e: RoomEvent, clock: Time): Time {
    if e.Join? || e.Leave? then clock else e.now
  }

  function Clock(start: Time, evs: seq<RoomEvent>): Time {
    if evs == [] then start else TimeOf(evs[|evs| - 1], Clock(start, evs[..|evs| - 1]))
  }

  /** The clock never goes backwards. */
  predicate Timed(start: Time, evs: seq<RoomEvent>) {
    evs != [] ==>
      var before, e := evs[..|evs| - 1], evs[|evs| - 1];
      Timed(start, before) && Clock(start, before) <= TimeOf(e, Clock(start, before))
  }

  /** The key a message should get: its time, or the next moment after the last key if that has passed. */
  function NextKey(posts: Posts, now: Time): Time {
    if posts == [] || posts[|posts| - 1].0 < now then now else posts[|posts| - 1].0 + 1
  }

  /** Every message ever accepted, in the order they were sent, with the key it should have. */
  function Accepted(r: Room, start: Time, evs: seq<RoomEvent>): Posts {
    if evs == [] then []
    else
      var before, e := evs[..|evs| - 1], evs[|evs| - 1];
      var posts := Accepted(r, start, before);
      if IsPost(e) && Accepts(Run(r, before), MemberOf(e), MessageOf(e).sender, e.now)
      then posts + [(NextKey(posts, e.now), MessageOf(e))]
      else posts
  }

  /** Messages up to this moment have been deleted by the last clean-up, if there was one. */
  function Cutoff(start: Time, evs: seq<RoomEvent>): Time {
    if evs == [] then start - EXPIRY - 1
    else
      var e := evs[|evs| - 1];
      if e.CleanUp? then e.now - EXPIRY else Cutoff(start, evs[..|evs| - 1])
  }

  function Select(posts: Posts, from: Time, to: Time): Posts {
    if posts == [] then []
    else
      var p := posts[|posts| - 1];
      Select(posts[..|posts| - 1], from, to) + (if from <= p.0 <= to then [p] else [])
  }

  /**
   * The log holds exactly the accepted messages that no clean-up has reached, and the
   * moments from now to the last key, if there are any, are all taken: so the bump
   * loop ends right after the last key.
   */
  ghost predicate LogInv(log: map<Time, Message>, posts: Posts, clock: Time, cutoff: Time) {
    && Increasing(posts)
    && (forall k, m :: k in log && log[k] == m <==> (k, m) in posts && k > cutoff)
    && cutoff < clock
    && (posts != [] ==> forall t :: clock <= t <= posts[|posts| - 1].0 ==> t in log)
  }

  lemma KeyOfLast(log: map<Time, Message>, posts: Posts, clock: Time, cutoff: Time, now: Time)
    requires LogInv(log, posts, clock, cutoff) && clock <= now
    ensures LeastFree(log.Keys, now) == NextKey(posts, now)
    ensures forall p :: p in posts ==> p.0 < NextKey(posts, now)
  {
    forall k | k in log
      ensures k < NextKey(posts, now)
    {
      assert (k, log[k]) in posts;
    }
    var key, free := NextKey(posts, now), LeastFree(log.Keys, now);
    assert key !in log.Keys;
    assert clock <= free < key ==> free in log;
  }

  lemma PostKeepsLog(log: map<Time, Message>, posts: Posts, clock: Time, cutoff: Time, now: Time, m: Message)
    requires LogInv(log, posts, clock, cutoff) && clock <= now
    ensures LogInv(log[LeastFree(log.Keys, now) := m], posts + [(NextKey(posts, now), m)], now, cutoff)
  {
    KeyOfLast(log, posts, clock, cutoff, now);
    var key := NextKey(posts, now);
    var log', posts' := log[key := m], posts + [(key, m)];
    forall k, x
      ensures k in log' && log'[k] == x <==> (k, x) in posts' && k > cutoff
    {
      if k == key {
        assert key !in log;
      } else {
        assert (k, x) in posts' <==> (k, x) in posts;
      }
    }
  }

  lemma CleanKeepsLog(log: map<Time, Message>, posts: Posts, clock: Time, cutoff: Time, now: Time)
    requires LogInv(log, posts, clock, cutoff) && clock <= now && cutoff <= now - EXPIRY
    ensures LogInv(map k | k in log && k > now - EXPIRY :: log[k], posts, now, now - EXPIRY)
  {
  }

  lemma {:induction false} LogAlways(r: Room, start: Time, evs: seq<RoomEvent>)
    requires r.log == map[] && Timed(start, evs)
    ensures LogInv(Run(r, evs).log, Accepted(r, start, evs), Clock(start, evs), Cutoff(start, evs))
    ensures Cutoff(start, evs) <= Clock(start, evs) - EXPIRY
  {
    if evs != [] {
      var before, e := evs[..|evs| - 1], evs[|evs| - 1];
      LogAlways(r, start, before);
      var log, posts, clock, cutoff := Run(r, before).log, Accepted(r, start, before), Clock(start, before),
          Cutoff(start, before);
      if IsPost(e) && Accepts(Run(r, before), MemberOf(e), MessageOf(e).sender, e.now) {
        PostKeepsLog(log, posts, clock, cutoff, e.now, MessageOf(e));
      } else if e.CleanUp? {
        CleanKeepsLog(log, posts, clock, cutoff, e.now);
      }
    }
  }

  /** Keys grow from message to message, and none is before the moment it was sent. */
  lemma {:induction false} KeysGrow(r: Room, start: Time, evs: seq<RoomEvent>)
    requires r.log == map[] && Timed(start, evs) && evs != []
    ensures var before, e := evs[..|evs| - 1], evs[|evs| - 1];
            IsPost(e) && Accepts(Run(r, before), MemberOf(e), MessageOf(e).sender, e.now) ==>
              var key := LeastFree(Run(r, before).log.Keys, e.now);
              && e.now <= key
              && (forall p :: p in Accepted(r, start, before) ==> p.0 < key)
              && Accepted(r, start, evs) == Accepted(r, start, before) + [(key, MessageOf(e))]
  {
    var before, e := evs[..|evs| - 1], evs[|evs| - 1];
    LogAlways(r, start, before);
    if IsPost(e) {
      KeyOfLast(Run(r, before).log, Accepted(r, start, before), Clock(start, before), Cutoff(start, before), e.now);
    }
  }

  lemma {:induction false} SelectMembers(posts: Posts, from: Time, to: Time)
    requires Increasing(posts)
    ensures Increasing(Select(posts, from, to))
    ensures forall p :: p in Select(posts, from, to) <==> p in posts && from <= p.0 <= to
  {
    if posts != [] {
      SelectMembers(posts[..|posts| - 1], from, to);
      forall p
        ensures p in posts <==> p in posts[..|posts| - 1] || p == posts[|posts| - 1]
      {
      }
    }
  }

  function Later(a: Time, b: Time): Time { if a < b then b else a }

  /**
   * Whatever the room goes through, a look-up returns exactly the accepted messages
   * with keys in the interval that have not expired, in the order they were sent.
   */
  lemma LookUpIsHistory(r: Room, start: Time, evs: seq<RoomEvent>, from: Time, to: Time, messages: Posts)
    requires r.log == map[] && Timed(start, evs)
    requires IsListing(messages, Run(r, evs).log, from, to)
    ensures messages == Select(Accepted(r, start, evs), Later(from, Cutoff(start, evs) + 1), to)
  {
    LogAlways(r, start, evs);
    var posts, from' := Accepted(r, start, evs), Later(from, Cutoff(start, evs) + 1);
    SelectMembers(posts, from', to);
    forall p: (Time, Message)
      ensures p in messages <==> p in Select(posts, from', to)
    {
      var (k, m) := p;
      assert (k, m) in messages <==> k in Run(r, evs).log && Run(r, evs).log[k] == m && from <= k <= to;
      assert k in Run(r, evs).log && Run(r, evs).log[k] == m <==> (k, m) in posts && k > Cutoff(start, evs);
    }
    ListingUnique(messages, Select(posts, from', to));
  }

  // ---- which messages these are, read off the events alone

  /** Whether u is in the room after all joining and leaving. */
  predicate InRoom(r: Room, evs: seq<RoomEvent>, u: UserID) {
    if evs == [] then u in r.members
    else
      var e := evs[|evs| - 1];
      if e == Join(u) then true else if e == Leave(u) then false else InRoom(r, evs[..|evs| - 1], u)
  }

  /** The muting of `u` that the room began with has not run out. */
  predicate StillMuted(r: Room, u: UserID, now: Time) { u in r.muted && now <= r.muted[u] }

  lemma {:induction false} MembersAre(r: Room, evs: seq<RoomEvent>, u: UserID)
    ensures u in Run(r, evs).members <==> InRoom(r, evs, u)
  {
    if evs != [] {
      MembersAre(r, evs[..|evs| - 1], u);
    }
  }

  /** A message of `u` has been accepted. */
  predicate HasSpoken(r: Room, evs: seq<RoomEvent>, u: UserID) {
    evs != [] &&
    var before, e := evs[..|evs| - 1], evs[|evs| - 1];
    || HasSpoken(r, before, u)
    || (IsPost(e) && e.sender == u && InRoom(r, before, if e.SendUserTip? then e.receiver else u)
        && !StillMuted(r, u, e.now))
  }

  /** A muting is forgotten by the first message that is accepted after it has run out. */
  lemma {:induction false} MutingsAre(r: Room, start: Time, evs: seq<RoomEvent>, u: UserID)
    requires Timed(start, evs)
    ensures u in Run(r, evs).muted <==> u in r.muted && !HasSpoken(r, evs, u)
    ensures u in Run(r, evs).muted ==> Run(r, evs).muted[u] == r.muted[u]
    ensures u in r.muted && HasSpoken(r, evs, u) ==> r.muted[u] < Clock(start, evs)
  {
    if evs != [] {
      var before, e := evs[..|evs| - 1], evs[|evs| - 1];
      MutingsAre(r, start, before, u);
      if IsPost(e) {
        MembersAre(r, before, MemberOf(e));
      }
    }
  }

  /**
   * A message is accepted if and only if the one it has to come from, or go to, is in the
   * room, and its sender is not muted; and it is stored as it was sent.
   */
  lemma AcceptedIsHistory(r: Room, start: Time, evs: seq<RoomEvent>, e: RoomEvent)
    requires Timed(start, evs + [e]) && IsPost(e)
    ensures var posts := Accepted(r, start, evs);
            Accepted(r, start, evs + [e]) ==
              if InRoom(r, evs, if e.SendUserTip? then e.receiver else e.sender) && !StillMuted(r, e.sender, e.now)
              then posts + [(NextKey(posts, e.now), Message(e.sender, e.text,
                                                            if e.Send? then NormalMessage else TipMessage,
                                                            if e.SendUserTip? then Some(e.receiver) else None))]
              else posts
  {
    var all := evs + [e];
    assert all[..|all| - 1] == evs;
    MembersAre(r, evs, MemberOf(e));
    MutingsAre(r, start, evs, e.sender);
  }

  /** The members and the users the TCP side sends to never part. */
  lemma {:induction false} RecipientsAreMembers(r: Room, evs: seq<RoomEvent>)
    requires r.recipients == r.members
    ensures Run(r, evs).recipients == Run(r, evs).members
  {
    if evs != [] {
      RecipientsAreMembers(r, evs[..|evs| - 1]);
    }
  }
}
