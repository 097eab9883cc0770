/** The WebSocket hub: rooms of sockets keyed by remote address, and the handler that opens, admits,
    serves and closes sockets. */
module Hub {
  import opened Common
  import opened GroupGet
  import opened RoomCodec
  import Directory

  // ---------- The rooms as a value ----------

  type Rooms<S> = map<string, map<string, S>>

  function MembersOf<S>(rooms: Rooms<S>, room: string): map<string, S> {
    if room in rooms then rooms[room] else map[]
  }

  function JoinRoom<S>(rooms: Rooms<S>, room: string, addr: string, s: S): Rooms<S> {
    rooms[room := MembersOf(rooms, room)[addr := s]]
  }

  function LeaveRoom<S>(rooms: Rooms<S>, room: string, addr: string): Rooms<S> {
    if room !in rooms then rooms
    else if rooms[room].Keys <= {addr} then rooms - {room}
    else rooms[room := rooms[room] - {addr}]
  }

  ghost predicate NoEmptyRoom<S>(rooms: Rooms<S>) {
    forall room :: room in rooms ==> rooms[room] != map[]
  }

  lemma JoinFillsRoom<S>(rooms: Rooms<S>, room: string, addr: string, s: S)
    requires NoEmptyRoom(rooms)
    ensures NoEmptyRoom(JoinRoom(rooms, room, addr, s))
  {
    assert addr in JoinRoom(rooms, room, addr, s)[room];
  }

  lemma LeaveDropsEmptyRoom<S>(rooms: Rooms<S>, room: string, addr: string)
    requires NoEmptyRoom(rooms)
    ensures NoEmptyRoom(LeaveRoom(rooms, room, addr))
  {
    var rooms' := LeaveRoom(rooms, room, addr);
    if room in rooms' {
      var a :| a in rooms[room].Keys && a != addr;
      assert a in rooms'[room];
    }
  }

  // ---------- Whole runs of the handler, with the memberships it asks about ----------

  datatype Peer = Peer(id: nat, addr: string, user: Option<string>)

  /** `session` holds the last room each socket joined through a message; `dir` is what the
      conversation service knows. */
  datatype State = State(rooms: Rooms<Peer>, session: map<Peer, string>, dir: Directory.Dir)

  /** Serve is a call of the conversation service. A join may ask for a membership; `delivered` says
      whether the request was answered at all. */
  datatype Event =
    | Serve(call: Directory.Call)
    | Open(peer: Peer)
    | JoinMessage(peer: Peer, room: string, delivered: bool)
    | Close(peer: Peer)

  const START := State(map[], map[], Directory.EMPTY)

  /** The membership check of a join: a named user, a well-formed room, and a positive answer about
      the number of the room. */
  predicate CanJoin(parse: Parser, d: Directory.Dir, user: Option<string>, room: string, delivered: bool) {
    && user.Some? && TrimSpace(user.value) != ""
    && ParseConversationRoomID(room).Ok?
    && delivered && Asked(parse, d, user.value, ParseConversationRoomID(room).value)
  }

  predicate Admits(parse: Parser, d: Directory.Dir, user: Option<string>, room: string, delivered: bool) {
    IsConversationRoom(room) ==> CanJoin(parse, d, user, room, delivered)
  }

  function PrivateRoom(user: string): string {
    "user:" + user
  }

  function Step(parse: Parser, s: State, e: Event): State {
    match e
    case Serve(call) => s.(dir := Directory.Step(s.dir, call).0)
    case Open(p) =>
      if p.user.None? then s else s.(rooms := JoinRoom(s.rooms, PrivateRoom(p.user.value), p.addr, p))
    case JoinMessage(p, room, delivered) =>
      if !Admits(parse, s.dir, p.user, room, delivered) then s
      else s.(rooms := JoinRoom(s.rooms, room, p.addr, p), session := s.session[p := room])
    case Close(p) =>
      if p !in s.session then s else s.(rooms := LeaveRoom(s.rooms, s.session[p], p.addr))
  }

  function Run(parse: Parser, es: seq<Event>): State
    decreases |es|
  {
    if es == [] then START else Step(parse, Run(parse, es[..|es| - 1]), es[|es| - 1])
  }

  lemma {:induction false} RunKeepsDirectory(parse: Parser, es: seq<Event>)
    ensures Directory.Inv(Run(parse, es).dir)
    decreases |es|
  {
    if es != [] {
      var n := |es| - 1;
      RunKeepsDirectory(parse, es[..n]);
      if es[n].Serve? { Directory.StepKeepsInv(Run(parse, es[..n]).dir, es[n].call); }
    }
  }

  // ---------- Who is in a room ----------

  ghost predicate AdmittedAt(parse: Parser, es: seq<Event>, j: nat, room: string, p: Peer)
    requires j < |es|
  {
    es[j] == JoinMessage(p, room, true) && CanJoin(parse, Run(parse, es[..j]).dir, p.user, room, true)
  }

  ghost predicate Admitted(parse: Parser, es: seq<Event>, room: string, p: Peer) {
    exists j :: 0 <= j < |es| && AdmittedAt(parse, es, j, room, p)
  }

  ghost predicate Safe(parse: Parser, s: State, es: seq<Event>) {
    && NoEmptyRoom(s.rooms)
    && (forall room, addr :: room in s.rooms && addr in s.rooms[room] ==>
          && s.rooms[room][addr].addr == addr
          && (IsConversationRoom(room) ==> Admitted(parse, es, room, s.rooms[room][addr])))
  }

  /** Two users have two rooms. */
  lemma PrivateRoomsDiffer(u: string, v: string)
    ensures PrivateRoom(u) == PrivateRoom(v) <==> u == v
  {
    assert PrivateRoom(u)[5..] == u && PrivateRoom(v)[5..] == v;
  }

  /** Who gets in: anybody into a room that is no conversation; into a conversation room exactly a
      named user who is an active member of what the 32-bit number of the room names, if the request
      was answered. */
  lemma AdmitsIff(parse: Parser, es: seq<Event>, user: Option<string>, room: string, delivered: bool)
    ensures var d := Run(parse, es).dir;
      Admits(parse, d, user, room, delivered) <==>
        || !IsConversationRoom(room)
        || (&& user.Some? && delivered && ParseConversationRoomID(room).Ok?
            && ParseActor(parse, user.value).Some?
            && ActiveMember(d, Int32(ParseConversationRoomID(room).value), ParseActor(parse, user.value).value))
  {
    RunKeepsDirectory(parse, es);
    if user.Some? && ParseConversationRoomID(room).Ok? {
      AskedExact(parse, Run(parse, es).dir, user.value, ParseConversationRoomID(room).value);
    }
  }

  lemma PrivateRoomIsNotAConversation(user: string)
    ensures !IsConversationRoom(PrivateRoom(user))
  {
    assert PrivateRoom(user)[0] == 'u';
  }

  lemma AdmissionLasts(parse: Parser, es: seq<Event>, e: Event)
    ensures forall room, p :: Admitted(parse, es, room, p) ==> Admitted(parse, es + [e], room, p)
  {
    forall room, p | Admitted(parse, es, room, p) ensures Admitted(parse, es + [e], room, p) {
      var j :| 0 <= j < |es| && AdmittedAt(parse, es, j, room, p);
      assert (es + [e])[..j] == es[..j];
      assert AdmittedAt(parse, es + [e], j, room, p);
    }
  }

  lemma StepIsSafe(parse: Parser, es: seq<Event>, e: Event)
    requires Safe(parse, Run(parse, es), es)
    ensures Safe(parse, Step(parse, Run(parse, es), e), es + [e])
  {
    var s := Run(parse, es);
    AdmissionLasts(parse, es, e);
    assert Safe(parse, s, es + [e]);
    match e
    case Serve(_) =>
    case Open(p) =>
      if p.user.Some? { OpenIsSafe(parse, s, es + [e], p); }
    case JoinMessage(p, room, delivered) =>
      if Admits(parse, s.dir, p.user, room, delivered) { JoinIsSafe(parse, es, p, room, delivered); }
    case Close(p) =>
      if p in s.session { LeaveIsSafe(parse, s, es + [e], s.session[p], p.addr); }
  }

  lemma OpenIsSafe(parse: Parser, s: State, es: seq<Event>, p: Peer)
    requires Safe(parse, s, es) && p.user.Some?
    ensures Safe(parse, s.(rooms := JoinRoom(s.rooms, PrivateRoom(p.user.value), p.addr, p)), es)
  {
    PrivateRoomIsNotAConversation(p.user.value);
    EnterIsSafe(parse, s, es, PrivateRoom(p.user.value), p);
  }

  lemma JoinIsSafe(parse: Parser, es: seq<Event>, p: Peer, room: string, delivered: bool)
    requires Safe(parse, Run(parse, es), es + [JoinMessage(p, room, delivered)])
    requires Admits(parse, Run(parse, es).dir, p.user, room, delivered)
    ensures Safe(parse, Step(parse, Run(parse, es), JoinMessage(p, room, delivered)), es + [JoinMessage(p, room, delivered)])
  {
    var s, all := Run(parse, es), es + [JoinMessage(p, room, delivered)];
    if IsConversationRoom(room) { JustAdmitted(parse, es, p, room, delivered); }
    EnterIsSafe(parse, s, all, room, p);
    assert Step(parse, s, JoinMessage(p, room, delivered)).rooms == JoinRoom(s.rooms, room, p.addr, p);
  }

  lemma JustAdmitted(parse: Parser, es: seq<Event>, p: Peer, room: string, delivered: bool)
    requires CanJoin(parse, Run(parse, es).dir, p.user, room, delivered)
    ensures Admitted(parse, es + [JoinMessage(p, room, delivered)], room, p)
  {
    assert (es + [JoinMessage(p, room, delivered)])[..|es|] == es;
    assert AdmittedAt(parse, es + [JoinMessage(p, room, delivered)], |es|, room, p);
  }

  lemma EnterIsSafe(parse: Parser, s: State, es: seq<Event>, room: string, p: Peer)
    requires Safe(parse, s, es) && (IsConversationRoom(room) ==> Admitted(parse, es, room, p))
    ensures Safe(parse, s.(rooms := JoinRoom(s.rooms, room, p.addr, p)), es)
  {
    JoinFillsRoom(s.rooms, room, p.addr, p);
  }

  lemma LeaveIsSafe(parse: Parser, s: State, es: seq<Event>, room: string, addr: string)
    requires Safe(parse, s, es)
    ensures Safe(parse, s.(rooms := LeaveRoom(s.rooms, room, addr)), es)
  {
    LeaveDropsEmptyRoom(s.rooms, room, addr);
  }

  /** Over every run of service calls, opens, joins and closes: no stored room is empty, every socket
      is stored under its own address, and every socket in a conversation room was let in by a join
      whose membership check succeeded. */
  lemma {:induction false} RunIsSafe(parse: Parser, es: seq<Event>)
    ensures Safe(parse, Run(parse, es), es)
    decreases |es|
  {
    if es != [] {
      var n := |es| - 1;
      assert es == es[..n] + [es[n]];
      RunIsSafe(parse, es[..n]);
      StepIsSafe(parse, es[..n], es[n]);
      assert Run(parse, es) == Step(parse, Run(parse, es[..n]), es[n]);
    }
  }

  /** The j-th event let p into the room, and its user was then an active member of the conversation
      that the room's number names after the cut to 32 bits: of the room's own one up to 2^31 - 1. */
  ghost predicate MemberJoined(parse: Parser, es: seq<Event>, j: nat, room: string, p: Peer)
    requires j < |es|
  {
    && es[j] == JoinMessage(p, room, true) && p.user.Some? && ParseConversationRoomID(room).Ok?
    && var d, n, u := Run(parse, es[..j]).dir, ParseConversationRoomID(room).value, ParseActor(parse, p.user.value);
       && u.Some? && ActiveMember(d, Int32(n), u.value)
       && (n <= MAX_INT32 ==> ActiveMember(d, n, u.value))
  }

  /** Whoever sits in a conversation room was a member when let in. */
  lemma SocketsWereMembers(parse: Parser, es: seq<Event>, room: string, addr: string)
    requires IsConversationRoom(room) && addr in MembersOf(Run(parse, es).rooms, room)
    ensures exists j :: 0 <= j < |es| && MemberJoined(parse, es, j, room, MembersOf(Run(parse, es).rooms, room)[addr])
  {
    RunIsSafe(parse, es);
    var j := AdmittedWasMember(parse, es, room, MembersOf(Run(parse, es).rooms, room)[addr]);
  }

  lemma AdmittedWasMember(parse: Parser, es: seq<Event>, room: string, p: Peer) returns (j: nat)
    requires Admitted(parse, es, room, p)
    ensures j < |es| && MemberJoined(parse, es, j, room, p)
  {
    j :| 0 <= j < |es| && AdmittedAt(parse, es, j, room, p);
    RunKeepsDirectory(parse, es[..j]);
    MemberIfAsked(parse, Run(parse, es[..j]).dir, p.user.value, ParseConversationRoomID(room).value);
  }

  lemma MemberIfAsked(parse: Parser, d: Directory.Dir, user: string, n: int)
    requires Directory.Inv(d) && Asked(parse, d, user, n) && n >= 1
    ensures var u := ParseActor(parse, user);
      u.Some? && ActiveMember(d, Int32(n), u.value) && (n <= MAX_INT32 ==> ActiveMember(d, n, u.value))
  {
    AskedExact(parse, d, user, n);
  }

  const WRAPPED := 0x1_0000_0001

  /** Above 2^31 - 1 it may be another conversation: whenever the number of the room is cut down to 1,
      as WRAPPED is, the creator of conversation 1 enters the room of one that does not exist. */
  lemma WrappedNumberIsEntered(parse: Parser, p: Peer, u: Uuid, room: string, n: int)
    requires p.user.Some? && ParseActor(parse, p.user.value) == Some(u) && u != NIL_UUID
    requires ParseConversationRoomID(room) == Ok(n) && n > MAX_INT32 && Int32(n) == Int32(WRAPPED)
    ensures var s := Run(parse, [Serve(Directory.Create(u, "", "")), JoinMessage(p, room, true)]);
      Inside(s, p, room) && !ActiveMember(s.dir, n, u)
  {
    var d := Directory.Step(Directory.EMPTY, Directory.Create(u, "", "")).0;
    FirstCreated(u);
    AskedExact(parse, d, p.user.value, n);
    RunTwo(parse, Serve(Directory.Create(u, "", "")), JoinMessage(p, room, true));
    JoinPutsInside(parse, START.(dir := d), p, room);
  }

  lemma JoinPutsInside(parse: Parser, s: State, p: Peer, room: string)
    requires Admits(parse, s.dir, p.user, room, true)
    ensures Inside(Step(parse, s, JoinMessage(p, room, true)), p, room)
    ensures Step(parse, s, JoinMessage(p, room, true)).dir == s.dir
  {
  }

  lemma RunTwo(parse: Parser, a: Event, b: Event)
    ensures Run(parse, [a, b]) == Step(parse, Step(parse, START, a), b)
  {
    assert [a, b][..1] == [a] && [a][..0] == [];
    assert Run(parse, [a]) == Step(parse, START, a);
  }

  lemma FirstCreated(u: Uuid)
    requires u != NIL_UUID
    ensures var d := Directory.Step(Directory.EMPTY, Directory.Create(u, "", "")).0;
      Directory.Inv(d) && forall c :: ActiveMember(d, c, u) <==> c == 1
  {
    Directory.StepKeepsInv(Directory.EMPTY, Directory.Create(u, "", ""));
  }

  // ---------- What a close leaves behind ----------

  predicate At<S>(rooms: Rooms<S>, room: string, addr: string) {
    addr in MembersOf(rooms, room)
  }

  predicate Inside(s: State, p: Peer, room: string) {
    At(s.rooms, room, p.addr) && s.rooms[room][p.addr] == p
  }

  /** A closing socket leaves the room its session remembers, if any, and nothing else: it is gone
      from all rooms exactly if it was in no other. */
  lemma CloseLeavesRemembered(parse: Parser, s: State, p: Peer)
    ensures forall room, addr :: At(Step(parse, s, Close(p)).rooms, room, addr) <==>
      At(s.rooms, room, addr) && !(addr == p.addr && p in s.session && room == s.session[p])
    ensures (exists room :: At(Step(parse, s, Close(p)).rooms, room, p.addr)) <==>
      exists room :: At(s.rooms, room, p.addr) && (p in s.session ==> room != s.session[p])
  {
    var t := Step(parse, s, Close(p));
    forall room, addr
      ensures At(t.rooms, room, addr) <==>
        At(s.rooms, room, addr) && !(addr == p.addr && p in s.session && room == s.session[p])
    {
      if p in s.session { LeftRoom(s.rooms, s.session[p], p.addr, room, addr); }
    }
    if room :| At(s.rooms, room, p.addr) && (p in s.session ==> room != s.session[p]) {
      assert At(t.rooms, room, p.addr);
    }
  }

  lemma LeftRoom<S>(rooms: Rooms<S>, left: string, from: string, room: string, addr: string)
    ensures At(LeaveRoom(rooms, left, from), room, addr) <==> At(rooms, room, addr) && !(room == left && addr == from)
    ensures At(LeaveRoom(rooms, left, from), room, addr) ==>
      LeaveRoom(rooms, left, from)[room][addr] == rooms[room][addr]
  {
  }

  predicate Uses(e: Event, p: Peer) {
    !e.Serve? && e.peer == p
  }

  /** No two sockets of the run have one address. */
  ghost predicate OwnAddresses(es: seq<Event>) {
    forall i, j :: 0 <= i < |es| && 0 <= j < |es| && !es[i].Serve? && !es[j].Serve? && es[i].peer.addr == es[j].peer.addr ==>
      es[i].peer == es[j].peer
  }

  ghost predicate EnteredAt(parse: Parser, es: seq<Event>, j: nat, p: Peer, room: string)
    requires j < |es|
  {
    match es[j]
    case Open(q) => q == p && p.user.Some? && room == PrivateRoom(p.user.value)
    case JoinMessage(q, r, delivered) =>
      q == p && r == room && Admits(parse, Run(parse, es[..j]).dir, p.user, room, delivered)
    case _ => false
  }

  ghost predicate LeftAt(parse: Parser, es: seq<Event>, k: nat, p: Peer, room: string)
    requires k < |es|
  {
    es[k] == Close(p) && LastJoined(parse, es[..k], p) == Some(room)
  }

  /** The room of the last admitted join message of p. */
  ghost function LastJoined(parse: Parser, es: seq<Event>, p: Peer): Option<string>
    decreases |es|
  {
    if es == [] then None
    else
      var n := |es| - 1;
      if es[n].JoinMessage? && es[n].peer == p && Admits(parse, Run(parse, es[..n]).dir, p.user, es[n].room, es[n].delivered)
      then Some(es[n].room) else LastJoined(parse, es[..n], p)
  }

  lemma {:induction false} SessionIsLastJoined(parse: Parser, es: seq<Event>, p: Peer)
    ensures LastJoined(parse, es, p) ==
      if p in Run(parse, es).session then Some(Run(parse, es).session[p]) else None
    decreases |es|
  {
    if es != [] {
      SessionIsLastJoined(parse, es[..|es| - 1], p);
    }
  }

  /** p entered the room at j and no later close took it out. */
  ghost predicate StaysFrom(parse: Parser, es: seq<Event>, j: nat, p: Peer, room: string)
    requires j < |es|
  {
    EnteredAt(parse, es, j, p, room) && forall k :: j < k < |es| ==> !LeftAt(parse, es, k, p, room)
  }

  ghost predicate Stays(parse: Parser, es: seq<Event>, p: Peer, room: string) {
    exists j :: 0 <= j < |es| && StaysFrom(parse, es, j, p, room)
  }

  lemma StaysNext(parse: Parser, es: seq<Event>, p: Peer, room: string)
    requires es != []
    ensures var n := |es| - 1;
      Stays(parse, es, p, room) <==>
        EnteredAt(parse, es, n, p, room) || (Stays(parse, es[..n], p, room) && !LeftAt(parse, es, n, p, room))
  {
    var n := |es| - 1;
    var init := es[..n];
    forall j | 0 <= j < n
      ensures EnteredAt(parse, es, j, p, room) <==> EnteredAt(parse, init, j, p, room)
      ensures LeftAt(parse, es, j, p, room) <==> LeftAt(parse, init, j, p, room)
    {
      assert es[..j] == init[..j];
    }
    if EnteredAt(parse, es, n, p, room) { assert StaysFrom(parse, es, n, p, room); }
    if Stays(parse, init, p, room) && !LeftAt(parse, es, n, p, room) {
      var j :| 0 <= j < n && StaysFrom(parse, init, j, p, room);
      assert StaysFrom(parse, es, j, p, room);
    }
    if j :| 0 <= j < n && StaysFrom(parse, es, j, p, room) {
      assert StaysFrom(parse, init, j, p, room);
    }
  }

  lemma {:induction false} StaysUses(parse: Parser, es: seq<Event>, p: Peer, room: string)
    requires Stays(parse, es, p, room)
    ensures exists j :: 0 <= j < |es| && Uses(es[j], p)
  {
    var j :| 0 <= j < |es| && StaysFrom(parse, es, j, p, room);
    assert Uses(es[j], p);
  }

  /** Over every run of sockets with addresses of their own, a socket is in a room exactly if it has
      entered it by being opened or by an admitted join and no close has taken it out since. */
  lemma {:induction false} InsideExactly(parse: Parser, es: seq<Event>, p: Peer, room: string)
    requires OwnAddresses(es)
    ensures Inside(Run(parse, es), p, room) <==> Stays(parse, es, p, room)
    decreases |es|
  {
    if es != [] {
      var n := |es| - 1;
      var init, e := es[..n], es[n];
      InsideExactly(parse, init, p, room);
      StaysNext(parse, es, p, room);
      SessionIsLastJoined(parse, init, p);
      if Inside(Run(parse, init), p, room) && !e.Serve? {
        StaysUses(parse, init, p, room);
        assert e.peer.addr == p.addr ==> e.peer == p;
      }
      InsideNext(parse, Run(parse, init), e, p, room);
    }
  }

  lemma InsideNext(parse: Parser, s: State, e: Event, p: Peer, room: string)
    requires Inside(s, p, room) && !e.Serve? && e.peer.addr == p.addr ==> e.peer == p
    ensures Inside(Step(parse, s, e), p, room) <==>
      match e
      case Serve(_) => Inside(s, p, room)
      case Open(q) => (q == p && p.user.Some? && room == PrivateRoom(p.user.value)) || Inside(s, p, room)
      case JoinMessage(q, r, delivered) =>
        (q == p && r == room && Admits(parse, s.dir, p.user, room, delivered)) || Inside(s, p, room)
      case Close(q) => Inside(s, p, room) && !(q == p && p in s.session && s.session[p] == room)
  {
    if e.Close? && e.peer in s.session { LeftRoom(s.rooms, s.session[e.peer], e.peer.addr, room, p.addr); }
  }

  ghost predicate Entered(parse: Parser, es: seq<Event>, p: Peer, room: string) {
    exists j :: 0 <= j < |es| && EnteredAt(parse, es, j, p, room)
  }

  /** After its first close a socket is still in exactly the rooms it ever entered, but for the last
      one it joined by a message. */
  lemma AfterClose(parse: Parser, es: seq<Event>, p: Peer, room: string)
    requires OwnAddresses(es + [Close(p)]) && forall k :: 0 <= k < |es| ==> es[k] != Close(p)
    ensures Inside(Run(parse, es + [Close(p)]), p, room) <==>
      Entered(parse, es, p, room) && LastJoined(parse, es, p) != Some(room)
  {
    var all := es + [Close(p)];
    assert all[..|es|] == es;
    InsideExactly(parse, all, p, room);
    StaysNext(parse, all, p, room);
    if j :| 0 <= j < |es| && EnteredAt(parse, es, j, p, room) {
      assert StaysFrom(parse, es, j, p, room);
    }
    if Stays(parse, es, p, room) {
      var j :| 0 <= j < |es| && StaysFrom(parse, es, j, p, room);
      assert Entered(parse, es, p, room);
    }
  }

  ghost predicate InNoRoom(s: State, p: Peer) {
    forall room :: !Inside(s, p, room)
  }

  ghost predicate EnteredOnlyLast(parse: Parser, es: seq<Event>, p: Peer) {
    forall room :: Entered(parse, es, p, room) ==> LastJoined(parse, es, p) == Some(room)
  }

  ghost predicate StillIn(parse: Parser, es: seq<Event>, p: Peer, t: State, room: string) {
    Inside(t, p, room) <==> Entered(parse, es, p, room) && LastJoined(parse, es, p) != Some(room)
  }

  /** So it is in no room any more exactly if the last room it joined is the only one it entered. */
  lemma LeavesAllIff(parse: Parser, es: seq<Event>, p: Peer)
    requires OwnAddresses(es + [Close(p)]) && forall k :: 0 <= k < |es| ==> es[k] != Close(p)
    ensures InNoRoom(Run(parse, es + [Close(p)]), p) <==> EnteredOnlyLast(parse, es, p)
  {
    forall room ensures StillIn(parse, es, p, Run(parse, es + [Close(p)]), room) {
      AfterClose(parse, es, p, room);
    }
    OnlyLastLeft(parse, es, p, Run(parse, es + [Close(p)]));
  }

  lemma OnlyLastLeft(parse: Parser, es: seq<Event>, p: Peer, t: State)
    requires forall room :: StillIn(parse, es, p, t, room)
    ensures InNoRoom(t, p) <==> EnteredOnlyLast(parse, es, p)
  {
    if InNoRoom(t, p) {
      forall room | Entered(parse, es, p, room) ensures LastJoined(parse, es, p) == Some(room) {
        assert StillIn(parse, es, p, t, room);
      }
    }
    if EnteredOnlyLast(parse, es, p) {
      forall room ensures !Inside(t, p, room) {
        assert StillIn(parse, es, p, t, room);
      }
    }
  }

  /** A socket that is opened by a user and closed stays in the user's room. */
  lemma OpenedSocketStays(parse: Parser, p: Peer)
    requires p.user.Some?
    ensures Inside(Run(parse, [Open(p), Close(p)]), p, PrivateRoom(p.user.value))
  {
    RunTwo(parse, Open(p), Close(p));
  }

  // ---------- Sockets, hub and handler as objects ----------

  datatype Write = Payload(data: string) | JoinDenied(room: string)

  class Socket {
    const addr: string
    const user: Option<string>
    var room: Option<string>
    var writes: seq<Write>

    constructor (addr: string, user: Option<string>)
      ensures this.addr == addr && this.user == user && room == None && writes == []
    {
      this.addr, this.user, room, writes := addr, user, None, [];
    }

    /** One attempt to write; whether the peer is still there is not the hub's concern. */
    method WriteMessage(w: Write)
      modifies this`writes
      ensures writes == old(writes) + [w]
    {
      writes := writes + [w];
    }
  }

  class SocketHub {
    var rooms: map<string, map<string, Socket>>

    constructor ()
      ensures rooms == map[]
    {
      rooms := map[];
    }

    /** No empty room, and every socket under its own address. */
    ghost predicate Valid()
      reads this
    {
      && NoEmptyRoom(rooms)
      && (forall room, addr :: room in rooms && addr in rooms[room] ==> rooms[room][addr].addr == addr)
    }

    ghost function SocketsIn(room: string): set<Socket>
      reads this
    {
      MembersOf(rooms, room).Values
    }

    method Join(room: string, socket: Socket)
      requires Valid()
      modifies this
      ensures Valid() && rooms == JoinRoom(old(rooms), room, socket.addr, socket)
    {
      JoinFillsRoom(rooms, room, socket.addr, socket);
      if room !in rooms {
        rooms := rooms[room := map[]];
      }
      rooms := rooms[room := rooms[room][socket.addr := socket]];
      assert rooms == JoinRoom(old(rooms), room, socket.addr, socket);
    }

    method Leave(room: string, socket: Socket)
      requires Valid()
      modifies this
      ensures Valid() && rooms == LeaveRoom(old(rooms), room, socket.addr)
    {
      LeaveDropsEmptyRoom(rooms, room, socket.addr);
      if room in rooms {
        var clients := rooms[room] - {socket.addr};
        assert clients.Keys == {} <==> rooms[room].Keys <= {socket.addr};
        if |clients| == 0 {
          rooms := rooms - {room};
        } else {
          rooms := rooms[room := clients];
        }
      }
    }

    /** Exactly one write to each socket of the room, and to no other socket. */
    method BroadcastToRoom(room: string, payload: string)
      requires Valid()
      modifies SocketsIn(room)
      ensures rooms == old(rooms)
      ensures forall s :: s in SocketsIn(room) ==> s.writes == old(s.writes) + [Payload(payload)] && s.room == old(s.room)
    {
      if room !in rooms {
        return;
      }
      var clients := rooms[room];
      var left := clients.Keys;
      while left != {}
        invariant left <= clients.Keys
        invariant forall addr :: addr in clients ==>
          && clients[addr].writes == old(clients[addr].writes) + (if addr in left then [] else [Payload(payload)])
          && clients[addr].room == old(clients[addr].room)
        decreases left
      {
        var addr :| addr in left;
        left := left - {addr};
        clients[addr].WriteMessage(Payload(payload));
      }
    }

    /** The subscription to message.broadcast.>: the room is what follows the second dot. */
    method OnSubject(subject: string, payload: string)
      requires Valid()
      modifies if DecodeSubject(subject).Some? then SocketsIn(DecodeSubject(subject).value) else {}
      ensures rooms == old(rooms)
      ensures DecodeSubject(subject).Some? ==>
        forall s :: s in SocketsIn(DecodeSubject(subject).value) ==>
          s.writes == old(s.writes) + [Payload(payload)] && s.room == old(s.room)
    {
      var parts := Split(subject, '.');
      if |parts| < 3 {
        return;
      }
      BroadcastToRoom(RoomCodec.Join(parts[2..], '.'), payload);
    }
  }

  class Handler {
    const hub: SocketHub
    const groups: Endpoint
    var activeConnections: int

    constructor (hub: SocketHub, groups: Endpoint)
      ensures this.hub == hub && this.groups == groups && activeConnections == 0
    {
      this.hub, this.groups, activeConnections := hub, groups, 0;
    }

    ghost predicate Valid()
      reads hub, if groups.conversations != null then groups.conversations.repo.Objects() else {}
    {
      hub.Valid() && (groups.conversations != null ==> groups.conversations.repo.Valid())
    }

    /** The check of a join, answered by the service as it stands now. */
    ghost predicate Check(user: Option<string>, room: string, delivered: bool)
      reads if groups.conversations != null then groups.conversations.repo.Objects() else {}
      requires groups.conversations != null ==> groups.conversations.repo.Valid()
    {
      groups.conversations != null && CanJoin(groups.parse, groups.conversations.repo.View(), user, room, delivered)
    }

    method OnOpen(socket: Socket)
      requires hub.Valid()
      modifies this, hub
      ensures hub.Valid() && activeConnections == old(activeConnections) + 1
      ensures hub.rooms == if socket.user.None? then old(hub.rooms)
                           else JoinRoom(old(hub.rooms), PrivateRoom(socket.user.value), socket.addr, socket)
    {
      activeConnections := activeConnections + 1;
      if socket.user.Some? {
        hub.Join(PrivateRoom(socket.user.value), socket);
      }
    }

    /** The join branch of onMessage. */
    method OnJoinMessage(socket: Socket, room: string, delivered: bool)
      requires Valid()
      modifies hub, socket
      ensures Valid()
      ensures (IsConversationRoom(room) ==> old(Check(socket.user, room, delivered))) ==>
        && hub.rooms == JoinRoom(old(hub.rooms), room, socket.addr, socket)
        && socket.room == Some(room) && socket.writes == old(socket.writes)
      ensures IsConversationRoom(room) && !old(Check(socket.user, room, delivered)) ==>
        && hub.rooms == old(hub.rooms) && socket.room == old(socket.room)
        && socket.writes == old(socket.writes) + [JoinDenied(room)]
    {
      if IsConversationRoom(room) {
        var allowed := CanJoinConversationRoom(socket, room, delivered);
        if !allowed {
          socket.WriteMessage(JoinDenied(room));
          return;
        }
      }
      hub.Join(room, socket);
      socket.room := Some(room);
    }

    /** `delivered` is false if the request fails or its reply does not decode. */
    method CanJoinConversationRoom(socket: Socket, room: string, delivered: bool) returns (allowed: bool)
      requires Valid()
      ensures allowed == Check(socket.user, room, delivered)
    {
      if socket.user.None? {
        return false;
      }
      if TrimSpace(socket.user.value) == "" {
        return false;
      }
      var conversation := ParseConversationRoomID(room);
      match conversation {
        case Err(_) => return false;
        case Ok(n) =>
          if !delivered {
            return false;
          }
          allowed := groups.Handle(socket.user.value, Int32(n), Int32(n));
      }
    }

    method OnClose(socket: Socket)
      requires hub.Valid()
      modifies this, hub
      ensures hub.Valid() && activeConnections == old(activeConnections) - 1
      ensures hub.rooms == if socket.room.None? then old(hub.rooms)
                           else LeaveRoom(old(hub.rooms), socket.room.value, socket.addr)
    {
      activeConnections := activeConnections - 1;
      if socket.room.Some? {
        hub.Leave(socket.room.value, socket);
      }
    }
  }
}
