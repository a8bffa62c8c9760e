/**
 * The session list of chatserversrc/ChatServer.cpp and the part of a login in chatserversrc/ChatSession.cpp
 * that keeps a user from being on line twice.
 */
module ChatServer {

  /** A session: its number, the connection it belongs to, and the user logged in, 0 for none. */
  datatype SessionState = SessionState(id: nat, conn: nat, userid: int)

  /** A login under way in the thread of its session: looked up, and then with the session found kicked. */
  datatype Login = LookedUp(userid: int, found: bool, target: nat) | Kicked(userid: int)

  /** `logins` by the number of the session that logs in. */
  datatype State = State(sessions: seq<SessionState>, nextId: nat, logins: map<nat, Login>)

  const EMPTY := State([], 1, map[])

  /**
   * The atomic steps of any number of threads. Only the list is locked, so a login of a stored user with the
   * right password is three of them.
   */
  datatype Action =
    | Connect(conn: nat)
    | Disconnect(conn: nat)
    | LookUp(id: nat, userid: int)
    | Kick(id: nat)
    | Assign(id: nat)

  /** getSessionByUserId: the first in the list, or the length of the list for none. */
  function Find(sessions: seq<SessionState>, userid: int): (i: nat)
    ensures i <= |sessions|
    ensures i < |sessions| ==> sessions[i].userid == userid
    ensures forall j :: 0 <= j < i ==> sessions[j].userid != userid
  {
    if sessions == [] || sessions[0].userid == userid then 0 else 1 + Find(sessions[1..], userid)
  }

  function IndexOf(sessions: seq<SessionState>, id: nat): (i: nat)
    ensures i <= |sessions|
    ensures i < |sessions| ==> sessions[i].id == id
    ensures i == |sessions| ==> forall j :: 0 <= j < |sessions| ==> sessions[j].id != id
  {
    if sessions == [] || sessions[0].id == id then 0 else 1 + IndexOf(sessions[1..], id)
  }

  function SetUser(sessions: seq<SessionState>, i: nat, userid: int): seq<SessionState> {
    if i < |sessions| then sessions[i := sessions[i].(userid := userid)] else sessions
  }

  /** The session found for the user is made invalid, and then the session logging in becomes the user's. */
  function LogIn(sessions: seq<SessionState>, i: nat, userid: int): seq<SessionState> {
    SetUser(SetUser(sessions, Find(sessions, userid), 0), i, userid)
  }

  function WithoutConn(sessions: seq<SessionState>, conn: nat): seq<SessionState> {
    if sessions == [] then []
    else (if sessions[0].conn == conn then [] else [sessions[0]]) + WithoutConn(sessions[1..], conn)
  }

  /** A session handles one package at a time; a step that is not possible changes nothing. */
  function Apply(s: State, a: Action): State {
    match a
    case Connect(conn) => s.(sessions := s.sessions + [SessionState(s.nextId, conn, 0)], nextId := s.nextId + 1)
    case Disconnect(conn) => s.(sessions := WithoutConn(s.sessions, conn))
    case LookUp(id, userid) =>
      if id in s.logins then s
      else
        var i := Find(s.sessions, userid);
        var found := i < |s.sessions|;
        s.(logins := s.logins[id := LookedUp(userid, found, if found then s.sessions[i].id else 0)])
    case Kick(id) =>
      if id !in s.logins || s.logins[id].Kicked? then s
      else
        var l := s.logins[id];
        s.(sessions := if l.found then SetUser(s.sessions, IndexOf(s.sessions, l.target), 0) else s.sessions,
           logins := s.logins[id := Kicked(l.userid)])
    case Assign(id) =>
      if id !in s.logins || s.logins[id].LookedUp? then s
      else
        s.(sessions := SetUser(s.sessions, IndexOf(s.sessions, id), s.logins[id].userid), logins := s.logins - {id})
  }

  function Run(s: State, actions: seq<Action>): State
    decreases |actions|
  {
    if actions == [] then s else Run(Apply(s, actions[0]), actions[1..])
  }

  // ---------- Sessions and connections ----------

  /** How many sessions in the list have the connection. */
  function SessionsOf(sessions: seq<SessionState>, conn: nat): nat {
    if sessions == [] then 0 else (if sessions[0].conn == conn then 1 else 0) + SessionsOf(sessions[1..], conn)
  }

  /** How often the connection has come up since it last went down. */
  function Online(actions: seq<Action>, conn: nat): nat
    decreases |actions|
  {
    if actions == [] then 0
    else
      var before, a := Online(actions[..|actions| - 1], conn), actions[|actions| - 1];
      if a == Connect(conn) then before + 1 else if a == Disconnect(conn) then 0 else before
  }

  lemma {:induction false} SessionsOfSnoc(sessions: seq<SessionState>, x: SessionState, conn: nat)
    ensures SessionsOf(sessions + [x], conn) == SessionsOf(sessions, conn) + if x.conn == conn then 1 else 0
    decreases |sessions|
  {
    if sessions == [] {
      assert [] + [x] == [x] && [x][1..] == [];
    } else {
      assert (sessions + [x])[1..] == sessions[1..] + [x];
      SessionsOfSnoc(sessions[1..], x, conn);
    }
  }

  lemma {:induction false} SessionsOfWithout(sessions: seq<SessionState>, gone: nat, conn: nat)
    ensures SessionsOf(WithoutConn(sessions, gone), conn) == if gone == conn then 0 else SessionsOf(sessions, conn)
    decreases |sessions|
  {
    if sessions != [] {
      var rest := WithoutConn(sessions[1..], gone);
      SessionsOfWithout(sessions[1..], gone, conn);
      assert ([sessions[0]] + rest)[1..] == rest && [] + rest == rest;
    }
  }

  lemma {:induction false} SessionsOfSetUser(sessions: seq<SessionState>, i: nat, userid: int, conn: nat)
    ensures SessionsOf(SetUser(sessions, i, userid), conn) == SessionsOf(sessions, conn)
    decreases |sessions|
  {
    if 0 < i < |sessions| {
      SessionsOfSetUser(sessions[1..], i - 1, userid, conn);
      assert SetUser(sessions, i, userid)[1..] == SetUser(sessions[1..], i - 1, userid);
    } else if i < |sessions| {
      assert SetUser(sessions, i, userid)[1..] == sessions[1..];
    }
  }

  lemma StepRoster(s: State, a: Action, conn: nat)
    ensures SessionsOf(Apply(s, a).sessions, conn) ==
              if a == Connect(conn) then SessionsOf(s.sessions, conn) + 1
              else if a == Disconnect(conn) then 0
              else SessionsOf(s.sessions, conn)
  {
    match a {
      case Connect(c) => SessionsOfSnoc(s.sessions, SessionState(s.nextId, c, 0), conn);
      case Disconnect(c) => SessionsOfWithout(s.sessions, c, conn);
      case LookUp(_, _) =>
      case Kick(id) =>
        if id in s.logins && s.logins[id].LookedUp? {
          SessionsOfSetUser(s.sessions, IndexOf(s.sessions, s.logins[id].target), 0, conn);
        }
      case Assign(id) =>
        if id in s.logins {
          SessionsOfSetUser(s.sessions, IndexOf(s.sessions, id), s.logins[id].userid, conn);
        }
    }
  }

  /**
   * Over every interleaving the list has exactly the sessions of the connections that are up: one for each time
   * that a connection has come up since it last went down, whatever logins do meanwhile.
   */
  lemma {:induction false} Roster(actions: seq<Action>, conn: nat)
    ensures SessionsOf(Run(EMPTY, actions).sessions, conn) == Online(actions, conn)
    decreases |actions|
  {
    if actions != [] {
      var n := |actions| - 1;
      Roster(actions[..n], conn);
      assert actions == actions[..n] + [actions[n]];
      RunAppend(EMPTY, actions[..n], [actions[n]]);
      var s := Run(EMPTY, actions[..n]);
      assert [actions[n]][1..] == [] && Run(s, [actions[n]]) == Run(Apply(s, actions[n]), []);
      StepRoster(s, actions[n], conn);
    }
  }

  // ---------- One live session per user ----------

  predicate OnePerUser(sessions: seq<SessionState>) {
    forall i, j :: 0 <= i < j < |sessions| && sessions[i].userid == sessions[j].userid ==> sessions[i].userid == 0
  }

  predicate NoTwins(sessions: seq<SessionState>) {
    forall i, j :: 0 <= i < j < |sessions| ==> sessions[i].id != sessions[j].id
  }

  predicate IdsDistinct(s: State) {
    (forall i :: 0 <= i < |s.sessions| ==> s.sessions[i].id < s.nextId) && NoTwins(s.sessions)
  }

  /** Only the sessions of the user and of the caller are touched, and the user ends up with one session. */
  lemma LogInKeeps(sessions: seq<SessionState>, i: nat, userid: int)
    requires OnePerUser(sessions) && i < |sessions|
    ensures OnePerUser(LogIn(sessions, i, userid))
    ensures userid != 0 ==> Find(LogIn(sessions, i, userid), userid) == i
    ensures forall j :: 0 <= j < |sessions| && j != i ==>
              LogIn(sessions, i, userid)[j]
              == if sessions[j].userid == userid && userid != 0 then sessions[j].(userid := 0) else sessions[j]
  {
    var k := Find(sessions, userid);
    var kicked := SetUser(sessions, k, 0);
    var t := LogIn(sessions, i, userid);
    forall j | 0 <= j < |sessions| && j != i
      ensures t[j] == if sessions[j].userid == userid && userid != 0 then sessions[j].(userid := 0) else sessions[j]
    {
      if j != k && sessions[j].userid == userid {
        assert k < j;
      }
      assert t[j] == kicked[j];
    }
    var f := Find(t, userid);
    if userid != 0 {
      assert t[i].userid == userid;
      assert f <= i;
    }
  }

  /** For user 0, that is, an unknown name, the lookup finds the first session without a user instead. */
  lemma LookupOfNobody(sessions: seq<SessionState>, i: nat)
    requires i < |sessions|
    ensures Find(LogIn(sessions, i, 0), 0) == i
       <==> forall j :: 0 <= j < i ==> sessions[j].userid != 0
  {
    var t := LogIn(sessions, i, 0);
    assert forall j :: 0 <= j < |sessions| && j != i ==> t[j] == sessions[j];
    assert t[i].userid == 0;
  }

  lemma {:induction false} WithoutConnPart(sessions: seq<SessionState>, conn: nat)
    ensures forall x :: x in WithoutConn(sessions, conn) <==> x in sessions && x.conn != conn
    decreases |sessions|
  {
    if sessions != [] {
      WithoutConnPart(sessions[1..], conn);
    }
  }

  lemma {:induction false} WithoutConnOnePerUser(sessions: seq<SessionState>, conn: nat)
    requires OnePerUser(sessions)
    ensures OnePerUser(WithoutConn(sessions, conn))
    decreases |sessions|
  {
    if sessions != [] {
      var rest := sessions[1..];
      var kept := WithoutConn(rest, conn);
      assert forall i :: 0 <= i < |rest| ==> rest[i] == sessions[i + 1];
      WithoutConnOnePerUser(rest, conn);
      WithoutConnPart(rest, conn);
      assert forall i :: 0 <= i < |kept| ==> kept[i] in rest;
    }
  }

  lemma {:induction false} WithoutConnNoTwins(sessions: seq<SessionState>, conn: nat)
    requires NoTwins(sessions)
    ensures NoTwins(WithoutConn(sessions, conn))
    decreases |sessions|
  {
    if sessions != [] {
      var rest := sessions[1..];
      var kept := WithoutConn(rest, conn);
      assert forall i :: 0 <= i < |rest| ==> rest[i] == sessions[i + 1];
      WithoutConnNoTwins(rest, conn);
      WithoutConnPart(rest, conn);
      assert forall i :: 0 <= i < |kept| ==> kept[i] in rest;
    }
  }

  // ---------- Interleaved logins: the exact condition ----------

  /** Session `i` is the only listed one that may hold the user. */
  predicate NoOther(sessions: seq<SessionState>, i: nat, userid: int) {
    forall j :: 0 <= j < |sessions| && j != i ==> sessions[j].userid != userid
  }

  /** An assignment is made while no other listed session holds the user. */
  predicate Safe(s: State, a: Action) {
    a.Assign? && a.id in s.logins && s.logins[a.id].Kicked? ==>
      var i, userid := IndexOf(s.sessions, a.id), s.logins[a.id].userid;
      i < |s.sessions| && userid != 0 ==> NoOther(s.sessions, i, userid)
  }

  lemma SetUserExact(sessions: seq<SessionState>, i: nat, userid: int)
    requires OnePerUser(sessions) && i < |sessions|
    ensures OnePerUser(SetUser(sessions, i, userid)) <==> userid == 0 || NoOther(sessions, i, userid)
  {
    var t := SetUser(sessions, i, userid);
    assert forall j :: 0 <= j < |sessions| && j != i ==> t[j] == sessions[j];
    if userid != 0 && !NoOther(sessions, i, userid) {
      var j :| 0 <= j < |sessions| && j != i && sessions[j].userid == userid;
      assert t[j].userid == t[i].userid == userid;
    }
  }

  lemma ConnectKeeps(s: State, conn: nat)
    requires OnePerUser(s.sessions)
    ensures OnePerUser(Apply(s, Connect(conn)).sessions)
  {
  }

  /** A step keeps a user from being on line twice if and only if it is safe. */
  lemma StepExact(s: State, a: Action)
    requires OnePerUser(s.sessions)
    ensures OnePerUser(Apply(s, a).sessions) <==> Safe(s, a)
  {
    match a {
      case Connect(conn) => ConnectKeeps(s, conn);
      case Disconnect(conn) => WithoutConnOnePerUser(s.sessions, conn);
      case LookUp(id, userid) =>
      case Kick(id) =>
        if id in s.logins && s.logins[id].LookedUp? {
          var i := IndexOf(s.sessions, s.logins[id].target);
          if i < |s.sessions| {
            SetUserExact(s.sessions, i, 0);
          }
        }
      case Assign(id) =>
        if id in s.logins && s.logins[id].Kicked? {
          var i := IndexOf(s.sessions, id);
          if i < |s.sessions| {
            SetUserExact(s.sessions, i, s.logins[id].userid);
          }
        }
    }
  }

  /** In every state of the run no user is on line twice. */
  predicate AlwaysOne(s: State, actions: seq<Action>)
    decreases |actions|
  {
    OnePerUser(s.sessions) && (actions != [] ==> AlwaysOne(Apply(s, actions[0]), actions[1..]))
  }

  predicate AllSafe(s: State, actions: seq<Action>)
    decreases |actions|
  {
    actions != [] ==> Safe(s, actions[0]) && AllSafe(Apply(s, actions[0]), actions[1..])
  }

  /** The exact condition over runs with any interleaving of any logins. */
  lemma {:induction false} InterleavedExact(s: State, actions: seq<Action>)
    requires OnePerUser(s.sessions)
    ensures AlwaysOne(s, actions) <==> AllSafe(s, actions)
    decreases |actions|
  {
    if actions != [] {
      StepExact(s, actions[0]);
      if Safe(s, actions[0]) {
        InterleavedExact(Apply(s, actions[0]), actions[1..]);
      }
    }
  }

  // ---------- Logins of one user that do not overlap ----------

  /** No login begins while another one of the same user is under way. */
  predicate Separate(s: State, a: Action) {
    a.LookUp? && a.userid != 0 && a.id !in s.logins ==> forall id :: id in s.logins ==> s.logins[id].userid != a.userid
  }

  predicate AllSeparate(s: State, actions: seq<Action>)
    decreases |actions|
  {
    actions != [] ==> Separate(s, actions[0]) && AllSeparate(Apply(s, actions[0]), actions[1..])
  }

  /** Besides the session that logs in, only the one looked up can hold the user, and only until it is kicked. */
  predicate Guarded(s: State, id: nat, l: Login) {
    l.userid != 0 ==>
      forall i :: 0 <= i < |s.sessions| && s.sessions[i].id != id && s.sessions[i].userid == l.userid ==>
        l.LookedUp? && l.found && s.sessions[i].id == l.target
  }

  predicate Inv(s: State) {
    && OnePerUser(s.sessions) && IdsDistinct(s)
    && (forall id :: id in s.logins ==> Guarded(s, id, s.logins[id]))
    && (forall id, other :: id in s.logins && other in s.logins && id != other && s.logins[id].userid != 0 ==>
          s.logins[id].userid != s.logins[other].userid)
  }

  lemma IndexOfPosition(sessions: seq<SessionState>, i: nat)
    requires NoTwins(sessions) && i < |sessions|
    ensures IndexOf(sessions, sessions[i].id) == i
  {
    var k := IndexOf(sessions, sessions[i].id);
    assert k < |sessions| && sessions[k].id == sessions[i].id;
  }

  lemma InvIsSafe(s: State, a: Action)
    requires Inv(s)
    ensures Safe(s, a)
  {
    if a.Assign? && a.id in s.logins && s.logins[a.id].Kicked? {
      var i := IndexOf(s.sessions, a.id);
      assert Guarded(s, a.id, s.logins[a.id]);
      if i < |s.sessions| && s.logins[a.id].userid != 0 {
        assert forall j :: 0 <= j < |s.sessions| && j != i ==> s.sessions[j].id != a.id;
      }
    }
  }

  lemma LookUpKeeps(s: State, id: nat, userid: int)
    requires Inv(s) && Separate(s, LookUp(id, userid)) && id !in s.logins
    ensures Inv(Apply(s, LookUp(id, userid)))
  {
    var t := Apply(s, LookUp(id, userid));
    assert forall other :: other in s.logins ==>
             Guarded(s, other, s.logins[other]) && t.logins[other] == s.logins[other];
    var k := Find(s.sessions, userid);
    if userid != 0 {
      assert forall i :: 0 <= i < |s.sessions| && s.sessions[i].userid == userid ==> i == k;
    }
    assert Guarded(t, id, t.logins[id]);
    assert forall other :: other in s.logins ==> Guarded(t, other, t.logins[other]);
  }

  /** Setting a user to 0 leaves fewer sessions to guard against. */
  lemma ClearedGuards(s: State, k: nat, id: nat, l: Login)
    requires Guarded(s, id, l)
    ensures Guarded(s.(sessions := SetUser(s.sessions, k, 0)), id, l)
  {
  }

  lemma KickKeeps(s: State, id: nat)
    requires Inv(s) && id in s.logins && s.logins[id].LookedUp?
    ensures Inv(Apply(s, Kick(id)))
  {
    var l, t := s.logins[id], Apply(s, Kick(id));
    var k := if l.found then IndexOf(s.sessions, l.target) else |s.sessions|;
    StepExact(s, Kick(id));
    assert t.sessions == SetUser(s.sessions, k, 0);
    forall other | other in t.logins
      ensures Guarded(t, other, t.logins[other])
    {
      assert Guarded(s, other, s.logins[other]);
      ClearedGuards(s, k, other, s.logins[other]);
      if other == id {
        assert forall i :: 0 <= i < |t.sessions| ==> t.sessions[i].id == s.sessions[i].id;
      }
    }
  }

  lemma AssignKeeps(s: State, id: nat)
    requires Inv(s) && id in s.logins && s.logins[id].Kicked?
    ensures Inv(Apply(s, Assign(id)))
  {
    var t := Apply(s, Assign(id));
    InvIsSafe(s, Assign(id));
    StepExact(s, Assign(id));
    forall other | other in t.logins
      ensures Guarded(t, other, t.logins[other])
    {
      assert Guarded(s, other, s.logins[other]);
      assert forall i :: 0 <= i < |t.sessions| ==> t.sessions[i].id == s.sessions[i].id;
    }
  }

  lemma DisconnectKeeps(s: State, conn: nat)
    requires Inv(s)
    ensures Inv(Apply(s, Disconnect(conn)))
  {
    var t := Apply(s, Disconnect(conn));
    WithoutConnPart(s.sessions, conn);
    WithoutConnOnePerUser(s.sessions, conn);
    WithoutConnNoTwins(s.sessions, conn);
    assert forall i :: 0 <= i < |t.sessions| ==> t.sessions[i] in s.sessions;
    forall id | id in t.logins
      ensures Guarded(t, id, t.logins[id])
    {
      assert Guarded(s, id, s.logins[id]);
    }
  }

  lemma ConnectKeepsInv(s: State, conn: nat)
    requires Inv(s)
    ensures Inv(Apply(s, Connect(conn)))
  {
    var t := Apply(s, Connect(conn));
    ConnectKeeps(s, conn);
    forall id | id in t.logins
      ensures Guarded(t, id, t.logins[id])
    {
      assert Guarded(s, id, s.logins[id]);
    }
  }

  lemma StepKeepsInv(s: State, a: Action)
    requires Inv(s) && Separate(s, a)
    ensures Inv(Apply(s, a))
  {
    match a {
      case Connect(conn) => ConnectKeepsInv(s, conn);
      case Disconnect(conn) => DisconnectKeeps(s, conn);
      case LookUp(id, userid) =>
        if id !in s.logins {
          LookUpKeeps(s, id, userid);
        }
      case Kick(id) =>
        if id in s.logins && s.logins[id].LookedUp? {
          KickKeeps(s, id);
        }
      case Assign(id) =>
        if id in s.logins && s.logins[id].Kicked? {
          AssignKeeps(s, id);
        }
    }
  }

  lemma {:induction false} SeparateIsSafe(s: State, actions: seq<Action>)
    requires Inv(s) && AllSeparate(s, actions)
    ensures AllSafe(s, actions) && Inv(Run(s, actions))
    decreases |actions|
  {
    if actions != [] {
      InvIsSafe(s, actions[0]);
      StepKeepsInv(s, actions[0]);
      SeparateIsSafe(Apply(s, actions[0]), actions[1..]);
    }
  }

  /**
   * Over every interleaving in which no two logins of one user overlap, no two listed sessions ever have the
   * same user, and after an assignment the lookup of the user returns the session that logged in.
   */
  lemma OneLiveSession(actions: seq<Action>, id: nat)
    requires AllSeparate(EMPTY, actions)
    ensures AlwaysOne(EMPTY, actions)
    ensures var s := Run(EMPTY, actions);
            var t := Apply(s, Assign(id));
            OnePerUser(t.sessions)
            && (id in s.logins && s.logins[id].Kicked? && s.logins[id].userid != 0
                && IndexOf(s.sessions, id) < |s.sessions| ==>
                  var i := Find(t.sessions, s.logins[id].userid);
                  i == IndexOf(s.sessions, id) && t.sessions[i].id == id)
  {
    SeparateIsSafe(EMPTY, actions);
    InterleavedExact(EMPTY, actions);
    var s := Run(EMPTY, actions);
    var i := IndexOf(s.sessions, id);
    InvIsSafe(s, Assign(id));
    StepExact(s, Assign(id));
    if id in s.logins && s.logins[id].Kicked? && i < |s.sessions| {
      AssignedIsFound(s.sessions, i, s.logins[id].userid);
    }
  }

  lemma AssignedIsFound(sessions: seq<SessionState>, i: nat, userid: int)
    requires i < |sessions|
    ensures NoOther(sessions, i, userid) ==> Find(SetUser(sessions, i, userid), userid) == i
  {
    var t := SetUser(sessions, i, userid);
    assert t[i].userid == userid;
    assert forall j :: 0 <= j < |sessions| && j != i ==> t[j] == sessions[j];
  }

  // ---------- Logins one after the other ----------

  function LoginSteps(id: nat, userid: int): seq<Action> {
    [LookUp(id, userid), Kick(id), Assign(id)]
  }

  lemma RunThree(s: State, a: Action, b: Action, c: Action)
    ensures Run(s, [a, b, c]) == Apply(Apply(Apply(s, a), b), c)
  {
    var t := Apply(Apply(s, a), b);
    assert [a, b, c][1..] == [b, c] && [b, c][1..] == [c] && [c][1..] == [];
    assert Run(t, [c]) == Run(Apply(t, c), []);
    assert Run(Apply(s, a), [b, c]) == Run(t, [c]);
  }

  /** Without other steps in between, a login is the lookup, the kick and the assignment in one. */
  lemma LoginAtOnce(s: State, id: nat, userid: int)
    requires NoTwins(s.sessions) && id !in s.logins
    ensures Run(s, LoginSteps(id, userid)) == s.(sessions := LogIn(s.sessions, IndexOf(s.sessions, id), userid))
  {
    RunThree(s, LookUp(id, userid), Kick(id), Assign(id));
    var k := Find(s.sessions, userid);
    if k < |s.sessions| {
      IndexOfPosition(s.sessions, k);
    }
    SameIds(s.sessions, k, id);
    var t := Run(s, LoginSteps(id, userid));
    assert t.logins == s.logins;
  }

  lemma {:induction false} SameIds(sessions: seq<SessionState>, k: nat, id: nat)
    ensures IndexOf(SetUser(sessions, k, 0), id) == IndexOf(sessions, id)
    decreases |sessions|
  {
    var t := SetUser(sessions, k, 0);
    if sessions != [] {
      if k > 0 {
        SameIds(sessions[1..], k - 1, id);
        assert t[1..] == SetUser(sessions[1..], k - 1, 0);
      } else {
        assert t[1..] == sessions[1..];
      }
    }
  }

  /** What happens when every login is finished before anything else happens. */
  datatype Event = Joins(conn: nat) | Leaves(conn: nat) | LogsIn(id: nat, userid: int)

  function Steps(events: seq<Event>): seq<Action> {
    if events == [] then []
    else
      (match events[0]
       case Joins(conn) => [Connect(conn)]
       case Leaves(conn) => [Disconnect(conn)]
       case LogsIn(id, userid) => LoginSteps(id, userid)) + Steps(events[1..])
  }

  lemma SeparateThree(s: State, id: nat, userid: int, later: seq<Action>)
    requires s.logins == map[]
    requires var t := Run(s, LoginSteps(id, userid)); t.logins == map[] ==> AllSeparate(t, later)
    ensures AllSeparate(s, LoginSteps(id, userid) + later)
  {
    var all := LoginSteps(id, userid) + later;
    RunThree(s, LookUp(id, userid), Kick(id), Assign(id));
    var s1 := Apply(s, LookUp(id, userid));
    var s2 := Apply(s1, Kick(id));
    var s3 := Apply(s2, Assign(id));
    assert s1.logins.Keys == {id} && s2.logins.Keys == {id};
    assert s3.logins == map[];
    assert all[1..][1..][1..] == later;
    assert AllSeparate(s2, all[1..][1..]);
    assert AllSeparate(s1, all[1..]);
  }

  lemma {:induction false} OneByOneIsSeparate(s: State, events: seq<Event>)
    requires s.logins == map[]
    ensures AllSeparate(s, Steps(events))
    decreases |events|
  {
    if events != [] {
      var later := Steps(events[1..]);
      match events[0] {
        case Joins(conn) =>
          assert ([Connect(conn)] + later)[1..] == later;
          OneByOneIsSeparate(Apply(s, Connect(conn)), events[1..]);
        case Leaves(conn) =>
          assert ([Disconnect(conn)] + later)[1..] == later;
          OneByOneIsSeparate(Apply(s, Disconnect(conn)), events[1..]);
        case LogsIn(id, userid) =>
          var t := Run(s, LoginSteps(id, userid));
          if t.logins == map[] {
            OneByOneIsSeparate(t, events[1..]);
          }
          SeparateThree(s, id, userid, later);
      }
    }
  }

  // ---------- Two logins that overlap ----------

  /** When both threads look the user up before either assigns, nobody is kicked and both sessions get the user. */
  lemma InterleavedLoginsCollide(userid: int)
    requires userid != 0
    ensures var actions := [Connect(1), Connect(2)] + [LookUp(1, userid), LookUp(2, userid), Kick(1)]
                           + [Kick(2), Assign(1), Assign(2)];
            var s := Run(EMPTY, actions);
            && s.sessions == [SessionState(1, 1, userid), SessionState(2, 2, userid)]
            && !OnePerUser(s.sessions) && !AllSafe(EMPTY, actions) && !AllSeparate(EMPTY, actions)
  {
    var joined, found, rest := [Connect(1), Connect(2)], [LookUp(1, userid), LookUp(2, userid), Kick(1)],
                               [Kick(2), Assign(1), Assign(2)];
    TwoJoin();
    BothLookUp(userid);
    BothAssign(userid);
    RunAppend(EMPTY, joined, found);
    RunAppend(EMPTY, joined + found, rest);
    var actions := joined + found + rest;
    var s := Run(EMPTY, actions);
    assert s.sessions[0].userid == s.sessions[1].userid == userid;
    if AllSafe(EMPTY, actions) {
      InterleavedExact(EMPTY, actions);
      AlwaysAtEnd(EMPTY, actions);
    }
    if AllSeparate(EMPTY, actions) {
      SeparateIsSafe(EMPTY, actions);
    }
  }

  const TWO := [SessionState(1, 1, 0), SessionState(2, 2, 0)]

  lemma TwoJoin()
    ensures Run(EMPTY, [Connect(1), Connect(2)]) == State(TWO, 3, map[])
  {
    var s := Apply(EMPTY, Connect(1));
    assert [Connect(1), Connect(2)][1..] == [Connect(2)] && [Connect(2)][1..] == [];
    assert Run(s, [Connect(2)]) == Run(Apply(s, Connect(2)), []);
    assert Apply(s, Connect(2)).sessions == TWO;
  }

  lemma NobodyFound(userid: int)
    requires userid != 0
    ensures Find(TWO, userid) == 2
  {
    var i := Find(TWO, userid);
    assert TWO[0].userid == TWO[1].userid == 0;
  }

  lemma BothLookUp(userid: int)
    requires userid != 0
    ensures Run(State(TWO, 3, map[]), [LookUp(1, userid), LookUp(2, userid), Kick(1)])
         == State(TWO, 3, map[1 := Kicked(userid), 2 := LookedUp(userid, false, 0)])
  {
    NobodyFound(userid);
    RunThree(State(TWO, 3, map[]), LookUp(1, userid), LookUp(2, userid), Kick(1));
  }

  lemma BothAssign(userid: int)
    ensures Run(State(TWO, 3, map[1 := Kicked(userid), 2 := LookedUp(userid, false, 0)]),
                [Kick(2), Assign(1), Assign(2)])
         == State([SessionState(1, 1, userid), SessionState(2, 2, userid)], 3, map[])
  {
    var s := State(TWO, 3, map[1 := Kicked(userid), 2 := LookedUp(userid, false, 0)]);
    RunThree(s, Kick(2), Assign(1), Assign(2));
    var s2 := Apply(Apply(s, Kick(2)), Assign(1));
    IndexOfPosition(TWO, 0);
    assert s2.sessions == [SessionState(1, 1, userid), SessionState(2, 2, 0)];
    IndexOfPosition(s2.sessions, 1);
  }

  lemma {:induction false} RunAppend(s: State, first: seq<Action>, second: seq<Action>)
    ensures Run(s, first + second) == Run(Run(s, first), second)
    decreases |first|
  {
    if first == [] {
      assert [] + second == second;
    } else {
      assert (first + second)[1..] == first[1..] + second;
      RunAppend(Apply(s, first[0]), first[1..], second);
    }
  }

  lemma {:induction false} AlwaysAtEnd(s: State, actions: seq<Action>)
    requires AlwaysOne(s, actions)
    ensures OnePerUser(Run(s, actions).sessions)
    decreases |actions|
  {
    if actions != [] {
      AlwaysAtEnd(Apply(s, actions[0]), actions[1..]);
    }
  }

  // ---------- The classes ----------

  class Session {
    const id: nat
    const conn: nat
    var userid: int
    var isLogin: bool

    constructor (id: nat, conn: nat)
      ensures View() == SessionState(id, conn, 0) && !isLogin
    {
      this.id, this.conn := id, conn;
      userid, isLogin := 0, false;
    }

    ghost function View(): SessionState
      reads this
    {
      SessionState(id, conn, userid)
    }
  }

  class ChatServer {
    var sessions: seq<Session>
    var sessionId: nat
    ghost var logins: map<nat, Login>

    ghost predicate Valid()
      reads this
    {
      && (forall i :: 0 <= i < |sessions| ==> sessions[i].id <= sessionId)
      && (forall i, j :: 0 <= i < j < |sessions| ==> sessions[i].id != sessions[j].id)
    }

    ghost function Objects(): set<Session>
      reads this
    {
      set i | 0 <= i < |sessions| :: sessions[i]
    }

    ghost function Listed(): (v: seq<SessionState>)
      reads this, Objects()
      ensures |v| == |sessions| && forall i :: 0 <= i < |v| ==> v[i] == sessions[i].View()
    {
      seq(|sessions|, i requires 0 <= i < |sessions| reads this, Objects() => sessions[i].View())
    }

    ghost function View(): State
      reads this, Objects()
    {
      State(Listed(), sessionId + 1, logins)
    }

    constructor ()
      ensures Valid() && View() == EMPTY
    {
      sessions, sessionId, logins := [], 0, map[];
    }

    method OnConnected(conn: nat) returns (session: Session)
      requires Valid()
      modifies this
      ensures Valid() && fresh(session) && View() == Apply(old(View()), Connect(conn))
    {
      ghost var before := Listed();
      sessionId := sessionId + 1;
      session := new Session(sessionId, conn);
      sessions := sessions + [session];
      assert Listed() == before + [SessionState(sessionId, conn, 0)];
    }

    method Erase(i: nat)
      requires Valid() && i < |sessions|
      modifies `sessions
      ensures Valid() && Listed() == old(Listed())[..i] + old(Listed())[i + 1..]
    {
      ghost var before := Listed();
      sessions := sessions[..i] + sessions[i + 1..];
      assert Listed() == before[..i] + before[i + 1..];
    }

    /** One turn of the erasing loop: `done` stays, and `todo` comes next. */
    method Visit(i: nat, conn: nat, ghost done: seq<SessionState>, ghost todo: seq<SessionState>)
      returns (erased: bool, ghost visited: seq<SessionState>)
      requires Valid() && i == |done| < |sessions| && Listed() == done + todo
      modifies `sessions
      ensures Valid() && visited == (if todo[0].conn == conn then done else done + [todo[0]])
      ensures Listed() == visited + todo[1..] && |visited| == if erased then i else i + 1
    {
      FirstOf(Listed(), done, todo);
      assert sessions[i].View() == todo[0];
      erased := sessions[i].conn == conn;
      visited := if erased then done else done + [todo[0]];
      if erased {
        Erase(i);
      }
    }

    method EraseAll(conn: nat)
      requires Valid()
      modifies `sessions
      ensures Valid() && Listed() == WithoutConn(old(Listed()), conn)
    {
      ghost var done, todo := [], Listed();
      ghost var whole := WithoutConn(todo, conn);
      assert [] + todo == todo && [] + whole == whole;
      var i := 0;
      while i < |sessions|
        invariant 0 <= i <= |sessions| && Valid()
        invariant Listed() == done + todo && |done| == i
        invariant done + WithoutConn(todo, conn) == whole
        decreases |sessions| - i
      {
        WithoutStep(done, todo, conn);
        var erased;
        erased, done := Visit(i, conn, done, todo);
        todo := todo[1..];
        i := if erased then i else i + 1;
      }
      AllVisited(done, todo, conn);
    }

    /** Every session of the connection leaves the list. */
    method OnDisconnected(conn: nat)
      requires Valid()
      modifies `sessions
      ensures Valid() && View() == Apply(old(View()), Disconnect(conn))
    {
      EraseAll(conn);
    }

    method GetSessionByUserId(userid: int) returns (i: nat)
      ensures i == Find(Listed(), userid)
    {
      i := 0;
      while i < |sessions|
        invariant 0 <= i <= |sessions|
        invariant Find(Listed(), userid) == i + Find(Listed()[i..], userid)
      {
        assert Listed()[i..][1..] == Listed()[i + 1..];
        if sessions[i].userid == userid {
          return;
        }
        i := i + 1;
      }
    }

    /** A listed session is the only one with its number; one that has left the list has none there. */
    ghost predicate Identified(session: Session)
      reads this
    {
      forall i :: 0 <= i < |sessions| && sessions[i].id == session.id ==> sessions[i] == session
    }

    /** m_userinfo.userid of a session is set, whether it is still listed or not. */
    method SetUserOf(session: Session, userid: int)
      requires Valid() && Identified(session)
      modifies session`userid
      ensures Valid() && Listed() == SetUser(old(Listed()), IndexOf(old(Listed()), session.id), userid)
    {
      ghost var before := Listed();
      ghost var i := IndexOf(before, session.id);
      session.userid := userid;
      assert forall j :: 0 <= j < |sessions| && j != i ==> sessions[j] != session;
      assert Listed() == SetUser(before, i, userid);
    }

    /** The lookup, under the lock of the list. Without a session found, `target` is the caller. */
    method LookUpUser(me: Session, userid: int) returns (found: bool, target: Session)
      requires Valid() && me.id !in logins
      modifies `logins
      ensures Valid() && View() == Apply(old(View()), LookUp(me.id, userid))
      ensures logins[me.id] == LookedUp(userid, found, if found then target.id else 0)
      ensures if found then target in sessions else target == me
    {
      var i := GetSessionByUserId(userid);
      assert i < |sessions| ==> Listed()[i].id == sessions[i].id;
      found, target := i < |sessions|, me;
      if found {
        target := sessions[i];
      }
      logins := logins[me.id := LookedUp(userid, found, if found then target.id else 0)];
    }

    method KickTarget(me: Session, found: bool, target: Session)
      requires Valid() && Identified(target)
      requires me.id in logins && logins[me.id].LookedUp?
      requires logins[me.id].found == found && (found ==> logins[me.id].target == target.id)
      modifies `logins, target`userid
      ensures Valid() && View() == Apply(old(View()), Kick(me.id))
    {
      if found {
        SetUserOf(target, 0); // makeSessionInvalid
      }
      logins := logins[me.id := Kicked(logins[me.id].userid)];
    }

    method AssignUser(me: Session, userid: int)
      requires Valid() && Identified(me)
      requires me.id in logins && logins[me.id] == Kicked(userid)
      modifies `logins, me`userid
      ensures Valid() && View() == Apply(old(View()), Assign(me.id))
    {
      SetUserOf(me, userid);
      logins := logins - {me.id};
    }

    /** Whatever the password, the session counts as logged in afterwards. */
    method SetLoggedIn(session: Session)
      modifies session`isLogin
      ensures session.isLogin && Listed() == old(Listed())
    {
      ghost var before := Listed();
      session.isLogin := true;
      assert Listed() == before;
    }

    /** The login of a session, in its thread, when no other thread takes a step in between. */
    method OnLogin(me: Session, userid: int, passwordOk: bool)
      requires Valid() && Identified(me) && me.id !in logins
      modifies `logins, me, Objects()
      ensures Valid() && View() == if passwordOk then Run(old(View()), LoginSteps(me.id, userid)) else old(View())
      ensures me.isLogin
    {
      RunThree(View(), LookUp(me.id, userid), Kick(me.id), Assign(me.id));
      if passwordOk {
        var found, target := LookUpUser(me, userid);
        KickTarget(me, found, target);
        AssignUser(me, userid);
      }
      SetLoggedIn(me);
    }
  }

  lemma AllVisited(done: seq<SessionState>, todo: seq<SessionState>, conn: nat)
    requires |done| == |done + todo|
    ensures done + todo == done + WithoutConn(todo, conn)
  {
  }

  lemma FirstOf(all: seq<SessionState>, done: seq<SessionState>, todo: seq<SessionState>)
    requires all == done + todo && todo != []
    ensures all[|done|] == todo[0] && all == (done + [todo[0]]) + todo[1..]
    ensures all[..|done|] + all[|done| + 1..] == done + todo[1..]
  {
  }

  lemma WithoutStep(done: seq<SessionState>, todo: seq<SessionState>, conn: nat)
    requires todo != []
    ensures done + WithoutConn(todo, conn)
         == (if todo[0].conn == conn then done else done + [todo[0]]) + WithoutConn(todo[1..], conn)
  {
  }
}
