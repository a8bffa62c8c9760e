/** The connection table and the teardown handshake between two loops: net/TcpServer.cpp. */
module TcpServer {
  import opened Connection
  import Decimal

  // ---------- Connection names ----------

  /** snprintf into 32 chars. */
  const NAME_ROOM := 31

  /** The part of a connection's name that tells it from others; the server's own name goes in front. */
  function Name(hostport: string, id: nat): string {
    var full := ":" + hostport + "#" + Decimal.Digits(id);
    if |full| <= NAME_ROOM then full else full[..NAME_ROOM]
  }

  predicate Fits(hostport: string, id: nat) {
    |hostport| + 2 + |Decimal.Digits(id)| <= NAME_ROOM
  }

  lemma NamesDistinct(hostport: string, a: nat, b: nat)
    requires Fits(hostport, a) && Fits(hostport, b) && Name(hostport, a) == Name(hostport, b)
    ensures a == b
  {
    var prefix := ":" + hostport + "#";
    assert (prefix + Decimal.Digits(a))[|prefix|..] == Decimal.Digits(a);
    assert (prefix + Decimal.Digits(b))[|prefix|..] == Decimal.Digits(b);
    Decimal.DigitsInjective(a, b);
  }

  /** A name is new among those of all earlier ids exactly when its number was not cut off. */
  lemma NameIsNew(hostport: string, id: nat)
    requires |hostport| + 3 <= NAME_ROOM && id >= 1
    ensures (forall m :: 1 <= m < id ==> Name(hostport, m) != Name(hostport, id)) <==> Fits(hostport, id)
  {
    if Fits(hostport, id) {
      forall m | 1 <= m < id
        ensures Name(hostport, m) != Name(hostport, id)
      {
        FitsDownward(hostport, m, id);
        if Name(hostport, m) == Name(hostport, id) {
          NamesDistinct(hostport, m, id);
        }
      }
    } else {
      var prefix := ":" + hostport + "#";
      var room := NAME_ROOM - |prefix|;
      var m := Decimal.CutDigits(id, room);
      var full := prefix + Decimal.Digits(id);
      assert full[..NAME_ROOM] == prefix + Decimal.Digits(id)[..room];
      assert Name(hostport, m) == Name(hostport, id);
    }
  }

  lemma FitsDownward(hostport: string, m: nat, id: nat)
    requires m <= id && Fits(hostport, id)
    ensures Fits(hostport, m)
  {
    var k := |Decimal.Digits(id)|;
    Decimal.DigitCount(id, k);
    Decimal.DigitCount(m, k);
  }

  /** The longest host and port, as in 255.255.255.255:65535, leave room for eight digits. */
  lemma EightDigitsFit(hostport: string, id: nat)
    requires |hostport| <= 21 && id < 100_000_000
    ensures Fits(hostport, id)
  {
    Decimal.DigitCount(id, 8);
    assert Decimal.Pow10(8) == 100_000_000;
  }

  // ---------- The two-loop protocol ----------

  /** Tasks by connection; connection `k` has id `k + 1`. */
  datatype Task = Establish(k: nat) | Remove(k: nat) | Destroy(k: nat)

  datatype Peer = Peer(conn: Conn, loop: nat)

  /** `queues[0]` belongs to the base loop, on which the table lives. */
  datatype State = State(hostport: string, table: map<string, nat>, peers: seq<Peer>, queues: seq<seq<Task>>)

  function Start(hostport: string, loops: nat): State
    requires loops >= 1
  {
    State(hostport, map[], [], seq(loops, _ => []))
  }

  /** `Connect` runs in the base loop; `Touch` is any handler or call on a connection, in its loop. */
  datatype Step =
    | Connect(loop: nat, options: Options, enabled: bool)
    | RunTask(loop: nat, enabled: bool)
    | Touch(k: nat, a: Action)

  function KeyOf(s: State, k: nat): string {
    Name(s.hostport, k + 1)
  }

  function Enqueue(s: State, loop: nat, t: Task): State
    requires loop < |s.queues|
  {
    s.(queues := s.queues[loop := s.queues[loop] + [t]])
  }

  /** A later connection of the same name takes an entry over. */
  function Added(s: State, loop: nat, options: Options): State {
    s.(peers := s.peers + [Peer(New(options), loop)], table := s.table[KeyOf(s, |s.peers|) := |s.peers|])
  }

  /** removeConnectionInLoop: only the call that finds the entry schedules connectDestroyed. */
  function RemoveInLoop(s: State, k: nat): State
    requires k < |s.peers| && s.peers[k].loop < |s.queues|
  {
    var key := KeyOf(s, k);
    if key !in s.table then s
    else Enqueue(s.(table := s.table - {key}), s.peers[k].loop, Destroy(k))
  }

  /** A step of the connection, and removeConnection if it called the close callback. */
  function Act(s: State, k: nat, a: Action): State
    requires |s.queues| >= 1 && k < |s.peers| && s.peers[k].loop < |s.queues|
  {
    var p := s.peers[k];
    var after := s.(peers := s.peers[k := p.(conn := Apply(p.conn, a))]);
    if after.peers[k].conn.closes == p.conn.closes then after
    else if p.loop == 0 then RemoveInLoop(after, k)
    else Enqueue(after, 0, Remove(k))
  }

  predicate Shaped(s: State) {
    && |s.queues| >= 1
    && (forall k :: 0 <= k < |s.peers| ==> s.peers[k].loop < |s.queues|)
    && (forall l, i :: 0 <= l < |s.queues| && 0 <= i < |s.queues[l]| ==> s.queues[l][i].k < |s.peers|)
  }

  function Next(s: State, step: Step): State
    requires Shaped(s)
  {
    match step
    case Connect(loop, options, enabled) =>
      if loop >= |s.queues| then s
      else
        var k := |s.peers|;
        var added := Added(s, loop, options);
        if loop == 0 then Act(added, k, ConnectEstablished(enabled)) else Enqueue(added, loop, Establish(k))
    case RunTask(loop, enabled) =>
      if loop >= |s.queues| || s.queues[loop] == [] then s
      else
        var t := s.queues[loop][0];
        var popped := s.(queues := s.queues[loop := s.queues[loop][1..]]);
        (match t
         case Establish(k) => Act(popped, k, ConnectEstablished(enabled))
         case Remove(k) => RemoveInLoop(popped, k)
         case Destroy(k) => Act(popped, k, ConnectDestroyed))
    case Touch(k, a) =>
      if k >= |s.peers| || a.ConnectEstablished? || a.ConnectDestroyed? then s else Act(s, k, a)
  }

  // ---------- The invariant ----------

  function Count(s: State, loop: nat, t: Task): nat {
    if loop < |s.queues| then multiset(s.queues[loop])[t] else 0
  }

  function InTable(s: State, k: nat): nat {
    if KeyOf(s, k) in s.table then 1 else 0
  }

  /** Tasks are queued on the loop they belong to. */
  predicate WellPlaced(s: State)
    requires Shaped(s)
  {
    forall l, i :: 0 <= l < |s.queues| && 0 <= i < |s.queues[l]| ==>
      l == if s.queues[l][i].Remove? then 0 else s.peers[s.queues[l][i].k].loop
  }

  predicate TableSound(s: State) {
    forall key :: key in s.table ==> s.table[key] < |s.peers| && KeyOf(s, s.table[key]) == key
  }

  /** Times that connectDestroyed has run. */
  function Destroyed(c: Conn): nat {
    c.removals + c.vainRemovals
  }

  /**
   * A connection is in the table, or has one connectDestroyed under way, or has had it. Its entry goes, or
   * its removal is queued, with the one close callback; `owed` are the callbacks still being answered.
   */
  predicate HandshakeAt(s: State, k: nat, owed: set<nat>)
    requires k < |s.peers|
  {
    var c := s.peers[k].conn;
    && InTable(s, k) + Count(s, s.peers[k].loop, Destroy(k)) + Destroyed(c) == 1
    && 1 - InTable(s, k) + Count(s, 0, Remove(k)) + (if k in owed then 1 else 0) == c.closes
    && c.vainRemovals == 0
    && (c.phase.Disconnected? ==> c.closes == 1)
    && Connection.Inv(c)
  }

  predicate Handshake(s: State, owed: set<nat>) {
    forall j :: 0 <= j < |s.peers| ==> HandshakeAt(s, j, owed)
  }

  predicate Sound(s: State) {
    Shaped(s) && WellPlaced(s) && TableSound(s) && (s.peers != [] ==> Fits(s.hostport, |s.peers|))
  }

  predicate Inv(s: State) {
    Sound(s) && Handshake(s, {})
  }

  lemma KeysDistinct(s: State, j: nat, k: nat)
    requires Sound(s) && j < |s.peers| && k < |s.peers| && KeyOf(s, j) == KeyOf(s, k)
    ensures j == k
  {
    FitsDownward(s.hostport, j + 1, |s.peers|);
    FitsDownward(s.hostport, k + 1, |s.peers|);
    NamesDistinct(s.hostport, j + 1, k + 1);
  }

  lemma EnqueueSound(s: State, loop: nat, t: Task)
    requires Sound(s) && loop < |s.queues| && t.k < |s.peers|
    requires loop == if t.Remove? then 0 else s.peers[t.k].loop
    ensures Sound(Enqueue(s, loop, t))
    ensures forall l: nat, u ::
              Count(Enqueue(s, loop, t), l, u) == Count(s, l, u) + if l == loop && u == t then 1 else 0
  {
  }

  lemma PopSound(s: State, loop: nat)
    requires Sound(s) && loop < |s.queues| && s.queues[loop] != []
    ensures var popped := s.(queues := s.queues[loop := s.queues[loop][1..]]);
            && Sound(popped)
            && forall l: nat, u ::
                 Count(s, l, u) == Count(popped, l, u) + if l == loop && u == s.queues[loop][0] then 1 else 0
  {
    var q := s.queues[loop];
    assert q == [q[0]] + q[1..];
  }

  lemma EraseKeeps(s: State, k: nat)
    requires Sound(s) && k < |s.peers|
    ensures var erased := s.(table := s.table - {KeyOf(s, k)});
            && Sound(erased)
            && forall j :: 0 <= j < |s.peers| ==> InTable(erased, j) == if j == k then 0 else InTable(s, j)
  {
    var erased := s.(table := s.table - {KeyOf(s, k)});
    forall j | 0 <= j < |s.peers|
      ensures InTable(erased, j) == if j == k then 0 else InTable(s, j)
    {
      if KeyOf(s, j) == KeyOf(s, k) {
        KeysDistinct(s, j, k);
      }
    }
  }

  lemma RemoveKeeps(s: State, k: nat)
    requires Sound(s) && k < |s.peers| && Handshake(s, {k})
    ensures Inv(RemoveInLoop(s, k))
  {
    var loop := s.peers[k].loop;
    assert HandshakeAt(s, k, {k});
    var erased := s.(table := s.table - {KeyOf(s, k)});
    EraseKeeps(s, k);
    EnqueueSound(erased, loop, Destroy(k));
    var t := Enqueue(erased, loop, Destroy(k));
    assert t == RemoveInLoop(s, k);
    forall j | 0 <= j < |t.peers|
      ensures HandshakeAt(t, j, {})
    {
      assert HandshakeAt(s, j, {k});
      assert InTable(t, j) == InTable(erased, j);
      assert Count(erased, 0, Remove(j)) == Count(s, 0, Remove(j));
      assert Count(erased, s.peers[j].loop, Destroy(j)) == Count(s, s.peers[j].loop, Destroy(j));
    }
  }

  /** The last task finds a closed connection without interest. */
  lemma DestroyCounts(c: Conn)
    requires Connection.Inv(c) && c.closes == 1
    ensures var d := Connection.Destroy(c);
            d.closes == 1 && d.removals == c.removals + 1 && d.vainRemovals == c.vainRemovals
  {
  }

  lemma ClosesOnce(c: Conn)
    requires Connection.Inv(c)
    ensures c.closes <= 1
  {
  }

  lemma ApplyCounts(c: Conn, a: Action)
    requires Connection.Inv(c)
    ensures var d := Apply(c, a);
            && Connection.Inv(d) && c.closes <= d.closes <= 1
            && (a.ConnectDestroyed? || (d.removals == c.removals && d.vainRemovals == c.vainRemovals))
            && (a.ConnectDestroyed? && c.closes == 1 ==>
                  d.closes == 1 && d.removals == c.removals + 1 && d.vainRemovals == c.vainRemovals)
            && ((c.phase.Disconnected? ==> c.closes == 1) && (a.ConnectDestroyed? ==> c.closes == 1) ==>
                  (d.phase.Disconnected? ==> d.closes == 1))
  {
    PhaseExact(c, a);
    assert Connection.Inv(Apply(c, a)) by {
      StepKeepsInv(c, a);
    }
    ClosesOnce(Apply(c, a));
    assert c.closes <= Apply(c, a).closes by {
      StepAdvances(c, a);
    }
    if !a.ConnectDestroyed? {
      OnlyRemovals(c, a);
    } else if c.closes == 1 {
      DestroyCounts(c);
    }
  }

  /** A step of one connection, as far as the table and the queues are concerned. */
  lemma SetConn(s: State, k: nat, c: Conn)
    requires Sound(s) && k < |s.peers|
    ensures var t := s.(peers := s.peers[k := s.peers[k].(conn := c)]);
            Sound(t) && forall j :: 0 <= j < |s.peers| && j != k && HandshakeAt(s, j, {}) ==> HandshakeAt(t, j, {})
  {
    var t := s.(peers := s.peers[k := s.peers[k].(conn := c)]);
    assert forall j :: 0 <= j < |s.peers| ==> t.peers[j].loop == s.peers[j].loop && KeyOf(t, j) == KeyOf(s, j);
    forall j | 0 <= j < |s.peers| && j != k && HandshakeAt(s, j, {})
      ensures HandshakeAt(t, j, {})
    {
      assert t.peers[j] == s.peers[j];
    }
  }

  /** `destroying`: the step is the one connectDestroyed that has just been taken off its queue. */
  lemma ActKeeps(s: State, k: nat, a: Action, destroying: nat)
    requires Sound(s) && k < |s.peers|
    requires destroying == if a.ConnectDestroyed? then 1 else 0
    requires forall j :: 0 <= j < |s.peers| && j != k ==> HandshakeAt(s, j, {})
    requires var c := s.peers[k].conn;
             && Connection.Inv(c) && c.vainRemovals == 0
             && InTable(s, k) + Count(s, s.peers[k].loop, Destroy(k)) + Destroyed(c) + destroying == 1
             && 1 - InTable(s, k) + Count(s, 0, Remove(k)) == c.closes
             && (c.phase.Disconnected? ==> c.closes == 1)
    ensures Inv(Act(s, k, a))
  {
    var p := s.peers[k];
    ApplyCounts(p.conn, a);
    var after := s.(peers := s.peers[k := p.(conn := Apply(p.conn, a))]);
    SetConn(s, k, Apply(p.conn, a));
    var owed := if after.peers[k].conn.closes == p.conn.closes then {} else {k};
    assert HandshakeAt(after, k, owed);
    assert forall j :: 0 <= j < |after.peers| && j != k && HandshakeAt(after, j, {}) ==> HandshakeAt(after, j, owed);
    if owed == {k} {
      RemovalKeeps(after, k);
    }
  }

  /** The answer to a close callback. */
  lemma RemovalKeeps(s: State, k: nat)
    requires Sound(s) && k < |s.peers| && Handshake(s, {k})
    ensures Inv(if s.peers[k].loop == 0 then RemoveInLoop(s, k) else Enqueue(s, 0, Remove(k)))
  {
    if s.peers[k].loop == 0 {
      RemoveKeeps(s, k);
    } else {
      QueueRemoveKeeps(s, k);
    }
  }

  lemma QueueRemoveKeeps(s: State, k: nat)
    requires Sound(s) && k < |s.peers| && Handshake(s, {k})
    ensures Inv(Enqueue(s, 0, Remove(k)))
  {
    EnqueueSound(s, 0, Remove(k));
    var t := Enqueue(s, 0, Remove(k));
    forall j | 0 <= j < |t.peers|
      ensures HandshakeAt(t, j, {})
    {
      assert HandshakeAt(s, j, {k});
    }
  }

  /** Taking a task off a queue matters only to its own connection. */
  lemma PopKeeps(s: State, loop: nat)
    requires Inv(s) && loop < |s.queues| && s.queues[loop] != []
    ensures var t, popped := s.queues[loop][0], s.(queues := s.queues[loop := s.queues[loop][1..]]);
            && Sound(popped) && t.k < |s.peers|
            && (forall j :: 0 <= j < |s.peers| && j != t.k ==> HandshakeAt(popped, j, {}))
            && (t.Establish? ==> HandshakeAt(popped, t.k, {}))
            && (t.Remove? ==> HandshakeAt(popped, t.k, {t.k}))
            && HandshakeAt(s, t.k, {})
            && (t.Destroy? ==> loop == s.peers[t.k].loop)
            && forall u: Task, l: nat :: u.k == t.k && u != t ==> Count(popped, l, u) == Count(s, l, u)
  {
    var t, popped := s.queues[loop][0], s.(queues := s.queues[loop := s.queues[loop][1..]]);
    PopSound(s, loop);
    forall j | 0 <= j < |s.peers| && (t.Establish? || j != t.k)
      ensures HandshakeAt(popped, j, {})
    {
      assert HandshakeAt(s, j, {});
    }
    assert HandshakeAt(s, t.k, {});
  }

  lemma RunTaskKeeps(s: State, loop: nat, enabled: bool)
    requires Inv(s)
    ensures Inv(Next(s, RunTask(loop, enabled)))
  {
    if loop < |s.queues| && s.queues[loop] != [] {
      var t, popped := s.queues[loop][0], s.(queues := s.queues[loop := s.queues[loop][1..]]);
      PopKeeps(s, loop);
      match t {
        case Establish(k) => ActKeeps(popped, k, ConnectEstablished(enabled), 0);
        case Remove(k) => RemoveTaskKeeps(popped, k);
        case Destroy(k) =>
          PopSound(s, loop);
          ActKeeps(popped, k, ConnectDestroyed, 1);
      }
    }
  }

  lemma RemoveTaskKeeps(s: State, k: nat)
    requires Sound(s) && k < |s.peers| && HandshakeAt(s, k, {k})
    requires forall j :: 0 <= j < |s.peers| && j != k ==> HandshakeAt(s, j, {})
    ensures Inv(RemoveInLoop(s, k))
  {
    forall j | 0 <= j < |s.peers|
      ensures HandshakeAt(s, j, {k})
    {
      assert j != k ==> HandshakeAt(s, j, {});
    }
    RemoveKeeps(s, k);
  }

  lemma KeyIsNew(s: State, k: nat)
    requires Fits(s.hostport, k + 1)
    ensures forall j :: 0 <= j < k ==> KeyOf(s, j) != KeyOf(s, k)
  {
    forall j | 0 <= j < k
      ensures KeyOf(s, j) != KeyOf(s, k)
    {
      FitsDownward(s.hostport, j + 1, k + 1);
      if KeyOf(s, j) == KeyOf(s, k) {
        NamesDistinct(s.hostport, j + 1, k + 1);
      }
    }
  }

  lemma AddedKeeps(s: State, loop: nat, options: Options)
    requires Inv(s) && loop < |s.queues| && Fits(s.hostport, |s.peers| + 1)
    ensures Inv(Added(s, loop, options))
  {
    var k, t := |s.peers|, Added(s, loop, options);
    NewConnection(options);
    KeyIsNew(s, k);
    forall j | 0 <= j <= k
      ensures HandshakeAt(t, j, {})
    {
      if j < k {
        assert HandshakeAt(s, j, {});
      } else {
        NoTasksYet(s, k);
      }
    }
  }

  lemma ConnectKeeps(s: State, loop: nat, options: Options, enabled: bool)
    requires Inv(s) && loop < |s.queues| && Fits(s.hostport, |s.peers| + 1)
    ensures Inv(Next(s, Connect(loop, options, enabled)))
  {
    var k, added := |s.peers|, Added(s, loop, options);
    AddedKeeps(s, loop, options);
    assert HandshakeAt(added, k, {});
    if loop == 0 {
      ActKeeps(added, k, ConnectEstablished(enabled), 0);
    } else {
      EnqueueSound(added, loop, Establish(k));
      var t := Enqueue(added, loop, Establish(k));
      forall j | 0 <= j < |t.peers|
        ensures HandshakeAt(t, j, {})
      {
        assert HandshakeAt(added, j, {});
      }
    }
  }

  lemma NoTasksYet(s: State, k: nat)
    requires Shaped(s) && k >= |s.peers|
    ensures forall l: nat, t: Task :: t.k == k ==> Count(s, l, t) == 0
  {
    forall l: nat, t: Task | l < |s.queues| && t in s.queues[l]
      ensures t.k < |s.peers|
    {
      var i :| 0 <= i < |s.queues[l]| && s.queues[l][i] == t;
    }
  }

  lemma NextKeepsInv(s: State, step: Step)
    requires Inv(s) && (step.Connect? ==> Fits(s.hostport, |s.peers| + 1))
    ensures Inv(Next(s, step))
  {
    match step {
      case Connect(loop, options, enabled) =>
        if loop < |s.queues| {
          ConnectKeeps(s, loop, options, enabled);
        }
      case RunTask(loop, enabled) => RunTaskKeeps(s, loop, enabled);
      case Touch(k, a) =>
        if k < |s.peers| && !a.ConnectEstablished? && !a.ConnectDestroyed? {
          assert HandshakeAt(s, k, {});
          ActKeeps(s, k, a, 0);
        }
    }
  }

  // ---------- Runs ----------

  lemma ActShaped(s: State, k: nat, a: Action)
    requires Shaped(s) && k < |s.peers|
    ensures Shaped(Act(s, k, a)) && Act(s, k, a).hostport == s.hostport && |Act(s, k, a).peers| == |s.peers|
  {
    var after := s.(peers := s.peers[k := s.peers[k].(conn := Apply(s.peers[k].conn, a))]);
    assert Shaped(after);
    RemoveShaped(after, k);
    EnqueueShaped(after, 0, Remove(k));
  }

  lemma RemoveShaped(s: State, k: nat)
    requires Shaped(s) && k < |s.peers|
    ensures var t := RemoveInLoop(s, k);
            Shaped(t) && t.hostport == s.hostport && t.peers == s.peers
  {
    EnqueueShaped(s.(table := s.table - {KeyOf(s, k)}), s.peers[k].loop, Destroy(k));
  }

  lemma ConnectShaped(s: State, loop: nat, options: Options, enabled: bool)
    requires Shaped(s) && loop < |s.queues|
    ensures var t := Next(s, Connect(loop, options, enabled));
            Shaped(t) && t.hostport == s.hostport && |t.peers| == |s.peers| + 1
  {
    var added := Added(s, loop, options);
    assert Shaped(added);
    if loop == 0 {
      ActShaped(added, |s.peers|, ConnectEstablished(enabled));
    } else {
      EnqueueShaped(added, loop, Establish(|s.peers|));
    }
  }

  lemma EnqueueShaped(s: State, loop: nat, t: Task)
    requires Shaped(s) && loop < |s.queues| && t.k < |s.peers|
    ensures Shaped(Enqueue(s, loop, t))
  {
  }

  lemma PopShaped(s: State, loop: nat)
    requires Shaped(s) && loop < |s.queues| && s.queues[loop] != []
    ensures Shaped(s.(queues := s.queues[loop := s.queues[loop][1..]])) && s.queues[loop][0].k < |s.peers|
  {
  }

  lemma RunTaskShaped(s: State, loop: nat, enabled: bool)
    requires Shaped(s) && loop < |s.queues| && s.queues[loop] != []
    ensures var t := Next(s, RunTask(loop, enabled));
            Shaped(t) && t.hostport == s.hostport && |t.peers| == |s.peers|
  {
    var popped := s.(queues := s.queues[loop := s.queues[loop][1..]]);
    PopShaped(s, loop);
    match s.queues[loop][0] {
      case Establish(k) => ActShaped(popped, k, ConnectEstablished(enabled));
      case Remove(k) => RemoveShaped(popped, k);
      case Destroy(k) => ActShaped(popped, k, ConnectDestroyed);
    }
  }

  lemma NextShaped(s: State, step: Step)
    requires Shaped(s)
    ensures Shaped(Next(s, step)) && Next(s, step).hostport == s.hostport
    ensures |s.peers| <= |Next(s, step).peers| <= |s.peers| + if step.Connect? then 1 else 0
  {
    match step {
      case Connect(loop, options, enabled) =>
        if loop < |s.queues| {
          ConnectShaped(s, loop, options, enabled);
        }
      case RunTask(loop, enabled) =>
        if loop < |s.queues| && s.queues[loop] != [] {
          RunTaskShaped(s, loop, enabled);
        }
      case Touch(k, a) =>
        if k < |s.peers| {
          ActShaped(s, k, a);
        }
    }
  }

  function Run(s: State, steps: seq<Step>): State
    requires Shaped(s)
    decreases |steps|
  {
    if steps == [] then s
    else
      NextShaped(s, steps[0]);
      Run(Next(s, steps[0]), steps[1..])
  }

  lemma {:induction false} PeersGrow(s: State, steps: seq<Step>)
    requires Shaped(s)
    ensures Shaped(Run(s, steps)) && Run(s, steps).hostport == s.hostport && |s.peers| <= |Run(s, steps).peers|
    decreases |steps|
  {
    if steps != [] {
      NextShaped(s, steps[0]);
      PeersGrow(Next(s, steps[0]), steps[1..]);
    }
  }

  lemma {:induction false} RunKeepsInv(s: State, steps: seq<Step>)
    requires Inv(s) && (var t := Run(s, steps); t.peers != [] ==> Fits(s.hostport, |t.peers|))
    ensures Inv(Run(s, steps))
    decreases |steps|
  {
    if steps != [] {
      var next := Next(s, steps[0]);
      NextShaped(s, steps[0]);
      PeersGrow(next, steps[1..]);
      if steps[0].Connect? {
        if |next.peers| == |s.peers| + 1 {
          FitsDownward(s.hostport, |next.peers|, |Run(s, steps).peers|);
          NextKeepsInv(s, steps[0]);
        }
      } else {
        NextKeepsInv(s, steps[0]);
      }
      RunKeepsInv(next, steps[1..]);
    }
  }

  /**
   * The teardown handshake, over every run in which no connection number was cut off: each connection is in
   * the table, or has exactly one connectDestroyed pending, or has had exactly one; it is torn down only when
   * it is disconnected, and then the channel's removal reaches the poller.
   */
  lemma TeardownHandshake(hostport: string, loops: nat, steps: seq<Step>, k: nat)
    requires loops >= 1
    requires var t := Run(Start(hostport, loops), steps); k < |t.peers| && Fits(hostport, |t.peers|)
    ensures var t := Run(Start(hostport, loops), steps);
            var c, loop := t.peers[k].conn, t.peers[k].loop;
            && InTable(t, k) + Count(t, loop, Destroy(k)) + c.removals == 1
            && c.vainRemovals == 0
            && (InTable(t, k) == 0 ==> c.phase.Disconnected?)
            && (c.phase.Disconnected? ==> !c.reading && !c.writing)
            && (InTable(t, k) == 1 ==> t.table[KeyOf(t, k)] == k)
  {
    var s := Start(hostport, loops);
    RunKeepsInv(s, steps);
    var t := Run(s, steps);
    PeersGrow(s, steps);
    assert HandshakeAt(t, k, {});
    if InTable(t, k) == 1 {
      KeysDistinct(t, k, t.table[KeyOf(t, k)]);
    }
  }

  /** Every functor that was queued has been run. */
  predicate Quiet(s: State) {
    forall l :: 0 <= l < |s.queues| ==> s.queues[l] == []
  }

  /**
   * Once every queued functor has been run, the table holds exactly the connections that have not ended, each
   * under its name, and every other connection has been torn down once.
   */
  lemma QuietTable(hostport: string, loops: nat, steps: seq<Step>)
    requires loops >= 1
    requires var t := Run(Start(hostport, loops), steps);
             Quiet(t) && (t.peers != [] ==> Fits(hostport, |t.peers|))
    ensures var t := Run(Start(hostport, loops), steps);
            && (forall k :: 0 <= k < |t.peers| ==>
                  var c := t.peers[k].conn;
                  if c.phase.Disconnected? then KeyOf(t, k) !in t.table && c.removals == 1 && c.closes == 1
                  else KeyOf(t, k) in t.table && t.table[KeyOf(t, k)] == k && c.removals == 0)
            && forall key :: key in t.table ==>
                 t.table[key] < |t.peers| && KeyOf(t, t.table[key]) == key
                 && !t.peers[t.table[key]].conn.phase.Disconnected?
  {
    var s := Start(hostport, loops);
    RunKeepsInv(s, steps);
    var t := Run(s, steps);
    PeersGrow(s, steps);
    forall k | 0 <= k < |t.peers|
      ensures var c := t.peers[k].conn;
              if c.phase.Disconnected? then KeyOf(t, k) !in t.table && c.removals == 1 && c.closes == 1
              else KeyOf(t, k) in t.table && t.table[KeyOf(t, k)] == k && c.removals == 0
    {
      QuietPeer(t, k);
    }
  }

  lemma QuietPeer(t: State, k: nat)
    requires Inv(t) && Quiet(t) && k < |t.peers|
    ensures var c := t.peers[k].conn;
            if c.phase.Disconnected? then KeyOf(t, k) !in t.table && c.removals == 1 && c.closes == 1
            else KeyOf(t, k) in t.table && t.table[KeyOf(t, k)] == k && c.removals == 0
  {
    assert HandshakeAt(t, k, {});
    if InTable(t, k) == 1 {
      KeysDistinct(t, k, t.table[KeyOf(t, k)]);
    }
  }

  // ---------- New connections ----------

  /**
   * The next connection gets the options given and the loop given, its name leads to it, and it is established
   * at once on the base loop and by a functor elsewhere; the others are left alone.
   */
  lemma ConnectExact(s: State, loop: nat, options: Options, enabled: bool)
    requires Shaped(s) && loop < |s.queues|
    ensures var t, n := Next(s, Connect(loop, options, enabled)), |s.peers|;
            && |t.peers| == n + 1 && t.peers[..n] == s.peers
            && t.peers[n].loop == loop && t.peers[n].conn.options == options
            && t.peers[n].conn.phase == (if loop != 0 then Connecting else if enabled then Connected else Disconnected)
            && (loop != 0 || enabled ==> t.table == s.table[KeyOf(s, n) := n])
            && (loop != 0 ==> t.queues == s.queues[loop := s.queues[loop] + [Establish(n)]])
            && (loop == 0 && enabled ==> t.queues == s.queues && t.peers[n].conn.ups == 1)
            && (loop == 0 && !enabled ==>
                  t.table == s.table - {KeyOf(s, n)} && t.queues == s.queues[0 := s.queues[0] + [Destroy(n)]])
  {
    PhaseExact(New(options), ConnectEstablished(enabled));
    var added := Added(s, loop, options);
    assert added.table - {KeyOf(s, |s.peers|)} == s.table - {KeyOf(s, |s.peers|)};
  }

  lemma ActKeepsPeers(s: State, k: nat, a: Action)
    requires |s.queues| >= 1 && k < |s.peers| && s.peers[k].loop < |s.queues|
    ensures var t := Act(s, k, a);
            && |t.peers| == |s.peers|
            && forall j :: 0 <= j < |s.peers| ==>
                 t.peers[j].loop == s.peers[j].loop && t.peers[j].conn.options == s.peers[j].conn.options
  {
    OptionsStay(s.peers[k].conn, a);
  }

  lemma OptionsStay(c: Conn, a: Action)
    ensures Apply(c, a).options == c.options
  {
  }

  /** The loop and the options of a connection are for life. */
  lemma {:induction false} PeersStay(s: State, steps: seq<Step>, k: nat)
    requires Shaped(s) && k < |s.peers|
    ensures var t := Run(s, steps);
            && k < |t.peers| && t.peers[k].loop == s.peers[k].loop
            && t.peers[k].conn.options == s.peers[k].conn.options
    decreases |steps|
  {
    if steps != [] {
      NextShaped(s, steps[0]);
      StepKeepsPeers(s, steps[0], k);
      PeersStay(Next(s, steps[0]), steps[1..], k);
    }
  }

  lemma StepKeepsPeers(s: State, step: Step, k: nat)
    requires Shaped(s) && k < |s.peers|
    ensures var t := Next(s, step);
            && k < |t.peers| && t.peers[k].loop == s.peers[k].loop
            && t.peers[k].conn.options == s.peers[k].conn.options
  {
    match step {
      case Connect(loop, options, enabled) =>
        if loop < |s.queues| {
          ConnectExact(s, loop, options, enabled);
          assert Next(s, step).peers[k] == Next(s, step).peers[..|s.peers|][k];
        }
      case Touch(j, a) =>
        if j < |s.peers| {
          ActKeepsPeers(s, j, a);
        }
      case RunTask(loop, enabled) =>
        if loop < |s.queues| && s.queues[loop] != [] {
          TaskKeepsPeers(s, loop, enabled, k);
        }
    }
  }

  lemma TaskKeepsPeers(s: State, loop: nat, enabled: bool, k: nat)
    requires Shaped(s) && k < |s.peers| && loop < |s.queues| && s.queues[loop] != []
    ensures var t := Next(s, RunTask(loop, enabled));
            && k < |t.peers| && t.peers[k].loop == s.peers[k].loop
            && t.peers[k].conn.options == s.peers[k].conn.options
  {
    var popped := s.(queues := s.queues[loop := s.queues[loop][1..]]);
    match s.queues[loop][0] {
      case Establish(j) => ActKeepsPeers(popped, j, ConnectEstablished(enabled));
      case Destroy(j) => ActKeepsPeers(popped, j, ConnectDestroyed);
      case Remove(j) =>
    }
  }

  // ---------- When a name is cut off ----------

  /** The name of a connection whose number is cut off belongs to an earlier connection. */
  lemma CutOffNameTaken(s: State) returns (k: nat)
    requires |s.hostport| + 3 <= NAME_ROOM && !Fits(s.hostport, |s.peers| + 1)
    ensures k < |s.peers| && KeyOf(s, k) == KeyOf(s, |s.peers|)
  {
    var id := |s.peers| + 1;
    NameIsNew(s.hostport, id);
    var m :| 1 <= m < id && Name(s.hostport, m) == Name(s.hostport, id);
    k := m - 1;
  }

  /** The first clause of the handshake: in the table, or one connectDestroyed pending or done. */
  predicate OneTeardown(s: State, k: nat)
    requires k < |s.peers|
  {
    InTable(s, k) + Count(s, s.peers[k].loop, Destroy(k)) + Destroyed(s.peers[k].conn) == 1
  }

  /** Every run with at most `m` connections keeps the clause for all of them. */
  ghost predicate HandshakeHolds(hostport: string, loops: nat, m: nat)
    requires loops >= 1
  {
    forall steps: seq<Step>, k: nat ::
      var t := Run(Start(hostport, loops), steps); k < |t.peers| <= m ==> OneTeardown(t, k)
  }

  const PLAIN := Options(false, false, 0)

  /** `n` connections to a loop, each established before the next one comes. */
  function Joins(n: nat, loop: nat): seq<Step> {
    if n == 0 then [] else Joins(n - 1, loop) + [Connect(loop, PLAIN, true), RunTask(loop, true)]
  }

  /** Nothing is queued, every connection is up, and its name is in the table. */
  predicate AllUp(s: State) {
    && (forall l :: 0 <= l < |s.queues| ==> s.queues[l] == [])
    && (forall k :: 0 <= k < |s.peers| ==>
          && s.peers[k].loop < |s.queues| && KeyOf(s, k) in s.table
          && s.peers[k].conn == Connection.Establish(New(PLAIN), true))
  }

  /** A connection comes and is established, at once on the base loop and by a task elsewhere. */
  function Joined(s: State, loop: nat): State
    requires Shaped(s)
  {
    NextShaped(s, Connect(loop, PLAIN, true));
    Next(Next(s, Connect(loop, PLAIN, true)), RunTask(loop, true))
  }

  lemma JoinAdds(s: State, loop: nat)
    requires AllUp(s) && Shaped(s) && loop < |s.queues|
    ensures var n := |s.peers|;
            Joined(s, loop) == s.(table := s.table[KeyOf(s, n) := n],
                                  peers := s.peers + [Peer(Connection.Establish(New(PLAIN), true), loop)])
  {
    var n := |s.peers|;
    assert s.queues[loop] + [Establish(n)] == [Establish(n)] && [Establish(n)][1..] == s.queues[loop];
    assert Joined(s, loop).peers == s.peers + [Peer(Connection.Establish(New(PLAIN), true), loop)];
  }

  lemma JoinOne(s: State, loop: nat)
    requires AllUp(s) && Shaped(s) && loop < |s.queues|
    ensures var t := Joined(s, loop);
            && AllUp(t) && Shaped(t) && t.hostport == s.hostport
            && |t.peers| == |s.peers| + 1 && |t.queues| == |s.queues|
  {
    JoinAdds(s, loop);
    var t := Joined(s, loop);
    assert forall k :: 0 <= k < |s.peers| ==> KeyOf(t, k) == KeyOf(s, k) && KeyOf(s, k) in s.table;
  }

  lemma {:induction false} RunAppend(s: State, first: seq<Step>, second: seq<Step>)
    requires Shaped(s)
    ensures Shaped(Run(s, first)) && Run(s, first + second) == Run(Run(s, first), second)
    decreases |first|
  {
    if first == [] {
      assert [] + second == second;
    } else {
      NextShaped(s, first[0]);
      assert (first + second)[1..] == first[1..] + second;
      RunAppend(Next(s, first[0]), first[1..], second);
    }
  }

  lemma RunTwo(s: State, a: Step, b: Step)
    requires Shaped(s)
    ensures Shaped(Next(s, a)) && Run(s, [a, b]) == Next(Next(s, a), b)
  {
    NextShaped(s, a);
    NextShaped(Next(s, a), b);
    assert [a, b][1..] == [b] && [b][1..] == [];
    assert Run(Next(s, a), [b]) == Run(Next(Next(s, a), b), []);
  }

  /** `n` connections are up, and nothing else has happened. */
  predicate UpTo(s: State, hostport: string, loops: nat, n: nat) {
    AllUp(s) && Shaped(s) && s.hostport == hostport && |s.peers| == n && |s.queues| == loops
  }

  lemma {:induction false} AllJoined(hostport: string, loops: nat, n: nat, loop: nat)
    requires loop < loops
    ensures UpTo(Run(Start(hostport, loops), Joins(n, loop)), hostport, loops, n)
    decreases n
  {
    if n > 0 {
      AllJoined(hostport, loops, n - 1, loop);
      JoinNext(Start(hostport, loops), hostport, loops, n, loop);
    }
  }

  lemma JoinNext(start: State, hostport: string, loops: nat, n: nat, loop: nat)
    requires Shaped(start) && n > 0 && loop < loops
    requires UpTo(Run(start, Joins(n - 1, loop)), hostport, loops, n - 1)
    ensures UpTo(Run(start, Joins(n, loop)), hostport, loops, n)
  {
    var s := Run(start, Joins(n - 1, loop));
    RunAppend(start, Joins(n - 1, loop), [Connect(loop, PLAIN, true), RunTask(loop, true)]);
    RunTwo(s, Connect(loop, PLAIN, true), RunTask(loop, true));
    JoinOne(s, loop);
  }

  /** The last connection closes, and the base loop runs what is then in front of its queue. */
  function LastGone(s: State): State
    requires Shaped(s) && s.peers != []
  {
    NextShaped(s, Touch(|s.peers| - 1, HandleClose));
    Next(Next(s, Touch(|s.peers| - 1, HandleClose)), RunTask(0, true))
  }

  /** The last connection's name is out of the table, and the other connections are as they were. */
  predicate WithoutLast(s: State, t: State)
    requires s.peers != []
  {
    var n := |s.peers| - 1;
    && t.hostport == s.hostport && KeyOf(s, n) !in t.table
    && |t.peers| == n + 1 && t.peers[..n] == s.peers[..n] && |t.queues| == |s.queues|
    && forall l, k :: 0 <= l < |t.queues| && 0 <= k < n ==> Destroy(k) !in t.queues[l]
  }

  /** On the base loop the close callback removes the entry itself; elsewhere it queues the removal there. */
  lemma LastAsks(s: State)
    requires AllUp(s) && Shaped(s) && s.peers != []
    ensures var n := |s.peers| - 1;
            var loop, key := s.peers[n].loop, KeyOf(s, n);
            var after := s.(peers := s.peers[n := s.peers[n].(conn := Apply(s.peers[n].conn, HandleClose))]);
            Next(s, Touch(n, HandleClose)) ==
              if loop == 0 then after.(table := s.table - {key}, queues := s.queues[0 := [Destroy(n)]])
              else after.(queues := s.queues[0 := [Remove(n)]])
  {
    var n := |s.peers| - 1;
    assert s.queues[0] + [Destroy(n)] == [Destroy(n)] && s.queues[0] + [Remove(n)] == [Remove(n)];
  }

  lemma LastCloses(s: State)
    requires AllUp(s) && Shaped(s) && s.peers != []
    ensures WithoutLast(s, LastGone(s))
  {
    LastAsks(s);
    NextShaped(s, Touch(|s.peers| - 1, HandleClose));
  }

  /** A connection that has the last one's name is then up, out of the table and without a connectDestroyed. */
  lemma Stranded(s: State, t: State, k: nat)
    requires AllUp(s) && k + 1 < |s.peers| && KeyOf(s, k) == KeyOf(s, |s.peers| - 1) && WithoutLast(s, t)
    ensures t.peers[k].conn.phase.Connected? && InTable(t, k) == 0
    ensures Count(t, t.peers[k].loop, Destroy(k)) == 0 && Destroyed(t.peers[k].conn) == 0
  {
    var loop := s.peers[k].loop;
    assert t.peers[k] == t.peers[..|s.peers| - 1][k] == s.peers[k];
    assert Destroy(k) !in t.queues[loop];
  }

  /**
   * The run: as many connections as have numbers that fit, and one more, whose name is that of an earlier one
   * and which takes its entry in the table. When the last one closes, that entry goes, and the earlier one is up
   * without being in the table or having a connectDestroyed pending or done.
   */
  lemma CutOffNameStrands(hostport: string, loops: nat, loop: nat, n: nat) returns (steps: seq<Step>, k: nat)
    requires loop < loops && |hostport| + 3 <= NAME_ROOM && !Fits(hostport, n + 1)
    ensures var t := Run(Start(hostport, loops), steps);
            && |t.peers| == n + 1 && k < n && t.peers[k].conn.phase.Connected?
            && InTable(t, k) == 0 && Count(t, t.peers[k].loop, Destroy(k)) == 0 && Destroyed(t.peers[k].conn) == 0
  {
    var start, closing := Start(hostport, loops), [Touch(n, HandleClose), RunTask(0, true)];
    AllJoined(hostport, loops, n, loop);
    AllJoined(hostport, loops, n + 1, loop);
    k := CutOffNameTaken(Run(start, Joins(n, loop)));
    var s := Run(start, Joins(n + 1, loop));
    steps := Joins(n + 1, loop) + closing;
    RunAppend(start, Joins(n + 1, loop), closing);
    RunTwo(s, Touch(n, HandleClose), RunTask(0, true));
    LastCloses(s);
    Stranded(s, LastGone(s), k);
  }

  /** Some number below `m` is the last that fits. */
  lemma {:induction false} LastThatFits(hostport: string, m: nat) returns (n: nat)
    requires |hostport| + 3 <= NAME_ROOM && m >= 1 && !Fits(hostport, m)
    ensures 1 <= n < m && Fits(hostport, n) && !Fits(hostport, n + 1)
    decreases m
  {
    assert |Decimal.Digits(1)| == 1;
    n := m - 1;
    if !Fits(hostport, n) {
      n := LastThatFits(hostport, n);
    }
  }

  /**
   * The exact condition over runs: whatever the number of loops, every run with at most `m` connections keeps
   * the clause for all of them if and only if the number of the `m`-th is not cut off.
   */
  lemma HandshakeExact(hostport: string, loops: nat, m: nat)
    requires loops >= 1 && m >= 1 && |hostport| + 3 <= NAME_ROOM
    ensures HandshakeHolds(hostport, loops, m) <==> Fits(hostport, m)
  {
    if Fits(hostport, m) {
      forall steps: seq<Step>, k: nat | k < |Run(Start(hostport, loops), steps).peers| <= m
        ensures OneTeardown(Run(Start(hostport, loops), steps), k)
      {
        FitsDownward(hostport, |Run(Start(hostport, loops), steps).peers|, m);
        TeardownHandshake(hostport, loops, steps, k);
      }
    } else {
      var n := LastThatFits(hostport, m);
      var steps, k := CutOffNameStrands(hostport, loops, loops - 1, n);
      assert !OneTeardown(Run(Start(hostport, loops), steps), k);
    }
  }

  /**
   * An entry is erased by name. The removal of a connection whose name leads to another one erases that one's
   * entry and queues its own connectDestroyed: a stranded connection can get one after all when a further
   * connection has its name, and then that one is stranded.
   */
  lemma ErasedByName(s: State, k: nat, j: nat)
    requires Shaped(s) && k < |s.peers| && j < |s.peers| && k != j
    requires KeyOf(s, k) == KeyOf(s, j) && InTable(s, j) == 1 && s.table[KeyOf(s, j)] == j
    ensures var t := RemoveInLoop(s, k);
            && Count(t, t.peers[k].loop, Destroy(k)) == Count(s, s.peers[k].loop, Destroy(k)) + 1
            && InTable(t, j) == 0
            && forall l: nat :: Count(t, l, Destroy(j)) == Count(s, l, Destroy(j))
  {
  }

  /** And without one, the removal of a stranded connection finds no entry, and nothing comes of it. */
  lemma NothingToErase(s: State, enabled: bool)
    requires Shaped(s) && s.queues[0] != [] && s.queues[0][0].Remove? && InTable(s, s.queues[0][0].k) == 0
    ensures var t := Next(s, RunTask(0, enabled));
            && t.table == s.table && t.peers == s.peers && t.queues == s.queues[0 := s.queues[0][1..]]
  {
  }

  // ---------- The class ----------

  /** The server object together with the connections and the task queues of its loops. */
  class TcpServer {
    const hostport: string
    var nextConnId: nat
    var connections: map<string, nat>
    var peers: seq<Peer>
    var queues: seq<seq<Task>>

    ghost function View(): State
      reads this
    {
      State(hostport, connections, peers, queues)
    }

    ghost predicate Valid()
      reads this
    {
      Shaped(View()) && nextConnId == |peers| + 1
    }

    constructor (hostport: string, loops: nat)
      requires loops >= 1
      ensures Valid() && View() == Start(hostport, loops)
    {
      this.hostport := hostport;
      nextConnId, connections, peers := 1, map[], [];
      queues := seq(loops, _ => []);
    }

    method QueueInLoop(loop: nat, t: Task)
      requires Valid() && loop < |queues| && t.k < |peers|
      modifies `queues
      ensures Valid() && View() == Enqueue(old(View()), loop, t)
    {
      queues := queues[loop := queues[loop] + [t]];
    }

    /** A step of connection `k` in its own loop; the close callback runs removeConnection. */
    method ActOn(k: nat, a: Action)
      requires Valid() && k < |peers|
      modifies this
      ensures Valid() && View() == Act(old(View()), k, a)
    {
      ActShaped(View(), k, a);
      var closes := peers[k].conn.closes;
      peers := peers[k := peers[k].(conn := Apply(peers[k].conn, a))];
      if peers[k].conn.closes != closes {
        RemoveConnection(k);
      }
    }

    /** runInLoop on the base loop: at once when the connection lives there. */
    method RemoveConnection(k: nat)
      requires Valid() && k < |peers|
      modifies `connections, `queues
      ensures Valid()
      ensures View() == if peers[k].loop == 0 then RemoveInLoop(old(View()), k)
                        else Enqueue(old(View()), 0, Remove(k))
    {
      if peers[k].loop == 0 {
        RemoveConnectionInLoop(k);
      } else {
        QueueInLoop(0, Remove(k));
      }
    }

    method RemoveConnectionInLoop(k: nat)
      requires Valid() && k < |peers|
      modifies `connections, `queues
      ensures Valid() && View() == RemoveInLoop(old(View()), k)
    {
      var key := Name(hostport, k + 1);
      if key !in connections {
        return;
      }
      connections := connections - {key};
      QueueInLoop(peers[k].loop, Destroy(k));
    }

    method NewConnection(loop: nat, options: Options, enabled: bool)
      requires Valid() && loop < |queues|
      modifies this
      ensures Valid() && View() == Next(old(View()), Connect(loop, options, enabled))
    {
      var k := |peers|;
      var connName := Name(hostport, nextConnId);
      nextConnId := nextConnId + 1;
      peers := peers + [Peer(New(options), loop)];
      connections := connections[connName := k];
      if loop == 0 {
        ActOn(k, ConnectEstablished(enabled));
      } else {
        QueueInLoop(loop, Establish(k));
      }
    }

    /** One functor of a loop's doOtherTasks. */
    method RunOne(loop: nat, enabled: bool)
      requires Valid() && loop < |queues| && queues[loop] != []
      modifies this
      ensures Valid() && View() == Next(old(View()), RunTask(loop, enabled))
    {
      var t := queues[loop][0];
      assert queues[loop][0] == t;
      queues := queues[loop := queues[loop][1..]];
      match t {
        case Establish(k) => ActOn(k, ConnectEstablished(enabled));
        case Remove(k) => RemoveConnectionInLoop(k);
        case Destroy(k) => ActOn(k, ConnectDestroyed);
      }
    }
  }
}
