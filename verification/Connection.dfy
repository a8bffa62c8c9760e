/** One connection: net/TcpConnection.cpp with the event dispatch of net/Channel.cpp. */
module Connection {
  import opened Bytes
  import opened ByteBuffer
  import opened Sequences

  datatype Phase = Connecting | Connected | Disconnecting | Disconnected

  /** What write(2) reports; the kernel never takes more than it is offered. */
  datatype WriteResult = Wrote(n: nat) | WouldBlock | PeerGone | OtherError

  /** Callbacks that are put on the loop's task queue. */
  datatype Notice = WriteComplete | HighWater(size: nat)

  datatype Options = Options(writeComplete: bool, highWater: bool, highWaterMark: nat)

  /** A message handed to sendInLoop before the disconnection, and whether it was given up as a whole. */
  datatype Offer = Offer(message: seq<byte>, dropped: bool)

  /** shutdown(SHUT_WR): the phase and the number of bytes still in the output buffer. */
  datatype HalfClose = HalfClose(phase: Phase, backlog: nat)

  /**
   * A connection and its history. `reading` and `writing` are the channel's interest bits, `wire` is what
   * the kernel has taken, `ups`, `downs` and `closes` count the callbacks, `removals` and `vainRemovals`
   * the calls of Channel::remove that did and did not reach the poller.
   */
  datatype Conn = Conn(options: Options, phase: Phase, reading: bool, writing: bool, output: seq<byte>,
                       wire: seq<byte>, offers: seq<Offer>, notices: seq<Notice>, halfCloses: seq<HalfClose>,
                       ups: nat, downs: nat, closes: nat, removals: nat, vainRemovals: nat)

  function New(options: Options): Conn {
    Conn(options, Connecting, false, false, [], [], [], [], [], 0, 0, 0, 0, 0)
  }

  /**
   * The atomic steps: handlers and tasks of the loop thread, and the check-and-set of other threads' calls.
   * `CallSend` is TcpConnection::send in the loop thread; from another thread it queues a `SendInLoop`.
   */
  datatype Action =
    | ConnectEstablished(enabled: bool)
    | ConnectDestroyed
    | SendInLoop(message: seq<byte>, result: WriteResult)
    | CallSend(message: seq<byte>, result: WriteResult)
    | HandleRead(n: int)
    | HandleWrite(result: WriteResult)
    | HandleClose
    | HandleError
    | Shutdown
    | ShutdownInLoop
    | ForceClose
    | ForceCloseInLoop

  function Min(a: nat, b: nat): nat {
    if a <= b then a else b
  }

  function Close(c: Conn): Conn {
    if c.phase.Disconnected? then c
    else c.(phase := Disconnected, reading := false, writing := false, downs := c.downs + 1, closes := c.closes + 1)
  }

  function HalfCloseUnlessWriting(c: Conn): Conn {
    if c.writing then c else c.(halfCloses := c.halfCloses + [HalfClose(c.phase, |c.output|)])
  }

  function Notify(c: Conn, wanted: bool, notice: Notice): Conn {
    if wanted then c.(notices := c.notices + [notice]) else c
  }

  /** What is left of a message goes behind the output buffer, and the channel waits for writability. */
  function Buffer(c: Conn, rest: seq<byte>): Conn {
    if rest == [] then c
    else
      var before, after := |c.output|, |c.output| + |rest|;
      var crossing := c.options.highWater && before < c.options.highWaterMark <= after;
      Notify(c, crossing, HighWater(after)).(output := c.output + rest, writing := true)
  }

  /** The attempt to write at once, made when nothing waits in the output buffer: bytes taken, message dropped. */
  function Attempt(c: Conn, message: seq<byte>, result: WriteResult): (Conn, nat, bool) {
    var direct := !c.writing && c.output == [];
    var dropped := direct && result.PeerGone?;
    var n := if direct && result.Wrote? then Min(result.n, |message|) else 0;
    var offered := c.(offers := c.offers + [Offer(message, dropped)], wire := c.wire + message[..n]);
    var complete := direct && result.Wrote? && n == |message| && c.options.writeComplete;
    (Notify(offered, complete, WriteComplete), n, dropped)
  }

  function Send(c: Conn, message: seq<byte>, result: WriteResult): Conn {
    if c.phase.Disconnected? then c
    else
      var (offered, n, dropped) := Attempt(c, message, result);
      if dropped then offered else Buffer(offered, message[n..])
  }

  /** The output buffer has become empty. */
  function Idle(c: Conn): Conn {
    var idle := Notify(c.(writing := false), c.options.writeComplete, WriteComplete);
    if c.phase.Disconnecting? then HalfCloseUnlessWriting(idle) else idle
  }

  function Flushed(c: Conn, n: nat): Conn
    requires n <= |c.output|
  {
    c.(wire := c.wire + c.output[..n], output := c.output[n..])
  }

  function Flush(c: Conn, result: WriteResult): Conn {
    if !c.writing then c
    else
      var n := if result.Wrote? then Min(result.n, |c.output|) else 0;
      if n == 0 then Close(c)
      else
        var flushed := Flushed(c, n);
        if flushed.output != [] then flushed else Idle(flushed)
  }

  function Establish(c: Conn, enabled: bool): Conn {
    if !c.phase.Connecting? then c
    else
      var live := c.(phase := Connected, reading := true);
      if enabled then live.(ups := c.ups + 1) else Close(live)
  }

  /** Channel::remove reaches the poller only without interest. */
  function Unregister(c: Conn): Conn {
    if c.reading || c.writing then c.(vainRemovals := c.vainRemovals + 1) else c.(removals := c.removals + 1)
  }

  function Destroy(c: Conn): Conn {
    var down := if c.phase.Connected?
                then c.(phase := Disconnected, reading := false, writing := false, downs := c.downs + 1)
                else c;
    Unregister(down)
  }

  function Apply(c: Conn, a: Action): Conn {
    match a
    case ConnectEstablished(enabled) => Establish(c, enabled)
    case ConnectDestroyed => Destroy(c)
    case SendInLoop(message, result) => Send(c, message, result)
    case CallSend(message, result) => if c.phase.Connected? then Send(c, message, result) else c
    case HandleRead(n) => if n > 0 then c else Close(c)
    case HandleWrite(result) => Flush(c, result)
    case HandleClose => Close(c)
    case HandleError => Close(c)
    case Shutdown => if c.phase.Connected? then c.(phase := Disconnecting) else c
    case ShutdownInLoop => HalfCloseUnlessWriting(c)
    case ForceClose => if c.phase.Connected? || c.phase.Disconnecting? then c.(phase := Disconnecting) else c
    case ForceCloseInLoop => if c.phase.Connected? || c.phase.Disconnecting? then Close(c) else c
  }

  function Run(c: Conn, actions: seq<Action>): Conn
    decreases |actions|
  {
    if actions == [] then c else Run(Apply(c, actions[0]), actions[1..])
  }

  /** The messages that were not dropped. */
  function Taken(offers: seq<Offer>): seq<seq<byte>> {
    if offers == [] then []
    else (if offers[0].dropped then [] else [offers[0].message]) + Taken(offers[1..])
  }

  lemma {:induction false} TakenSnoc(offers: seq<Offer>, o: Offer)
    ensures Flatten(Taken(offers + [o])) == Flatten(Taken(offers)) + if o.dropped then [] else o.message
  {
    if offers == [] {
      assert Taken([o][1..]) == [];
      assert Flatten([o.message]) == o.message + Flatten([o.message][1..]);
    } else {
      TakenSnoc(offers[1..], o);
      assert (offers + [o])[1..] == offers[1..] + [o];
      var first := offers[0];
      if !first.dropped {
        var rest, more := Taken(offers[1..]), Taken(offers[1..] + [o]);
        assert ([first.message] + rest)[1..] == rest && ([first.message] + more)[1..] == more;
        Associate(first.message, Flatten(rest), if o.dropped then [] else o.message);
      } else {
        assert [] + Taken(offers[1..]) == Taken(offers[1..]);
        assert [] + Taken(offers[1..] + [o]) == Taken(offers[1..] + [o]);
      }
    }
  }

  // ---------- What every run keeps ----------

  /** Bytes are neither lost, duplicated nor reordered. */
  predicate Conserved(c: Conn) {
    c.wire + c.output == Flatten(Taken(c.offers))
  }

  /** The channel waits for writability exactly while there is something to write; the dead wait for nothing. */
  predicate Interest(c: Conn) {
    if c.phase.Disconnected? then !c.reading && !c.writing else c.writing == (c.output != [])
  }

  predicate HalfClosedWhenDrained(c: Conn) {
    forall i :: 0 <= i < |c.halfCloses| && !c.halfCloses[i].phase.Disconnected? ==> c.halfCloses[i].backlog == 0
  }

  predicate CallbacksOnce(c: Conn) {
    && c.ups <= (if c.phase.Connecting? then 0 else 1)
    && c.downs == (if c.phase.Disconnected? then 1 else 0)
    && c.closes <= c.downs
  }

  predicate Inv(c: Conn) {
    Conserved(c) && Interest(c) && HalfClosedWhenDrained(c) && CallbacksOnce(c)
  }

  lemma SendConserves(c: Conn, message: seq<byte>, result: WriteResult)
    requires Conserved(c) && Interest(c)
    ensures Conserved(Send(c, message, result)) && Interest(Send(c, message, result))
  {
    if !c.phase.Disconnected? {
      var (offered, n, dropped) := Attempt(c, message, result);
      TakenSnoc(c.offers, Offer(message, dropped));
      assert message == message[..n] + message[n..];
      var after := Send(c, message, result);
      if c.output == [] {
        assert c.wire + [] == c.wire;
        Associate(c.wire, message[..n], message[n..]);
        assert [] + message[n..] == message[n..];
        assert after.wire + [] == after.wire;
        assert dropped ==> message[..0] == [];
      } else {
        assert c.wire + message[..0] == c.wire && message[0..] == message;
        Associate(c.wire, c.output, message);
        assert message == [] ==> c.wire + c.output + message == c.wire + c.output;
      }
    }
  }

  lemma FlushConserves(c: Conn, result: WriteResult)
    requires Conserved(c) && Interest(c)
    ensures Conserved(Flush(c, result)) && Interest(Flush(c, result))
  {
    var n := if result.Wrote? then Min(result.n, |c.output|) else 0;
    assert c.output == c.output[..n] + c.output[n..];
    Associate(c.wire, c.output[..n], c.output[n..]);
  }

  lemma HalfCloseKeepsInv(c: Conn)
    requires Inv(c)
    ensures Inv(HalfCloseUnlessWriting(c))
  {
    var log := HalfCloseUnlessWriting(c).halfCloses;
    assert forall i :: 0 <= i < |c.halfCloses| ==> log[i] == c.halfCloses[i];
  }

  /** Sending touches neither the phase nor the callbacks of the connection's life. */
  lemma SendKeepsRest(c: Conn, message: seq<byte>, result: WriteResult)
    ensures var d := Send(c, message, result);
            && d.phase == c.phase && d.halfCloses == c.halfCloses
            && d.ups == c.ups && d.downs == c.downs && d.closes == c.closes
            && d.removals == c.removals && d.vainRemovals == c.vainRemovals
  {
  }

  lemma SendKeepsInv(c: Conn, message: seq<byte>, result: WriteResult)
    requires Inv(c)
    ensures Inv(Send(c, message, result))
  {
    SendKeepsRest(c, message, result);
    assert Conserved(Send(c, message, result)) && Interest(Send(c, message, result)) by {
      SendConserves(c, message, result);
    }
  }

  lemma CloseKeepsInv(c: Conn)
    requires Inv(c)
    ensures Inv(Close(c))
  {
    assert Close(c).halfCloses == c.halfCloses;
  }

  lemma FlushKeepsInv(c: Conn, result: WriteResult)
    requires Inv(c)
    ensures Inv(Flush(c, result))
  {
    var n := if result.Wrote? then Min(result.n, |c.output|) else 0;
    if c.writing && n > 0 {
      FlushConserves(c, result);
      FlushedRest(c, result, n);
    } else if c.writing {
      CloseKeepsInv(c);
    }
  }

  lemma FlushedRest(c: Conn, result: WriteResult, n: nat)
    requires Inv(c) && c.writing && result.Wrote? && 0 < n == Min(result.n, |c.output|)
    ensures HalfClosedWhenDrained(Flush(c, result)) && CallbacksOnce(Flush(c, result))
  {
    var d := Flush(c, result);
    if d.halfCloses != c.halfCloses {
      assert d.halfCloses == c.halfCloses + [HalfClose(c.phase, 0)];
    }
  }

  lemma EstablishKeepsInv(c: Conn, enabled: bool)
    requires Inv(c)
    ensures Inv(Establish(c, enabled))
  {
    assert Establish(c, enabled).halfCloses == c.halfCloses;
  }

  lemma DestroyKeepsInv(c: Conn)
    requires Inv(c)
    ensures Inv(Destroy(c))
  {
    assert Destroy(c).halfCloses == c.halfCloses;
  }

  lemma StepKeepsInv(c: Conn, a: Action)
    requires Inv(c)
    ensures Inv(Apply(c, a))
  {
    match a {
      case SendInLoop(message, result) => SendKeepsInv(c, message, result);
      case CallSend(message, result) => SendKeepsInv(c, message, result);
      case HandleWrite(result) => FlushKeepsInv(c, result);
      case ShutdownInLoop => HalfCloseKeepsInv(c);
      case ConnectEstablished(enabled) => EstablishKeepsInv(c, enabled);
      case ConnectDestroyed => DestroyKeepsInv(c);
      case _ =>
    }
  }

  /** Every run of every interleaving, under arbitrary partial writes and errors. */
  lemma {:induction false} RunKeepsInv(c: Conn, actions: seq<Action>)
    requires Inv(c)
    ensures Inv(Run(c, actions))
    decreases |actions|
  {
    if actions != [] {
      StepKeepsInv(c, actions[0]);
      RunKeepsInv(Apply(c, actions[0]), actions[1..]);
    }
  }

  lemma NewConnection(options: Options)
    ensures Inv(New(options))
  {
    assert Flatten(Taken([])) == [];
  }

  function Rank(p: Phase): nat {
    match p
    case Connecting => 0
    case Connected => 1
    case Disconnecting => 2
    case Disconnected => 3
  }

  /** Later states of a connection: the phase has not gone back, and what is sent or counted stays so. */
  predicate Later(c: Conn, d: Conn) {
    && Rank(c.phase) <= Rank(d.phase)
    && c.wire <= d.wire && c.offers <= d.offers && c.notices <= d.notices && c.halfCloses <= d.halfCloses
    && c.ups <= d.ups && c.downs <= d.downs && c.closes <= d.closes
    && (c.phase.Disconnected? ==>
          d.output == c.output && d.wire == c.wire && d.offers == c.offers && d.notices == c.notices
          && d.ups == c.ups && d.downs == c.downs && d.closes == c.closes)
  }

  lemma AttemptAdvances(c: Conn, message: seq<byte>, result: WriteResult)
    requires !c.phase.Disconnected?
    ensures Later(c, Attempt(c, message, result).0) && Attempt(c, message, result).0.phase == c.phase
  {
  }

  lemma BufferAdvances(c: Conn, rest: seq<byte>)
    requires !c.phase.Disconnected?
    ensures Later(c, Buffer(c, rest)) && Buffer(c, rest).phase == c.phase
  {
  }

  lemma LaterStill(c: Conn, d: Conn, e: Conn)
    requires Later(c, d) && Later(d, e)
    ensures Later(c, e)
  {
  }

  lemma SendAdvances(c: Conn, message: seq<byte>, result: WriteResult)
    ensures Later(c, Send(c, message, result))
  {
    if !c.phase.Disconnected? {
      var (offered, n, dropped) := Attempt(c, message, result);
      AttemptAdvances(c, message, result);
      BufferAdvances(offered, message[n..]);
      LaterStill(c, offered, Buffer(offered, message[n..]));
    }
  }

  lemma FlushAdvances(c: Conn, result: WriteResult)
    requires Interest(c)
    ensures Later(c, Flush(c, result))
  {
  }

  lemma CloseAdvances(c: Conn)
    ensures Later(c, Close(c))
  {
  }

  lemma EstablishAdvances(c: Conn, enabled: bool)
    ensures Later(c, Establish(c, enabled))
  {
  }

  lemma DestroyAdvances(c: Conn)
    ensures Later(c, Destroy(c))
  {
  }

  lemma StepAdvances(c: Conn, a: Action)
    requires Interest(c)
    ensures Later(c, Apply(c, a))
  {
    match a {
      case SendInLoop(message, result) => SendAdvances(c, message, result);
      case CallSend(message, result) => SendAdvances(c, message, result);
      case HandleWrite(result) => FlushAdvances(c, result);
      case ConnectEstablished(enabled) => EstablishAdvances(c, enabled);
      case ConnectDestroyed => DestroyAdvances(c);
      case HandleRead(n) => CloseAdvances(c);
      case HandleClose => CloseAdvances(c);
      case HandleError => CloseAdvances(c);
      case ForceCloseInLoop => CloseAdvances(c);
      case _ =>
    }
  }

  /** The phase only advances, and a disconnected connection sends, buffers and calls back nothing more. */
  lemma {:induction false} RunAdvances(c: Conn, actions: seq<Action>)
    requires Inv(c)
    ensures Later(c, Run(c, actions))
    decreases |actions|
  {
    if actions != [] {
      var next := Apply(c, actions[0]);
      StepAdvances(c, actions[0]);
      StepKeepsInv(c, actions[0]);
      RunAdvances(next, actions[1..]);
    }
  }

  // ---------- What one step does ----------

  /**
   * A message that is sent: it is given up if and only if nothing was waiting and the peer is gone. Otherwise
   * the kernel takes what write reports, which is called only when nothing was waiting, and the rest waits
   * behind what was there.
   */
  lemma SendExact(c: Conn, message: seq<byte>, result: WriteResult)
    requires Interest(c) && !c.phase.Disconnected?
    ensures var d := Apply(c, SendInLoop(message, result));
            var direct := c.output == [];
            var taken := if direct && result.Wrote? then Min(result.n, |message|) else 0;
            && d.offers == c.offers + [Offer(message, direct && result.PeerGone?)]
            && d.wire == c.wire + message[..taken]
            && d.output == if direct && result.PeerGone? then [] else c.output + message[taken..]
  {
    assert message[0..] == message && [] + message == message;
  }

  /** The backlog: the kernel takes what write reports, and anything else than progress is the end. */
  lemma FlushExact(c: Conn, result: WriteResult)
    requires Interest(c) && !c.phase.Disconnected?
    ensures var d := Apply(c, HandleWrite(result));
            var taken := if result.Wrote? then Min(result.n, |c.output|) else 0;
            && d.wire == c.wire + c.output[..taken] && d.output == c.output[taken..] && d.offers == c.offers
            && (d.phase.Disconnected? <==> c.output != [] && (!result.Wrote? || result.n == 0))
            && (!d.phase.Disconnected? ==> d.phase == c.phase)
  {
  }

  /** The steps that end a connection which has not ended. */
  predicate Ends(c: Conn, a: Action) {
    match a
    case ConnectEstablished(enabled) => c.phase.Connecting? && !enabled
    case ConnectDestroyed => c.phase.Connected?
    case HandleRead(n) => n <= 0
    case HandleWrite(result) => c.output != [] && (!result.Wrote? || result.n == 0)
    case HandleClose => true
    case HandleError => true
    case ForceCloseInLoop => c.phase.Connected? || c.phase.Disconnecting?
    case _ => false
  }

  /** The steps that only announce an end. */
  predicate Announces(c: Conn, a: Action) {
    (a.Shutdown? && c.phase.Connected?) || (a.ForceClose? && (c.phase.Connected? || c.phase.Disconnecting?))
  }

  /** The phase after any step, and the callbacks that the step makes. */
  lemma PhaseExact(c: Conn, a: Action)
    requires Interest(c)
    ensures var d, ends := Apply(c, a), !c.phase.Disconnected? && Ends(c, a);
            && d.phase == (if c.phase.Disconnected? || Ends(c, a) then Disconnected
                           else if a.ConnectEstablished? && c.phase.Connecting? then Connected
                           else if Announces(c, a) then Disconnecting
                           else c.phase)
            && d.downs == c.downs + (if ends then 1 else 0)
            && d.closes == c.closes + (if ends && !a.ConnectDestroyed? then 1 else 0)
            && d.ups == c.ups + (if c.phase.Connecting? && d.phase.Connected? then 1 else 0)
  {
    match a {
      case SendInLoop(message, result) => SendKeepsRest(c, message, result);
      case CallSend(message, result) => SendKeepsRest(c, message, result);
      case HandleWrite(result) => FlushEnds(c, result);
      case _ =>
    }
  }

  lemma FlushEnds(c: Conn, result: WriteResult)
    requires Interest(c)
    ensures var d, ends := Flush(c, result), !c.phase.Disconnected? && Ends(c, HandleWrite(result));
            && d.phase == (if ends then Disconnected else c.phase) && d.ups == c.ups
            && d.downs == c.downs + (if ends then 1 else 0) && d.closes == c.closes + (if ends then 1 else 0)
  {
  }

  /** In every run: reading while it is up, and the callbacks of its life. */
  predicate LifeExact(c: Conn) {
    && (c.reading <==> c.phase.Connected? || c.phase.Disconnecting?)
    && c.downs == (if c.phase.Disconnected? then 1 else 0)
    && (c.phase.Connecting? ==> c.ups == 0) && (c.reading ==> c.ups == 1)
  }

  lemma ReadingStep(c: Conn, a: Action)
    requires Interest(c) && LifeExact(c)
    ensures LifeExact(Apply(c, a))
  {
    PhaseExact(c, a);
    match a {
      case SendInLoop(message, result) => SendReads(c, message, result);
      case CallSend(message, result) => SendReads(c, message, result);
      case _ =>
    }
  }

  lemma SendReads(c: Conn, message: seq<byte>, result: WriteResult)
    ensures Send(c, message, result).reading == c.reading
  {
  }

  lemma {:induction false} RunLives(c: Conn, actions: seq<Action>)
    requires Inv(c) && LifeExact(c)
    ensures LifeExact(Run(c, actions))
    decreases |actions|
  {
    if actions != [] {
      ReadingStep(c, actions[0]);
      StepKeepsInv(c, actions[0]);
      RunLives(Apply(c, actions[0]), actions[1..]);
    }
  }

  /**
   * The output is half-closed by the task of a shutdown that finds the channel not waiting for writability, and
   * by the write that uses up the backlog of a connection that is going down; by nothing else.
   */
  lemma HalfCloses(c: Conn, a: Action)
    requires Interest(c)
    ensures var d := Apply(c, a);
            var half := (a.ShutdownInLoop? && (c.output == [] || c.phase.Disconnected?))
                        || (a.HandleWrite? && c.phase.Disconnecting? && c.output != []
                            && a.result.Wrote? && a.result.n >= |c.output|);
            d.halfCloses == c.halfCloses + if half then [HalfClose(c.phase, |d.output|)] else []
  {
    assert c.halfCloses + [] == c.halfCloses;
    match a {
      case SendInLoop(message, result) => SendKeepsRest(c, message, result);
      case CallSend(message, result) => SendKeepsRest(c, message, result);
      case HandleWrite(result) => FlushHalfCloses(c, result);
      case _ =>
    }
  }

  lemma FlushHalfCloses(c: Conn, result: WriteResult)
    requires Interest(c)
    ensures var d := Flush(c, result);
            d.halfCloses == if c.phase.Disconnecting? && c.output != [] && result.Wrote? && result.n >= |c.output|
                            then c.halfCloses + [HalfClose(Disconnecting, 0)] else c.halfCloses
    ensures c.phase.Disconnecting? && c.output != [] && result.Wrote? && result.n >= |c.output| ==>
              Flush(c, result).output == []
  {
  }

  /**
   * In every run: the last step takes the channel off the poller, unless the channel still wants something,
   * which is so exactly for a connection that is going down or has output it could not send before it came up.
   */
  lemma RemovalExact(c: Conn)
    requires Interest(c) && LifeExact(c)
    ensures var d := Apply(c, ConnectDestroyed);
            var vain := c.phase.Disconnecting? || (c.phase.Connecting? && c.output != []);
            && d.vainRemovals == c.vainRemovals + (if vain then 1 else 0)
            && d.removals == c.removals + (if vain then 0 else 1)
  {
  }

  /** No other step does. */
  lemma OnlyRemovals(c: Conn, a: Action)
    requires !a.ConnectDestroyed?
    ensures Apply(c, a).removals == c.removals && Apply(c, a).vainRemovals == c.vainRemovals
  {
    match a {
      case SendInLoop(message, result) => SendKeepsRest(c, message, result);
      case CallSend(message, result) => SendKeepsRest(c, message, result);
      case _ =>
    }
  }

  // ---------- Nothing is dropped while the peer is there ----------

  /** No write answers that the peer is gone. */
  predicate PeerStays(actions: seq<Action>) {
    forall a :: a in actions && (a.SendInLoop? || a.CallSend?) ==> !a.result.PeerGone?
  }

  predicate NoneDropped(c: Conn) {
    forall i :: 0 <= i < |c.offers| ==> !c.offers[i].dropped
  }

  lemma SendDrops(c: Conn, message: seq<byte>, result: WriteResult)
    requires Interest(c) && NoneDropped(c) && !result.PeerGone?
    ensures NoneDropped(Send(c, message, result))
  {
    if !c.phase.Disconnected? {
      SendExact(c, message, result);
      OneMoreKept(c.offers, message, Send(c, message, result).offers);
    }
  }

  lemma OneMoreKept(before: seq<Offer>, message: seq<byte>, after: seq<Offer>)
    requires after == before + [Offer(message, false)] && forall i :: 0 <= i < |before| ==> !before[i].dropped
    ensures forall i :: 0 <= i < |after| ==> !after[i].dropped
  {
  }

  lemma StepDrops(c: Conn, a: Action)
    requires Interest(c) && NoneDropped(c) && PeerStays([a])
    ensures NoneDropped(Apply(c, a))
  {
    assert a in [a];
    match a {
      case SendInLoop(message, result) => SendDrops(c, message, result);
      case CallSend(message, result) => SendDrops(c, message, result);
      case HandleWrite(result) =>
      case _ =>
    }
  }

  /** A run in which no write answers that the peer is gone has dropped nothing. */
  lemma {:induction false} RunDropsNothing(c: Conn, actions: seq<Action>)
    requires Inv(c) && NoneDropped(c) && PeerStays(actions)
    ensures NoneDropped(Run(c, actions))
    decreases |actions|
  {
    if actions != [] {
      assert actions[0] in actions && forall b :: b in actions[1..] ==> b in actions;
      StepDrops(c, actions[0]);
      StepKeepsInv(c, actions[0]);
      RunDropsNothing(Apply(c, actions[0]), actions[1..]);
    }
  }

  /** The backlog rises to the high-water mark from below it. */
  predicate Crosses(c: Conn, d: Conn) {
    c.options.highWater && |c.output| < c.options.highWaterMark <= |d.output|
  }

  /** The step from `c` to `d` puts one callback on the task queue. */
  predicate Queues(c: Conn, d: Conn, x: Notice) {
    d.notices == c.notices + [x]
  }

  /** The step hands over the last octet there is: of a message sent with nothing waiting, or of the backlog. */
  predicate Completes(c: Conn, a: Action) {
    match a
    case SendInLoop(message, result) =>
      !c.phase.Disconnected? && c.output == [] && result.Wrote? && result.n >= |message|
    case CallSend(message, result) => c.phase.Connected? && c.output == [] && result.Wrote? && result.n >= |message|
    case HandleWrite(result) =>
      !c.phase.Disconnected? && c.output != [] && result.Wrote? && result.n >= |c.output|
    case _ => false
  }

  /**
   * One callback at most: the high-water one exactly when the backlog rises to the mark from below it, with the
   * new size; write-complete, if it is wanted, exactly when there is nothing left to write any more.
   */
  predicate NoticesSound(c: Conn, a: Action, d: Conn) {
    && (d.notices == c.notices || Queues(c, d, WriteComplete) || Queues(c, d, HighWater(|d.output|)))
    && (Crosses(c, d) <==> Queues(c, d, HighWater(|d.output|)))
    && (Queues(c, d, WriteComplete) <==> c.options.writeComplete && Completes(c, a))
    && (Completes(c, a) ==> d.output == [])
  }

  lemma OneNotice(c: Conn, d: Conn, x: Notice)
    ensures Queues(c, d, x) ==> d.notices != c.notices && forall y :: y != x ==> !Queues(c, d, y)
  {
    if Queues(c, d, x) {
      assert d.notices[|c.notices|] == x;
    }
  }

  lemma NoNotice(c: Conn, a: Action, d: Conn)
    requires d.notices == c.notices && d.output == c.output && !Completes(c, a)
    ensures NoticesSound(c, a, d)
  {
  }

  lemma SendNotices(c: Conn, message: seq<byte>, result: WriteResult)
    requires Interest(c)
    ensures NoticesSound(c, SendInLoop(message, result), Send(c, message, result))
  {
    var d := Send(c, message, result);
    OneNotice(c, d, WriteComplete);
    OneNotice(c, d, HighWater(|d.output|));
  }

  lemma FlushNotices(c: Conn, result: WriteResult)
    requires Interest(c)
    ensures NoticesSound(c, HandleWrite(result), Flush(c, result))
  {
    var d := Flush(c, result);
    OneNotice(c, d, WriteComplete);
    OneNotice(c, d, HighWater(|d.output|));
  }

  lemma StepNotices(c: Conn, a: Action)
    requires Interest(c)
    ensures NoticesSound(c, a, Apply(c, a))
  {
    match a {
      case SendInLoop(message, result) => SendNotices(c, message, result);
      case CallSend(message, result) =>
        if c.phase.Connected? {
          SendNotices(c, message, result);
        } else {
          NoNotice(c, a, c);
        }
      case HandleWrite(result) => FlushNotices(c, result);
      case _ => NoNotice(c, a, Apply(c, a));
    }
  }

  /** A shutdown that had to wait is done by the write that uses the backlog up, and the phase stays. */
  lemma DrainedThenHalfClosed(c: Conn, result: WriteResult)
    requires Interest(c) && c.phase.Disconnecting? && c.output != []
    ensures var d := Apply(c, HandleWrite(result));
            if result.Wrote? && result.n >= |c.output|
            then d.phase.Disconnecting? && d.halfCloses == c.halfCloses + [HalfClose(Disconnecting, 0)]
            else d.halfCloses == c.halfCloses
  {
    assert c.output[|c.output|..] == [];
  }

  lemma {:induction false} RunAppend(c: Conn, first: seq<Action>, second: seq<Action>)
    ensures Run(c, first + second) == Run(Run(c, first), second)
    decreases |first|
  {
    if first == [] {
      assert [] + second == second;
    } else {
      assert (first + second)[1..] == first[1..] + second;
      RunAppend(Apply(c, first[0]), first[1..], second);
    }
  }

  lemma RunSnoc(c: Conn, actions: seq<Action>, a: Action)
    ensures Run(c, actions + [a]) == Apply(Run(c, actions), a)
  {
    RunAppend(c, actions, [a]);
    var d := Run(c, actions);
    assert [a][1..] == [];
    assert Run(d, [a]) == Run(Apply(d, a), []);
  }

  // ---------- Event dispatch ----------

  datatype Revents = Revents(rdin: bool, pri: bool, wrout: bool, hup: bool, rdhup: bool, err: bool, nval: bool)

  /**
   * Channel::handleEvent: the handlers that one mask lets run, in their order. `calls` is what the message
   * callback does to the connection when data has been read.
   */
  function EventActions(mask: Revents, n: int, calls: seq<Action>, result: WriteResult): seq<Action> {
    (if mask.hup && !mask.rdin then [HandleClose] else []) + (
      (if mask.err || mask.nval then [HandleError] else []) + (
        (if mask.rdin || mask.pri || mask.rdhup then [HandleRead(n)] + (if n > 0 then calls else []) else [])
        + (if mask.wrout then [HandleWrite(result)] else [])))
  }

  /** The conditions under which one event ends the connection. */
  predicate Closing(mask: Revents, n: int) {
    (mask.hup && !mask.rdin) || mask.err || mask.nval || (n <= 0 && (mask.rdin || mask.pri || mask.rdhup))
  }

  /** Whatever handlers one event runs, a living connection is closed at most once, and a dead one not again. */
  lemma EventClosesOnce(c: Conn, mask: Revents, n: int, calls: seq<Action>, result: WriteResult)
    requires Inv(c)
    ensures var d := Run(c, EventActions(mask, n, calls, result));
            && Inv(d) && Later(c, d)
            && d.closes <= c.closes + 1 && d.downs <= c.downs + 1
            && (c.phase.Disconnected? ==> d.closes == c.closes && d.downs == c.downs)
            && (Closing(mask, n) ==> d.phase.Disconnected?)
  {
    var actions := EventActions(mask, n, calls, result);
    RunKeepsInv(c, actions);
    RunAdvances(c, actions);
    CallbacksBounded(c, Run(c, actions));
    EventEnds(c, mask, n, calls, result);
  }

  lemma CallbacksBounded(c: Conn, d: Conn)
    requires Inv(c) && Inv(d) && Later(c, d)
    ensures d.closes <= c.closes + 1 && d.downs <= c.downs + 1
    ensures c.phase.Disconnected? ==> d.closes == c.closes && d.downs == c.downs
  {
  }

  lemma EventEnds(c: Conn, mask: Revents, n: int, calls: seq<Action>, result: WriteResult)
    ensures Closing(mask, n) ==> Run(c, EventActions(mask, n, calls, result)).phase.Disconnected?
  {
    var input := mask.rdin || mask.pri || mask.rdhup;
    var closing := if mask.hup && !mask.rdin then [HandleClose] else [];
    var failing := if mask.err || mask.nval then [HandleError] else [];
    var getting := if input then [HandleRead(n)] + (if n > 0 then calls else []) else [];
    var putting := if mask.wrout then [HandleWrite(result)] else [];
    var c1, d1 := TwoRuns(c, closing, failing + (getting + putting));
    var c2, d2 := TwoRuns(c1, failing, getting + putting);
    var c3, d3 := TwoRuns(c2, getting, putting);
    OneCloses(c, HandleClose);
    OneCloses(c1, HandleError);
    if n <= 0 {
      OneCloses(c2, HandleRead(n));
      assert [HandleRead(n)] + [] == [HandleRead(n)];
    }
  }

  /**
   * An event that does not end the connection by itself: what was read goes to the message callback first, then
   * the backlog is written if the kernel wants more; nothing else happens.
   */
  lemma EventExact(c: Conn, mask: Revents, n: int, calls: seq<Action>, result: WriteResult)
    requires !Closing(mask, n)
    ensures var read := if mask.rdin || mask.pri || mask.rdhup then Run(c, calls) else c;
            Run(c, EventActions(mask, n, calls, result))
            == if mask.wrout then Apply(read, HandleWrite(result)) else read
  {
    var input := mask.rdin || mask.pri || mask.rdhup;
    var getting := if input then [HandleRead(n)] + calls else [];
    var putting := if mask.wrout then [HandleWrite(result)] else [];
    assert EventActions(mask, n, calls, result) == getting + putting;
    RunAppend(c, getting, putting);
    assert input ==> getting[1..] == calls;
    var read := if input then Run(c, calls) else c;
    assert [HandleWrite(result)][1..] == [];
    assert Run(read, [HandleWrite(result)]) == Run(Apply(read, HandleWrite(result)), []);
  }

  lemma OneCloses(c: Conn, a: Action)
    requires a.HandleClose? || a.HandleError? || (a.HandleRead? && a.n <= 0)
    ensures Run(c, [a]).phase.Disconnected?
  {
    assert [a][1..] == [];
    assert Run(c, [a]) == Run(Apply(c, a), []);
  }

  lemma TwoRuns(c: Conn, first: seq<Action>, second: seq<Action>) returns (mid: Conn, last: Conn)
    ensures mid == Run(c, first) && last == Run(mid, second) == Run(c, first + second)
    ensures mid.phase.Disconnected? ==> last.phase.Disconnected?
  {
    RunAppend(c, first, second);
    mid := Run(c, first);
    last := Run(mid, second);
    if mid.phase.Disconnected? {
      StaysDown(mid, second);
    }
  }

  lemma {:induction false} StaysDown(c: Conn, actions: seq<Action>)
    requires c.phase.Disconnected?
    ensures Run(c, actions).phase.Disconnected?
    decreases |actions|
  {
    if actions != [] {
      StaysDown(Apply(c, actions[0]), actions[1..]);
    }
  }

  // ---------- Why the conditions are needed ----------

  /**
   * The exact condition: in every run, the task of a shutdown half-closes over unsent output if and only if the
   * connection has been disconnected before and left output behind.
   */
  lemma HalfCloseExact(options: Options, actions: seq<Action>)
    ensures var c := Run(New(options), actions);
            var d := Apply(c, ShutdownInLoop);
            (d.halfCloses != c.halfCloses && c.output != []) <==> (c.phase.Disconnected? && c.output != [])
  {
    NewConnection(options);
    RunKeepsInv(New(options), actions);
    var c := Run(New(options), actions);
    assert |(c.halfCloses + [HalfClose(c.phase, |c.output|)])| == |c.halfCloses| + 1;
  }

  /** After the disconnection a queued half-close does go out over a non-empty output buffer. */
  lemma HalfCloseAfterDisconnection(options: Options)
    ensures var actions := [ConnectEstablished(true), SendInLoop([1], WouldBlock), Shutdown, HandleClose,
                            ShutdownInLoop];
            Run(New(options), actions).halfCloses == [HalfClose(Disconnected, 1)]
  {
    var c1 := Apply(New(options), ConnectEstablished(true));
    var c2 := Apply(c1, SendInLoop([1], WouldBlock));
    var c3 := Apply(c2, Shutdown);
    var c4 := Apply(c3, HandleClose);
    var c5 := Apply(c4, ShutdownInLoop);
    assert c2.output == [1] && c5.halfCloses == [HalfClose(Disconnected, 1)];
    RunFive(New(options), ConnectEstablished(true), SendInLoop([1], WouldBlock), Shutdown, HandleClose, ShutdownInLoop);
  }

  lemma RunFive(c: Conn, a1: Action, a2: Action, a3: Action, a4: Action, a5: Action)
    ensures Run(c, [a1, a2, a3, a4, a5]) == Apply(Apply(Apply(Apply(Apply(c, a1), a2), a3), a4), a5)
  {
    var c1 := Apply(c, a1);
    var c2 := Apply(c1, a2);
    var c3 := Apply(c2, a3);
    var c4 := Apply(c3, a4);
    assert [a1, a2, a3, a4, a5][1..] == [a2, a3, a4, a5] && [a2, a3, a4, a5][1..] == [a3, a4, a5];
    assert [a3, a4, a5][1..] == [a4, a5] && [a4, a5][1..] == [a5] && [a5][1..] == [];
    assert Run(c4, [a5]) == Run(Apply(c4, a5), []);
    assert Run(c3, [a4, a5]) == Run(c4, [a5]);
    assert Run(c2, [a3, a4, a5]) == Run(c3, [a4, a5]);
  }

  // ---------- The class ----------

  lemma FlushCases(c: Conn, result: WriteResult, n: nat)
    requires c.writing && n == if result.Wrote? then Min(result.n, |c.output|) else 0
    ensures n <= |c.output|
    ensures Flush(c, result) == if n == 0 then Close(c)
                                else if |Flushed(c, n).output| == 0 then Idle(Flushed(c, n))
                                else Flushed(c, n)
  {
  }

  class TcpConnection {
    const options: Options
    const output: ByteBuffer
    var phase: Phase
    var reading: bool
    var writing: bool
    ghost var wire: seq<byte>
    ghost var offers: seq<Offer>
    ghost var notices: seq<Notice>
    ghost var halfCloses: seq<HalfClose>
    ghost var ups: nat
    ghost var downs: nat
    ghost var closes: nat
    ghost var removals: nat
    ghost var vainRemovals: nat

    ghost predicate Valid()
      reads this, output, output.data
    {
      output.Valid()
    }

    ghost function View(): Conn
      requires Valid()
      reads this, output, output.data
    {
      Conn(options, phase, reading, writing, output.Contents(), wire, offers, notices, halfCloses,
           ups, downs, closes, removals, vainRemovals)
    }

    constructor (options: Options)
      ensures Valid() && fresh(output) && fresh(output.data)
      ensures View() == New(options)
    {
      this.options := options;
      output := new ByteBuffer();
      phase, reading, writing := Connecting, false, false;
      wire, offers, notices, halfCloses := [], [], [], [];
      ups, downs, closes, removals, vainRemovals := 0, 0, 0, 0, 0;
    }

    method ConnectEstablishedTask(enabled: bool)
      requires Valid()
      modifies this
      ensures Valid() && View() == Apply(old(View()), ConnectEstablished(enabled))
    {
      if phase != Connecting {
        return;
      }
      phase := Connected;
      reading := true;
      if !enabled {
        OnClose();
        return;
      }
      ups := ups + 1;
    }

    method ConnectDestroyedTask()
      requires Valid()
      modifies this
      ensures Valid() && View() == Apply(old(View()), ConnectDestroyed)
    {
      if phase == Connected {
        phase := Disconnected;
        reading, writing := false, false;
        downs := downs + 1;
      }
      RemoveFromLoop();
    }

    /** Channel::remove. */
    method RemoveFromLoop()
      requires Valid()
      modifies `removals, `vainRemovals
      ensures Valid() && View() == Unregister(old(View()))
    {
      if reading || writing {
        vainRemovals := vainRemovals + 1;
      } else {
        removals := removals + 1;
      }
    }

    /** handleClose: the down callback and then the close callback. */
    method OnClose()
      requires Valid()
      modifies this
      ensures Valid() && View() == Close(old(View()))
    {
      if phase == Disconnected {
        return;
      }
      phase := Disconnected;
      reading, writing := false, false;
      downs := downs + 1;
      closes := closes + 1;
    }

    method TryToWrite(message: seq<byte>, result: WriteResult) returns (nwrote: nat, faultError: bool)
      requires Valid()
      modifies this
      ensures Valid() && (View(), nwrote, faultError) == Attempt(old(View()), message, result)
    {
      nwrote, faultError := 0, false;
      var complete := false;
      if !writing && output.ReadableBytes() == 0 {
        match result {
          case Wrote(n) =>
            nwrote := Min(n, |message|);
            complete := |message| - nwrote == 0 && options.writeComplete;
          case PeerGone => faultError := true;
          case _ =>
        }
      }
      wire := wire + message[..nwrote];
      offers := offers + [Offer(message, faultError)];
      if complete {
        notices := notices + [WriteComplete];
      }
    }

    method Enqueue(rest: seq<byte>)
      requires Valid()
      modifies this, output, output.data
      ensures Valid() && (output.data == old(output.data) || fresh(output.data))
      ensures View() == Buffer(old(View()), rest)
    {
      if |rest| > 0 {
        var oldLen := output.ReadableBytes();
        if oldLen + |rest| >= options.highWaterMark && oldLen < options.highWaterMark && options.highWater {
          notices := notices + [HighWater(oldLen + |rest|)];
        }
        output.Append(rest);
        if !writing {
          writing := true;
        }
      }
    }

    /** sendInLoop; `result` is what write(2) answers if it is called at all. */
    method SendNow(message: seq<byte>, result: WriteResult)
      requires Valid()
      modifies this, output, output.data
      ensures Valid() && (output.data == old(output.data) || fresh(output.data))
      ensures View() == Apply(old(View()), SendInLoop(message, result))
    {
      if phase == Disconnected {
        return;
      }
      var nwrote, faultError := TryToWrite(message, result);
      if !faultError {
        Enqueue(message[nwrote..]);
      }
    }

    /** send, in the loop thread. */
    method SendMessage(message: seq<byte>, result: WriteResult)
      requires Valid()
      modifies this, output, output.data
      ensures Valid() && (output.data == old(output.data) || fresh(output.data))
      ensures View() == Apply(old(View()), CallSend(message, result))
    {
      if phase == Connected {
        SendNow(message, result);
      }
    }

    method BacklogWritten()
      requires Valid()
      modifies this
      ensures Valid() && View() == Idle(old(View()))
    {
      writing := false;
      if options.writeComplete {
        notices := notices + [WriteComplete];
      }
      if phase == Disconnecting {
        ShutdownNow();
      }
    }

    /** The first `n` octets of the backlog leave. */
    method Drain(n: nat)
      requires Valid() && n <= output.ReadableBytes()
      modifies `wire, output
      ensures Valid() && output.data == old(output.data)
      ensures View() == Flushed(old(View()), n) && output.ReadableBytes() == |View().output|
    {
      var sent := output.Peek(n);
      wire := wire + sent;
      var _ := output.Retrieve(n);
    }

    method OnWrite(result: WriteResult)
      requires Valid()
      modifies this, output
      ensures Valid() && output.data == old(output.data)
      ensures View() == Apply(old(View()), HandleWrite(result))
    {
      if writing {
        var n := if result.Wrote? then Min(result.n, output.ReadableBytes()) else 0;
        ghost var c := View();
        FlushCases(c, result, n);
        if n > 0 {
          Drain(n);
          if output.ReadableBytes() == 0 {
            BacklogWritten();
          }
        } else {
          OnClose();
        }
      }
    }

    method ShutdownNow()
      requires Valid()
      modifies this
      ensures Valid() && View() == Apply(old(View()), ShutdownInLoop)
    {
      if !writing {
        halfCloses := halfCloses + [HalfClose(phase, output.ReadableBytes())];
      }
    }

    /** The check and the set, as one step; true when shutdownInLoop is to be run in the loop. */
    method RequestShutdown() returns (run: bool)
      requires Valid()
      modifies this
      ensures Valid() && View() == Apply(old(View()), Shutdown)
      ensures run == old(phase).Connected?
    {
      run := phase == Connected;
      if run {
        phase := Disconnecting;
      }
    }

    /** The check and the set, as one step; true when forceCloseInLoop is to be queued. */
    method RequestForceClose() returns (run: bool)
      requires Valid()
      modifies this
      ensures Valid() && View() == Apply(old(View()), ForceClose)
      ensures run == (old(phase).Connected? || old(phase).Disconnecting?)
    {
      run := phase == Connected || phase == Disconnecting;
      if run {
        phase := Disconnecting;
      }
    }

    method ForceCloseNow()
      requires Valid()
      modifies this
      ensures Valid() && View() == Apply(old(View()), ForceCloseInLoop)
    {
      if phase == Connected || phase == Disconnecting {
        OnClose();
      }
    }
  }
}
