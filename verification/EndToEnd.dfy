/** A sending connection, the bytes between, a receiving session, and its replies. */
module EndToEnd {
  import opened Bytes
  import opened ByteBuffer
  import opened ChatSession
  import opened Connection
  import EventLoop
  import opened Framing
  import opened Sequences
  import opened Stream

  /** Every message handed to the connection was packed by TcpSession::send. */
  predicate AllPacked(offers: seq<Offer>, ps: seq<Parcel>) {
    |offers| == |ps| && forall i :: 0 <= i < |offers| ==> offers[i].message == Packed(ps[i])
  }

  /** The parcels of the offers that were not dropped. */
  function Kept(offers: seq<Offer>, ps: seq<Parcel>): (kept: seq<Parcel>)
    requires |offers| == |ps|
    ensures |kept| <= |ps| && forall p :: p in kept ==> p in ps
    ensures (forall i :: 0 <= i < |offers| ==> !offers[i].dropped) ==> kept == ps
  {
    if ps == [] then []
    else (if offers[0].dropped then [] else [ps[0]]) + Kept(offers[1..], ps[1..])
  }

  lemma {:induction false} TakenIsWire(offers: seq<Offer>, ps: seq<Parcel>)
    requires AllPacked(offers, ps)
    ensures Flatten(Taken(offers)) == Wire(Kept(offers, ps))
    decreases |offers|
  {
    if offers != [] {
      TakenIsWire(offers[1..], ps[1..]);
      var rest, kept := Taken(offers[1..]), Kept(offers[1..], ps[1..]);
      assert ([offers[0].message] + rest)[1..] == rest && ([ps[0]] + kept)[1..] == kept;
      assert [] + rest == rest && [] + kept == kept;
    }
  }

  lemma KeptSendable(offers: seq<Offer>, ps: seq<Parcel>)
    requires |offers| == |ps| && AllSendable(ps)
    ensures AllSendable(Kept(offers, ps))
  {
    var kept := Kept(offers, ps);
    assert forall i :: 0 <= i < |kept| ==> kept[i] in kept;
  }

  // ---------- One direction ----------

  /** What left a sender and what waits in its output buffer are the packed parcels it did not drop. */
  lemma SenderStream(options: Options, actions: seq<Action>, ps: seq<Parcel>)
    requires AllPacked(Run(New(options), actions).offers, ps)
    ensures var c := Run(New(options), actions);
            c.wire + c.output == Wire(Kept(c.offers, ps))
  {
    var c := Run(New(options), actions);
    NewConnection(options);
    RunKeepsInv(New(options), actions);
    assert Conserved(c);
    TakenIsWire(c.offers, ps);
  }

  lemma PrefixReceived(st: State, ps: seq<Parcel>, sent: seq<byte>, waiting: seq<byte>, chunks: seq<seq<byte>>)
    requires AllSendable(ps) && sent + waiting == Wire(ps) && Flatten(chunks) <= sent
    ensures |Flatten(chunks)| <= |Wire(ps)|
    ensures Feed(Process, st, [], chunks) == PrefixPass(st, ps, |Flatten(chunks)|)
    ensures st.log <= PrefixPass(st, ps, |Flatten(chunks)|).st.log <= st.log + Messages(ps)
  {
    var got := Flatten(chunks);
    assert |sent + waiting| == |sent| + |waiting|;
    assert got == Wire(ps)[..|got|];
    FragmentationIrrelevant(Process, st, [], chunks);
    assert [] + got == got;
    DeliversPrefix(st, ps, |got|);
  }

  lemma AllReceived(st: State, ps: seq<Parcel>, chunks: seq<seq<byte>>)
    requires AllSendable(ps) && Flatten(chunks) == Wire(ps) && Digest(st, ps).status.Waiting?
    ensures Feed(Process, st, [], chunks) == Pass(Bodies(ps), Digest(st, ps).st, Waiting, [])
    ensures Digest(st, ps).st.log == st.log + Messages(ps)
  {
    var got, d := Flatten(chunks), Digest(st, ps);
    FragmentationIrrelevant(Process, st, [], chunks);
    assert [] + got == got && got + [] == got;
    DeliversMessages(st, ps, []);
    DigestLogs(st, ps);
    assert ps[..|ps|] == ps;
    AfterOne(Process, d.st, [], Bodies(ps));
  }

  /**
   * A sender in any run, with any partial writes, errors and closes, and a receiver that has got some first
   * part of what left the sender, in chunks of any sizes: packages, session, reason to stop and unread bytes
   * are those that the messages sent and not dropped determine, and the log is a prefix of those messages,
   * each whole and in order.
   */
  lemma PrefixDelivered(options: Options, actions: seq<Action>, ps: seq<Parcel>, st: State, chunks: seq<seq<byte>>)
    requires AllPacked(Run(New(options), actions).offers, ps) && AllSendable(ps)
    requires Flatten(chunks) <= Run(New(options), actions).wire
    ensures var kept := Kept(Run(New(options), actions).offers, ps);
            var n := |Flatten(chunks)|;
            && n <= |Wire(kept)|
            && Feed(Process, st, [], chunks) == PrefixPass(st, kept, n)
            && st.log <= PrefixPass(st, kept, n).st.log <= st.log + Messages(kept)
  {
    SenderStream(options, actions, ps);
    var c := Run(New(options), actions);
    KeptSendable(c.offers, ps);
    PrefixReceived(st, Kept(c.offers, ps), c.wire, c.output, chunks);
  }

  /**
   * Once the backlog is written out and everything has arrived, and no package is too big, is refused or
   * makes its handler throw, every message that was not dropped has been delivered, and nothing is unread.
   */
  lemma AllDelivered(options: Options, actions: seq<Action>, ps: seq<Parcel>, st: State, chunks: seq<seq<byte>>)
    requires AllPacked(Run(New(options), actions).offers, ps) && AllSendable(ps)
    requires Run(New(options), actions).output == [] && Flatten(chunks) == Run(New(options), actions).wire
    ensures var kept := Kept(Run(New(options), actions).offers, ps);
            Digest(st, kept).status.Waiting? ==>
              var pass := Feed(Process, st, [], chunks);
              pass == Pass(Bodies(kept), Digest(st, kept).st, Waiting, []) && pass.st.log == st.log + Messages(kept)
  {
    SenderStream(options, actions, ps);
    var c := Run(New(options), actions);
    KeptSendable(c.offers, ps);
    assert c.wire + [] == c.wire;
    if Digest(st, Kept(c.offers, ps)).status.Waiting? {
      AllReceived(st, Kept(c.offers, ps), chunks);
    }
  }

  /** As long as no write answers that the peer is gone, wire and output are all the messages offered. */
  lemma NothingLost(options: Options, actions: seq<Action>, ps: seq<Parcel>)
    requires AllPacked(Run(New(options), actions).offers, ps) && PeerStays(actions)
    ensures var c := Run(New(options), actions);
            Kept(c.offers, ps) == ps && c.wire + c.output == Wire(ps)
  {
    NewConnection(options);
    RunDropsNothing(New(options), actions);
    SenderStream(options, actions, ps);
  }

  /**
   * And once the backlog is written out and everything has arrived, and no package is too big, is refused or
   * makes its handler throw, all of them have been delivered.
   */
  lemma EverythingDelivered(options: Options, actions: seq<Action>, ps: seq<Parcel>, st: State,
                            chunks: seq<seq<byte>>)
    requires AllPacked(Run(New(options), actions).offers, ps) && AllSendable(ps) && PeerStays(actions)
    requires Run(New(options), actions).output == [] && Flatten(chunks) == Run(New(options), actions).wire
    ensures Digest(st, ps).status.Waiting? ==>
              var pass := Feed(Process, st, [], chunks);
              pass == Pass(Bodies(ps), Digest(st, ps).st, Waiting, []) && pass.st.log == st.log + Messages(ps)
  {
    NothingLost(options, actions, ps);
    AllDelivered(options, actions, ps, st, chunks);
  }

  /** The receiver of the chunks is where the parcels not dropped lead to, and its log is a part of their messages. */
  ghost predicate Reaches(st: State, offers: seq<Offer>, ps: seq<Parcel>, chunks: seq<seq<byte>>)
    requires |offers| == |ps|
  {
    var kept, n := Kept(offers, ps), |Flatten(chunks)|;
    && n <= |Wire(kept)|
    && Feed(Process, st, [], chunks) == PrefixPass(st, kept, n)
    && st.log <= PrefixPass(st, kept, n).st.log <= st.log + Messages(kept)
  }

  // ---------- What a run offers ----------

  /** An offer; `own` are the calls of send in the loop thread, the others came by a task of the loop. */
  datatype Sent = Sent(own: bool, message: seq<byte>)

  /** Whether the step makes an offer of that kind: the loop thread's own, or one by a task. */
  predicate Offers(c: Conn, a: Action, own: bool) {
    if own then a.CallSend? && c.phase.Connected? else a.SendInLoop? && !c.phase.Disconnected?
  }

  /** The offers that a run of a connection makes. */
  function SentIn(c: Conn, actions: seq<Action>): seq<Sent>
    decreases |actions|
  {
    if actions == [] then []
    else
      var a := actions[0];
      (if Offers(c, a, false) then [Sent(false, a.message)]
       else if Offers(c, a, true) then [Sent(true, a.message)]
       else [])
      + SentIn(Apply(c, a), actions[1..])
  }

  function Texts(sent: seq<Sent>): (ms: seq<seq<byte>>)
    ensures |ms| == |sent| && forall i :: 0 <= i < |ms| ==> ms[i] == sent[i].message
  {
    seq(|sent|, i requires 0 <= i < |sent| => sent[i].message)
  }

  function Offered(offers: seq<Offer>): (ms: seq<seq<byte>>)
    ensures |ms| == |offers| && forall i :: 0 <= i < |ms| ==> ms[i] == offers[i].message
  {
    seq(|offers|, i requires 0 <= i < |offers| => offers[i].message)
  }

  /** The messages among them that are the loop thread's own, or that are not. */
  function Select(sent: seq<Sent>, own: bool): (ms: seq<seq<byte>>)
    ensures |ms| <= |sent|
  {
    if sent == [] then []
    else (if sent[0].own == own then [sent[0].message] else []) + Select(sent[1..], own)
  }

  /** The messages of the calls of send in the loop thread. */
  function Called(actions: seq<Action>): seq<seq<byte>> {
    if actions == [] then [] else (if actions[0].CallSend? then [actions[0].message] else []) + Called(actions[1..])
  }

  /** The messages of the sends that come by tasks. */
  function Posted(actions: seq<Action>): seq<seq<byte>> {
    if actions == [] then [] else (if actions[0].SendInLoop? then [actions[0].message] else []) + Posted(actions[1..])
  }

  function Packs(ps: seq<Parcel>): (ms: seq<seq<byte>>)
    ensures |ms| == |ps| && forall i :: 0 <= i < |ms| ==> ms[i] == Packed(ps[i])
  {
    seq(|ps|, i requires 0 <= i < |ps| => Packed(ps[i]))
  }

  lemma OneStepSends(c: Conn, a: Action)
    ensures Offered(Apply(c, a).offers) == Offered(c.offers) + Texts(SentIn(c, [a]))
  {
    assert [a][1..] == [] && SentIn(Apply(c, a), []) == [];
    assert Offered(c.offers) + [] == Offered(c.offers);
    if a.SendInLoop? || a.CallSend? {
      SendOffers(c, a.message, a.result);
    }
  }

  lemma SendOffers(c: Conn, message: seq<byte>, result: WriteResult)
    ensures var d := Connection.Send(c, message, result);
            Offered(d.offers) == if c.phase.Disconnected? then Offered(c.offers) else Offered(c.offers) + [message]
  {
  }

  lemma PhaseStep(c: Conn, a: Action)
    ensures c.phase.Disconnected? ==> Apply(c, a).phase.Disconnected?
    ensures !c.phase.Connecting? && !c.phase.Connected? ==> !Apply(c, a).phase.Connected?
    ensures !c.phase.Connecting? ==> !Apply(c, a).phase.Connecting?
  {
  }

  lemma SentCons(c: Conn, actions: seq<Action>)
    requires actions != []
    ensures SentIn(c, actions) == SentIn(c, [actions[0]]) + SentIn(Apply(c, actions[0]), actions[1..])
  {
    var a := actions[0];
    assert [a][1..] == [] && SentIn(Apply(c, a), []) == [];
    var one := if Offers(c, a, false) then [Sent(false, a.message)]
               else if Offers(c, a, true) then [Sent(true, a.message)]
               else [];
    assert SentIn(c, [a]) == one + [] == one;
  }

  lemma TextsAppend(first: seq<Sent>, second: seq<Sent>)
    ensures Texts(first + second) == Texts(first) + Texts(second)
  {
  }

  /** The offers of a connection grow by exactly those. */
  lemma {:induction false} OffersMade(c: Conn, actions: seq<Action>)
    ensures Offered(Run(c, actions).offers) == Offered(c.offers) + Texts(SentIn(c, actions))
    decreases |actions|
  {
    if actions == [] {
      assert Offered(c.offers) + [] == Offered(c.offers);
    } else {
      OffersMade(Apply(c, actions[0]), actions[1..]);
      OneMoreStep(c, actions);
    }
  }

  lemma OneMoreStep(c: Conn, actions: seq<Action>)
    requires actions != []
    ensures Offered(Apply(c, actions[0]).offers) + Texts(SentIn(Apply(c, actions[0]), actions[1..]))
         == Offered(c.offers) + Texts(SentIn(c, actions))
  {
    var one, later := SentIn(c, [actions[0]]), SentIn(Apply(c, actions[0]), actions[1..]);
    OneStepSends(c, actions[0]);
    SentCons(c, actions);
    TextsAppend(one, later);
    Associate(Offered(c.offers), Texts(one), Texts(later));
  }

  lemma SelectCons(s: Sent, later: seq<Sent>, own: bool)
    ensures Select([s] + later, own) == (if s.own == own then [s.message] else []) + Select(later, own)
  {
    assert ([s] + later)[1..] == later;
  }

  lemma SelectStep(c: Conn, actions: seq<Action>, own: bool)
    requires actions != []
    ensures var a, later := actions[0], Select(SentIn(Apply(c, actions[0]), actions[1..]), own);
            Select(SentIn(c, actions), own) == if Offers(c, a, own) then [a.message] + later else later
  {
    var a, later := actions[0], SentIn(Apply(c, actions[0]), actions[1..]);
    if Offers(c, a, true) || Offers(c, a, false) {
      SelectCons(Sent(a.CallSend?, a.message), later, own);
    }
    assert [] + later == later && [] + Select(later, own) == Select(later, own);
  }

  lemma CalledCons(actions: seq<Action>)
    requires actions != []
    ensures Called(actions) == if actions[0].CallSend? then [actions[0].message] + Called(actions[1..])
                               else Called(actions[1..])
  {
    assert [] + Called(actions[1..]) == Called(actions[1..]);
  }

  lemma PostedCons(actions: seq<Action>)
    requires actions != []
    ensures Posted(actions) == if actions[0].SendInLoop? then [actions[0].message] + Posted(actions[1..])
                               else Posted(actions[1..])
  {
    assert [] + Posted(actions[1..]) == Posted(actions[1..]);
  }

  lemma SamePrefix<T>(x: T, a: seq<T>, b: seq<T>)
    requires a <= b
    ensures [x] + a <= [x] + b
  {
  }

  /**
   * On a connection that has been established, the loop thread's own offers are the first of its calls, and
   * all of them as long as it is connected.
   */
  lemma {:induction false} OwnMade(c: Conn, actions: seq<Action>)
    requires !c.phase.Connecting?
    ensures Select(SentIn(c, actions), true) <= Called(actions)
    ensures Run(c, actions).phase.Connected? ==> Select(SentIn(c, actions), true) == Called(actions)
    ensures !c.phase.Connected? ==> !Run(c, actions).phase.Connected? && Select(SentIn(c, actions), true) == []
    decreases |actions|
  {
    if actions != [] {
      PhaseStep(c, actions[0]);
      OwnMade(Apply(c, actions[0]), actions[1..]);
      SelectStep(c, actions, true);
      CalledCons(actions);
      if Offers(c, actions[0], true) {
        SamePrefix(actions[0].message, Select(SentIn(Apply(c, actions[0]), actions[1..]), true), Called(actions[1..]));
      }
    }
  }

  /** The offers that come by tasks are the first of them, and all until the disconnection. */
  lemma {:induction false} PostedMade(c: Conn, actions: seq<Action>)
    ensures Select(SentIn(c, actions), false) <= Posted(actions)
    ensures !Run(c, actions).phase.Disconnected? ==> Select(SentIn(c, actions), false) == Posted(actions)
    ensures c.phase.Disconnected? ==> Run(c, actions).phase.Disconnected? && Select(SentIn(c, actions), false) == []
    decreases |actions|
  {
    if actions != [] {
      PhaseStep(c, actions[0]);
      PostedMade(Apply(c, actions[0]), actions[1..]);
      SelectStep(c, actions, false);
      PostedCons(actions);
      if Offers(c, actions[0], false) {
        SamePrefix(actions[0].message, Select(SentIn(Apply(c, actions[0]), actions[1..]), false), Posted(actions[1..]));
      }
    }
  }

  // ---------- Requests and replies ----------

  /** The replies from number `k` on, as they are packed. */
  function ReplyParcels(world: World, replies: seq<Message>, k: nat): (ps: seq<Parcel>)
    requires k <= |replies|
    ensures |ps| == |replies| - k
    ensures forall i :: 0 <= i < |ps| ==> ps[i] == Parcel(replies[k + i], world.octets(k + i)[4..])
  {
    seq(|replies| - k, i requires 0 <= i < |replies| - k => Parcel(replies[k + i], world.octets(k + i)[4..]))
  }

  lemma CallOffers(c: Conn, world: World, k: nat, m: Message, qs: seq<Parcel>)
    requires AllPacked(c.offers, qs)
    ensures var d := Apply(c, Call(world, k, m));
            if !c.phase.Connected? then d == c
            else d.phase.Connected? && AllPacked(d.offers, qs + [Parcel(m, world.octets(k)[4..])])
  {
    var p := Parcel(m, world.octets(k)[4..]);
    if c.phase.Connected? {
      var d := Apply(c, Call(world, k, m));
      OneOffer(c, Packed(p), world.result(k));
      PackedSnoc(c.offers, d.offers, qs, p);
    }
  }

  lemma OneOffer(c: Conn, message: seq<byte>, result: WriteResult)
    requires c.phase.Connected?
    ensures var d := Apply(c, CallSend(message, result));
            d.phase.Connected? && |d.offers| == |c.offers| + 1 && c.offers <= d.offers
            && d.offers[|c.offers|].message == message
  {
  }

  lemma PackedSnoc(before: seq<Offer>, after: seq<Offer>, qs: seq<Parcel>, p: Parcel)
    requires AllPacked(before, qs) && |after| == |before| + 1 && before <= after
    requires after[|before|].message == Packed(p)
    ensures AllPacked(after, qs + [p])
  {
  }

  lemma ReplyParcelsSnoc(world: World, replies: seq<Message>, k: nat, m: Message)
    requires k <= |replies|
    ensures ReplyParcels(world, replies + [m], k)
         == ReplyParcels(world, replies, k) + [Parcel(m, world.octets(|replies|)[4..])]
  {
  }

  /** A connected session offers exactly its replies, in order; any other connection does not change. */
  lemma {:induction false} RepliesOffered(c: Conn, world: World, replies: seq<Message>, k: nat, qs: seq<Parcel>)
    requires k <= |replies| && AllPacked(c.offers, qs)
    ensures var d := Run(c, Calls(world, replies, k));
            if !c.phase.Connected? then d == c
            else d.phase.Connected? && AllPacked(d.offers, qs + ReplyParcels(world, replies, k))
    decreases |replies|
  {
    if k == |replies| {
      NoReplies(c, world, replies);
      assert qs + ReplyParcels(world, replies, k) == qs;
    } else {
      var n := |replies| - 1;
      var before, m := replies[..n], replies[n];
      assert before + [m] == replies;
      RepliesOffered(c, world, before, k, qs);
      OneMoreReply(c, world, before, k, m);
      var d, rs := Run(c, Calls(world, before, k)), ReplyParcels(world, before, k);
      CallOffers(d, world, n, m, if c.phase.Connected? then qs + rs else qs);
      ReplyParcelsSnoc(world, before, k, m);
      Associate(qs, rs, [Parcel(m, world.octets(n)[4..])]);
    }
  }

  /** What a session that has made some replies, and now makes `more`, hands to the connection. */
  function Answers(st: State, more: seq<Message>): seq<seq<byte>> {
    Packs(ReplyParcels(st.world, st.replies + more, |st.replies|))
  }

  /**
   * The offers in the steps `later` have in them a first part of `answers`, and all of them as long as the
   * connection stays connected; and all that ever left it, or waits to, are the offers not dropped.
   */
  ghost predicate Answered(c: Conn, later: seq<Action>, answers: seq<seq<byte>>) {
    var sent, d := SentIn(c, later), Run(c, later);
    && Offered(d.offers) == Offered(c.offers) + Texts(sent)
    && Select(sent, true) <= answers
    && (d.phase.Connected? ==> Select(sent, true) == answers)
    && d.wire + d.output == Flatten(Taken(d.offers))
  }

  lemma {:induction false} RepliesFollow(server: Options, before: seq<Action>, later: seq<Action>)
    requires !Run(New(server), before).phase.Connecting?
    ensures Answered(Run(New(server), before), later, Called(later))
  {
    var c := Run(New(server), before);
    RunAppend(New(server), before, later);
    OffersMade(c, later);
    OwnMade(c, later);
    NewConnection(server);
    RunKeepsInv(New(server), before + later);
  }

  /**
   * A request's way there and the reply's way back: for a client in any run and a server's connection in any
   * run, when some first part of what left the client has arrived in any chunks and been handled, the server
   * is where the client's messages lead to. `later` are the server's steps since, in which the session calls
   * for its replies, with any other steps in between. What the connection was offered in them, by other
   * threads too, has in it a first part of those replies, in order, and all of them as long as it stays
   * connected; and all that ever left it, or waits to, are the offers not dropped, each whole and in order.
   */
  lemma {:induction false} RequestsAnswered(
      client: Options, requests: seq<Action>, ps: seq<Parcel>, chunks: seq<seq<byte>>,
      server: Options, before: seq<Action>, later: seq<Action>, st: State, replies: seq<Message>)
    requires AllPacked(Run(New(client), requests).offers, ps) && AllSendable(ps)
    requires Flatten(chunks) <= Run(New(client), requests).wire
    requires Feed(Process, st, [], chunks).st.replies == st.replies + replies
    requires !Run(New(server), before).phase.Connecting?
    requires Called(later) == Answers(st, replies)
    ensures Reaches(st, Run(New(client), requests).offers, ps, chunks)
    ensures Answered(Run(New(server), before), later, Answers(st, replies))
  {
    PrefixDelivered(client, requests, ps, st, chunks);
    RepliesFollow(server, before, later);
  }

  /** The read and, when it delivers bytes, the message callback. */
  method ReadAndProcess(input: ByteBuffer, session: ChatSession, result: ReadResult)
    returns (n: int, ghost bodies: seq<seq<byte>>, status: Status)
    requires session.Valid() && input.Valid()
    requires input != session.conn.output && input.data != session.conn.output.data
    requires result.Received? ==> |result.bytes| <= input.ReadLimit()
    modifies input, input.data, session, session.conn, session.conn.output, session.conn.output.data
    ensures session.Valid() && input.Valid()
    ensures n == if result.Received? then |result.bytes| else -1
    ensures n > 0 ==> (Pass(bodies, session.View(), status, input.Contents())
                       == Drain(Process, old(session.View()), old(input.Contents()) + result.bytes))
    ensures n <= 0 ==> session.View() == old(session.View()) && input.Contents() == old(input.Contents())
    ensures n <= 0 ==> status == Waiting
    ensures old(session.replies) <= session.replies
    ensures session.conn.View()
         == Run(old(session.conn.View()), Calls(session.world, session.replies, |old(session.replies)|))
  {
    ghost var s := input.Contents();
    bodies, status := [], Waiting;
    NoReplies(session.conn.View(), session.world, session.replies);
    n := input.ReadFd(result);
    if n > 0 {
      bodies, status := session.OnRead(input);
    } else {
      assert s + [] == s;
    }
  }

  /** The steps of the connection in one readable event. */
  function EventSteps(n: int, calls: seq<Action>, status: Status): seq<Action> {
    [HandleRead(n)] + if n > 0 then calls + (if status.Closing? then [ForceClose] else []) else []
  }

  /**
   * TcpConnection::handleRead with ChatSession::onRead as its message callback, on a connection whose input
   * buffer is `input`: the bytes read are fed to the session, which replies on the same connection; end of
   * file and errors close the connection, and a session that gives up asks for a close.
   */
  method OnReadable(input: ByteBuffer, session: ChatSession, result: ReadResult)
    returns (n: int, ghost bodies: seq<seq<byte>>, status: Status)
    requires session.Valid() && input.Valid()
    requires input != session.conn.output && input.data != session.conn.output.data
    requires result.Received? ==> |result.bytes| <= input.ReadLimit()
    modifies input, input.data, session, session.conn, session.conn.output, session.conn.output.data
    ensures session.Valid() && input.Valid()
    ensures n == if result.Received? then |result.bytes| else -1
    ensures n > 0 ==> (Pass(bodies, session.View(), status, input.Contents())
                       == Drain(Process, old(session.View()), old(input.Contents()) + result.bytes))
    ensures n <= 0 ==> session.View() == old(session.View()) && input.Contents() == old(input.Contents())
    ensures old(session.replies) <= session.replies
    ensures session.conn.View()
         == Run(old(session.conn.View()),
                EventSteps(n, Calls(session.world, session.replies, |old(session.replies)|), status))
  {
    ghost var c, k := session.conn.View(), |session.replies|;
    n, bodies, status := ReadAndProcess(input, session, result);
    StepsOfEvent(c, n, Calls(session.world, session.replies, k), status);
    if n <= 0 {
      NoReplies(c, session.world, session.replies);
      session.conn.OnClose();
    } else if status.Closing? {
      var _ := session.conn.RequestForceClose();
    }
  }

  lemma StepsOfEvent(c: Conn, n: int, calls: seq<Action>, status: Status)
    ensures Run(c, EventSteps(n, calls, status)) ==
            if n <= 0 then Close(c)
            else if status.Closing? then Apply(Run(c, calls), ForceClose) else Run(c, calls)
  {
    var steps := EventSteps(n, calls, status);
    if n > 0 {
      assert calls + [] == calls;
      RunSnoc(c, calls, ForceClose);
    } else {
      assert Run(Close(c), []) == Close(c);
    }
    assert steps[1..] == if n > 0 then calls + (if status.Closing? then [ForceClose] else []) else [];
  }

  lemma {:induction false} CalledAppend(first: seq<Action>, second: seq<Action>)
    ensures Called(first + second) == Called(first) + Called(second)
    decreases |first|
  {
    if first == [] {
      assert [] + second == second && [] + Called(second) == Called(second);
    } else {
      assert (first + second)[1..] == first[1..] + second;
      CalledAppend(first[1..], second);
      CalledCons(first);
      CalledCons(first + second);
      if first[0].CallSend? {
        Associate([first[0].message], Called(first[1..]), Called(second));
      }
    }
  }

  lemma {:induction false} AllCalled(calls: seq<Action>)
    requires forall i :: 0 <= i < |calls| ==> calls[i].CallSend?
    ensures |Called(calls)| == |calls| && forall i :: 0 <= i < |calls| ==> Called(calls)[i] == calls[i].message
    decreases |calls|
  {
    if calls != [] {
      AllCalled(calls[1..]);
      CalledCons(calls);
    }
  }

  lemma CallsAreReplies(world: World, replies: seq<Message>, k: nat)
    requires k <= |replies|
    ensures Called(Calls(world, replies, k)) == Packs(ReplyParcels(world, replies, k))
  {
    AllCalled(Calls(world, replies, k));
    assert forall i :: 0 <= i < |replies| - k ==>
             Calls(world, replies, k)[i].message == Packed(ReplyParcels(world, replies, k)[i]);
  }

  /** The calls of send in the steps of a readable event are the replies that the session has made in it. */
  lemma EventReplies(n: int, world: World, replies: seq<Message>, k: nat, status: Status)
    requires k <= |replies|
    ensures Called(EventSteps(n, Calls(world, replies, k), status))
         == if n > 0 then Packs(ReplyParcels(world, replies, k)) else []
  {
    var calls, closing := Calls(world, replies, k), if status.Closing? then [ForceClose] else [];
    CallsAreReplies(world, replies, k);
    CalledAppend(calls, closing);
    CalledAppend([HandleRead(n)], if n > 0 then calls + closing else []);
    assert [HandleRead(n)][1..] == [] && [ForceClose][1..] == [];
  }

  // ---------- Forced closes ----------

  /** A close that was asked for comes about, whatever happens before the task for it runs. */
  lemma ForceCloseEnds(c: Conn, between: seq<Action>)
    requires Connection.Inv(c) && (c.phase.Connected? || c.phase.Disconnecting?)
    ensures Apply(c, ForceClose).phase.Disconnecting?
    ensures Run(Apply(c, ForceClose), between + [ForceCloseInLoop]).phase.Disconnected?
  {
    PhaseExact(c, ForceClose);
    StepKeepsInv(c, ForceClose);
    var d := Apply(c, ForceClose);
    RunAdvances(d, between);
    RunKeepsInv(d, between);
    RunSnoc(d, between, ForceCloseInLoop);
    PhaseExact(Run(d, between), ForceCloseInLoop);
  }

  /**
   * A session that is handed something it refuses, or a frame that is too big, has its connection closed: the
   * event in which it gives up asks for it, and once the task has run the connection has ended, whatever its
   * replies and other steps have done in between. A session that does not give up asks for nothing.
   */
  lemma RefusedIsClosed(options: Options, before: seq<Action>, n: int, world: World, replies: seq<Message>, k: nat,
                        status: Status, between: seq<Action>)
    requires n > 0 && k <= |replies| && Run(New(options), before).phase.Connected?
    ensures var c := Run(New(options), before);
            var d := Run(c, EventSteps(n, Calls(world, replies, k), status));
            if status.Closing? then
              d.phase.Disconnecting? && Run(d, between + [ForceCloseInLoop]).phase.Disconnected?
            else d.phase.Connected?
  {
    var c, calls := Run(New(options), before), Calls(world, replies, k);
    var d := Run(c, EventSteps(n, calls, status));
    NewConnection(options);
    RunKeepsInv(New(options), before);
    StillConnected(c, world, replies, k);
    StepsOfEvent(c, n, calls, status);
    if status.Closing? {
      RunKeepsInv(c, calls);
      ForceCloseEnds(Run(c, calls), between);
    }
  }

  /** Replying does not end a connection. */
  lemma {:induction false} StillConnected(c: Conn, world: World, replies: seq<Message>, k: nat)
    requires c.phase.Connected? && k <= |replies|
    ensures Run(c, Calls(world, replies, k)).phase.Connected?
    decreases |replies|
  {
    if k == |replies| {
      NoReplies(c, world, replies);
    } else {
      var n := |replies| - 1;
      StillConnected(c, world, replies[..n], k);
      assert replies[..n] + [replies[n]] == replies;
      OneMoreReply(c, world, replies[..n], k, replies[n]);
      OneOffer(Run(c, Calls(world, replies[..n], k)), Frame(Body(replies[n], world.octets(n)[4..])), world.result(n));
    }
  }

  // ---------- Sending from other threads ----------

  /** A task of the loop, as far as one connection is concerned: a send of a parcel on it, or anything else. */
  datatype Task = SendTask(p: Parcel) | OtherTask

  /** The parcels of the tasks, in order. */
  function Parcels(tasks: seq<Task>): (ps: seq<Parcel>)
    ensures |ps| <= |tasks|
  {
    if tasks == [] then []
    else (if tasks[0].SendTask? then [tasks[0].p] else []) + Parcels(tasks[1..])
  }

  lemma {:induction false} ParcelsOfFirst(tasks: seq<Task>, n: nat)
    requires n <= |tasks|
    ensures Parcels(tasks[..n]) <= Parcels(tasks)
    decreases n
  {
    if n > 0 {
      ParcelsOfFirst(tasks[1..], n - 1);
      assert tasks[..n][1..] == tasks[1..][..n - 1];
    }
  }

  /** The tasks that the loop has executed, in the order of execution. */
  function Done(tasks: seq<Task>, executed: seq<nat>): (done: seq<Task>)
    requires forall k :: 0 <= k < |executed| ==> executed[k] < |tasks|
    ensures |done| == |executed| && forall k :: 0 <= k < |done| ==> done[k] == tasks[executed[k]]
  {
    seq(|executed|, k requires 0 <= k < |executed| => tasks[executed[k]])
  }

  /** Two streams of parcels, put together as the offers came. */
  function Merge(sent: seq<Sent>, posted: seq<Parcel>, own: seq<Parcel>): (ps: seq<Parcel>)
    requires |Select(sent, false)| <= |posted| && |Select(sent, true)| <= |own|
    ensures |ps| == |sent| && forall p :: p in ps ==> p in posted || p in own
  {
    if sent == [] then []
    else if sent[0].own then [own[0]] + Merge(sent[1..], posted, own[1..])
    else [posted[0]] + Merge(sent[1..], posted[1..], own)
  }

  lemma ConsPrefix<T>(x: T, later: seq<T>, all: seq<T>)
    requires [x] + later <= all
    ensures all != [] && x == all[0] && later <= all[1..]
  {
    assert all == [x] + later + all[|later| + 1..];
    assert later == ([x] + later)[1..];
  }

  lemma NextPacked(ms: seq<seq<byte>>, others: seq<seq<byte>>, m: seq<byte>, ps: seq<Parcel>)
    requires [m] + ms <= Packs(ps)
    ensures ps != [] && m == Packed(ps[0]) && ms <= Packs(ps[1..])
    ensures [] + others == others
  {
    ConsPrefix(m, ms, Packs(ps));
    assert Packs(ps)[1..] == Packs(ps[1..]);
  }

  lemma TextsCons(first: Sent, later: seq<Sent>)
    ensures Texts([first] + later) == [first.message] + Texts(later)
  {
  }

  lemma PacksOfCons(p: Parcel, ps: seq<Parcel>)
    ensures Packs([p] + ps) == [Packed(p)] + Packs(ps)
  {
  }

  lemma {:induction false} MergePacked(sent: seq<Sent>, posted: seq<Parcel>, own: seq<Parcel>)
    requires Select(sent, false) <= Packs(posted) && Select(sent, true) <= Packs(own)
    ensures Texts(sent) == Packs(Merge(sent, posted, own))
    decreases |sent|
  {
    if sent != [] {
      var first, later := sent[0], sent[1..];
      assert sent == [first] + later;
      SelectCons(first, later, true);
      SelectCons(first, later, false);
      TextsCons(first, later);
      if first.own {
        NextPacked(Select(later, true), Select(later, false), first.message, own);
        MergePacked(later, posted, own[1..]);
        PacksOfCons(own[0], Merge(later, posted, own[1..]));
      } else {
        NextPacked(Select(later, false), Select(later, true), first.message, posted);
        MergePacked(later, posted[1..], own);
        PacksOfCons(posted[0], Merge(later, posted[1..], own));
      }
    }
  }

  /** The connection's sends that come by tasks are those of the tasks that a run of the loop has executed. */
  ghost predicate PostedBy(loop: seq<EventLoop.Action>, tasks: seq<Task>, actions: seq<Action>) {
    var s := EventLoop.Run(EventLoop.START, loop);
    && |s.history| <= |tasks|
    && (forall k :: 0 <= k < |s.executed| ==> s.executed[k] < |tasks|)
    && Posted(actions) == Packs(Parcels(Done(tasks, s.executed)))
  }

  /**
   * Any number of threads, the loop's queue, a connection and the receiver. Task `i` of the queue is
   * `tasks[i]`, the connection's sends that come by tasks are those of the tasks executed, `own` are the loop
   * thread's own sends, and any other steps may be in between. Whatever the interleaving, what the connection
   * is offered are a first part of the tasks' parcels in the order of enqueueing and the loop thread's own, put
   * together as they came; and the receiver is where the messages of those that were not dropped lead to, as
   * far as they have arrived.
   */
  lemma ThreadsDelivered(loop: seq<EventLoop.Action>, options: Options, actions: seq<Action>, tasks: seq<Task>,
                         own: seq<Parcel>, st: State, chunks: seq<seq<byte>>)
    requires AllSendable(Parcels(tasks)) && AllSendable(own)
    requires PostedBy(loop, tasks, actions)
    requires Select(SentIn(New(options), actions), true) == Packs(own)
    requires Flatten(chunks) <= Run(New(options), actions).wire
    ensures var posted := Select(SentIn(New(options), actions), false);
            && posted <= Packs(Parcels(tasks))
            && (!Run(New(options), actions).phase.Disconnected? ==> posted == Posted(actions))
    ensures var ps := Merge(SentIn(New(options), actions), Parcels(tasks), own);
            && AllPacked(Run(New(options), actions).offers, ps)
            && Reaches(st, Run(New(options), actions).offers, ps, chunks)
  {
    PostedMade(New(options), actions);
    DoneInOrder(loop, tasks);
    OffersMerged(options, actions, Parcels(tasks), own);
    PrefixDelivered(options, actions, Merge(SentIn(New(options), actions), Parcels(tasks), own), st, chunks);
  }

  /** Whatever the interleaving, the tasks executed are the first ones enqueued. */
  lemma DoneInOrder(loop: seq<EventLoop.Action>, tasks: seq<Task>)
    requires var s := EventLoop.Run(EventLoop.START, loop);
             |s.history| <= |tasks| && forall k :: 0 <= k < |s.executed| ==> s.executed[k] < |tasks|
    ensures var s := EventLoop.Run(EventLoop.START, loop);
            && Done(tasks, s.executed) <= tasks
            && Packs(Parcels(Done(tasks, s.executed))) <= Packs(Parcels(tasks))
  {
    EventLoop.ExactlyOnceInOrder(loop);
    var done := EventLoop.Run(EventLoop.START, loop).executed;
    assert Done(tasks, done) == tasks[..|done|];
    ParcelsOfFirst(tasks, |done|);
  }

  lemma OffersMerged(options: Options, actions: seq<Action>, posted: seq<Parcel>, own: seq<Parcel>)
    requires var sent := SentIn(New(options), actions);
             Select(sent, false) <= Packs(posted) && Select(sent, true) <= Packs(own)
    requires AllSendable(posted) && AllSendable(own)
    ensures var ps := Merge(SentIn(New(options), actions), posted, own);
            AllPacked(Run(New(options), actions).offers, ps) && AllSendable(ps)
  {
    var sent := SentIn(New(options), actions);
    MergePacked(sent, posted, own);
    OffersFromStart(options, actions);
    OffersPacked(Run(New(options), actions).offers, Merge(sent, posted, own));
    SendableTogether(Merge(sent, posted, own), posted, own);
  }

  lemma OffersFromStart(options: Options, actions: seq<Action>)
    ensures Offered(Run(New(options), actions).offers) == Texts(SentIn(New(options), actions))
  {
    OffersMade(New(options), actions);
    assert Offered([]) + Texts(SentIn(New(options), actions)) == Texts(SentIn(New(options), actions));
  }

  lemma SendableTogether(ps: seq<Parcel>, posted: seq<Parcel>, own: seq<Parcel>)
    requires AllSendable(posted) && AllSendable(own) && forall p :: p in ps ==> p in posted || p in own
    ensures AllSendable(ps)
  {
    assert forall i :: 0 <= i < |ps| ==> ps[i] in ps;
  }

  lemma OffersPacked(offers: seq<Offer>, ps: seq<Parcel>)
    requires Offered(offers) == Packs(ps)
    ensures AllPacked(offers, ps)
  {
    forall i | 0 <= i < |offers|
      ensures offers[i].message == Packed(ps[i])
    {
      assert offers[i].message == Offered(offers)[i];
    }
  }
}
