/** From messages through frames and fragments back to messages. */
module Stream {
  import opened Bytes
  import opened ByteBuffer
  import opened ChatSession
  import opened Connection
  import opened Framing
  import opened Sequences

  // ---------- Receiving in fragments ----------

  /** One scatter read, and one run of the reading loop; `later` is what has not been read yet. */
  method ReceiveSome(session: ChatSession, buffer: ByteBuffer, chunk: seq<byte>, ghost later: seq<byte>,
                     ghost before: seq<seq<byte>>)
    returns (ghost bodies: seq<seq<byte>>, status: Status)
    requires session.Valid() && buffer.Valid() && 1 <= |chunk| <= buffer.ReadLimit()
    requires buffer != session.conn.output && buffer.data != session.conn.output.data
    modifies session, buffer, buffer.data, session.conn, session.conn.output, session.conn.output.data
    ensures session.Valid() && buffer.Valid() && (buffer.data == old(buffer.data) || fresh(buffer.data))
    ensures session.conn.output.data == old(session.conn.output.data) || fresh(session.conn.output.data)
    ensures buffer.data != session.conn.output.data
    ensures old(Drain(Process, session.View(), buffer.Contents() + (chunk + later)).After(before))
         == if status.Waiting? then Drain(Process, session.View(), buffer.Contents() + later).After(bodies)
            else Pass(bodies, session.View(), status, buffer.Contents() + later)
    ensures status.Waiting? ==> NextFrame(buffer.Contents()).Wait?
    ensures old(session.replies) <= session.replies
    ensures session.conn.View()
         == Run(old(session.conn.View()), Calls(session.world, session.replies, |old(session.replies)|))
  {
    ghost var st, s := session.View(), buffer.Contents();
    Associate(s, chunk, later);
    ReadThenMore(st, s + chunk, later, before);
    DrainConserves(Process, st, s + chunk);
    var _ := buffer.ReadFd(Received(chunk));
    bodies, status := session.OnRead(buffer);
    bodies := before + bodies;
  }

  lemma ReadThenMore(st: State, s: seq<byte>, later: seq<byte>, before: seq<seq<byte>>)
    ensures var pass := Drain(Process, st, s);
            Drain(Process, st, s + later).After(before) ==
              if pass.status.Waiting? then Drain(Process, pass.st, pass.rest + later).After(before + pass.bodies)
              else Pass(before + pass.bodies, pass.st, pass.status, pass.rest + later)
  {
    var pass := Drain(Process, st, s);
    DrainAppend(Process, st, s, later);
    if pass.status.Waiting? {
      AfterAfter(Drain(Process, pass.st, pass.rest + later), before, pass.bodies);
    }
  }

  /** A chunk that is too long for one read. */
  lemma SplitChunk(chunks: seq<seq<byte>>, limit: nat)
    requires chunks != [] && limit <= |chunks[0]|
    ensures Flatten(chunks) == chunks[0][..limit] + Flatten([chunks[0][limit..]] + chunks[1..])
  {
    var rest := [chunks[0][limit..]] + chunks[1..];
    assert rest[1..] == chunks[1..];
    assert chunks[0] == chunks[0][..limit] + chunks[0][limit..];
    Associate(chunks[0][..limit], chunks[0][limit..], Flatten(chunks[1..]));
  }

  /**
   * What arrives chunk by chunk is read as far as one scatter read goes, and the reading loop is run. In the
   * end that is one pass over all the bytes, and the connection has sent the replies.
   */
  method Receive(session: ChatSession, buffer: ByteBuffer, chunks: seq<seq<byte>>)
    returns (ghost bodies: seq<seq<byte>>, status: Status, ghost unread: seq<byte>)
    requires session.Valid() && buffer.Valid() && NextFrame(buffer.Contents()).Wait?
    requires buffer != session.conn.output && buffer.data != session.conn.output.data
    modifies session, buffer, buffer.data, session.conn, session.conn.output, session.conn.output.data
    ensures session.Valid() && buffer.Valid()
    ensures Pass(bodies, session.View(), status, buffer.Contents() + unread)
         == Drain(Process, old(session.View()), old(buffer.Contents()) + Flatten(chunks))
    ensures old(session.replies) <= session.replies
    ensures session.conn.View()
         == Run(old(session.conn.View()), Calls(session.world, session.replies, |old(session.replies)|))
  {
    ghost var c, first := session.conn.View(), session.replies;
    ghost var whole := Drain(Process, session.View(), buffer.Contents() + Flatten(chunks));
    bodies, status, unread := [], Waiting, Flatten(chunks);
    AfterNothing(whole);
    NoReplies(c, session.world, first);
    var todo := chunks;
    while todo != [] && status.Waiting?
      invariant session.Valid() && buffer.Valid() && buffer.data != session.conn.output.data
      invariant buffer.data == old(buffer.data) || fresh(buffer.data)
      invariant session.conn.output.data == old(session.conn.output.data) || fresh(session.conn.output.data)
      invariant unread == Flatten(todo) && (status.Waiting? ==> NextFrame(buffer.Contents()).Wait?)
      invariant status.Waiting? ==> Drain(Process, session.View(), buffer.Contents() + unread).After(bodies) == whole
      invariant !status.Waiting? ==> Pass(bodies, session.View(), status, buffer.Contents() + unread) == whole
      invariant first <= session.replies
      invariant session.conn.View() == Run(c, Calls(session.world, session.replies, |first|))
      decreases |todo|, if todo == [] then 0 else |todo[0]|
    {
      var limit := buffer.ReadLimit();
      var chunk, rest := todo[0], todo[1..];
      if |chunk| > limit {
        SplitChunk(todo, limit);
        chunk, rest := chunk[..limit], [chunk[limit..]] + rest;
      }
      unread := Flatten(rest);
      if chunk != [] {
        ghost var replied := session.replies;
        bodies, status := ReceiveSome(session, buffer, chunk, unread, bodies);
        MoreReplies(c, session.world, replied, session.replies, |first|);
      } else {
        assert [] + unread == unread;
      }
      todo := rest;
    }
    if status.Waiting? {
      assert buffer.Contents() + [] == buffer.Contents() && bodies + [] == bodies;
    }
  }

  // ---------- Streams that a sender produced ----------

  /** A message as sent, with the two octets of its package that the sender leaves unset. */
  datatype Parcel = Parcel(m: Message, junk: seq<byte>)

  predicate Sendable(p: Parcel) {
    |p.junk| == 2 && BodyLength(p.m) <= INT_MAX
  }

  predicate AllSendable(ps: seq<Parcel>) {
    forall i :: 0 <= i < |ps| ==> Sendable(ps[i])
  }

  function Packed(p: Parcel): seq<byte> {
    Frame(Body(p.m, p.junk))
  }

  function Wire(ps: seq<Parcel>): seq<byte> {
    if ps == [] then [] else Packed(ps[0]) + Wire(ps[1..])
  }

  function Messages(ps: seq<Parcel>): (ms: seq<Message>)
    ensures |ms| == |ps| && forall i :: 0 <= i < |ps| ==> ms[i] == ps[i].m
  {
    seq(|ps|, i requires 0 <= i < |ps| => ps[i].m)
  }

  /** The packages that are handed over. */
  function Bodies(ps: seq<Parcel>): (bs: seq<seq<byte>>)
    ensures |bs| == |ps| && forall i :: 0 <= i < |ps| ==> bs[i] == Body(ps[i].m, ps[i].junk)
  {
    seq(|ps|, i requires 0 <= i < |ps| => Body(ps[i].m, ps[i].junk))
  }

  /** Where the receiver is, why it stopped, and how many parcels were handed over. */
  datatype Digested = Digested(st: State, status: Status, taken: nat)

  /** The receiver at the level of messages: no bytes, no buffers. */
  function Digest(st: State, ps: seq<Parcel>): (d: Digested)
    ensures d.taken <= |ps| && (d.status.Waiting? ==> d.taken == |ps|)
    decreases |ps|
  {
    if ps == [] then Digested(st, Waiting, 0)
    else if BodyLength(ps[0].m) > MAX_PACKAGE_SIZE then Digested(st, Closing, 0)
    else
      var (next, verdict) := Dispatch(st, ps[0].m);
      if !verdict.Accepted? then Digested(next, StatusOf(verdict), 1)
      else
        var d := Digest(next, ps[1..]);
        d.(taken := 1 + d.taken)
  }

  /** One parcel in front of more bytes. */
  lemma DrainParcel(st: State, p: Parcel, after: seq<byte>)
    requires Sendable(p)
    ensures Drain(Process, st, Packed(p) + after) ==
            if BodyLength(p.m) > MAX_PACKAGE_SIZE then Pass([], st, Closing, Packed(p) + after)
            else AfterPackage(Process, [Body(p.m, p.junk)], Dispatch(st, p.m), after)
  {
    var body := Body(p.m, p.junk);
    BodySize(p.m, p.junk);
    FrameRoundTrip(body, after);
    ProcessBody(st, p.m, p.junk);
    AfterOne(Process, st, Packed(p) + after, []);
    AfterNothing(Drain(Process, st, Packed(p) + after));
    assert [] + [body] == [body];
  }

  /** The pass over a stream of parcels and the bytes behind it, when the messages come to `d`. */
  function DeliveredAs(d: Digested, ps: seq<Parcel>, after: seq<byte>): Pass<State>
    requires d.taken <= |ps|
  {
    if d.status.Waiting? then Drain(Process, d.st, after).After(Bodies(ps))
    else Pass(Bodies(ps[..d.taken]), d.st, d.status, Wire(ps[d.taken..]) + after)
  }

  /** The same, as the messages determine it. */
  function Delivered(st: State, ps: seq<Parcel>, after: seq<byte>): Pass<State> {
    DeliveredAs(Digest(st, ps), ps, after)
  }

  lemma BodiesCons(ps: seq<Parcel>, n: nat)
    requires 0 < n <= |ps|
    ensures Bodies(ps[..n]) == [Body(ps[0].m, ps[0].junk)] + Bodies(ps[1..][..n - 1])
    ensures ps[n..] == ps[1..][n - 1..]
  {
  }

  lemma AllTaken(ps: seq<Parcel>)
    ensures ps[..|ps|] == ps
  {
  }

  lemma DeliveredCons(d: Digested, ps: seq<Parcel>, after: seq<byte>)
    requires ps != [] && d.taken <= |ps| - 1 && (d.status.Waiting? ==> d.taken == |ps| - 1)
    ensures DeliveredAs(d.(taken := 1 + d.taken), ps, after)
         == DeliveredAs(d, ps[1..], after).After([Body(ps[0].m, ps[0].junk)])
  {
    BodiesCons(ps, 1 + d.taken);
    if d.status.Waiting? {
      AllTaken(ps);
      AllTaken(ps[1..]);
      AfterAfter(Drain(Process, d.st, after), [Body(ps[0].m, ps[0].junk)], Bodies(ps[1..]));
    }
  }

  /** One more parcel in front, which was accepted. */
  lemma DeliveredStep(st: State, ps: seq<Parcel>, after: seq<byte>)
    requires ps != [] && BodyLength(ps[0].m) <= MAX_PACKAGE_SIZE && Dispatch(st, ps[0].m).1.Accepted?
    ensures Delivered(st, ps, after)
         == Delivered(Dispatch(st, ps[0].m).0, ps[1..], after).After([Body(ps[0].m, ps[0].junk)])
  {
    DeliveredCons(Digest(Dispatch(st, ps[0].m).0, ps[1..]), ps, after);
  }

  /**
   * End to end: the receiver of a stream of parcels does what the message-level receiver does, with the same
   * packages, for the same reason to stop, and with the same bytes left.
   */
  lemma {:induction false} DeliversMessages(st: State, ps: seq<Parcel>, after: seq<byte>)
    requires AllSendable(ps)
    ensures Drain(Process, st, Wire(ps) + after) == Delivered(st, ps, after)
    decreases |ps|
  {
    if ps == [] {
      assert [] + after == after;
      AfterNothing(Drain(Process, st, after));
      assert Bodies(ps) == [];
    } else {
      Associate(Packed(ps[0]), Wire(ps[1..]), after);
      DrainParcel(st, ps[0], Wire(ps[1..]) + after);
      var (next, verdict) := Dispatch(st, ps[0].m);
      if BodyLength(ps[0].m) > MAX_PACKAGE_SIZE {
        assert Bodies(ps[..0]) == [] && ps[0..] == ps;
      } else if verdict.Accepted? {
        DeliversMessages(next, ps[1..], after);
        DeliveredStep(st, ps, after);
      } else {
        assert Bodies(ps[..1]) == [Body(ps[0].m, ps[0].junk)];
      }
    }
  }

  /** The message-level receiver logs exactly the messages handed over, in order, and only adds to its replies. */
  lemma {:induction false} DigestLogs(st: State, ps: seq<Parcel>)
    ensures var d := Digest(st, ps);
            d.st.log == st.log + Messages(ps[..d.taken]) && d.st.world == st.world && st.replies <= d.st.replies
    decreases |ps|
  {
    if ps != [] && BodyLength(ps[0].m) <= MAX_PACKAGE_SIZE {
      var (next, verdict) := Dispatch(st, ps[0].m);
      if verdict.Accepted? {
        DigestLogs(next, ps[1..]);
        var n := Digest(next, ps[1..]).taken;
        assert Messages(ps[..n + 1]) == [ps[0].m] + Messages(ps[1..][..n]);
        Associate(st.log, [ps[0].m], Messages(ps[1..][..n]));
      } else {
        assert Messages(ps[..1]) == [ps[0].m];
      }
    } else {
      assert Messages(ps[..0]) == [] && st.log + [] == st.log;
    }
  }

  /** What a session that nobody has logged in to says to each message. */
  function Refusals(ps: seq<Parcel>): (rs: seq<Message>)
    ensures |rs| == |ps|
    ensures forall i :: 0 <= i < |rs| ==> rs[i] == Message(ps[i].m.cmd, ps[i].m.seqno, AsBytes(NOT_LOGGED_IN))
  {
    seq(|ps|, i requires 0 <= i < |ps| => Message(ps[i].m.cmd, ps[i].m.seqno, AsBytes(NOT_LOGGED_IN)))
  }

  lemma RefusalsCons(before: seq<Message>, ps: seq<Parcel>)
    requires ps != []
    ensures before + Refusals(ps)
         == before + [Message(ps[0].m.cmd, ps[0].m.seqno, AsBytes(NOT_LOGGED_IN))] + Refusals(ps[1..])
  {
  }

  lemma OneRefusal(st: State, m: Message)
    requires !st.login && m.cmd != MSG_TYPE_LOGIN
    ensures var (d, v) := Dispatch(st, m);
            && v.Accepted? && !d.login
            && d.replies == st.replies + [Message(m.cmd, m.seqno, AsBytes(NOT_LOGGED_IN))]
  {
    DispatchVerdict(st, m);
    DispatchReplies(st, m);
    var d := Dispatch(st, m).0;
    var added := Added(st, d);
    assert added[0] in added && added == [added[0]];
    assert d.replies == st.replies + added;
  }

  /** Messages that come before any login are all read, and each is answered once, in order, that it must log in. */
  lemma {:induction false} ToldToLogIn(st: State, ps: seq<Parcel>)
    requires !st.login
    requires forall i :: 0 <= i < |ps| ==> ps[i].m.cmd != MSG_TYPE_LOGIN && BodyLength(ps[i].m) <= MAX_PACKAGE_SIZE
    ensures var d := Digest(st, ps);
            d.status.Waiting? && !d.st.login && d.st.replies == st.replies + Refusals(ps)
    decreases |ps|
  {
    if ps == [] {
      assert st.replies + Refusals(ps) == st.replies;
    } else {
      var m := ps[0].m;
      OneRefusal(st, m);
      ToldToLogIn(Dispatch(st, m).0, ps[1..]);
      RefusalsCons(st.replies, ps);
    }
  }

  /** A reply to one of these messages: it has its number, and its command but for a kick. */
  predicate AnswersOneOf(r: Message, ms: seq<Message>) {
    exists m :: m in ms && r.seqno == m.seqno && (r.cmd == m.cmd || r.cmd == MSG_TYPE_KICKUSER)
  }

  predicate AllAnswer(rs: seq<Message>, ms: seq<Message>) {
    forall r :: r in rs ==> AnswersOneOf(r, ms)
  }

  lemma AnswersOfOne(st: State, m: Message)
    ensures var d := Dispatch(st, m).0;
            st.replies <= d.replies && AllAnswer(Added(st, d), [m])
  {
    DispatchVerdict(st, m);
    if Dispatch(st, m).1.Accepted? {
      DispatchReplies(st, m);
    }
    assert m in [m];
  }

  lemma AllAnswerAppend(rs: seq<Message>, later: seq<Message>, ms: seq<Message>, more: seq<Message>)
    requires AllAnswer(rs, ms) && AllAnswer(later, more)
    ensures AllAnswer(rs + later, ms + more)
  {
    forall r | r in rs + later
      ensures AnswersOneOf(r, ms + more)
    {
      var m :| (m in ms || m in more) && r.seqno == m.seqno && (r.cmd == m.cmd || r.cmd == MSG_TYPE_KICKUSER);
      assert m in ms + more;
    }
  }

  lemma AddedTwice(a: State, b: State, c: State)
    requires a.replies <= b.replies <= c.replies
    ensures a.replies <= c.replies && Added(a, c) == Added(a, b) + Added(b, c)
  {
  }

  lemma MessagesCons(ps: seq<Parcel>, n: nat)
    requires n < |ps|
    ensures Messages(ps[..n + 1]) == [ps[0].m] + Messages(ps[1..][..n])
  {
  }

  /** No session replies to anything but a message that it has been handed. */
  lemma {:induction false} EveryReplyAnswers(st: State, ps: seq<Parcel>)
    ensures var d := Digest(st, ps);
            st.replies <= d.st.replies && AllAnswer(Added(st, d.st), Messages(ps[..d.taken]))
    decreases |ps|
  {
    if ps != [] && BodyLength(ps[0].m) <= MAX_PACKAGE_SIZE {
      var (next, verdict) := Dispatch(st, ps[0].m);
      AnswersOfOne(st, ps[0].m);
      if verdict.Accepted? {
        EveryReplyAnswers(next, ps[1..]);
        var later := Digest(next, ps[1..]);
        MessagesCons(ps, later.taken);
        AllAnswerAppend(Added(st, next), Added(next, later.st), [ps[0].m], Messages(ps[1..][..later.taken]));
        AddedTwice(st, next, later.st);
      } else {
        assert Messages(ps[..1]) == [ps[0].m];
      }
    }
  }

  // ---------- The first part of a stream ----------

  /** How many whole frames of the stream `n` octets hold. */
  function WholeFrames(ps: seq<Parcel>, n: nat): (k: nat)
    ensures k <= |ps|
  {
    if ps == [] || n < |Packed(ps[0])| then 0 else 1 + WholeFrames(ps[1..], n - |Packed(ps[0])|)
  }

  lemma WireCut(ps: seq<Parcel>, k: nat)
    requires 0 < k <= |ps|
    ensures Wire(ps[..k]) == Packed(ps[0]) + Wire(ps[1..][..k - 1]) && ps[k..] == ps[1..][k - 1..]
  {
    assert ps[..k][1..] == ps[1..][..k - 1];
  }

  lemma {:induction false} WireSplit(ps: seq<Parcel>, k: nat)
    requires k <= |ps|
    ensures Wire(ps) == Wire(ps[..k]) + Wire(ps[k..])
    decreases k
  {
    if k > 0 {
      WireCut(ps, k);
      WireSplit(ps[1..], k - 1);
      Associate(Packed(ps[0]), Wire(ps[1..][..k - 1]), Wire(ps[k..]));
    } else {
      assert ps[..0] == [] && ps[0..] == ps;
      assert [] + Wire(ps) == Wire(ps);
    }
  }

  /** No whole frame is left over. */
  lemma {:induction false} WholeFramesExact(ps: seq<Parcel>, n: nat)
    requires n <= |Wire(ps)|
    ensures var k := WholeFrames(ps, n);
            |Wire(ps[..k])| <= n && (k < |ps| ==> n < |Wire(ps[..k])| + |Packed(ps[k])|)
    decreases |ps|
  {
    var k := WholeFrames(ps, n);
    if k > 0 {
      WholeFramesExact(ps[1..], n - |Packed(ps[0])|);
      WireCut(ps, k);
    }
  }

  /** The bytes behind the last whole frame among the first `n`. */
  function Tail(ps: seq<Parcel>, n: nat): seq<byte>
    requires n <= |Wire(ps)|
  {
    WholeFramesExact(ps, n);
    Wire(ps)[|Wire(ps[..WholeFrames(ps, n)])|..n]
  }

  lemma TakeBehind(all: seq<byte>, head: seq<byte>, rest: seq<byte>, n: nat)
    requires all == head + rest && |head| <= n <= |all|
    ensures all[..n] == head + all[|head|..n] && all[|head|..n] == rest[..n - |head|]
  {
  }

  lemma TailBehind(ps: seq<Parcel>, n: nat)
    requires n <= |Wire(ps)|
    ensures Wire(ps)[..n] == Wire(ps[..WholeFrames(ps, n)]) + Tail(ps, n)
  {
    var k := WholeFrames(ps, n);
    WholeFramesExact(ps, n);
    WireSplit(ps, k);
    TakeBehind(Wire(ps), Wire(ps[..k]), Wire(ps[k..]), n);
  }

  /** The tail is a proper prefix of the next frame. */
  lemma TailIsPart(ps: seq<Parcel>, n: nat)
    requires n <= |Wire(ps)|
    ensures var k, tail := WholeFrames(ps, n), Tail(ps, n);
            if k == |ps| then tail == [] else |tail| < |Packed(ps[k])| && tail == Packed(ps[k])[..|tail|]
  {
    var k, tail := WholeFrames(ps, n), Tail(ps, n);
    WholeFramesExact(ps, n);
    WireSplit(ps, k);
    TakeBehind(Wire(ps), Wire(ps[..k]), Wire(ps[k..]), n);
    if k < |ps| {
      TakeFront(Packed(ps[k]), Wire(ps[k..][1..]), |tail|);
    }
  }

  lemma TakeFront(a: seq<byte>, b: seq<byte>, n: nat)
    requires n <= |a|
    ensures (a + b)[..n] == a[..n]
  {
  }

  /** The tail shows the header of a package that is too big. */
  predicate Ruled(ps: seq<Parcel>, n: nat)
    requires n <= |Wire(ps)|
  {
    var k := WholeFrames(ps, n);
    k < |ps| && |Tail(ps, n)| >= FRAME_HEADER && BodyLength(ps[k].m) > MAX_PACKAGE_SIZE
  }

  lemma TailWaits(ps: seq<Parcel>, n: nat)
    requires AllSendable(ps) && n <= |Wire(ps)|
    ensures NextFrame(Tail(ps, n)) == if Ruled(ps, n) then TooBig else Wait
  {
    var k, tail := WholeFrames(ps, n), Tail(ps, n);
    TailIsPart(ps, n);
    if k < |ps| {
      BodySize(ps[k].m, ps[k].junk);
      PartialFrame(Body(ps[k].m, ps[k].junk), |tail|);
    }
  }

  /** The pass over the first `n` octets of a stream, as the messages of its whole frames determine it. */
  function PrefixPass(st: State, ps: seq<Parcel>, n: nat): Pass<State>
    requires n <= |Wire(ps)|
  {
    var whole, tail := ps[..WholeFrames(ps, n)], Tail(ps, n);
    var d := Digest(st, whole);
    if d.status.Waiting? then Pass(Bodies(whole), d.st, if Ruled(ps, n) then Closing else Waiting, tail)
    else Pass(Bodies(whole[..d.taken]), d.st, d.status, Wire(whole[d.taken..]) + tail)
  }

  /**
   * Any first part of a stream: its whole frames are handed over as far as the messages let the receiver go,
   * the receiver stops for the reason the messages give, and exactly the rest, ending in the incomplete tail,
   * stays in the buffer.
   */
  lemma DeliversPrefix(st: State, ps: seq<Parcel>, n: nat)
    requires AllSendable(ps) && n <= |Wire(ps)|
    ensures Drain(Process, st, Wire(ps)[..n]) == PrefixPass(st, ps, n)
    ensures st.log <= PrefixPass(st, ps, n).st.log <= st.log + Messages(ps)
  {
    var k, tail := WholeFrames(ps, n), Tail(ps, n);
    TailBehind(ps, n);
    DeliversMessages(st, ps[..k], tail);
    TailWaits(ps, n);
    var d := Digest(st, ps[..k]);
    AfterOne(Process, d.st, tail, Bodies(ps[..k]));
    DigestLogs(st, ps[..k]);
    MessagesPrefix(st.log, ps, d.taken);
    assert ps[..k][..d.taken] == ps[..d.taken];
  }

  lemma MessagesPrefix(log: seq<Message>, ps: seq<Parcel>, k: nat)
    requires k <= |ps|
    ensures log <= log + Messages(ps[..k]) <= log + Messages(ps)
  {
    assert Messages(ps[..k]) == Messages(ps)[..k];
  }
}
