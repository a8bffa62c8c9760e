/** Framing and dispatch of chatserversrc/TcpSession.cpp and chatserversrc/ChatSession.cpp. */
module ChatSession {
  import opened Bytes
  import opened ByteBuffer
  import opened Connection
  import opened Framing
  import opened ProtocolStream
  import opened Sequences
  import Varint

  const MSG_TYPE_LOGIN := 1002
  const MSG_TYPE_GETUSERLIST := 1003
  const MSG_TYPE_GETMSGS := 1004
  const MSG_TYPE_CHAT := 1100
  const MSG_TYPE_KICKUSER := 1102

  datatype Message = Message(cmd: int32, seqno: int32, data: seq<byte>)

  // ---------- Sending ----------

  function Fields(m: Message): seq<Field> {
    [Int32(m.cmd), Int32(m.seqno), Text(m.data)]
  }

  function BodyLength(m: Message): (n: nat)
    ensures n >= HEADER + 8 + |m.data|
  {
    HEADER + 8 + |Varint.Encode(|m.data|)| + |m.data|
  }

  /** A package: its length, two octets that nobody sets, and the three fields. */
  function Body(m: Message, junk: seq<byte>): seq<byte> {
    BigEndian(4, BodyLength(m) % INT32_MODULUS) + junk + EncodeFields(Fields(m))
  }

  lemma BodySize(m: Message, junk: seq<byte>)
    requires |junk| == 2
    ensures |Body(m, junk)| == BodyLength(m)
    ensures EncodeFields(Fields(m)) == EncodeInt(4, m.cmd) + EncodeInt(4, m.seqno) + EncodeField(Text(m.data))
  {
    CapacityFour();
    var fs := Fields(m);
    assert EncodeFields(fs[2..]) == EncodeField(fs[2]) + EncodeFields([]);
    assert fs[1..][1..] == fs[2..];
    assert EncodeFields(fs[1..]) == EncodeField(fs[1]) + EncodeFields(fs[2..]);
    assert EncodeFields(fs) == EncodeField(fs[0]) + EncodeFields(fs[1..]);
  }

  lemma FlushedBody(m: Message, junk: seq<byte>, d: seq<byte>)
    requires |junk| == HEADER && |d| >= HEADER
    requires d[..HEADER] == junk && d[HEADER..] == EncodeFields(Fields(m))
    ensures BigEndian(4, |d| % INT32_MODULUS) + d[4..] == Body(m, junk[4..])
    ensures |Body(m, junk[4..])| == BodyLength(m)
  {
    BodySize(m, junk[4..]);
    Flushed(BigEndian(4, |d| % INT32_MODULUS), d, junk);
  }

  lemma Flushed(length: seq<byte>, d: seq<byte>, junk: seq<byte>)
    requires |junk| == HEADER <= |d| && d[..HEADER] == junk
    ensures length + d[4..] == length + junk[4..] + d[HEADER..]
  {
    assert d[4..] == junk[4..] + d[HEADER..];
    Associate(length, junk[4..], d[HEADER..]);
  }

  /** `alive`: the connection behind the weak pointer still exists. */
  method SendPackage(p: seq<byte>, alive: bool) returns (out: seq<byte>)
    requires |p| <= INT_MAX
    ensures out == if alive then Frame(p) else []
  {
    var package := LittleEndian(FRAME_HEADER, |p|);
    package := package + p;
    out := if alive then package else [];
  }

  /** The bytes handed to TcpConnection::send. Sizes are `int32_t` in this interface. */
  method PackMessage(m: Message, junk: seq<byte>, alive: bool) returns (out: seq<byte>)
    requires |junk| == HEADER && BodyLength(m) <= INT_MAX
    ensures out == if alive then Frame(Body(m, junk[4..])) else []
  {
    var writer := new BinaryStreamWriter(junk);
    writer.WriteInt32(m.cmd);
    writer.WriteInt32(m.seqno);
    assert writer.data[..HEADER] == junk;
    writer.WriteCString(m.data);
    assert writer.fields == Fields(m) && writer.data[..HEADER] == junk;
    FlushedBody(m, junk, writer.data);
    writer.Flush();
    out := SendPackage(writer.data, alive);
  }

  // ---------- What is outside the session ----------

  /** Texts that a reply can carry without its sizes leaving the range of `int32_t`. */
  const LONGEST_TEXT := 0x7FFF_0000

  type ReplyText = s: seq<byte> | |s| <= LONGEST_TEXT witness []

  type Octets = s: seq<byte> | |s| == HEADER witness [0, 0, 0, 0, 0, 0]

  /**
   * What the JSON parser, the users and the stored messages make of a message: `throws` or the text of the
   * reply. `kicksItself`: the session that logs in is found to hold the user already. `listed`: the session
   * is in the server's list, whose sessions a chat message goes to.
   */
  datatype Answer = Answer(throws: bool, kicksItself: bool, listed: bool, text: ReplyText)

  /** By the number of the message decoded, and by the number of the reply sent. */
  datatype World = World(answer: nat -> Answer, octets: nat -> Octets, result: nat -> WriteResult)

  // ---------- Handling a package ----------

  /**
   * The session; `log` is what the three reads of `process` have produced so far, and `replies` what was sent
   * to the session's own connection.
   */
  datatype State = State(world: World, login: bool, seqno: int32, log: seq<Message>, replies: seq<Message>)

  function AsBytes(s: string): (b: seq<byte>)
    ensures |b| == |s| && forall i :: 0 <= i < |s| && s[i] < '\U{80}' ==> b[i] == s[i] as int
  {
    seq(|s|, i requires 0 <= i < |s| => s[i] as int % 256)
  }

  const NOT_LOGGED_IN := "{\"code\": 2, \"msg\": \"not login, please login first!\"}"
  const CHAT_HEAD := "{\"code\": 0, \"msg\": \"ok\", \"msg\": "

  /** The replies to a message that has been handled. */
  function RepliesTo(login: bool, m: Message, answer: Answer): seq<Message> {
    if m.cmd == MSG_TYPE_LOGIN then
      (if answer.kicksItself then [Message(MSG_TYPE_KICKUSER, m.seqno, [])] else [])
      + [Message(MSG_TYPE_LOGIN, m.seqno, answer.text)]
    else if !login then [Message(m.cmd, m.seqno, AsBytes(NOT_LOGGED_IN))]
    else if m.cmd == MSG_TYPE_CHAT then
      if answer.listed then [Message(MSG_TYPE_CHAT, m.seqno, AsBytes(CHAT_HEAD) + m.data + AsBytes("}"))] else []
    else [Message(m.cmd, m.seqno, answer.text)]
  }

  /** Handlers that call code which may throw, before they reply. */
  predicate MayThrow(login: bool, cmd: int32) {
    cmd == MSG_TYPE_LOGIN || (login && cmd in {MSG_TYPE_GETUSERLIST, MSG_TYPE_GETMSGS, MSG_TYPE_CHAT})
  }

  /** Increment of a 32-bit counter. */
  function Increment(x: int32): int32 {
    if x == INT_MAX then 0 - 0x8000_0000 else x + 1
  }

  /** The command switch: before a login everything is answered, afterwards unknown commands are refused. */
  function Dispatch(st: State, m: Message): (State, Verdict) {
    var seen := st.(seqno := m.seqno, log := st.log + [m]);
    var answer := st.world.answer(|st.log|);
    if st.login && !MayThrow(true, m.cmd) then (seen, Rejected)
    else if MayThrow(st.login, m.cmd) && answer.throws then (seen, Raised)
    else
      (seen.(login := st.login || m.cmd == MSG_TYPE_LOGIN, seqno := Increment(m.seqno),
             replies := st.replies + RepliesTo(st.login, m, answer)),
       Accepted)
  }

  /** The commands that a session knows once it is logged in. */
  const COMMANDS := {MSG_TYPE_LOGIN, MSG_TYPE_GETUSERLIST, MSG_TYPE_GETMSGS, MSG_TYPE_CHAT}

  /**
   * A message is refused exactly if the session is logged in and does not know the command; a login, and every
   * command of a logged-in session, raises what is thrown below. Both leave replies and login as they were.
   */
  lemma DispatchVerdict(st: State, m: Message)
    ensures var (d, v) := Dispatch(st, m);
            && (v.Rejected? <==> st.login && m.cmd !in COMMANDS)
            && (v.Raised? <==> st.world.answer(|st.log|).throws
                               && (m.cmd == MSG_TYPE_LOGIN || (st.login && m.cmd in COMMANDS)))
            && !v.Unspecified? && d.world == st.world && d.log == st.log + [m]
            && (d.login <==> st.login || (v.Accepted? && m.cmd == MSG_TYPE_LOGIN))
            && (!v.Accepted? ==> d.replies == st.replies && d.seqno == m.seqno)
            && (v.Accepted? ==> d.seqno == if m.seqno == 0x7FFF_FFFF then -0x8000_0000 else m.seqno + 1)
  {
  }

  /** The replies added to those there were. */
  function Added(st: State, d: State): seq<Message>
    requires st.replies <= d.replies
  {
    d.replies[|st.replies|..]
  }

  /**
   * What a message that is accepted is answered with: every reply has its sequence number and its command, but
   * for the kick of a session that logs in again. Before a login everything else is told so, once; afterwards
   * lists and histories get their text, and a chat message gets itself back if the session is listed.
   */
  lemma DispatchReplies(st: State, m: Message)
    requires Dispatch(st, m).1.Accepted?
    ensures var d, answer := Dispatch(st, m).0, st.world.answer(|st.log|);
            && st.replies <= d.replies
            && var added := Added(st, d);
            && (forall r :: r in added ==> r.seqno == m.seqno && (r.cmd == m.cmd || r.cmd == MSG_TYPE_KICKUSER))
            && (m.cmd != MSG_TYPE_LOGIN && !st.login ==> |added| == 1 && added[0].data == AsBytes(NOT_LOGGED_IN))
            && (m.cmd == MSG_TYPE_LOGIN ==>
                  && added != [] && added[|added| - 1] == Message(MSG_TYPE_LOGIN, m.seqno, answer.text)
                  && added[..|added| - 1] ==
                       if answer.kicksItself then [Message(MSG_TYPE_KICKUSER, m.seqno, [])] else [])
            && (st.login && m.cmd in {MSG_TYPE_GETUSERLIST, MSG_TYPE_GETMSGS} ==>
                  |added| == 1 && added[0].data == answer.text)
            && (st.login && m.cmd == MSG_TYPE_CHAT ==>
                  if answer.listed then |added| == 1 && added[0].data == AsBytes(CHAT_HEAD) + m.data + AsBytes("}")
                  else added == [])
            && (m.cmd != MSG_TYPE_LOGIN ==> forall r :: r in added ==> r.cmd == m.cmd)
  {
    var d := Dispatch(st, m).0;
    assert Added(st, d) == RepliesTo(st.login, m, st.world.answer(|st.log|));
  }

  /** What the three reads get out of a package. */
  datatype Decoded = Nothing | NumberOnly(seqno: int32, verdict: Verdict) | Whole(m: Message)

  /** A package shorter than its header lets the first read fail. */
  function Decode(body: seq<byte>): Decoded {
    if |body| < HEADER then Nothing
    else
      var (cmd, p1) := Parse(body, HEADER, AnyInt32);
      if !cmd.Got? then Nothing
      else
        CursorSafe(body, HEADER, AnyInt32);
        var (seqno, p2) := Parse(body, p1, AnyInt32);
        if !seqno.Got? then Nothing
        else
          CursorSafe(body, p1, AnyInt32);
          var (text, _) := ParseText(body, p2, AnyText);
          match text
          case Refused => NumberOnly(seqno.value.i, Rejected)
          case Undefined => NumberOnly(seqno.value.i, Unspecified)
          case Got(data) => Whole(Message(cmd.value.i, seqno.value.i, data))
  }

  /** The sequence number outlives a bad text. */
  function Process(st: State, body: seq<byte>): (State, Verdict) {
    match Decode(body)
    case Nothing => (st, Rejected)
    case NumberOnly(seqno, verdict) => (st.(seqno := seqno), verdict)
    case Whole(m) => Dispatch(st, m)
  }

  /** The three reads recover a package that was sent, whatever its two unset octets are. */
  lemma ProcessBody(st: State, m: Message, junk: seq<byte>)
    requires |junk| == 2 && BodyLength(m) <= INT_MAX
    ensures Process(st, Body(m, junk)) == Dispatch(st, m)
  {
    var body := Body(m, junk);
    BodySize(m, junk);
    CapacityFour();
    BodyFields(body, m);
  }

  /**
   * A package whose text is refused, or undefined, changes the sequence number and nothing else; a package whose
   * numbers cannot be read changes nothing. Every package that is read whole is the one that reads say.
   */
  lemma ProcessUnread(st: State, body: seq<byte>)
    ensures var (d, v) := Process(st, body);
            var short := |body| < HEADER + 8;
            && (short ==> d == st && v.Rejected?)
            && (!short ==>
                  var (text, _) := ParseText(body, HEADER + 8, AnyText);
                  var seqno := DecodeInt(body[HEADER + 4..HEADER + 8]);
                  if text.Got?
                  then (d, v) == Dispatch(st, Message(DecodeInt(body[HEADER..HEADER + 4]), seqno, text.value))
                  else d == st.(seqno := seqno) && v == if text.Refused? then Rejected else Unspecified)
  {
    CapacityFour();
  }

  lemma NumberField(body: seq<byte>, cur: nat, x: int32, rest: seq<byte>)
    requires cur <= |body| && FitsSigned(4, x) && body[cur..] == EncodeInt(4, x) + rest
    ensures cur + 4 <= |body| && body[cur + 4..] == rest
    ensures Parse(body, cur, AnyInt32) == (Got(Int32(x)), cur + 4)
  {
    SplitAt(body, cur, EncodeInt(4, x), rest);
    FieldRoundTrip(body, cur, Int32(x), rest, AnyInt32);
  }

  lemma TextField(body: seq<byte>, cur: nat, s: seq<byte>)
    requires |s| < INT32_MODULUS
    requires cur <= |body| && body[cur..] == EncodeField(Text(s))
    ensures ParseText(body, cur, AnyText) == (Got(s), |body|)
  {
    assert s + [] == s;
    TextRoundTrip(body, cur, s, [], AnyText);
  }

  /** The reads of `process`, one after the other. */
  lemma BodyFields(body: seq<byte>, m: Message)
    requires |m.data| < INT32_MODULUS
    requires |body| >= HEADER && FitsSigned(4, m.cmd) && FitsSigned(4, m.seqno)
    requires body[HEADER..] == EncodeInt(4, m.cmd) + EncodeInt(4, m.seqno) + EncodeField(Text(m.data))
    ensures |body| >= HEADER + 8
    ensures Parse(body, HEADER, AnyInt32) == (Got(Int32(m.cmd)), HEADER + 4)
    ensures Parse(body, HEADER + 4, AnyInt32) == (Got(Int32(m.seqno)), HEADER + 8)
    ensures ParseText(body, HEADER + 8, AnyText) == (Got(m.data), |body|)
  {
    var seqno, text := EncodeInt(4, m.seqno), EncodeField(Text(m.data));
    Associate(EncodeInt(4, m.cmd), seqno, text);
    NumberField(body, HEADER, m.cmd, seqno + text);
    NumberField(body, HEADER + 4, m.seqno, text);
    TextField(body, HEADER + 8, m.data);
  }

  // ---------- Replies on the connection ----------

  /** The replies only grow, and the surroundings stay. */
  lemma ProcessExtends(st: State, body: seq<byte>)
    ensures var next := Process(st, body).0;
            next.world == st.world && st.replies <= next.replies && st.log <= next.log
  {
  }

  /** Reply number `k`: TcpConnection::send of its frame. */
  function Call(world: World, k: nat, m: Message): Action {
    CallSend(Frame(Body(m, world.octets(k)[4..])), world.result(k))
  }

  /** The replies from number `k` on. */
  function Calls(world: World, replies: seq<Message>, k: nat): (calls: seq<Action>)
    requires k <= |replies|
    ensures |calls| == |replies| - k && forall i :: 0 <= i < |calls| ==> calls[i] == Call(world, k + i, replies[k + i])
  {
    seq(|replies| - k, i requires 0 <= i < |replies| - k => Call(world, k + i, replies[k + i]))
  }

  /** One more reply is one more step of the connection. */
  lemma OneMoreReply(c: Conn, world: World, replies: seq<Message>, k: nat, m: Message)
    requires k <= |replies|
    ensures Run(c, Calls(world, replies + [m], k)) == Apply(Run(c, Calls(world, replies, k)), Call(world, |replies|, m))
  {
    assert Calls(world, replies + [m], k) == Calls(world, replies, k) + [Call(world, |replies|, m)];
    RunSnoc(c, Calls(world, replies, k), Call(world, |replies|, m));
  }

  lemma MoreReplies(c: Conn, world: World, first: seq<Message>, all: seq<Message>, k: nat)
    requires k <= |first| && first <= all
    ensures Run(Run(c, Calls(world, first, k)), Calls(world, all, |first|)) == Run(c, Calls(world, all, k))
  {
    assert Calls(world, all, k) == Calls(world, first, k) + Calls(world, all, |first|);
    RunAppend(c, Calls(world, first, k), Calls(world, all, |first|));
  }

  lemma NoReplies(c: Conn, world: World, replies: seq<Message>)
    ensures Run(c, Calls(world, replies, |replies|)) == c
  {
  }

  /** Texts of replies, and chat messages of packages that were let through, have room in a package. */
  lemma ReplyFits(m: Message)
    requires |m.data| <= LONGEST_TEXT
    ensures BodyLength(m) <= INT_MAX
  {
    Varint.EncodedLengths(|m.data|);
  }

  lemma ChatFits(data: seq<byte>)
    requires |data| <= MAX_PACKAGE_SIZE
    ensures |AsBytes(CHAT_HEAD) + data + AsBytes("}")| <= LONGEST_TEXT
  {
  }

  /** A text is no longer than the package it was read from. */
  lemma TextFits(body: seq<byte>, cur: nat, kind: Kind)
    requires cur <= |body|
    ensures ParseText(body, cur, kind).0.Got? ==> |ParseText(body, cur, kind).0.value| <= |body|
  {
  }

  lemma Behind(s: seq<byte>, n: nat, m: nat)
    requires n + m <= |s|
    ensures s[n..][..m] == s[n..n + m] && s[n..][m..] == s[n + m..]
  {
  }

  /** The session and its connection. `world` is what the code outside them will do. */
  class ChatSession {
    const conn: TcpConnection
    const world: World
    var login: bool
    var seqno: int32
    var decoded: nat
    var replied: nat
    ghost var log: seq<Message>
    ghost var replies: seq<Message>

    ghost predicate Valid()
      reads this, conn, conn.output, conn.output.data
    {
      decoded == |log| && replied == |replies| && conn.Valid()
    }

    constructor (conn: TcpConnection, world: World)
      requires conn.Valid()
      ensures Valid() && this.conn == conn && View() == State(world, false, 0, [], [])
    {
      this.conn, this.world := conn, world;
      login, seqno, decoded, replied := false, 0, 0, 0;
      log, replies := [], [];
    }

    ghost function View(): State
      reads this
    {
      State(world, login, seqno, log, replies)
    }

    /** TcpSession::send on the session's own connection, in its loop thread. */
    method Reply(m: Message)
      requires Valid() && |m.data| <= LONGEST_TEXT
      modifies `replied, `replies, conn, conn.output, conn.output.data
      ensures Valid() && (conn.output.data == old(conn.output.data) || fresh(conn.output.data))
      ensures replies == old(replies) + [m]
      ensures conn.View() == Apply(old(conn.View()), Call(world, |old(replies)|, m))
    {
      ReplyFits(m);
      var out := PackMessage(m, world.octets(replied), true);
      conn.SendMessage(out, world.result(replied));
      replied := replied + 1;
      replies := replies + [m];
    }

    /** Since reply number `k`, when the connection was `c`, it has sent the replies and nothing else. */
    ghost predicate Replied(c: Conn, k: nat)
      requires conn.Valid()
      reads this, conn, conn.output, conn.output.data
    {
      k <= |replies| && conn.View() == Run(c, Calls(world, replies, k))
    }

    /** One more reply since reply number `k`. */
    method ReplyNext(m: Message, ghost c: Conn, ghost k: nat)
      requires Valid() && |m.data| <= LONGEST_TEXT && Replied(c, k)
      modifies `replied, `replies, conn, conn.output, conn.output.data
      ensures Valid() && (conn.output.data == old(conn.output.data) || fresh(conn.output.data))
      ensures replies == old(replies) + [m] && Replied(c, k)
    {
      OneMoreReply(c, world, replies, k, m);
      Reply(m);
    }

    /** onLoginResponse: the session that had the user is told first, and that may be this one. */
    method ReplyToLogin(m: Message, answer: Answer, ghost c: Conn, ghost k: nat)
      requires Valid() && m.cmd == MSG_TYPE_LOGIN && Replied(c, k)
      modifies `replied, `replies, conn, conn.output, conn.output.data
      ensures Valid() && (conn.output.data == old(conn.output.data) || fresh(conn.output.data))
      ensures replies == old(replies) + RepliesTo(login, m, answer) && Replied(c, k)
    {
      ghost var before := replies;
      if answer.kicksItself {
        ReplyNext(Message(MSG_TYPE_KICKUSER, m.seqno, []), c, k);
      }
      ReplyNext(Message(MSG_TYPE_LOGIN, m.seqno, answer.text), c, k);
      assert replies == before + RepliesTo(login, m, answer);
    }

    /** The handlers behind the command switch. */
    method Respond(m: Message, answer: Answer, ghost c: Conn, ghost k: nat)
      requires Valid() && |m.data| <= MAX_PACKAGE_SIZE && Replied(c, k)
      modifies `replied, `replies, conn, conn.output, conn.output.data
      ensures Valid() && (conn.output.data == old(conn.output.data) || fresh(conn.output.data))
      ensures replies == old(replies) + RepliesTo(login, m, answer) && Replied(c, k)
    {
      ghost var before := replies;
      if m.cmd == MSG_TYPE_LOGIN {
        ReplyToLogin(m, answer, c, k);
      } else if !login {
        ReplyNext(Message(m.cmd, m.seqno, AsBytes(NOT_LOGGED_IN)), c, k);
      } else if m.cmd == MSG_TYPE_CHAT {
        if answer.listed {
          ChatFits(m.data);
          ReplyNext(Message(MSG_TYPE_CHAT, m.seqno, AsBytes(CHAT_HEAD) + m.data + AsBytes("}")), c, k);
        } else {
          assert before + [] == before;
        }
      } else {
        ReplyNext(Message(m.cmd, m.seqno, answer.text), c, k);
      }
    }

    /** The replies to a message, and the state afterwards. */
    method Answered(m: Message, answer: Answer, ghost c: Conn, ghost k: nat)
      requires Valid() && |m.data| <= MAX_PACKAGE_SIZE && seqno == m.seqno && Replied(c, k)
      modifies this, conn, conn.output, conn.output.data
      ensures Valid() && (conn.output.data == old(conn.output.data) || fresh(conn.output.data))
      ensures login == (old(login) || m.cmd == MSG_TYPE_LOGIN) && seqno == Increment(m.seqno)
      ensures replies == old(replies) + RepliesTo(old(login), m, answer) && Replied(c, k)
      ensures log == old(log)
    {
      Respond(m, answer, c, k);
      if m.cmd == MSG_TYPE_LOGIN {
        login := true;
      }
      seqno := Increment(seqno);
    }

    /** The command switch on a message that has been read. */
    method Handle(m: Message) returns (verdict: Verdict)
      requires Valid() && |m.data| <= MAX_PACKAGE_SIZE
      modifies this, conn, conn.output, conn.output.data
      ensures Valid() && (conn.output.data == old(conn.output.data) || fresh(conn.output.data))
      ensures (View(), verdict) == Dispatch(old(View()), m)
      ensures old(replies) <= replies && conn.View() == Run(old(conn.View()), Calls(world, replies, |old(replies)|))
    {
      ghost var c, k := conn.View(), |replies|;
      NoReplies(c, world, replies);
      var answer := world.answer(decoded);
      seqno := m.seqno;
      log, decoded := log + [m], decoded + 1;
      if login && !MayThrow(true, m.cmd) {
        return Rejected;
      }
      if MayThrow(login, m.cmd) && answer.throws {
        return Raised;
      }
      Answered(m, answer, c, k);
      return Accepted;
    }

    /** The three reads of process. */
    static method ReadMessage(inbuf: seq<byte>) returns (d: Decoded)
      ensures d == Decode(inbuf)
      ensures d.Whole? ==> |d.m.data| <= |inbuf|
    {
      var reader := new BinaryStreamReader(inbuf);
      var cmd := reader.ReadInt32();
      if !cmd.Got? {
        return Nothing;
      }
      var number := reader.ReadInt32();
      if !number.Got? {
        return Nothing;
      }
      TextFits(inbuf, reader.cur, AnyText);
      var data := reader.ReadString(0);
      match data {
        case Refused => return NumberOnly(number.value.i, Rejected);
        case Undefined => return NumberOnly(number.value.i, Unspecified);
        case Got(text) => return Whole(Message(cmd.value.i, number.value.i, text));
      }
    }

    method ProcessPackage(inbuf: seq<byte>) returns (verdict: Verdict)
      requires Valid() && |inbuf| <= MAX_PACKAGE_SIZE
      modifies this, conn, conn.output, conn.output.data
      ensures Valid() && (conn.output.data == old(conn.output.data) || fresh(conn.output.data))
      ensures (View(), verdict) == Process(old(View()), inbuf)
      ensures old(replies) <= replies && conn.View() == Run(old(conn.View()), Calls(world, replies, |old(replies)|))
    {
      NoReplies(conn.View(), world, replies);
      var d := ReadMessage(inbuf);
      match d {
        case Nothing => verdict := Rejected;
        case NumberOnly(number, v) => seqno, verdict := number, v;
        case Whole(m) => verdict := Handle(m);
      }
    }

    /** The part of a turn before the package is processed. */
    static method TakeFrame(buffer: ByteBuffer) returns (step: Step)
      requires buffer.Valid()
      modifies buffer
      ensures buffer.Valid() && buffer.data == old(buffer.data)
      ensures step == match NextFrame(old(buffer.Contents()))
                      case Next(body, _) => Next(body, [])
                      case other => other
      ensures buffer.Contents() == match NextFrame(old(buffer.Contents()))
                                   case Next(_, rest) => rest
                                   case Throws => old(buffer.Contents())[FRAME_HEADER..]
                                   case _ => old(buffer.Contents())
      ensures step.Next? ==> |buffer.Contents()| <= |old(buffer.Contents())| - FRAME_HEADER
      ensures step.Next? ==> |step.body| <= MAX_PACKAGE_SIZE
    {
      ghost var s := buffer.Contents();
      if buffer.ReadableBytes() < FRAME_HEADER {
        return Wait;
      }
      var header := buffer.Peek(FRAME_HEADER);
      var originsize := OriginSize(header);
      if originsize > MAX_PACKAGE_SIZE {
        return TooBig;
      }
      if buffer.ReadableBytes() < Needed(originsize) {
        return Wait;
      }
      var _ := buffer.Retrieve(FRAME_HEADER);
      if originsize < 0 {
        return Throws; // the string cannot hold an append of nearly 2^64 bytes
      }
      var inbuf := buffer.Peek(originsize);
      Behind(s, FRAME_HEADER, originsize);
      var _ := buffer.Retrieve(originsize);
      return Next(inbuf, []);
    }

    /** A package that has been taken off the buffer, with `rest` behind it. */
    method HandOver(body: seq<byte>, ghost bodies: seq<seq<byte>>, ghost rest: seq<byte>, ghost c: Conn, ghost k: nat)
      returns (status: Status, more: bool)
      requires Valid() && |body| <= MAX_PACKAGE_SIZE && Replied(c, k)
      modifies this, conn, conn.output, conn.output.data
      ensures Valid() && (conn.output.data == old(conn.output.data) || fresh(conn.output.data))
      ensures Replied(c, k) && old(replies) <= replies && (more ==> status == Waiting)
      ensures AfterPackage(Process, bodies + [body], Process(old(View()), body), rest)
           == if more then Drain(Process, View(), rest).After(bodies + [body])
              else Pass(bodies + [body], View(), status, rest)
    {
      ghost var before := replies;
      var verdict := ProcessPackage(body);
      MoreReplies(c, world, before, replies, k);
      status, more := StatusOf(verdict), verdict.Accepted?; // forceClose when rejected
    }

    /** One turn of the loop: how it goes on, and the package handed over, if any. */
    method Turn(buffer: ByteBuffer, ghost bodies: seq<seq<byte>>, ghost whole: Pass<State>, ghost c: Conn, ghost k: nat)
      returns (status: Status, more: bool, ghost after: seq<seq<byte>>)
      requires Valid() && buffer.Valid() && buffer != conn.output && buffer.data != conn.output.data
      requires Replied(c, k) && Drain(Process, View(), buffer.Contents()).After(bodies) == whole
      modifies this, buffer, conn, conn.output, conn.output.data
      ensures Valid() && buffer.Valid() && buffer.data == old(buffer.data)
      ensures conn.output.data == old(conn.output.data) || fresh(conn.output.data)
      ensures Replied(c, k) && old(replies) <= replies
      ensures more ==> status == Waiting && |buffer.Contents()| < |old(buffer.Contents())|
      ensures whole == if more then Drain(Process, View(), buffer.Contents()).After(after)
                       else Pass(after, View(), status, buffer.Contents())
    {
      AfterOne(Process, View(), buffer.Contents(), bodies);
      after, status, more := bodies, Waiting, false;
      var step := TakeFrame(buffer);
      match step {
        case Wait =>
        case TooBig => status := Closing; // forceClose
        case Throws => status := Thrown;
        case Next(body, _) =>
          after := bodies + [body];
          status, more := HandOver(body, bodies, buffer.Contents(), c, k);
      }
    }

    /** Every turn takes at least a frame header off the buffer, so the loop ends. */
    method OnRead(buffer: ByteBuffer) returns (ghost bodies: seq<seq<byte>>, status: Status)
      requires Valid() && buffer.Valid() && buffer != conn.output && buffer.data != conn.output.data
      modifies this, buffer, conn, conn.output, conn.output.data
      ensures Valid() && buffer.Valid() && buffer.data == old(buffer.data)
      ensures conn.output.data == old(conn.output.data) || fresh(conn.output.data)
      ensures Pass(bodies, View(), status, buffer.Contents()) == Drain(Process, old(View()), old(buffer.Contents()))
      ensures old(replies) <= replies && conn.View() == Run(old(conn.View()), Calls(world, replies, |old(replies)|))
    {
      bodies, status := [], Waiting;
      ghost var c, before := conn.View(), replies;
      ghost var whole := Drain(Process, View(), buffer.Contents());
      NoReplies(c, world, replies);
      AfterNothing(whole);
      var more := true;
      while more
        invariant Valid() && buffer.Valid() && buffer.data == old(buffer.data)
        invariant conn.output.data == old(conn.output.data) || fresh(conn.output.data)
        invariant before <= replies && Replied(c, |before|)
        invariant more ==> status == Waiting && Drain(Process, View(), buffer.Contents()).After(bodies) == whole
        invariant !more ==> Pass(bodies, View(), status, buffer.Contents()) == whole
        decreases more, |buffer.Contents()|
      {
        status, more, bodies := Turn(buffer, bodies, whole, c, |before|);
      }
    }
  }
}
