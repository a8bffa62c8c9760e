/** Cutting a byte stream into packages, as ChatSession::onRead does, for any handler of a package. */
module Framing {
  import opened Bytes
  import opened Sequences

  const FRAME_HEADER := 4
  const MAX_PACKAGE_SIZE := 10 * 1024 * 1024
  const SIZE_MODULUS := 0x1_0000_0000_0000_0000

  /** chat_msg_header and the package behind it. */
  function Frame(body: seq<byte>): (f: seq<byte>)
    ensures |f| == FRAME_HEADER + |body|
  {
    LittleEndian(FRAME_HEADER, |body|) + body
  }

  // ---------- Cutting a byte stream into frames ----------

  datatype Step = Wait | TooBig | Throws | Next(body: seq<byte>, rest: seq<byte>)

  function OriginSize(header: seq<byte>): int32
    requires |header| == FRAME_HEADER
  {
    CapacityFour();
    FromPattern(4, FromLittleEndian(header))
  }

  /** The size test is done on unsigned 64-bit numbers, which a negative size wraps around to. */
  function Needed(originsize: int32): nat {
    var unsigned := if originsize < 0 then originsize + SIZE_MODULUS else originsize;
    var sum := unsigned + FRAME_HEADER;
    if sum >= SIZE_MODULUS then sum - SIZE_MODULUS else sum
  }

  /** What one turn of the reading loop does with the unread bytes. */
  function NextFrame(s: seq<byte>): Step {
    if |s| < FRAME_HEADER then Wait
    else
      var n := OriginSize(s[..FRAME_HEADER]);
      if n > MAX_PACKAGE_SIZE then TooBig
      else if |s| < Needed(n) then Wait
      else if n < 0 then Throws
      else Next(s[FRAME_HEADER..FRAME_HEADER + n], s[FRAME_HEADER + n..])
  }

  /** Framing loses nothing, and a frame gets through exactly when its package is at most 10 MiB. */
  lemma FrameRoundTrip(body: seq<byte>, after: seq<byte>)
    requires |body| <= INT_MAX
    ensures NextFrame(Frame(body) + after) ==
            if |body| <= MAX_PACKAGE_SIZE then Next(body, after) else TooBig
  {
    var s := Frame(body) + after;
    CapacityFour();
    LittleEndianRoundTrip(4, |body|);
    assert s[..FRAME_HEADER] == LittleEndian(4, |body|);
    assert s[FRAME_HEADER..] == body + after;
    assert s[FRAME_HEADER..FRAME_HEADER + |body|] == body;
    assert s[FRAME_HEADER + |body|..] == after;
  }

  /** A frame that is not all there is waited for, unless its header already rules it out. */
  lemma PartialFrame(body: seq<byte>, n: nat)
    requires |body| <= INT_MAX && n < |Frame(body)|
    ensures NextFrame(Frame(body)[..n]) ==
            if n >= FRAME_HEADER && |body| > MAX_PACKAGE_SIZE then TooBig else Wait
  {
    if n >= FRAME_HEADER {
      CapacityFour();
      LittleEndianRoundTrip(4, |body|);
      assert Frame(body)[..n][..FRAME_HEADER] == LittleEndian(4, |body|);
    }
  }

  lemma {:induction false} LittleEndianInverse(s: seq<byte>)
    ensures LittleEndian(|s|, FromLittleEndian(s)) == s
  {
    if s != [] {
      LittleEndianInverse(s[1..]);
      var v := FromLittleEndian(s);
      assert v % 256 == s[0] && v / 256 == FromLittleEndian(s[1..]);
    }
  }

  /** Whatever is taken off the stream is the frame of the package delivered. */
  lemma FrameInverse(s: seq<byte>)
    requires NextFrame(s).Next?
    ensures s == Frame(NextFrame(s).body) + NextFrame(s).rest
    ensures |NextFrame(s).body| <= MAX_PACKAGE_SIZE
  {
    var head := s[..FRAME_HEADER];
    CapacityFour();
    LittleEndianInverse(head);
    assert LittleEndian(FRAME_HEADER, OriginSize(head)) == head;
  }

  /** More input changes the decision only while the loop waits. */
  lemma NextFrameMonotone(s: seq<byte>, t: seq<byte>)
    requires !NextFrame(s).Wait?
    ensures match NextFrame(s)
            case Next(body, rest) => NextFrame(s + t) == Next(body, rest + t)
            case other => NextFrame(s + t) == other
  {
    assert (s + t)[..FRAME_HEADER] == s[..FRAME_HEADER];
    if NextFrame(s).Next? {
      var n := OriginSize(s[..FRAME_HEADER]);
      assert (s + t)[FRAME_HEADER..FRAME_HEADER + n] == s[FRAME_HEADER..FRAME_HEADER + n];
      assert (s + t)[FRAME_HEADER + n..] == s[FRAME_HEADER + n..] + t;
    }
  }

  /**
   * A negative size is taken for one of nearly 2^64 octets that wraps around by the header: from -4 on the frame
   * counts as arrived, and the string that is to hold it throws; below, the loop waits for that many octets.
   */
  lemma NegativeSize(s: seq<byte>)
    requires |s| >= FRAME_HEADER && OriginSize(s[..FRAME_HEADER]) < 0
    ensures var n := OriginSize(s[..FRAME_HEADER]);
            NextFrame(s) == if -FRAME_HEADER <= n || SIZE_MODULUS + n + FRAME_HEADER <= |s| then Throws else Wait
  {
  }

  // ---------- The reading loop ----------

  /** What handling a package comes to: an exception, or undefined behaviour in the decoder, among others. */
  datatype Verdict = Accepted | Rejected | Raised | Unspecified

  type Handler<!S> = (S, seq<byte>) -> (S, Verdict)

  /** `Thrown` is the exception for a negative size, `Failed` one of the handler. */
  datatype Status = Waiting | Closing | Thrown | Failed | Unknown

  /** How the reading loop goes on after a package. */
  function StatusOf(verdict: Verdict): Status {
    match verdict
    case Accepted => Waiting
    case Rejected => Closing
    case Raised => Failed
    case Unspecified => Unknown
  }

  /** The end of a pass over the input buffer: packages handed over, session, reason to stop, unread bytes. */
  datatype Pass<S> = Pass(bodies: seq<seq<byte>>, st: S, status: Status, rest: seq<byte>)
  {
    /** This pass with packages of earlier passes put in front. */
    function After(before: seq<seq<byte>>): Pass<S> {
      this.(bodies := before + bodies)
    }
  }

  function Drain<S>(handle: Handler<S>, st: S, s: seq<byte>): Pass<S>
    decreases |s|
  {
    match NextFrame(s)
    case Wait => Pass([], st, Waiting, s)
    case TooBig => Pass([], st, Closing, s)
    case Throws => Pass([], st, Thrown, s[FRAME_HEADER..])
    case Next(body, rest) =>
      var (next, verdict) := handle(st, body);
      if verdict.Accepted? then Drain(handle, next, rest).After([body])
      else Pass([body], next, StatusOf(verdict), rest)
  }

  /** One turn of the loop with the packages of earlier turns put in front. */
  lemma AfterOne<S>(handle: Handler<S>, st: S, s: seq<byte>, before: seq<seq<byte>>)
    ensures NextFrame(s).Wait? ==> Drain(handle, st, s).After(before) == Pass(before, st, Waiting, s)
    ensures NextFrame(s).TooBig? ==> Drain(handle, st, s).After(before) == Pass(before, st, Closing, s)
    ensures NextFrame(s).Throws? ==> Drain(handle, st, s).After(before) == Pass(before, st, Thrown, s[FRAME_HEADER..])
    ensures NextFrame(s).Next? ==>
              var Next(body, rest) := NextFrame(s);
              Drain(handle, st, s).After(before) == AfterPackage(handle, before + [body], handle(st, body), rest)
  {
    assert before + [] == before;
    if NextFrame(s).Next? {
      var Next(body, rest) := NextFrame(s);
      var (next, verdict) := handle(st, body);
      var pass := Drain(handle, next, rest);
      assert before + ([body] + pass.bodies) == (before + [body]) + pass.bodies;
    }
  }

  /** The pass as it goes on once a package has been processed. */
  function AfterPackage<S>(handle: Handler<S>, done: seq<seq<byte>>, result: (S, Verdict), rest: seq<byte>): Pass<S> {
    if result.1.Accepted? then Drain(handle, result.0, rest).After(done)
    else Pass(done, result.0, StatusOf(result.1), rest)
  }

  // ---------- Any bytes, any cutting ----------

  /** Bytes that arrive after a pass count as if they had been there, as long as the pass ended waiting. */
  lemma {:induction false} DrainAppend<S>(handle: Handler<S>, st: S, s: seq<byte>, t: seq<byte>)
    ensures var first := Drain(handle, st, s);
            Drain(handle, st, s + t) == if first.status.Waiting?
                                then Drain(handle, first.st, first.rest + t).After(first.bodies)
                                else first.(rest := first.rest + t)
    decreases |s|
  {
    if NextFrame(s).Wait? {
      AfterNothing(Drain(handle, st, s + t));
    } else {
      NextFrameMonotone(s, t);
      if NextFrame(s).Throws? {
        assert (s + t)[FRAME_HEADER..] == s[FRAME_HEADER..] + t;
      } else if NextFrame(s).Next? {
        var Next(body, rest) := NextFrame(s);
        var (next, verdict) := handle(st, body);
        if verdict.Accepted? {
          DrainAppend(handle, next, rest, t);
          var first := Drain(handle, next, rest);
          if first.status.Waiting? {
            AfterAfter(Drain(handle, first.st, first.rest + t), [body], first.bodies);
          }
        }
      }
    }
  }

  lemma AfterNothing<S>(pass: Pass<S>)
    ensures pass.After([]) == pass
  {
    assert [] + pass.bodies == pass.bodies;
  }

  lemma AfterAfter<S>(pass: Pass<S>, earlier: seq<seq<byte>>, later: seq<seq<byte>>)
    ensures pass.After(later).After(earlier) == pass.After(earlier + later)
  {
    assert earlier + (later + pass.bodies) == earlier + later + pass.bodies;
  }

  /** The bytes a pass consumed are exactly the frames of the packages it handed over. */
  lemma {:induction false} DrainConserves<S>(handle: Handler<S>, st: S, s: seq<byte>)
    ensures var pass := Drain(handle, st, s); !pass.status.Thrown? ==> s == Frames(pass.bodies) + pass.rest
    ensures var pass := Drain(handle, st, s); pass.status.Waiting? ==> NextFrame(pass.rest).Wait?
    decreases |s|
  {
    if NextFrame(s).Next? {
      var Next(body, rest) := NextFrame(s);
      var (next, verdict) := handle(st, body);
      FrameInverse(s);
      assert Frames([body]) == Frame(body) + Frames([]);
      if verdict.Accepted? {
        DrainConserves(handle, next, rest);
        var pass := Drain(handle, next, rest);
        assert ([body] + pass.bodies)[1..] == pass.bodies;
        Associate(Frame(body), Frames(pass.bodies), pass.rest);
      }
    }
  }

  /** The session after it has handled the packages, one after the other. */
  function Folded<S>(handle: Handler<S>, st: S, bodies: seq<seq<byte>>): S
    decreases |bodies|
  {
    if bodies == [] then st else Folded(handle, handle(st, bodies[0]).0, bodies[1..])
  }

  /** What it said to each of them. */
  function Verdicts<S>(handle: Handler<S>, st: S, bodies: seq<seq<byte>>): (vs: seq<Verdict>)
    ensures |vs| == |bodies|
    decreases |bodies|
  {
    if bodies == [] then [] else [handle(st, bodies[0]).1] + Verdicts(handle, handle(st, bodies[0]).0, bodies[1..])
  }

  /** Why a pass ends: the handler's last verdict decides, and if that was to go on, the bytes behind. */
  predicate EndsFor(status: Status, last: Verdict, rest: seq<byte>) {
    match last
    case Rejected => status.Closing?
    case Raised => status.Failed?
    case Unspecified => status.Unknown?
    case Accepted =>
      (status.Waiting? && NextFrame(rest).Wait?) || (status.Closing? && NextFrame(rest).TooBig?) || status.Thrown?
  }

  /**
   * A pass handles the packages one after the other, every one but the last is accepted, and it ends for the
   * reason that the last verdict or the next header gives.
   */
  lemma {:induction false} DrainFolds<S>(handle: Handler<S>, st: S, s: seq<byte>)
    ensures var pass := Drain(handle, st, s);
            var vs := Verdicts(handle, st, pass.bodies);
            && pass.st == Folded(handle, st, pass.bodies)
            && (forall i :: 0 <= i < |vs| - 1 ==> vs[i].Accepted?)
            && EndsFor(pass.status, if vs == [] then Accepted else vs[|vs| - 1], pass.rest)
    decreases |s|
  {
    if NextFrame(s).Next? {
      var Next(body, rest) := NextFrame(s);
      var (next, verdict) := handle(st, body);
      var pass := Drain(handle, st, s);
      if verdict.Accepted? {
        DrainFolds(handle, next, rest);
        var later := Drain(handle, next, rest);
        assert pass.bodies == [body] + later.bodies && pass.bodies[1..] == later.bodies;
        var vs := Verdicts(handle, next, later.bodies);
        assert Verdicts(handle, st, pass.bodies) == [Accepted] + vs;
      } else {
        assert pass.bodies[1..] == [];
      }
    }
  }

  function Frames(bodies: seq<seq<byte>>): seq<byte> {
    if bodies == [] then [] else Frame(bodies[0]) + Frames(bodies[1..])
  }

  /** Chunk after chunk is appended to the input buffer and the reading loop is run, until it gives up. */
  function Feed<S>(handle: Handler<S>, st: S, pending: seq<byte>, chunks: seq<seq<byte>>): Pass<S>
    decreases |chunks|
  {
    if chunks == [] then Pass([], st, Waiting, pending)
    else
      var pass := Drain(handle, st, pending + chunks[0]);
      if pass.status.Waiting? then Feed(handle, pass.st, pass.rest, chunks[1..]).After(pass.bodies)
      else pass.(rest := pass.rest + Flatten(chunks[1..]))
  }

  /** Fragmentation does not matter: the same packages, the same session, the same unread bytes. */
  lemma {:induction false} FragmentationIrrelevant<S>(handle: Handler<S>, st: S, pending: seq<byte>,
                                                      chunks: seq<seq<byte>>)
    requires NextFrame(pending).Wait?
    ensures Feed(handle, st, pending, chunks) == Drain(handle, st, pending + Flatten(chunks))
    decreases |chunks|
  {
    if chunks == [] {
      assert pending + [] == pending;
    } else {
      var pass := Drain(handle, st, pending + chunks[0]);
      DrainAppend(handle, st, pending + chunks[0], Flatten(chunks[1..]));
      Associate(pending, chunks[0], Flatten(chunks[1..]));
      if pass.status.Waiting? {
        DrainConserves(handle, st, pending + chunks[0]);
        FragmentationIrrelevant(handle, pass.st, pass.rest, chunks[1..]);
      }
    }
  }
}
