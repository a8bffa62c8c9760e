/** The epoll index against the kernel's interest set: net/EpollPoller.cpp. */
module EpollPoller {
  import opened Channel

  const K_NEW := -1
  const K_ADDED := 1
  const K_DELETED := 2

  datatype Operation = CtlAdd | CtlMod | CtlDel

  /** An entry of the kernel's interest set: the pointer registered and the events asked for. */
  datatype Interest = Interest(ch: Channel, events: Events)

  /** One result of epoll_wait. */
  datatype Ready = Ready(ch: Channel, events: int)

  class EPollPoller {
    var channels: map<int, Channel>
    var eventListSize: nat
    var kernel: map<int, Interest> // the operating system's set
    ghost var illegal: nat
    ghost var known: set<Channel>

    ghost predicate Registered(ch: Channel)
      reads this
    {
      ch.fd in channels && channels[ch.fd] == ch
    }

    /**
     * Everything but the events of `pending`, a channel whose interest has just been changed and which is
     * about to be updated. `known` are all the channels that were ever shown to this poller.
     */
    ghost predicate ValidBut(pending: set<Channel>)
      reads this, known
    {
      && (forall fd :: fd in channels ==> channels[fd] in known && channels[fd].fd == fd)
      && (forall ch :: ch in known ==>
            && (ch.index == K_NEW || ch.index == K_ADDED || ch.index == K_DELETED)
            && (ch.index == K_NEW <==> !Registered(ch))
            && (ch.index == K_ADDED <==> ch.fd in kernel && kernel[ch.fd].ch == ch)
            && (ch !in pending && ch.index == K_DELETED ==> ch.IsNoneEvent())
            && (ch !in pending && ch.index == K_ADDED ==> kernel[ch.fd].events == ch.events))
      && (forall fd :: fd in kernel ==> kernel[fd].ch in known && kernel[fd].ch.fd == fd)
      && illegal == 0
    }

    ghost predicate Valid()
      reads this, known
    {
      ValidBut({})
    }

    constructor ()
      ensures Valid() && channels == map[] && kernel == map[] && known == {}
    {
      channels, eventListSize := map[], 16;
      kernel, illegal, known := map[], 0, {};
    }

    /** A channel object comes into being. */
    ghost method Meet(ch: Channel)
      requires Valid() && ch !in known && ch.index == K_NEW
      modifies `known
      ensures Valid() && known == old(known) + {ch}
    {
      known := known + {ch};
    }

    /** epoll_ctl: ADD wants a descriptor that is not in the set, MOD and DEL one that is. */
    method Update(op: Operation, ch: Channel) returns (ok: bool)
      modifies `kernel, `illegal
      ensures ok == (op.CtlAdd? <==> ch.fd !in old(kernel))
      ensures illegal == old(illegal) + (if ok then 0 else 1)
      ensures kernel == if !ok then old(kernel)
                        else if op.CtlDel? then old(kernel) - {ch.fd as int}
                        else old(kernel)[ch.fd := Interest(ch, ch.events)]
    {
      ok := if op.CtlAdd? then ch.fd !in kernel else ch.fd in kernel;
      if ok {
        kernel := if op.CtlDel? then kernel - {ch.fd as int} else kernel[ch.fd := Interest(ch, ch.events)];
      } else {
        illegal := illegal + 1;
      }
    }

    /** A channel that is new, or known here without being in the kernel's set. */
    method AddChannel(ch: Channel) returns (ok: bool)
      requires ValidBut({ch}) && ch in known && (ch.index == K_NEW || ch.index == K_DELETED)
      modifies this, ch`index
      ensures Valid() && known == old(known)
      ensures ok == (old(Registered(ch)) || ch.fd !in old(channels))
      ensures channels == if ok then old(channels)[ch.fd := ch] else old(channels)
      ensures ch.index == if ok then K_ADDED else K_NEW
      ensures kernel == if ok then old(kernel)[ch.fd := Interest(ch, ch.events)] else old(kernel)
    {
      var fd := ch.fd;
      if ch.index == K_NEW {
        if fd in channels {
          return false;
        }
        channels := channels[fd := ch];
      } else {
        if fd !in channels {
          return false;
        }
        if channels[fd] != ch {
          return false;
        }
        assert channels[fd := ch] == channels;
      }
      ch.index := K_ADDED;
      ok := Update(CtlAdd, ch);
    }

    /** A channel in the kernel's set. */
    method ChangeAdded(ch: Channel) returns (ok: bool)
      requires ValidBut({ch}) && ch in known && ch.index == K_ADDED
      modifies this, ch`index
      ensures Valid() && known == old(known) && channels == old(channels)
      ensures ok && Registered(ch)
      ensures ch.index == if ch.IsNoneEvent() then K_DELETED else K_ADDED
      ensures kernel == if ch.IsNoneEvent() then old(kernel) - {ch.fd as int}
                        else old(kernel)[ch.fd := Interest(ch, ch.events)]
    {
      if ch.IsNoneEvent() {
        ok := Update(CtlDel, ch);
        if ok {
          ch.index := K_DELETED;
        }
      } else {
        ok := Update(CtlMod, ch);
      }
    }

    /**
     * Brings the kernel's set in line with a channel whose events have changed. It fails only for a channel
     * without an entry whose descriptor belongs to another channel.
     */
    method UpdateChannel(ch: Channel) returns (ok: bool)
      requires ValidBut({ch}) && ch in known
      modifies this, ch`index
      ensures Valid() && known == old(known)
      ensures ok == (old(Registered(ch)) || ch.fd !in old(channels))
      ensures channels == if ok then old(channels)[ch.fd := ch] else old(channels)
      ensures ch.index == if !ok then K_NEW
                          else if old(ch.index) == K_ADDED && ch.IsNoneEvent() then K_DELETED else K_ADDED
      ensures kernel == if !ok then old(kernel)
                        else if ch.index == K_DELETED then old(kernel) - {ch.fd as int}
                        else old(kernel)[ch.fd := Interest(ch, ch.events)]
    {
      var index := ch.index;
      if index == K_NEW || index == K_DELETED {
        ok := AddChannel(ch);
      } else {
        if ch.fd !in channels || channels[ch.fd] != ch || index != K_ADDED {
          return false;
        }
        assert channels[ch.fd := ch] == channels;
        ok := ChangeAdded(ch);
      }
    }

    /** enableReading, disableReading, enableWriting, disableWriting and disableAll of the channel. */
    method ChangeEvents(ch: Channel, events: Events) returns (ok: bool)
      requires Valid() && ch in known
      modifies this, ch`index, ch`events
      ensures Valid() && known == old(known) && ch.events == events
      ensures ok == (old(Registered(ch)) || ch.fd !in old(channels))
      ensures channels == if ok then old(channels)[ch.fd := ch] else old(channels)
    {
      ch.events := events;
      ok := UpdateChannel(ch);
    }

    method RemoveChannel(ch: Channel)
      requires Valid() && ch in known
      modifies this, ch`index
      ensures Valid() && known == old(known)
      ensures var gone := old(Registered(ch)) && ch.IsNoneEvent();
              && channels == (if gone then old(channels) - {ch.fd as int} else old(channels))
              && kernel == (if gone then old(kernel) - {ch.fd as int} else old(kernel))
              && ch.index == (if gone then K_NEW else old(ch.index))
    {
      var fd := ch.fd;
      if fd !in channels || channels[fd] != ch || !ch.IsNoneEvent() {
        return;
      }
      var index := ch.index;
      if index != K_ADDED && index != K_DELETED {
        return;
      }
      channels := channels - {fd as int};
      if index == K_ADDED {
        var _ := Update(CtlDel, ch);
      }
      ch.index := K_NEW;
      assert fd !in kernel;
      assert kernel == old(kernel) - {fd as int};
    }

    /** epoll_wait reports members of the interest set, each at most once. */
    ghost predicate Reportable(ready: seq<Ready>)
      reads this
    {
      && (forall i :: 0 <= i < |ready| ==> ready[i].ch.fd in kernel && kernel[ready[i].ch.fd].ch == ready[i].ch)
      && (forall i, j :: 0 <= i < j < |ready| ==> ready[i].ch != ready[j].ch)
    }

    /** One event reported: the test of the loop never fails. */
    method Deliver(event: Ready, filled: seq<Channel>) returns (grown: seq<Channel>, ok: bool)
      requires Valid() && event.ch.fd in kernel && kernel[event.ch.fd].ch == event.ch
      modifies event.ch`revents
      ensures Valid() && ok && grown == filled + [event.ch] && event.ch.revents == event.events
    {
      var ch := event.ch;
      var fd := ch.fd;
      assert kernel[fd].ch in known;
      grown, ok := filled, true;
      if fd !in channels || channels[fd] != ch {
        ok := false;
        return;
      }
      ch.revents := event.events;
      grown := grown + [ch];
    }

    /** Every event reported is passed on; the loop's early return is never taken. */
    method FillActiveChannels(ready: seq<Ready>, active: seq<Channel>) returns (filled: seq<Channel>)
      requires Valid() && Reportable(ready)
      modifies set i | 0 <= i < |ready| :: ready[i].ch
      ensures Valid()
      ensures |filled| == |active| + |ready| && filled[..|active|] == active
      ensures forall i :: 0 <= i < |ready| ==>
                filled[|active| + i] == ready[i].ch && ready[i].ch.revents == ready[i].events
    {
      filled := active;
      for i := 0 to |ready|
        invariant Valid() && Reportable(ready)
        invariant |filled| == |active| + i && filled[..|active|] == active
        invariant forall j :: 0 <= j < i ==>
                    filled[|active| + j] == ready[j].ch && ready[j].ch.revents == ready[j].events
      {
        var ok;
        filled, ok := Deliver(ready[i], filled);
        if !ok {
          return;
        }
      }
    }

    /** One poll; a full event list is doubled for the next one. */
    method Poll(ready: seq<Ready>) returns (active: seq<Channel>)
      requires Valid() && Reportable(ready) && |ready| <= eventListSize
      modifies `eventListSize, set i | 0 <= i < |ready| :: ready[i].ch
      ensures Valid()
      ensures |active| == |ready| && forall i :: 0 <= i < |ready| ==> active[i] == ready[i].ch
      ensures eventListSize == if ready != [] && |ready| == old(eventListSize)
                               then 2 * old(eventListSize) else old(eventListSize)
    {
      active := [];
      if |ready| > 0 {
        active := FillActiveChannels(ready, []);
        if |ready| == eventListSize {
          eventListSize := eventListSize * 2;
        }
      }
    }
  }

  // ---------- Any sequence of calls ----------

  datatype Call = Change(ch: Channel, events: Events) | Remove(ch: Channel)

  function Callees(calls: seq<Call>): set<Channel> {
    set i | 0 <= i < |calls| :: calls[i].ch
  }

  /** One call, for a channel that the poller knows or that has just come into being. */
  method DriveOne(p: EPollPoller, call: Call)
    requires p.Valid() && (call.ch in p.known || call.ch.index == K_NEW)
    modifies p, call.ch
    ensures p.Valid() && p.known == old(p.known) + {call.ch}
  {
    if call.ch !in p.known {
      p.Meet(call.ch);
    }
    match call {
      case Change(ch, events) =>
        var _ := p.ChangeEvents(ch, events);
      case Remove(ch) =>
        p.RemoveChannel(ch);
    }
  }

  /**
   * Over every sequence of calls, for old channels and for new ones as they come into being, the index and the
   * kernel agree, and no illegal epoll_ctl is issued.
   */
  method Drive(p: EPollPoller, calls: seq<Call>)
    requires p.Valid()
    requires forall i :: 0 <= i < |calls| ==> calls[i].ch in p.known || calls[i].ch.index == K_NEW
    modifies p, Callees(calls)
    ensures p.Valid() && p.known == old(p.known) + Callees(calls)
  {
    for i := 0 to |calls|
      invariant p.Valid() && old(p.known) <= p.known <= old(p.known) + Callees(calls)
      invariant forall j :: 0 <= j < i ==> calls[j].ch in p.known
      invariant forall j :: i <= j < |calls| ==> calls[j].ch in p.known || calls[j].ch.index == K_NEW
    {
      DriveOne(p, calls[i]);
    }
  }

  /** From the construction of the poller on. */
  method DriveFresh(calls: seq<Call>) returns (p: EPollPoller)
    requires forall i :: 0 <= i < |calls| ==> calls[i].ch.index == K_NEW
    modifies Callees(calls)
    ensures fresh(p) && p.Valid() && p.illegal == 0
  {
    p := new EPollPoller();
    Drive(p, calls);
  }
}
