/** The poll(2) array and its index: net/PollPoller.cpp. */
module PollPoller {
  import opened Channel

  datatype PollFd = PollFd(fd: int, events: Events, revents: int)

  /** A disabled slot holds -fd - 1. */
  function Decode(v: int): int {
    if v < 0 then -v - 1 else v
  }

  // ---------- The index by itself ----------

  /** Slot `where[fd]` belongs to `fd`, and every slot belongs to exactly one descriptor. */
  predicate Bijection(slots: seq<int>, where: map<int, int>) {
    && |slots| == |where|
    && (forall fd :: fd in where ==> 0 <= where[fd] < |slots| && slots[where[fd]] == fd)
    && (forall i :: 0 <= i < |slots| ==> slots[i] in where && where[slots[i]] == i)
  }

  /** Remove slot `i` by moving the last one there. */
  function SwapRemove<T>(s: seq<T>, i: nat): (t: seq<T>)
    requires i < |s|
    ensures |t| == |s| - 1
  {
    s[i := s[|s| - 1]][..|s| - 1]
  }

  /** The index afterwards: one entry gone, at most one entry changed. */
  function Repaired(slots: seq<int>, where: map<int, int>, fd: int): map<int, int>
    requires fd in where && 0 <= where[fd] < |slots|
  {
    var rest, last := where - {fd}, slots[|slots| - 1];
    if last == fd then rest else rest[last := where[fd]]
  }

  lemma AddKeepsBijection(slots: seq<int>, where: map<int, int>, fd: int)
    requires Bijection(slots, where) && fd !in where
    ensures Bijection(slots + [fd], where[fd := |slots|])
  {
    assert |where[fd := |slots|]| == |where| + 1;
  }

  /** Repairing the one moved index is enough. */
  lemma RemoveKeepsBijection(slots: seq<int>, where: map<int, int>, fd: int)
    requires Bijection(slots, where) && fd in where
    ensures Bijection(SwapRemove(slots, where[fd]), Repaired(slots, where, fd))
    ensures forall g :: g in where && g != fd && g != slots[|slots| - 1] ==>
              g in Repaired(slots, where, fd) && Repaired(slots, where, fd)[g] == where[g]
  {
    var i, n := where[fd], |slots| - 1;
    var last := slots[n];
    var rest := where - {fd};
    assert where.Keys == rest.Keys + {fd};
    assert |rest| == |where| - 1;
    var t, repaired := SwapRemove(slots, i), Repaired(slots, where, fd);
    assert repaired.Keys == rest.Keys;
    assert |repaired.Keys| == |rest.Keys|;
  }

  /** The other slots are still there, each as often as before. */
  lemma SwapRemoveMultiset<T>(s: seq<T>, i: nat)
    requires i < |s|
    ensures multiset(SwapRemove(s, i)) == multiset(s) - multiset{s[i]}
  {
    var n := |s| - 1;
    assert s == s[..n] + [s[n]];
    if i < n {
      assert multiset(s[..n]) == multiset(s) - multiset{s[n]};
      assert SwapRemove(s, i) == s[..n][i := s[n]];
    } else {
      assert SwapRemove(s, i) == s[..n];
    }
  }

  // ---------- What poll is asked ----------

  /** For one descriptor: the events asked for, and whether poll skips the slot. */
  datatype Ask = Ask(events: Events, muted: bool)

  function AskOf(slot: PollFd): Ask {
    Ask(slot.events, slot.fd < 0)
  }

  /** By descriptor, whatever the places of the slots. */
  function Asks(pollfds: seq<PollFd>, where: map<int, int>): map<int, Ask>
    requires forall fd :: fd in where ==> 0 <= where[fd] < |pollfds|
  {
    map fd | fd in where :: AskOf(pollfds[where[fd]])
  }

  /** An update or a removal that the poller has carried out. */
  datatype Effect = Told(fd: int, events: Events) | Forgot(fd: int)

  /** A registered channel that is told to ask for nothing is skipped from then on, whatever it is told later. */
  function Effected(asks: map<int, Ask>, e: Effect): map<int, Ask> {
    match e
    case Told(fd, events) => asks[fd := Ask(events, fd in asks && (asks[fd].muted || events == NONE))]
    case Forgot(fd) => asks - {fd}
  }

  function Replay(asks: map<int, Ask>, log: seq<Effect>): map<int, Ask>
    decreases |log|
  {
    if log == [] then asks else Effected(Replay(asks, log[..|log| - 1]), log[|log| - 1])
  }

  /** The events that the channel of `fd` has been told since it was registered. */
  function Since(log: seq<Effect>, fd: int): seq<Events>
    decreases |log|
  {
    if log == [] then []
    else
      var before, e := Since(log[..|log| - 1], fd), log[|log| - 1];
      if e.fd != fd then before else if e.Told? then before + [e.events] else []
  }

  /**
   * From an empty poller on: poll is asked for exactly the registered descriptors, each with the events of its
   * last update, and skips those that have been updated to no events since they were registered.
   */
  lemma {:induction false} AskedExactly(log: seq<Effect>, fd: int)
    ensures var asks, told := Replay(map[], log), Since(log, fd);
            && (fd in asks <==> told != [])
            && (fd in asks ==>
                  && asks[fd].events == told[|told| - 1]
                  && (asks[fd].muted <==> exists i :: 1 <= i < |told| && told[i] == NONE))
    decreases |log|
  {
    if log != [] {
      AskedExactly(log[..|log| - 1], fd);
      var before, told := Since(log[..|log| - 1], fd), Since(log, fd);
      assert told != [] && |told| > |before| ==> forall i :: 0 <= i < |before| ==> told[i] == before[i];
    }
  }

  lemma AddedAsks(pollfds: seq<PollFd>, where: map<int, int>, fd: int, slot: PollFd)
    requires forall g :: g in where ==> 0 <= where[g] < |pollfds|
    requires fd !in where && slot.fd == fd >= 0
    ensures Asks(pollfds + [slot], where[fd := |pollfds|]) == Effected(Asks(pollfds, where), Told(fd, slot.events))
  {
    var asks := Asks(pollfds, where);
    assert forall g :: g in where ==> AskOf((pollfds + [slot])[where[g]]) == asks[g];
    assert Effected(asks, Told(fd, slot.events)) == asks[fd := AskOf(slot)];
  }

  lemma ChangedAsks(pollfds: seq<PollFd>, slots: seq<int>, where: map<int, int>, fd: int, slot: PollFd)
    requires Bijection(slots, where) && |slots| == |pollfds| && fd in where
    requires slot.fd == if slot.events == NONE then -fd - 1 else pollfds[where[fd]].fd
    requires fd >= 0
    ensures Asks(pollfds[where[fd] := slot], where) == Effected(Asks(pollfds, where), Told(fd, slot.events))
  {
    var asks, after := Asks(pollfds, where), pollfds[where[fd] := slot];
    forall g | g in where && g != fd
      ensures AskOf(after[where[g]]) == asks[g]
    {
      assert slots[where[g]] == g && slots[where[fd]] == fd;
    }
    assert asks[fd].muted == (pollfds[where[fd]].fd < 0);
    assert Effected(asks, Told(fd, slot.events)) == asks[fd := AskOf(slot)];
  }

  lemma RemovedAsks(pollfds: seq<PollFd>, slots: seq<int>, where: map<int, int>, fd: int)
    requires Bijection(slots, where) && |slots| == |pollfds| && fd in where
    requires Bijection(SwapRemove(slots, where[fd]), Repaired(slots, where, fd))
    ensures Asks(SwapRemove(pollfds, where[fd]), Repaired(slots, where, fd))
         == Effected(Asks(pollfds, where), Forgot(fd))
  {
    var last := slots[|slots| - 1];
    forall g | g in where && g != fd
      ensures g == last <==> where[g] == |slots| - 1
      ensures where[g] != where[fd]
    {
      assert slots[where[g]] == g && slots[where[fd]] == fd;
    }
  }

  class PollPoller {
    var pollfds: seq<PollFd>
    var channels: map<int, Channel>

    ghost function Slots(): (slots: seq<int>)
      reads this
      ensures |slots| == |pollfds| && forall i :: 0 <= i < |slots| ==> slots[i] == Decode(pollfds[i].fd)
    {
      seq(|pollfds|, i requires 0 <= i < |pollfds| reads this => Decode(pollfds[i].fd))
    }

    /** The indexes kept inside the registered channels. */
    ghost function Where(): map<int, int>
      reads this, channels.Values
    {
      map fd | fd in channels :: channels[fd].index
    }

    ghost predicate Valid()
      reads this, channels.Values
    {
      && (forall fd :: fd in channels ==> channels[fd].fd == fd && 0 <= channels[fd].index < |pollfds|)
      && Bijection(Slots(), Where())
    }

    /** What poll is asked for each registered descriptor. */
    ghost function Asked(): map<int, Ask>
      requires Valid()
      reads this, channels.Values
    {
      Asks(pollfds, Where())
    }

    ghost predicate Registered(ch: Channel)
      reads this
    {
      ch.fd in channels && channels[ch.fd] == ch
    }

    constructor ()
      ensures Valid() && pollfds == [] && channels == map[] && Asked() == map[]
    {
      pollfds, channels := [], map[];
    }

    /** A channel new to this poller gets a slot at the end. */
    method AddSlot(ch: Channel)
      requires Valid() && ch.index < 0 && ch.fd !in channels
      modifies this, ch`index
      ensures Valid() && channels == old(channels)[ch.fd := ch]
      ensures pollfds == old(pollfds) + [PollFd(ch.fd, ch.events, 0)] && ch.index == |old(pollfds)|
      ensures Slots() == old(Slots()) + [ch.fd as int]
      ensures Where() == old(Where())[ch.fd as int := |old(pollfds)|]
    {
      ghost var slots, where := Slots(), Where();
      AddKeepsBijection(slots, where, ch.fd);
      pollfds := pollfds + [PollFd(ch.fd, ch.events, 0)];
      var idx := |pollfds| - 1;
      ch.index := idx;
      channels := channels[ch.fd := ch];
      assert forall fd :: fd in old(channels) ==> channels[fd] == old(channels[fd]) && channels[fd] != ch;
      assert Slots() == slots + [ch.fd as int];
      assert Where() == where[ch.fd := |slots|];
    }

    /** The slot of a channel after a change: without events it is disabled, and it is never enabled again. */
    function Changed(slot: PollFd, ch: Channel): PollFd
      reads ch
    {
      PollFd(if ch.IsNoneEvent() then -(ch.fd as int) - 1 else slot.fd, ch.events, 0)
    }

    /** A registered channel keeps its slot. */
    method ChangeSlot(ch: Channel)
      requires Valid() && Registered(ch)
      modifies `pollfds
      ensures Valid() && Slots() == old(Slots())
      ensures pollfds == old(pollfds)[ch.index := Changed(old(pollfds[ch.index]), ch)]
      ensures Where() == old(Where())
    {
      var idx := ch.index;
      ghost var slots := Slots();
      assert Where()[ch.fd] == idx;
      var slot := Changed(pollfds[idx], ch);
      assert Decode(slot.fd) == slots[idx] == ch.fd;
      pollfds := pollfds[idx := slot];
      assert Slots() == slots;
    }

    /** A channel that was removed keeps a stale index, and is refused here. */
    method UpdateChannel(ch: Channel) returns (ok: bool)
      requires Valid()
      modifies this, ch`index
      ensures Valid()
      ensures ok == (old(Registered(ch)) || (old(ch.index) < 0 && ch.fd !in old(channels)))
      ensures channels == if ok then old(channels)[ch.fd := ch] else old(channels)
      ensures Slots() == if ok && !old(Registered(ch)) then old(Slots()) + [ch.fd as int] else old(Slots())
      ensures !ok || old(Registered(ch)) ==> ch.index == old(ch.index)
      ensures old(Registered(ch)) ==> 0 <= ch.index < |old(pollfds)|
      ensures pollfds == if !ok then old(pollfds)
                         else if old(Registered(ch))
                         then old(pollfds)[ch.index := Changed(old(pollfds[ch.index]), ch)]
                         else old(pollfds) + [PollFd(ch.fd, ch.events, 0)]
      ensures ok && !old(Registered(ch)) ==> ch.index == |old(pollfds)|
      ensures Asked() == if ok then Effected(old(Asked()), Told(ch.fd, ch.events)) else old(Asked())
      ensures ok ==> pollfds[ch.index].events == ch.events && pollfds[ch.index].revents == 0
    {
      if ch.index < 0 {
        if ch.fd in channels {
          return false;
        }
        AddedAsks(pollfds, Where(), ch.fd, PollFd(ch.fd, ch.events, 0));
        AddSlot(ch);
      } else {
        if ch.fd !in channels || channels[ch.fd] != ch {
          return false;
        }
        assert 0 <= ch.index < |pollfds|; // so the range check of PollPoller::updateChannel passes
        ChangedAsks(pollfds, Slots(), Where(), ch.fd, Changed(pollfds[ch.index], ch));
        ChangeSlot(ch);
        assert old(channels)[ch.fd := ch] == old(channels);
      }
      return true;
    }

    /** Slots are not touched. */
    method SetIndex(ch: Channel, idx: nat)
      requires Registered(ch) && forall g :: g in channels ==> channels[g].fd == g
      modifies ch`index
      ensures Where() == old(Where())[ch.fd := idx]
    {
      ghost var where := Where();
      ch.index := idx;
      assert forall g :: g in channels && g != ch.fd ==> channels[g] != ch;
      assert Where() == where[ch.fd := idx];
    }

    lemma ViewIsValid(slots: seq<int>, where: map<int, int>)
      requires forall fd :: fd in channels ==> channels[fd].fd == fd
      requires slots == Slots() && where == Where() && Bijection(slots, where)
      ensures Valid()
    {
      assert forall fd :: fd in channels ==> where[fd] == channels[fd].index;
    }

    /** The swap with the last slot, and the pop. */
    method SwapOut(idx: nat)
      requires idx < |pollfds|
      modifies `pollfds
      ensures pollfds == SwapRemove(old(pollfds), idx) && Slots() == SwapRemove(old(Slots()), idx)
      ensures Where() == old(Where())
    {
      var n := |pollfds| - 1;
      if idx == n {
        pollfds := pollfds[..n];
      } else {
        pollfds := pollfds[idx := pollfds[n]][n := pollfds[idx]];
        pollfds := pollfds[..n];
      }
    }

    /** The erased entry, and the new index of the channel that was at the end. */
    method Forget(ch: Channel, channelAtEnd: int, idx: nat, moved: bool)
      requires Registered(ch) && channelAtEnd in channels && moved == (channelAtEnd != ch.fd)
      requires forall g :: g in channels ==> channels[g].fd == g
      modifies `channels, channels.Values`index
      ensures channels == old(channels) - {ch.fd as int}
      ensures Where() == if moved then old(Where() - {ch.fd as int})[channelAtEnd := idx]
                         else old(Where() - {ch.fd as int})
      ensures Slots() == old(Slots())
    {
      ghost var where := Where();
      channels := channels - {ch.fd as int};
      assert Where() == where - {ch.fd as int};
      if moved {
        SetIndex(channels[channelAtEnd], idx);
      }
    }

    /** Both halves of a removal; `shrunk` and `repaired` are the index it leaves. */
    method DropSlotAt(ch: Channel, idx: nat, channelAtEnd: int, ghost shrunk: seq<int>, ghost repaired: map<int, int>)
      requires Registered(ch) && (forall g :: g in channels ==> channels[g].fd == g)
      requires idx < |pollfds| && channelAtEnd in channels && (idx == |pollfds| - 1 <==> channelAtEnd == ch.fd)
      requires shrunk == SwapRemove(Slots(), idx) && Bijection(shrunk, repaired)
      requires repaired == if channelAtEnd == ch.fd then Where() - {ch.fd as int}
                           else (Where() - {ch.fd as int})[channelAtEnd := idx]
      modifies this, channels.Values`index
      ensures Valid() && channels == old(channels) - {ch.fd as int}
      ensures pollfds == old(SwapRemove(pollfds, idx)) && Where() == repaired
    {
      SwapOut(idx);
      Forget(ch, channelAtEnd, idx, idx != |pollfds|);
      ViewIsValid(shrunk, repaired);
    }

    /** The slot of `ch` is overwritten with the last one, whose channel learns its new index. */
    method DropSlot(ch: Channel)
      requires Valid() && Registered(ch)
      modifies this, channels.Values`index
      ensures Valid() && channels == old(channels) - {ch.fd as int}
      ensures pollfds == old(SwapRemove(pollfds, ch.index))
      ensures Where() == old(Repaired(Slots(), Where(), ch.fd))
      ensures Asked() == Effected(old(Asked()), Forgot(ch.fd))
    {
      ghost var slots, where := Slots(), Where();
      RemoveKeepsBijection(slots, where, ch.fd);
      RemovedAsks(pollfds, slots, where, ch.fd);
      var idx := ch.index;
      var last := pollfds[|pollfds| - 1].fd;
      var channelAtEnd := if last < 0 then -last - 1 else last;
      assert where[ch.fd] == idx && channelAtEnd == slots[|slots| - 1];
      assert where[channelAtEnd] == |slots| - 1;
      DropSlotAt(ch, idx, channelAtEnd, SwapRemove(slots, idx), Repaired(slots, where, ch.fd));
    }

    /** Removal of a registered channel without events; every other call changes nothing. */
    method RemoveChannel(ch: Channel)
      requires Valid()
      modifies this, channels.Values`index
      ensures Valid()
      ensures old(Registered(ch) && ch.IsNoneEvent()) ==>
                && channels == old(channels) - {ch.fd as int}
                && pollfds == old(SwapRemove(pollfds, ch.index))
                && Where() == old(Repaired(Slots(), Where(), ch.fd))
      ensures !old(Registered(ch) && ch.IsNoneEvent()) ==>
                channels == old(channels) && pollfds == old(pollfds) && Where() == old(Where())
      ensures Asked() == if old(Registered(ch) && ch.IsNoneEvent()) then Effected(old(Asked()), Forgot(ch.fd))
                         else old(Asked())
    {
      if ch.fd !in channels || channels[ch.fd] != ch || !ch.IsNoneEvent() {
        return;
      }
      DropSlot(ch);
    }

    lemma SlotKnown(i: nat)
      requires Valid() && i < |pollfds| && pollfds[i].fd >= 0
      ensures pollfds[i].fd in channels && channels[pollfds[i].fd].fd == pollfds[i].fd
    {
      assert Slots()[i] == pollfds[i].fd;
    }

    /** The reports of the channels of other slots stay. */
    method SetRevents(i: nat, ch: Channel, revents: int)
      requires Valid() && i < |pollfds| && ch.fd == pollfds[i].fd && Registered(ch)
      modifies ch`revents
      ensures Valid() && ch.revents == revents
      ensures forall j :: 0 <= j < i && pollfds[j].fd in channels ==> channels[pollfds[j].fd] != ch
    {
      ghost var where := Where();
      assert forall j :: 0 <= j <= i && pollfds[j].fd >= 0 ==> Slots()[j] == pollfds[j].fd;
      ch.revents := revents;
      assert Where() == where;
    }

    /** What the first `n` slots report is in `filled`, in their order and behind `active`. */
    ghost predicate Delivered(ready: seq<int>, active: seq<Channel>, filled: seq<Channel>, n: nat)
      requires n <= |ready| == |pollfds|
      reads this, channels.Values
    {
      && |filled| == |active| + Reported(ready[..n]) && filled[..|active|] == active
      && forall i :: 0 <= i < n && ready[i] > 0 ==>
           && pollfds[i].fd in channels
           && channels[pollfds[i].fd].revents == ready[i]
           && |active| + Reported(ready[..i]) < |filled|
           && filled[|active| + Reported(ready[..i])] == channels[pollfds[i].fd]
    }

    /** One slot that reports something: both tests of the loop succeed. */
    method DeliverSlot(i: nat, ready: seq<int>, ghost active: seq<Channel>, filled: seq<Channel>)
      returns (grown: seq<Channel>)
      requires Valid() && |ready| == |pollfds| && i < |pollfds| && ready[i] > 0 && pollfds[i].fd >= 0
      requires Delivered(ready, active, filled, i)
      modifies channels.Values
      ensures Valid() && Delivered(ready, active, grown, i + 1)
    {
      ReportedStep(ready, i);
      SlotKnown(i);
      grown := filled;
      var fd := pollfds[i].fd;
      if fd in channels {
        var ch := channels[fd];
        if ch.fd == fd {
          SetRevents(i, ch, ready[i]);
          grown := grown + [ch];
        }
      }
    }

    lemma DeliveredAll(ready: seq<int>, active: seq<Channel>, filled: seq<Channel>, n: nat)
      requires n <= |ready| == |pollfds| && Delivered(ready, active, filled, n) && Reported(ready[n..]) == 0
      ensures Delivered(ready, active, filled, |ready|) && |filled| == |active| + Reported(ready)
    {
      NothingLeft(ready, n);
      assert ready[..|ready|] == ready;
    }

    lemma DeliveredSkip(ready: seq<int>, active: seq<Channel>, filled: seq<Channel>, n: nat)
      requires n < |ready| == |pollfds| && Delivered(ready, active, filled, n) && ready[n] <= 0
      ensures Delivered(ready, active, filled, n + 1)
    {
      ReportedStep(ready, n);
    }

    /** The slots that poll(2) reports on, in order, up to the number it returned. */
    method FillActiveChannels(numEvents: nat, ready: seq<int>, active: seq<Channel>) returns (filled: seq<Channel>)
      requires Valid() && |ready| == |pollfds| && numEvents == Reported(ready)
      requires forall i :: 0 <= i < |ready| && pollfds[i].fd < 0 ==> ready[i] == 0 // negative slots are ignored
      modifies channels.Values
      ensures Valid() && |filled| == |active| + numEvents
      ensures Delivered(ready, active, filled, |ready|)
    {
      filled := active;
      var left := numEvents;
      var i := 0;
      while i < |pollfds| && left > 0
        invariant 0 <= i <= |pollfds| && left == Reported(ready[i..])
        invariant Valid() && Delivered(ready, active, filled, i)
      {
        assert Reported(ready[i..]) == (if ready[i] > 0 then 1 else 0) + Reported(ready[i + 1..]) by {
          ReportedStep(ready, i);
        }
        if ready[i] > 0 {
          left := left - 1;
          filled := DeliverSlot(i, ready, active, filled);
        } else {
          DeliveredSkip(ready, active, filled, i);
        }
        i := i + 1;
      }
      DeliveredAll(ready, active, filled, i);
    }
  }

  /** How many slots have something to report. */
  function Reported(ready: seq<int>): nat {
    if ready == [] then 0 else (if ready[0] > 0 then 1 else 0) + Reported(ready[1..])
  }

  lemma {:induction false} ReportedSplit(a: seq<int>, b: seq<int>)
    ensures Reported(a + b) == Reported(a) + Reported(b)
  {
    if a == [] {
      assert a + b == b;
    } else {
      ReportedSplit(a[1..], b);
      assert (a + b)[1..] == a[1..] + b;
    }
  }

  lemma ReportedStep(ready: seq<int>, i: nat)
    requires i < |ready|
    ensures Reported(ready[i..]) == (if ready[i] > 0 then 1 else 0) + Reported(ready[i + 1..])
    ensures Reported(ready[..i + 1]) == Reported(ready[..i]) + if ready[i] > 0 then 1 else 0
  {
    assert ready[i..][1..] == ready[i + 1..];
    assert ready[..i + 1] == ready[..i] + [ready[i]];
    ReportedSplit(ready[..i], [ready[i]]);
    assert Reported([ready[i]]) == if ready[i] > 0 then 1 else 0;
  }

  lemma {:induction false} NothingLeft(ready: seq<int>, i: nat)
    requires i <= |ready| && Reported(ready[i..]) == 0
    ensures Reported(ready) == Reported(ready[..i])
    ensures forall j :: i <= j < |ready| ==> ready[j] <= 0
    decreases |ready| - i
  {
    if i < |ready| {
      ReportedStep(ready, i);
      NothingLeft(ready, i + 1);
    } else {
      assert ready[..i] == ready;
    }
  }

  // ---------- Any sequence of calls ----------

  /** What the loop does to channels: their events change, and the poller is told, or asked to remove them. */
  datatype Call = SetEvents(ch: Channel, events: Events) | Update(ch: Channel) | Remove(ch: Channel)

  lemma ReplaySnoc(asks: map<int, Ask>, log: seq<Effect>, e: Effect)
    ensures Replay(asks, log + [e]) == Effected(Replay(asks, log), e)
  {
    assert (log + [e])[..|log|] == log;
  }

  /** One call; `log` are the updates and removals carried out so far. */
  method DriveOne(p: PollPoller, call: Call, ghost asks: map<int, Ask>, ghost before: seq<Effect>)
    returns (ghost log: seq<Effect>)
    requires p.Valid() && p.Asked() == Replay(asks, before)
    modifies p, p.channels.Values, call.ch
    ensures p.Valid() && p.channels.Values <= old(p.channels.Values) + {call.ch}
    ensures p.Asked() == Replay(asks, log)
    ensures log == match call
                   case SetEvents(_, _) => before
                   case Update(ch) =>
                     if old(p.Registered(ch)) || (old(ch.index) < 0 && ch.fd !in old(p.channels))
                     then before + [Told(ch.fd, ch.events)] else before
                   case Remove(ch) =>
                     if old(p.Registered(ch) && ch.IsNoneEvent()) then before + [Forgot(ch.fd)] else before
  {
    log := before;
    match call {
      case SetEvents(ch, events) =>
        ghost var slots, where := p.Slots(), p.Where();
        ch.events := events;
        assert p.Slots() == slots && p.Where() == where;
        p.ViewIsValid(slots, where);
      case Update(ch) =>
        ReplaySnoc(asks, before, Told(ch.fd, ch.events));
        var ok := p.UpdateChannel(ch);
        log := if ok then before + [Told(ch.fd, ch.events)] else before;
      case Remove(ch) =>
        ReplaySnoc(asks, before, Forgot(ch.fd));
        ghost var gone := p.Registered(ch) && ch.IsNoneEvent();
        p.RemoveChannel(ch);
        log := if gone then before + [Forgot(ch.fd)] else before;
    }
  }

  /**
   * Over every sequence of calls on any channels, registered, stale or foreign, the index stays sound, and what
   * poll is asked is what the updates and removals carried out say.
   */
  method Drive(p: PollPoller, calls: seq<Call>) returns (ghost log: seq<Effect>)
    requires p.Valid()
    modifies p, p.channels.Values, set call | call in calls :: call.ch
    ensures p.Valid() && p.Asked() == Replay(old(p.Asked()), log)
  {
    ghost var all, asks := p.channels.Values + set call | call in calls :: call.ch, p.Asked();
    log := [];
    for i := 0 to |calls|
      invariant p.Valid() && p.channels.Values <= all && p.Asked() == Replay(asks, log)
    {
      assert calls[i] in calls;
      log := DriveOne(p, calls[i], asks, log);
    }
  }
}
