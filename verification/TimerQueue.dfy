/** Timers with repeat counts: net/Timer.cpp and net/TimerQueue.cpp. */
module TimerQueue {
  import opened Sequences

  /**
   * A timer as it was built (`when`, `interval`, `repeat`) and as it is now. `fired` holds the clock at
   * each run of the callback.
   */
  datatype TimerState = TimerState(id: nat, when: int, interval: int, repeat: int,
                                   expiration: int, repeatCount: int, canceled: bool, fired: seq<int>)

  function NewTimer(id: nat, when: int, interval: int, repeat: int): TimerState {
    TimerState(id, when, interval, repeat, when, repeat, false, [])
  }

  /** Timer::run. The count -1 stands for no limit; the last firing does not move the expiration. */
  function Fire(t: TimerState, now: int): TimerState {
    if t.canceled then t
    else
      var count := if t.repeatCount != -1 then t.repeatCount - 1 else -1;
      var done := t.repeatCount != -1 && count == 0;
      t.(fired := t.fired + [now], repeatCount := count,
         expiration := if done then t.expiration else t.expiration + t.interval)
  }

  /** An element of the ordered set: its key stays what it was at the insertion. */
  datatype Entry = Entry(key: int, timer: TimerState)

  datatype State = State(entries: seq<Entry>, gone: seq<TimerState>, nextId: nat, clock: int)

  const EMPTY := State([], [], 0, 0)

  predicate Due(e: Entry, now: int) {
    e.timer.expiration <= now
  }

  /** The loop of doTimer over the set in its order: what stays, and the timers erased. */
  function Pass(entries: seq<Entry>, now: int): (seq<Entry>, seq<TimerState>) {
    if entries == [] || !Due(entries[0], now) then (entries, [])
    else
      var t := Fire(entries[0].timer, now);
      var (rest, erased) := Pass(entries[1..], now);
      if t.repeatCount == 0 then (rest, [t] + erased) else ([Entry(entries[0].key, t)] + rest, erased)
  }

  predicate Before(a: Entry, b: Entry) {
    a.key < b.key || (a.key == b.key && a.timer.id < b.timer.id)
  }

  /** Insertion into the set ordered by key and then by address, for which the id stands. */
  function Insert(entries: seq<Entry>, e: Entry): seq<Entry> {
    if entries == [] || Before(e, entries[0]) then [e] + entries else [entries[0]] + Insert(entries[1..], e)
  }

  /** The number of elements in front of the new one. */
  function Place(entries: seq<Entry>, e: Entry): (i: nat)
    ensures i <= |entries|
  {
    if entries == [] || Before(e, entries[0]) then 0 else 1 + Place(entries[1..], e)
  }

  lemma {:induction false} InsertAtPlace(entries: seq<Entry>, e: Entry)
    ensures var i := Place(entries, e); Insert(entries, e) == entries[..i] + [e] + entries[i..]
    decreases |entries|
  {
    var i := Place(entries, e);
    if i > 0 {
      InsertAtPlace(entries[1..], e);
      assert entries[..i] == [entries[0]] + entries[1..][..i - 1];
      assert entries[i..] == entries[1..][i - 1..];
    }
  }

  /** `byReference`: the overload for a const reference, which forgets the repeat count. */
  datatype Action =
    | Add(when: int, interval: int, repeat: int, byReference: bool)
    | Remove(id: nat)
    | Cancel(id: nat, off: bool)
    | DoTimer(now: int)

  function Without(entries: seq<Entry>, id: nat): (seq<Entry>, seq<TimerState>) {
    if entries == [] then ([], [])
    else if entries[0].timer.id == id then (entries[1..], [entries[0].timer])
    else
      var (rest, removed) := Without(entries[1..], id);
      ([entries[0]] + rest, removed)
  }

  function SetCanceled(entries: seq<Entry>, id: nat, off: bool): seq<Entry> {
    if entries == [] then []
    else if entries[0].timer.id == id
    then [Entry(entries[0].key, entries[0].timer.(canceled := off))] + entries[1..]
    else [entries[0]] + SetCanceled(entries[1..], id, off)
  }

  /** A clock that goes back makes no step. */
  function Apply(s: State, a: Action): State {
    match a
    case Add(when, interval, repeat, byReference) =>
      var t := NewTimer(s.nextId, when, interval, if byReference then -1 else repeat);
      s.(entries := Insert(s.entries, Entry(when, t)), nextId := s.nextId + 1)
    case Remove(id) =>
      var (rest, removed) := Without(s.entries, id);
      s.(entries := rest, gone := s.gone + removed)
    case Cancel(id, off) => s.(entries := SetCanceled(s.entries, id, off))
    case DoTimer(now) =>
      if now < s.clock then s
      else
        var (rest, erased) := Pass(s.entries, now);
        s.(entries := rest, gone := s.gone + erased, clock := now)
  }

  function Run(s: State, actions: seq<Action>): State
    decreases |actions|
  {
    if actions == [] then s else Run(Apply(s, actions[0]), actions[1..])
  }

  // ---------- What holds of every timer ----------

  /** The earliest time for firing number `j`, counted from 0. */
  function Slot(t: TimerState, j: nat): int {
    if j == 0 then t.when else Slot(t, j - 1) + t.interval
  }

  lemma {:induction false} SlotIsMultiple(t: TimerState, j: nat)
    ensures Slot(t, j) == t.when + j * t.interval
  {
    if j > 0 {
      SlotIsMultiple(t, j - 1);
      assert j * t.interval == (j - 1) * t.interval + t.interval;
    }
  }

  /** Firings are never early, and come in the order of the clock. */
  predicate Punctual(t: TimerState, clock: int) {
    && (forall j :: 0 <= j < |t.fired| ==> Slot(t, j) <= t.fired[j] <= clock)
    && (forall i, j :: 0 <= i < j < |t.fired| ==> t.fired[i] <= t.fired[j])
  }

  predicate Counted(t: TimerState) {
    && (t.repeat >= 1 ==> |t.fired| <= t.repeat && t.repeatCount == t.repeat - |t.fired|)
    && (t.repeat == -1 ==> t.repeatCount == -1)
  }

  /** A timer in the set has its next firing ahead of it. */
  predicate Live(t: TimerState, clock: int) {
    Punctual(t, clock) && Counted(t) && t.expiration == Slot(t, |t.fired|) && (t.repeat >= 1 ==> |t.fired| < t.repeat)
  }

  predicate AllLive(entries: seq<Entry>, clock: int) {
    forall i :: 0 <= i < |entries| ==> Live(entries[i].timer, clock)
  }

  /** The last firing does not move the due time. */
  predicate Spent(t: TimerState) {
    t.repeat >= 1 && |t.fired| == t.repeat ==> t.expiration == Slot(t, |t.fired| - 1)
  }

  predicate AllSettled(gone: seq<TimerState>, clock: int) {
    forall i :: 0 <= i < |gone| ==> Punctual(gone[i], clock) && Counted(gone[i]) && Spent(gone[i])
  }

  predicate Inv(s: State) {
    AllLive(s.entries, s.clock) && AllSettled(s.gone, s.clock)
  }

  lemma {:induction false} SlotFrame(t: TimerState, u: TimerState, j: nat)
    requires t.when == u.when && t.interval == u.interval
    ensures Slot(t, j) == Slot(u, j)
  {
    if j > 0 {
      SlotFrame(t, u, j - 1);
    }
  }

  /** A firing that is due keeps all of that; the one that uses up the count ends the timer's life. */
  lemma FireKeeps(t: TimerState, clock: int, now: int)
    requires Live(t, clock) && clock <= now && t.expiration <= now
    ensures var u := Fire(t, now);
            Punctual(u, now) && Counted(u) && Spent(u) && (u.repeatCount != 0 ==> Live(u, now))
    ensures t.canceled ==> Fire(t, now) == t
  {
    var u := Fire(t, now);
    forall j: nat
      ensures Slot(u, j) == Slot(t, j)
    {
      SlotFrame(u, t, j);
    }
    if !t.canceled {
      var n := |t.fired|;
      assert forall j :: 0 <= j < n ==> u.fired[j] == t.fired[j];
      assert Slot(u, n + 1) == Slot(u, n) + u.interval;
    }
  }

  lemma Later(t: TimerState, clock: int, now: int)
    requires Live(t, clock) && clock <= now
    ensures Live(t, now)
  {
  }

  lemma {:induction false} PassKeeps(entries: seq<Entry>, clock: int, now: int)
    requires AllLive(entries, clock) && clock <= now
    ensures var (rest, erased) := Pass(entries, now);
            AllLive(rest, now) && AllSettled(erased, now)
    decreases |entries|
  {
    forall i | 0 <= i < |entries|
      ensures Live(entries[i].timer, now)
    {
      Later(entries[i].timer, clock, now);
    }
    if entries != [] && Due(entries[0], now) {
      FireKeeps(entries[0].timer, clock, now);
      PassKeeps(entries[1..], clock, now);
    }
  }

  lemma {:induction false} InsertKeeps(entries: seq<Entry>, e: Entry, clock: int)
    requires AllLive(entries, clock) && Live(e.timer, clock)
    ensures AllLive(Insert(entries, e), clock)
    decreases |entries|
  {
    if entries != [] && !Before(e, entries[0]) {
      InsertKeeps(entries[1..], e, clock);
    }
  }

  lemma {:induction false} WithoutKeeps(entries: seq<Entry>, id: nat, clock: int)
    requires AllLive(entries, clock)
    ensures AllLive(Without(entries, id).0, clock) && AllSettled(Without(entries, id).1, clock)
    decreases |entries|
  {
    if entries != [] && entries[0].timer.id != id {
      WithoutKeeps(entries[1..], id, clock);
    }
  }

  lemma {:induction false} CancelKeeps(entries: seq<Entry>, id: nat, off: bool, clock: int)
    requires AllLive(entries, clock)
    ensures AllLive(SetCanceled(entries, id, off), clock)
    decreases |entries|
  {
    if entries != [] {
      var t := entries[0].timer;
      if t.id == id {
        forall j: nat
          ensures Slot(t.(canceled := off), j) == Slot(t, j)
        {
          SlotFrame(t.(canceled := off), t, j);
        }
      } else {
        CancelKeeps(entries[1..], id, off, clock);
      }
    }
  }

  lemma StepKeepsInv(s: State, a: Action)
    requires Inv(s)
    ensures Inv(Apply(s, a))
  {
    match a {
      case Add(when, interval, repeat, byReference) =>
        var t := NewTimer(s.nextId, when, interval, if byReference then -1 else repeat);
        InsertKeeps(s.entries, Entry(when, t), s.clock);
      case Remove(id) => WithoutKeeps(s.entries, id, s.clock);
      case Cancel(id, off) => CancelKeeps(s.entries, id, off, s.clock);
      case DoTimer(now) =>
        if now >= s.clock {
          PassKeeps(s.entries, s.clock, now);
        }
    }
  }

  lemma {:induction false} RunKeepsInv(s: State, actions: seq<Action>)
    requires Inv(s)
    ensures Inv(Run(s, actions))
    decreases |actions|
  {
    if actions != [] {
      StepKeepsInv(s, actions[0]);
      RunKeepsInv(Apply(s, actions[0]), actions[1..]);
    }
  }

  /** The timers of a state, whether still in the set or not. */
  predicate Among(s: State, t: TimerState) {
    t in s.gone || exists i :: 0 <= i < |s.entries| && s.entries[i].timer == t
  }

  /**
   * Timer safety over every run: firing number j comes no earlier than j intervals after the first due time,
   * a positive repeat count bounds the number of firings, and a timer that has used it up is not in the set and
   * has its last due time.
   */
  lemma TimerSafety(actions: seq<Action>, t: TimerState)
    requires Among(Run(EMPTY, actions), t)
    ensures forall j :: 0 <= j < |t.fired| ==> t.when + j * t.interval <= t.fired[j]
    ensures t.repeat >= 1 ==> |t.fired| <= t.repeat
    ensures t.repeat >= 1 && |t.fired| == t.repeat ==>
              t in Run(EMPTY, actions).gone && t.expiration == t.when + (t.repeat - 1) * t.interval
  {
    RunKeepsInv(EMPTY, actions);
    forall j | 0 <= j < |t.fired|
      ensures t.when + j * t.interval <= t.fired[j]
    {
      SlotIsMultiple(t, j);
    }
    if t.repeat >= 1 && |t.fired| == t.repeat {
      SlotIsMultiple(t, t.repeat - 1);
    }
  }

  // ---------- The set and its keys ----------

  /** What never changes about an entry. */
  datatype Stamp = Stamp(key: int, id: nat, when: int, interval: int, repeat: int)

  function StampOf(e: Entry): Stamp {
    Stamp(e.key, e.timer.id, e.timer.when, e.timer.interval, e.timer.repeat)
  }

  predicate AllStamped(entries: seq<Entry>, p: Stamp -> bool) {
    forall i :: 0 <= i < |entries| ==> p(StampOf(entries[i]))
  }

  lemma {:induction false} PassStamped(entries: seq<Entry>, now: int, p: Stamp -> bool)
    requires AllStamped(entries, p)
    ensures AllStamped(Pass(entries, now).0, p)
    decreases |entries|
  {
    if entries != [] && Due(entries[0], now) {
      assert StampOf(Entry(entries[0].key, Fire(entries[0].timer, now))) == StampOf(entries[0]);
      PassStamped(entries[1..], now, p);
    }
  }

  lemma {:induction false} InsertStamped(entries: seq<Entry>, e: Entry, p: Stamp -> bool)
    requires AllStamped(entries, p) && p(StampOf(e))
    ensures AllStamped(Insert(entries, e), p)
    decreases |entries|
  {
    if entries != [] && !Before(e, entries[0]) {
      InsertStamped(entries[1..], e, p);
    }
  }

  lemma {:induction false} WithoutStamped(entries: seq<Entry>, id: nat, p: Stamp -> bool)
    requires AllStamped(entries, p)
    ensures AllStamped(Without(entries, id).0, p)
    decreases |entries|
  {
    if entries != [] && entries[0].timer.id != id {
      WithoutStamped(entries[1..], id, p);
    }
  }

  lemma {:induction false} CancelStamped(entries: seq<Entry>, id: nat, off: bool, p: Stamp -> bool)
    requires AllStamped(entries, p)
    ensures AllStamped(SetCanceled(entries, id, off), p)
    decreases |entries|
  {
    if entries != [] {
      if entries[0].timer.id == id {
        assert StampOf(SetCanceled(entries, id, off)[0]) == StampOf(entries[0]);
      } else {
        CancelStamped(entries[1..], id, off, p);
      }
    }
  }

  predicate StampBefore(a: Stamp, b: Stamp) {
    a.key < b.key || (a.key == b.key && a.id < b.id)
  }

  predicate AllAfter(a: Entry, entries: seq<Entry>) {
    AllStamped(entries, (b: Stamp) => StampBefore(StampOf(a), b))
  }

  /** The order of the set: by key, then by identity, and nothing twice. */
  predicate Ordered(entries: seq<Entry>) {
    entries == [] || (AllAfter(entries[0], entries[1..]) && Ordered(entries[1..]))
  }

  lemma {:induction false} PassOrdered(entries: seq<Entry>, now: int)
    requires Ordered(entries)
    ensures Ordered(Pass(entries, now).0)
    decreases |entries|
  {
    if entries != [] && Due(entries[0], now) {
      var e := entries[0];
      PassOrdered(entries[1..], now);
      PassStamped(entries[1..], now, (b: Stamp) => StampBefore(StampOf(e), b));
      var rest := Pass(entries[1..], now).0;
      assert AllAfter(e, rest);
      assert AllAfter(Entry(e.key, Fire(e.timer, now)), rest);
    }
  }

  lemma AfterToo(e: Entry, entries: seq<Entry>)
    requires entries != [] && Before(e, entries[0]) && AllAfter(entries[0], entries[1..])
    ensures AllAfter(e, entries)
  {
    forall i | 0 <= i < |entries|
      ensures StampBefore(StampOf(e), StampOf(entries[i]))
    {
      if i > 0 {
        assert StampBefore(StampOf(entries[0]), StampOf(entries[1..][i - 1]));
      }
    }
  }

  lemma {:induction false} InsertOrdered(entries: seq<Entry>, e: Entry)
    requires Ordered(entries) && forall i :: 0 <= i < |entries| ==> entries[i].timer.id != e.timer.id
    ensures Ordered(Insert(entries, e))
    decreases |entries|
  {
    if entries == [] {
    } else if Before(e, entries[0]) {
      assert ([e] + entries)[1..] == entries;
      AfterToo(e, entries);
    } else {
      var a := entries[0];
      InsertOrdered(entries[1..], e);
      assert AllAfter(a, entries[1..]);
      InsertStamped(entries[1..], e, (b: Stamp) => StampBefore(StampOf(a), b));
      assert AllAfter(a, Insert(entries[1..], e));
    }
  }

  lemma {:induction false} WithoutOrdered(entries: seq<Entry>, id: nat)
    requires Ordered(entries)
    ensures Ordered(Without(entries, id).0)
    decreases |entries|
  {
    if entries != [] && entries[0].timer.id != id {
      var a := entries[0];
      WithoutOrdered(entries[1..], id);
      assert AllAfter(a, entries[1..]);
      WithoutStamped(entries[1..], id, (b: Stamp) => StampBefore(StampOf(a), b));
      assert AllAfter(a, Without(entries[1..], id).0);
    }
  }

  lemma {:induction false} CancelOrdered(entries: seq<Entry>, id: nat, off: bool)
    requires Ordered(entries)
    ensures Ordered(SetCanceled(entries, id, off))
    decreases |entries|
  {
    if entries != [] {
      var a := entries[0];
      assert AllAfter(a, entries[1..]);
      if a.timer.id == id {
        assert AllAfter(SetCanceled(entries, id, off)[0], entries[1..]);
      } else {
        CancelOrdered(entries[1..], id, off);
        CancelStamped(entries[1..], id, off, (b: Stamp) => StampBefore(StampOf(a), b));
        assert AllAfter(a, SetCanceled(entries[1..], id, off));
      }
    }
  }

  /** The key is the time the timer was built for, whatever has become of its expiration. */
  predicate Keyed(entries: seq<Entry>, nextId: nat) {
    AllStamped(entries, (e: Stamp) => e.key == e.when && e.id < nextId)
  }

  predicate SetInv(s: State) {
    Ordered(s.entries) && Keyed(s.entries, s.nextId)
  }

  lemma StepKeepsSet(s: State, a: Action)
    requires SetInv(s)
    ensures SetInv(Apply(s, a))
  {
    var p := (e: Stamp) => e.key == e.when && e.id < Apply(s, a).nextId;
    assert AllStamped(s.entries, p);
    match a {
      case Add(when, interval, repeat, byReference) =>
        var e := Entry(when, NewTimer(s.nextId, when, interval, if byReference then -1 else repeat));
        assert forall i :: 0 <= i < |s.entries| ==> StampOf(s.entries[i]).id < s.nextId;
        InsertOrdered(s.entries, e);
        InsertStamped(s.entries, e, p);
      case Remove(id) =>
        WithoutOrdered(s.entries, id);
        WithoutStamped(s.entries, id, p);
      case Cancel(id, off) =>
        CancelOrdered(s.entries, id, off);
        CancelStamped(s.entries, id, off, p);
      case DoTimer(now) =>
        PassOrdered(s.entries, now);
        PassStamped(s.entries, now, p);
    }
  }

  /** In every run the set is in order and its keys are the times the timers were built for. */
  lemma {:induction false} RunKeepsSet(s: State, actions: seq<Action>)
    requires SetInv(s)
    ensures SetInv(Run(s, actions))
    decreases |actions|
  {
    if actions != [] {
      StepKeepsSet(s, actions[0]);
      RunKeepsSet(Apply(s, actions[0]), actions[1..]);
    }
  }

  lemma {:induction false} KeysAscend(entries: seq<Entry>, i: nat, j: nat)
    requires Ordered(entries) && i < j < |entries|
    ensures entries[i].key <= entries[j].key
    decreases |entries|
  {
    if i == 0 {
      assert AllAfter(entries[0], entries[1..]);
      assert StampBefore(StampOf(entries[0]), StampOf(entries[1..][j - 1]));
    } else {
      KeysAscend(entries[1..], i - 1, j - 1);
    }
  }

  // ---------- Which timers one pass serves ----------

  /** The length of the longest prefix of the set whose timers are all due. */
  function DuePrefix(entries: seq<Entry>, now: int): (k: nat)
    ensures k <= |entries|
    ensures forall i :: 0 <= i < k ==> Due(entries[i], now)
    ensures k < |entries| ==> !Due(entries[k], now)
  {
    if entries == [] || !Due(entries[0], now) then 0 else 1 + DuePrefix(entries[1..], now)
  }

  /** What a due entry becomes: an entry again, or a timer that is erased. */
  function Served(e: Entry, now: int): seq<Entry> {
    var t := Fire(e.timer, now);
    if t.repeatCount == 0 then [] else [Entry(e.key, t)]
  }

  function Finished(e: Entry, now: int): seq<TimerState> {
    var t := Fire(e.timer, now);
    if t.repeatCount == 0 then [t] else []
  }

  function AllServed(entries: seq<Entry>, now: int): seq<Entry> {
    if entries == [] then [] else Served(entries[0], now) + AllServed(entries[1..], now)
  }

  function AllFinished(entries: seq<Entry>, now: int): seq<TimerState> {
    if entries == [] then [] else Finished(entries[0], now) + AllFinished(entries[1..], now)
  }

  /** A pass fires the due prefix, every timer of it once, and touches nothing behind it. */
  lemma {:induction false} PassServesPrefix(entries: seq<Entry>, now: int)
    ensures var k := DuePrefix(entries, now);
            Pass(entries, now) == (AllServed(entries[..k], now) + entries[k..], AllFinished(entries[..k], now))
    decreases |entries|
  {
    if entries != [] && Due(entries[0], now) {
      PassServesPrefix(entries[1..], now);
      var k := DuePrefix(entries, now);
      assert entries[..k][1..] == entries[1..][..k - 1] && entries[k..] == entries[1..][k - 1..];
      Associate(Served(entries[0], now), AllServed(entries[1..][..k - 1], now), entries[k..]);
      assert [] + Pass(entries[1..], now).0 == Pass(entries[1..], now).0;
      assert [] + Pass(entries[1..], now).1 == Pass(entries[1..], now).1;
    } else {
      assert entries[..0] == [] && entries[0..] == entries;
      assert AllServed([], now) + entries == entries;
    }
  }

  lemma {:induction false} ServedIsThere(entries: seq<Entry>, now: int, j: nat)
    requires j < |entries|
    ensures var t := Fire(entries[j].timer, now);
            t in AllFinished(entries, now) || Entry(entries[j].key, t) in AllServed(entries, now)
    decreases |entries|
  {
    if j > 0 {
      ServedIsThere(entries[1..], now, j - 1);
    }
  }

  /** Among timers whose keys are in order, only one that has fired can be not due before one that is. */
  lemma BlockerHasFired(s: State, now: int, i: nat, j: nat)
    requires Inv(s) && SetInv(s) && s.clock <= now && i < j < |s.entries|
    requires !Due(s.entries[i], now) && Due(s.entries[j], now)
    ensures s.entries[i].timer.fired != []
  {
    var t, u := s.entries[i].timer, s.entries[j].timer;
    KeysAscend(s.entries, i, j);
    assert Live(t, s.clock) && Live(u, s.clock);
    assert StampOf(s.entries[i]).key == t.when && StampOf(s.entries[j]).key == u.when;
    assert u.fired != [] ==> Slot(u, 0) <= u.fired[0];
  }

  /** The pass reaches timer `j`. */
  predicate Reached(entries: seq<Entry>, now: int, j: nat) {
    j < DuePrefix(entries, now)
  }

  /**
   * In every reachable state, a pass at a time that is not in the past fires a timer exactly if it reaches it,
   * and leaves it as it is otherwise; and it reaches every due timer if and only if no timer that has fired
   * before, and is not due, stands in front of one that is due.
   */
  lemma AllDueServed(actions: seq<Action>, now: int)
    requires Run(EMPTY, actions).clock <= now
    ensures var s := Run(EMPTY, actions);
            var t := Apply(s, DoTimer(now));
            forall j :: 0 <= j < |s.entries| ==>
              if Reached(s.entries, now, j) then Among(t, Fire(s.entries[j].timer, now)) else s.entries[j] in t.entries
    ensures var s := Run(EMPTY, actions);
            (forall j :: 0 <= j < |s.entries| && Due(s.entries[j], now) ==> Reached(s.entries, now, j)) <==>
            (forall i, j :: 0 <= i < j < |s.entries| && Due(s.entries[j], now) && s.entries[i].timer.fired != [] ==>
                      Due(s.entries[i], now))
  {
    RunKeepsInv(EMPTY, actions);
    RunKeepsSet(EMPTY, actions);
    var s := Run(EMPTY, actions);
    forall j | 0 <= j < |s.entries|
      ensures var t := Apply(s, DoTimer(now));
              if Reached(s.entries, now, j) then Among(t, Fire(s.entries[j].timer, now)) else s.entries[j] in t.entries
    {
      ReachedFires(s, now, j);
    }
    ReachesAll(s, now);
  }

  lemma ReachedFires(s: State, now: int, j: nat)
    requires s.clock <= now && j < |s.entries|
    ensures var t := Apply(s, DoTimer(now));
            if Reached(s.entries, now, j) then Among(t, Fire(s.entries[j].timer, now)) else s.entries[j] in t.entries
  {
    var k := DuePrefix(s.entries, now);
    var t := Apply(s, DoTimer(now));
    PassServesPrefix(s.entries, now);
    if j < k {
      var u := Fire(s.entries[j].timer, now);
      assert s.entries[..k][j] == s.entries[j];
      ServedIsThere(s.entries[..k], now, j);
      if u !in AllFinished(s.entries[..k], now) {
        var e := Entry(s.entries[j].key, u);
        assert e in t.entries;
        var i :| 0 <= i < |t.entries| && t.entries[i] == e;
        assert t.entries[i].timer == u;
      }
    } else {
      assert s.entries[k..][j - k] == s.entries[j];
    }
  }

  lemma ReachesAll(s: State, now: int)
    requires Inv(s) && SetInv(s) && s.clock <= now
    ensures (forall j :: 0 <= j < |s.entries| && Due(s.entries[j], now) ==> Reached(s.entries, now, j)) <==>
            (forall i, j :: 0 <= i < j < |s.entries| && Due(s.entries[j], now) && s.entries[i].timer.fired != [] ==>
                      Due(s.entries[i], now))
  {
    var k := DuePrefix(s.entries, now);
    if forall i, j :: 0 <= i < j < |s.entries| && Due(s.entries[j], now) && s.entries[i].timer.fired != [] ==>
                Due(s.entries[i], now) {
      forall j | 0 <= j < |s.entries| && Due(s.entries[j], now)
        ensures Reached(s.entries, now, j)
      {
        if k < j {
          BlockerHasFired(s, now, k, j);
        }
      }
    }
  }

  /** So while no timer of the set has fired, every pass fires every due timer. */
  lemma FreshKeysServeAll(actions: seq<Action>, now: int, j: nat)
    requires var s := Run(EMPTY, actions);
             && s.clock <= now && j < |s.entries| && Due(s.entries[j], now)
             && forall i :: 0 <= i < |s.entries| ==> s.entries[i].timer.fired == []
    ensures Among(Apply(Run(EMPTY, actions), DoTimer(now)), Fire(Run(EMPTY, actions).entries[j].timer, now))
  {
    AllDueServed(actions, now);
  }

  /** Afterwards a timer can be held up: due at 5, behind one that has moved on to 100. */
  lemma StaleKeyHoldsUp()
    ensures var s := Run(EMPTY, [Add(0, 100, -1, false), Add(5, 0, 1, false), DoTimer(0), DoTimer(5)]);
            |s.entries| == 2 && s.entries[1].timer.expiration == 5 == s.clock && s.entries[1].timer.fired == []
  {
    var e0 := Entry(0, NewTimer(0, 0, 100, -1));
    var e1 := Entry(5, NewTimer(1, 5, 0, 1));
    var s1 := Apply(EMPTY, Add(0, 100, -1, false));
    assert s1.entries == [e0];
    var s2 := Apply(s1, Add(5, 0, 1, false));
    assert Insert([e0][1..], e1) == [e1];
    assert s2.entries == [e0, e1];
    var f0 := Entry(0, Fire(e0.timer, 0));
    assert [e0, e1][1..] == [e1];
    var s3 := Apply(s2, DoTimer(0));
    assert Pass([e0, e1], 0) == ([f0] + Pass([e1], 0).0, []);
    assert s3.entries == [f0, e1];
    var s4 := Apply(s3, DoTimer(5));
    assert s4.entries == [f0, e1];
    var all := [Add(0, 100, -1, false), Add(5, 0, 1, false), DoTimer(0), DoTimer(5)];
    assert all[1..][1..][1..][1..] == [];
    assert Run(s3, all[1..][1..][1..]) == Run(s4, []);
    assert Run(s2, all[1..][1..]) == s4;
    assert Run(s1, all[1..]) == s4;
  }

  // ---------- What a repeat count bounds ----------

  /** Passes at the given times. */
  function Passes(times: seq<int>): (actions: seq<Action>)
    ensures |actions| == |times|
  {
    seq(|times|, i requires 0 <= i < |times| => DoTimer(times[i]))
  }

  /** The times do not go back, and the timer's next firings are due at them. */
  predicate InTime(t: TimerState, clock: int, times: seq<int>) {
    && (forall j :: 0 <= j < |times| ==> clock <= times[j] && t.expiration + j * t.interval <= times[j])
    && (forall i, j :: 0 <= i < j < |times| ==> times[i] <= times[j])
  }

  /** A timer whose count is not positive fires in every pass that it is due at, without end. */
  lemma {:induction false} FiresAtEach(s: State, e: Entry, times: seq<int>) returns (u: TimerState)
    requires s.entries == [e] && !e.timer.canceled && e.timer.repeatCount <= 0 && InTime(e.timer, s.clock, times)
    ensures Run(s, Passes(times)).entries == [Entry(e.key, u)]
    ensures u.fired == e.timer.fired + times && u.id == e.timer.id
    decreases |times|
  {
    u := e.timer;
    if times != [] {
      var now, later := times[0], times[1..];
      var next := Apply(s, DoTimer(now));
      var f := Entry(e.key, Fire(e.timer, now));
      assert 0 * e.timer.interval == 0;
      assert Due(e, now) && [e][1..] == [] && [f] + [] == [f];
      assert Pass([e], now) == ([f], []);
      forall j | 0 <= j < |later|
        ensures f.timer.expiration + j * f.timer.interval <= later[j]
      {
        assert (j + 1) * e.timer.interval == j * e.timer.interval + e.timer.interval;
        assert later[j] == times[j + 1];
      }
      assert Passes(times)[1..] == Passes(later);
      u := FiresAtEach(next, f, later);
      assert e.timer.fired + times == e.timer.fired + [now] + later;
    } else {
      assert e.timer.fired + times == e.timer.fired;
    }
  }

  /**
   * A timer that is handed over by const reference fires at every pass that it is due at, as often as there
   * are such passes, whatever its repeat count, and so does one whose count is not positive.
   */
  lemma ConstReferenceForgetsCount(when: int, interval: int, repeat: int, byReference: bool, times: seq<int>)
    returns (u: TimerState)
    requires byReference || repeat <= 0
    requires InTime(NewTimer(0, when, interval, repeat), 0, times)
    ensures Run(EMPTY, [Add(when, interval, repeat, byReference)] + Passes(times)).entries == [Entry(when, u)]
    ensures u.fired == times && u.id == 0
  {
    var a := Add(when, interval, repeat, byReference);
    var t := NewTimer(0, when, interval, if byReference then -1 else repeat);
    assert ([a] + Passes(times))[1..] == Passes(times);
    u := FiresAtEach(Apply(EMPTY, a), Entry(when, t), times);
    assert [] + times == times;
  }

  predicate Labelled(s: State, id: nat, repeat: int) {
    && id < s.nextId
    && AllStamped(s.entries, (e: Stamp) => e.id == id ==> e.repeat == repeat)
    && forall t :: t in s.gone && t.id == id ==> t.repeat == repeat
  }

  lemma {:induction false} PassErases(entries: seq<Entry>, now: int, id: nat, repeat: int)
    requires AllStamped(entries, (e: Stamp) => e.id == id ==> e.repeat == repeat)
    ensures forall t :: t in Pass(entries, now).1 && t.id == id ==> t.repeat == repeat
    decreases |entries|
  {
    if entries != [] && Due(entries[0], now) {
      assert StampOf(entries[0]).id == id ==> StampOf(entries[0]).repeat == repeat;
      PassErases(entries[1..], now, id, repeat);
    }
  }

  lemma {:induction false} WithoutErases(entries: seq<Entry>, gone: nat, id: nat, repeat: int)
    requires AllStamped(entries, (e: Stamp) => e.id == id ==> e.repeat == repeat)
    ensures forall t :: t in Without(entries, gone).1 && t.id == id ==> t.repeat == repeat
    decreases |entries|
  {
    if entries != [] {
      assert StampOf(entries[0]).id == id ==> StampOf(entries[0]).repeat == repeat;
      if entries[0].timer.id != gone {
        WithoutErases(entries[1..], gone, id, repeat);
      }
    }
  }

  lemma StepKeepsLabel(s: State, a: Action, id: nat, repeat: int)
    requires Labelled(s, id, repeat)
    ensures Labelled(Apply(s, a), id, repeat)
  {
    var p := (e: Stamp) => e.id == id ==> e.repeat == repeat;
    assert AllStamped(s.entries, p);
    match a {
      case Add(when, interval, r, byReference) =>
        InsertStamped(s.entries, Entry(when, NewTimer(s.nextId, when, interval, if byReference then -1 else r)), p);
      case Remove(gone) =>
        WithoutStamped(s.entries, gone, p);
        WithoutErases(s.entries, gone, id, repeat);
      case Cancel(other, off) => CancelStamped(s.entries, other, off, p);
      case DoTimer(now) =>
        PassStamped(s.entries, now, p);
        PassErases(s.entries, now, id, repeat);
    }
  }

  lemma {:induction false} RunKeepsLabel(s: State, actions: seq<Action>, id: nat, repeat: int)
    requires Labelled(s, id, repeat)
    ensures Labelled(Run(s, actions), id, repeat)
    decreases |actions|
  {
    if actions != [] {
      StepKeepsLabel(s, actions[0], id, repeat);
      RunKeepsLabel(Apply(s, actions[0]), actions[1..], id, repeat);
    }
  }

  /** Numbers are given once: the ids of a reachable state are below the next one. */
  lemma {:induction false} IdsKnown(s: State, actions: seq<Action>)
    requires AllStamped(s.entries, (e: Stamp) => e.id < s.nextId) && forall t :: t in s.gone ==> t.id < s.nextId
    ensures var u := Run(s, actions);
            AllStamped(u.entries, (e: Stamp) => e.id < u.nextId) && forall t :: t in u.gone ==> t.id < u.nextId
    decreases |actions|
  {
    if actions != [] {
      var next := Apply(s, actions[0]);
      var p := (e: Stamp) => e.id < next.nextId;
      assert AllStamped(s.entries, p);
      StepKeepsIds(s, actions[0]);
      IdsKnown(next, actions[1..]);
    }
  }

  lemma {:induction false} ErasedKnown(entries: seq<Entry>, now: int, id: nat, n: nat)
    requires AllStamped(entries, (e: Stamp) => e.id < n)
    ensures forall t :: t in Pass(entries, now).1 ==> t.id < n
    ensures forall t :: t in Without(entries, id).1 ==> t.id < n
    decreases |entries|
  {
    if entries != [] {
      assert StampOf(entries[0]).id < n;
      ErasedKnown(entries[1..], now, id, n);
    }
  }

  lemma StepKeepsIds(s: State, a: Action)
    requires AllStamped(s.entries, (e: Stamp) => e.id < s.nextId) && forall t :: t in s.gone ==> t.id < s.nextId
    ensures var u := Apply(s, a);
            AllStamped(u.entries, (e: Stamp) => e.id < u.nextId) && forall t :: t in u.gone ==> t.id < u.nextId
  {
    var u := Apply(s, a);
    var p := (e: Stamp) => e.id < u.nextId;
    assert AllStamped(s.entries, p);
    match a {
      case Add(when, interval, r, byReference) =>
        InsertStamped(s.entries, Entry(when, NewTimer(s.nextId, when, interval, if byReference then -1 else r)), p);
      case Remove(id) =>
        WithoutStamped(s.entries, id, p);
        ErasedKnown(s.entries, 0, id, s.nextId);
      case Cancel(id, off) => CancelStamped(s.entries, id, off, p);
      case DoTimer(now) =>
        PassStamped(s.entries, now, p);
        ErasedKnown(s.entries, now, 0, s.nextId);
    }
  }

  lemma {:induction false} RunAppend(s: State, first: seq<Action>, second: seq<Action>)
    ensures Run(s, first + second) == Run(Run(s, first), second)
    decreases |first|
  {
    if first == [] {
      assert [] + second == second;
    } else {
      assert (first + second)[1..] == first[1..] + second;
      RunAppend(Apply(s, first[0]), first[1..], second);
    }
  }

  /** In every run that contains the addition, the timer added fires at most `b` times. */
  ghost predicate BoundedBy(a: Action, b: nat) {
    forall before: seq<Action>, after: seq<Action>, t: TimerState ::
      Among(Run(EMPTY, before + [a] + after), t) && t.id == Run(EMPTY, before).nextId ==> |t.fired| <= b
  }

  /** The timer added carries the repeat count with which it was built. */
  lemma AddedCount(a: Action, before: seq<Action>, after: seq<Action>, t: TimerState)
    requires a.Add? && Among(Run(EMPTY, before + [a] + after), t) && t.id == Run(EMPTY, before).nextId
    ensures t.repeat == if a.byReference then -1 else a.repeat
  {
    var s := Run(EMPTY, before);
    var count := if a.byReference then -1 else a.repeat;
    IdsKnown(EMPTY, before);
    RunAppend(EMPTY, before + [a], after);
    RunAppend(EMPTY, before, [a]);
    assert [a][1..] == [] && Run(s, [a]) == Run(Apply(s, a), []);
    var e := Entry(a.when, NewTimer(s.nextId, a.when, a.interval, count));
    assert forall i :: 0 <= i < |s.entries| ==> StampOf(s.entries[i]).id < s.nextId;
    InsertStamped(s.entries, e, (x: Stamp) => x.id == s.nextId ==> x.repeat == count);
    assert Labelled(Apply(s, a), s.nextId, count);
    RunKeepsLabel(Apply(s, a), after, s.nextId, count);
    var u := Run(EMPTY, before + [a] + after);
    if t !in u.gone {
      var i :| 0 <= i < |u.entries| && u.entries[i].timer == t;
      assert StampOf(u.entries[i]).repeat == t.repeat && StampOf(u.entries[i]).id == t.id;
    }
  }

  function Abs(x: int): nat {
    if x < 0 then -x else x
  }

  lemma {:induction false} FarEnough(when: int, interval: int, n: nat, j: nat)
    requires j < n
    ensures when + j * interval <= Abs(when) + n * Abs(interval)
  {
    assert j * interval <= j * Abs(interval) <= n * Abs(interval);
  }

  /**
   * The exact condition: a repeat count bounds the firings if and only if it is positive and not passed by
   * reference.
   */
  lemma CountBounds(when: int, interval: int, repeat: int, byReference: bool)
    ensures (exists b: nat :: BoundedBy(Add(when, interval, repeat, byReference), b)) <==> repeat >= 1 && !byReference
  {
    var a := Add(when, interval, repeat, byReference);
    if repeat >= 1 && !byReference {
      forall before: seq<Action>, after: seq<Action>, t: TimerState |
        Among(Run(EMPTY, before + [a] + after), t) && t.id == Run(EMPTY, before).nextId
        ensures |t.fired| <= repeat
      {
        AddedCount(a, before, after, t);
        TimerSafety(before + [a] + after, t);
      }
      assert BoundedBy(a, repeat);
    } else {
      forall b: nat
        ensures !BoundedBy(a, b)
      {
        Unbounded(when, interval, repeat, byReference, b);
      }
    }
  }

  lemma Unbounded(when: int, interval: int, repeat: int, byReference: bool, b: nat)
    requires byReference || repeat <= 0
    ensures !BoundedBy(Add(when, interval, repeat, byReference), b)
  {
    var a, n := Add(when, interval, repeat, byReference), b + 1;
    var times := seq(n, _ => Abs(when) + n * Abs(interval));
    forall j | 0 <= j < n
      ensures when + j * interval <= times[j]
    {
      FarEnough(when, interval, n, j);
    }
    var u := ConstReferenceForgetsCount(when, interval, repeat, byReference, times);
    assert [] + [a] + Passes(times) == [a] + Passes(times);
    var s := Run(EMPTY, [] + [a] + Passes(times));
    assert s.entries[0].timer == u && Among(s, u) && u.id == Run(EMPTY, []).nextId;
  }

  // ---------- Cancelled timers ----------

  /** A pass leaves a cancelled timer in the set, or erases it if its count is 0; it does not touch it. */
  lemma {:induction false} PassSparesCanceled(entries: seq<Entry>, now: int, e: Entry)
    requires e in entries && e.timer.canceled
    ensures e in Pass(entries, now).0 || (e.timer.repeatCount == 0 && e.timer in Pass(entries, now).1)
    decreases |entries|
  {
    if Due(entries[0], now) && e != entries[0] {
      PassSparesCanceled(entries[1..], now, e);
    }
  }

  lemma {:induction false} GoneStays(s: State, actions: seq<Action>, t: TimerState)
    requires t in s.gone
    ensures t in Run(s, actions).gone
    decreases |actions|
  {
    if actions != [] {
      GoneStays(Apply(s, actions[0]), actions[1..], t);
    }
  }

  lemma CanceledStep(s: State, a: Action, e: Entry)
    requires e in s.entries && e.timer.canceled && a != Remove(e.timer.id) && a != Cancel(e.timer.id, false)
    ensures e in Apply(s, a).entries || (e.timer.repeatCount == 0 && e.timer in Apply(s, a).gone)
  {
    match a {
      case Add(when, interval, repeat, byReference) =>
        var n := Entry(when, NewTimer(s.nextId, when, interval, if byReference then -1 else repeat));
        var i := Place(s.entries, n);
        InsertAtPlace(s.entries, n);
        assert s.entries == s.entries[..i] + s.entries[i..];
      case Remove(id) => WithoutSpares(s.entries, id, e);
      case Cancel(id, off) => CancelSpares(s.entries, id, off, e);
      case DoTimer(now) => PassSparesCanceled(s.entries, now, e);
    }
  }

  /**
   * Until it is removed or uncancelled, a cancelled timer neither fires nor changes, whatever the clock does; if
   * its count is 0, a pass may erase it, as it is.
   */
  lemma {:induction false} CanceledStays(s: State, actions: seq<Action>, e: Entry)
    requires e in s.entries && e.timer.canceled
    requires forall a :: a in actions ==> a != Remove(e.timer.id) && a != Cancel(e.timer.id, false)
    ensures e in Run(s, actions).entries || (e.timer.repeatCount == 0 && e.timer in Run(s, actions).gone)
    decreases |actions|
  {
    if actions != [] {
      var a := actions[0];
      assert a in actions && forall b :: b in actions[1..] ==> b in actions;
      CanceledStep(s, a, e);
      if e in Apply(s, a).entries {
        CanceledStays(Apply(s, a), actions[1..], e);
      } else {
        GoneStays(Apply(s, a), actions[1..], e.timer);
      }
    }
  }

  lemma {:induction false} WithoutSpares(entries: seq<Entry>, id: nat, e: Entry)
    requires e in entries && e.timer.id != id
    ensures e in Without(entries, id).0
    decreases |entries|
  {
    if entries[0].timer.id != id && e != entries[0] {
      WithoutSpares(entries[1..], id, e);
    }
  }

  lemma {:induction false} CancelSpares(entries: seq<Entry>, id: nat, off: bool, e: Entry)
    requires e in entries && e.timer.canceled && (e.timer.id != id || off)
    ensures e in SetCanceled(entries, id, off)
    decreases |entries|
  {
    if entries[0].timer.id == id {
      if e == entries[0] {
        assert e == Entry(e.key, e.timer.(canceled := off));
      }
    } else if e != entries[0] {
      CancelSpares(entries[1..], id, off, e);
    }
  }

  // ---------- What cancelling and removing do ----------

  /** No two entries have the same timer. */
  predicate IdsApart(entries: seq<Entry>) {
    entries == [] || (Apart(entries[0].timer.id, entries[1..]) && IdsApart(entries[1..]))
  }

  predicate Apart(id: nat, entries: seq<Entry>) {
    AllStamped(entries, (b: Stamp) => b.id != id)
  }

  lemma {:induction false} PassApart(entries: seq<Entry>, now: int)
    requires IdsApart(entries)
    ensures IdsApart(Pass(entries, now).0)
    decreases |entries|
  {
    if entries != [] && Due(entries[0], now) {
      var id := entries[0].timer.id;
      PassApart(entries[1..], now);
      assert Apart(id, entries[1..]);
      PassStamped(entries[1..], now, (b: Stamp) => b.id != id);
      assert Apart(id, Pass(entries[1..], now).0);
    }
  }

  lemma {:induction false} InsertApart(entries: seq<Entry>, e: Entry)
    requires IdsApart(entries) && Apart(e.timer.id, entries)
    ensures IdsApart(Insert(entries, e))
    decreases |entries|
  {
    if entries == [] {
    } else if Before(e, entries[0]) {
      assert ([e] + entries)[1..] == entries;
    } else {
      var id := entries[0].timer.id;
      assert StampOf(entries[0]).id != e.timer.id;
      assert Apart(e.timer.id, entries[1..]) by {
        assert forall i :: 0 <= i < |entries| - 1 ==> StampOf(entries[1..][i]) == StampOf(entries[i + 1]);
      }
      InsertApart(entries[1..], e);
      assert Apart(id, entries[1..]);
      InsertStamped(entries[1..], e, (b: Stamp) => b.id != id);
      assert Apart(id, Insert(entries[1..], e));
    }
  }

  lemma {:induction false} WithoutApart(entries: seq<Entry>, id: nat)
    requires IdsApart(entries)
    ensures IdsApart(Without(entries, id).0)
    decreases |entries|
  {
    if entries != [] && entries[0].timer.id != id {
      var first := entries[0].timer.id;
      WithoutApart(entries[1..], id);
      assert Apart(first, entries[1..]);
      WithoutStamped(entries[1..], id, (b: Stamp) => b.id != first);
      assert Apart(first, Without(entries[1..], id).0);
    }
  }

  lemma {:induction false} CancelApart(entries: seq<Entry>, id: nat, off: bool)
    requires IdsApart(entries)
    ensures IdsApart(SetCanceled(entries, id, off))
    decreases |entries|
  {
    if entries != [] {
      var first := entries[0].timer.id;
      assert Apart(first, entries[1..]);
      if first == id {
        assert SetCanceled(entries, id, off)[1..] == entries[1..];
      } else {
        CancelApart(entries[1..], id, off);
        CancelStamped(entries[1..], id, off, (b: Stamp) => b.id != first);
        assert Apart(first, SetCanceled(entries[1..], id, off));
      }
    }
  }

  lemma StepApart(s: State, a: Action)
    requires SetInv(s) && IdsApart(s.entries)
    ensures IdsApart(Apply(s, a).entries)
  {
    match a {
      case Add(when, interval, repeat, byReference) =>
        assert forall i :: 0 <= i < |s.entries| ==> StampOf(s.entries[i]).id < s.nextId;
        assert Apart(s.nextId, s.entries);
        InsertApart(s.entries, Entry(when, NewTimer(s.nextId, when, interval, if byReference then -1 else repeat)));
      case Remove(id) => WithoutApart(s.entries, id);
      case Cancel(id, off) => CancelApart(s.entries, id, off);
      case DoTimer(now) => PassApart(s.entries, now);
    }
  }

  lemma {:induction false} RunApart(s: State, actions: seq<Action>)
    requires SetInv(s) && IdsApart(s.entries)
    ensures SetInv(Run(s, actions)) && IdsApart(Run(s, actions).entries)
    decreases |actions|
  {
    if actions != [] {
      StepApart(s, actions[0]);
      StepKeepsSet(s, actions[0]);
      RunApart(Apply(s, actions[0]), actions[1..]);
    }
  }

  lemma ApartAt(id: nat, entries: seq<Entry>, i: nat)
    requires Apart(id, entries) && i < |entries|
    ensures entries[i].timer.id != id
  {
    assert StampOf(entries[i]).id != id;
  }

  /** Exactly the flag of the timer named is set, and its entry and the others stay where they are. */
  lemma {:induction false} CanceledAt(entries: seq<Entry>, id: nat, off: bool, i: nat)
    requires IdsApart(entries) && i < |entries|
    ensures |SetCanceled(entries, id, off)| == |entries|
    ensures SetCanceled(entries, id, off)[i] ==
              if entries[i].timer.id == id then Entry(entries[i].key, entries[i].timer.(canceled := off))
              else entries[i]
    decreases |entries|
  {
    if i > 0 {
      CanceledAt(entries[1..], id, off, i - 1);
      if entries[0].timer.id == id {
        ApartAt(id, entries[1..], i - 1);
      }
    } else if |entries| > 1 {
      CanceledAt(entries[1..], id, off, 0);
    }
  }

  /** Exactly the entry of the timer named leaves. */
  lemma {:induction false} RemovedAt(entries: seq<Entry>, id: nat, i: nat)
    requires IdsApart(entries) && i < |entries| && entries[i].timer.id == id
    ensures Without(entries, id) == (entries[..i] + entries[i + 1..], [entries[i].timer])
    decreases |entries|
  {
    if i > 0 {
      if entries[0].timer.id == id {
        ApartAt(id, entries[1..], i - 1);
      }
      RemovedAt(entries[1..], id, i - 1);
      assert entries[..i] == [entries[0]] + entries[1..][..i - 1];
      assert entries[1..][i..] == entries[i + 1..];
      Associate([entries[0]], entries[1..][..i - 1], entries[i + 1..]);
    } else {
      assert entries[..0] + entries[1..] == entries[1..];
    }
  }

  lemma {:induction false} NothingRemoved(entries: seq<Entry>, id: nat)
    requires forall i :: 0 <= i < |entries| ==> entries[i].timer.id != id
    ensures Without(entries, id) == (entries, []) && SetCanceled(entries, id, true) == entries
    ensures SetCanceled(entries, id, false) == entries
    decreases |entries|
  {
    if entries != [] {
      assert forall i :: 0 <= i < |entries| - 1 ==> entries[1..][i] == entries[i + 1];
      NothingRemoved(entries[1..], id);
      assert [entries[0]] + entries[1..] == entries;
    }
  }

  /** In every reachable state: cancelling, on or off, sets the flag of the timer named and changes nothing else. */
  lemma CancelExact(actions: seq<Action>, id: nat, off: bool)
    ensures var s := Run(EMPTY, actions);
            var t := Apply(s, Cancel(id, off));
            && t.gone == s.gone && t.nextId == s.nextId && t.clock == s.clock && |t.entries| == |s.entries|
            && forall i :: 0 <= i < |s.entries| ==>
                 t.entries[i] ==
                   if s.entries[i].timer.id == id then Entry(s.entries[i].key, s.entries[i].timer.(canceled := off))
                   else s.entries[i]
  {
    RunApart(EMPTY, actions);
    var s := Run(EMPTY, actions);
    forall i | 0 <= i < |s.entries|
      ensures |SetCanceled(s.entries, id, off)| == |s.entries|
      ensures SetCanceled(s.entries, id, off)[i] ==
                if s.entries[i].timer.id == id then Entry(s.entries[i].key, s.entries[i].timer.(canceled := off))
                else s.entries[i]
    {
      CanceledAt(s.entries, id, off, i);
    }
  }

  /** In every reachable state: removing takes out the timer named, as it is, and leaves the others alone. */
  lemma RemoveExact(actions: seq<Action>, id: nat)
    ensures var s := Run(EMPTY, actions);
            var t := Apply(s, Remove(id));
            && t.nextId == s.nextId && t.clock == s.clock
            && (forall i :: 0 <= i < |s.entries| && s.entries[i].timer.id == id ==>
                  t.entries == s.entries[..i] + s.entries[i + 1..] && t.gone == s.gone + [s.entries[i].timer])
            && ((forall i :: 0 <= i < |s.entries| ==> s.entries[i].timer.id != id) ==> t == s)
            && forall i :: 0 <= i < |t.entries| ==> t.entries[i].timer.id != id
  {
    RunApart(EMPTY, actions);
    var s := Run(EMPTY, actions);
    if i :| 0 <= i < |s.entries| && s.entries[i].timer.id == id {
      RemoveFound(s, id, i);
      OnlyOne(s.entries, i);
    } else {
      NothingRemoved(s.entries, id);
      assert s.gone + [] == s.gone;
    }
  }

  lemma RemoveFound(s: State, id: nat, i: nat)
    requires IdsApart(s.entries) && i < |s.entries| && s.entries[i].timer.id == id
    ensures var t := Apply(s, Remove(id));
            && t == s.(entries := s.entries[..i] + s.entries[i + 1..], gone := s.gone + [s.entries[i].timer])
            && forall j :: 0 <= j < |t.entries| ==> t.entries[j].timer.id != id
  {
    RemovedAt(s.entries, id, i);
    OnlyOne(s.entries, i);
  }

  lemma {:induction false} OnlyOne(entries: seq<Entry>, i: nat)
    requires IdsApart(entries) && i < |entries|
    ensures forall j :: 0 <= j < |entries| && j != i ==> entries[j].timer.id != entries[i].timer.id
    decreases |entries|
  {
    forall j | 0 <= j < |entries| && j != i
      ensures entries[j].timer.id != entries[i].timer.id
    {
      if i == 0 {
        ApartAt(entries[0].timer.id, entries[1..], j - 1);
      } else if j == 0 {
        ApartAt(entries[0].timer.id, entries[1..], i - 1);
      } else {
        OnlyOne(entries[1..], i - 1);
        assert entries[1..][j - 1] == entries[j];
      }
    }
  }

  /** A timer that is cancelled has fired for the last time, unless it is uncancelled. */
  lemma CanceledIsSilent(actions: seq<Action>, e: Entry, later: seq<Action>)
    requires e in Run(EMPTY, actions).entries
    requires forall a :: a in later ==> a != Remove(e.timer.id) && a != Cancel(e.timer.id, false)
    ensures var s := Run(Apply(Run(EMPTY, actions), Cancel(e.timer.id, true)), later);
            exists t :: Among(s, t) && t == e.timer.(canceled := true)
  {
    var s := Run(EMPTY, actions);
    var t, f := Apply(s, Cancel(e.timer.id, true)), Entry(e.key, e.timer.(canceled := true));
    CancelExact(actions, e.timer.id, true);
    var i :| 0 <= i < |s.entries| && s.entries[i] == e;
    assert t.entries[i] == f;
    CanceledStays(t, later, f);
    var u := Run(t, later);
    if f in u.entries {
      var j :| 0 <= j < |u.entries| && u.entries[j] == f;
      assert u.entries[j].timer == f.timer;
    }
    assert Among(u, f.timer);
  }

  /** A timer that is removed never comes back, and stays as it was. */
  lemma RemovedIsGone(actions: seq<Action>, e: Entry, later: seq<Action>)
    requires e in Run(EMPTY, actions).entries
    ensures var s := Run(Apply(Run(EMPTY, actions), Remove(e.timer.id)), later);
            && e.timer in s.gone
            && forall i :: 0 <= i < |s.entries| ==> s.entries[i].timer.id != e.timer.id
  {
    var s := Run(EMPTY, actions);
    var t := Apply(s, Remove(e.timer.id));
    RunApart(EMPTY, actions);
    RemoveExact(actions, e.timer.id);
    StepKeepsSet(s, Remove(e.timer.id));
    var i :| 0 <= i < |s.entries| && s.entries[i] == e;
    assert StampOf(s.entries[i]).id < s.nextId;
    assert Apart(e.timer.id, t.entries);
    GoneStays(t, later, e.timer);
    StaysApart(t, later, e.timer.id);
    var u := Run(t, later);
    forall j | 0 <= j < |u.entries|
      ensures u.entries[j].timer.id != e.timer.id
    {
      ApartAt(e.timer.id, u.entries, j);
    }
  }

  lemma {:induction false} StaysApart(s: State, actions: seq<Action>, id: nat)
    requires Apart(id, s.entries) && id < s.nextId
    ensures Apart(id, Run(s, actions).entries)
    decreases |actions|
  {
    if actions != [] {
      var p := (b: Stamp) => b.id != id;
      assert AllStamped(s.entries, p);
      match actions[0] {
        case Add(when, interval, repeat, byReference) =>
          InsertStamped(s.entries,
                        Entry(when, NewTimer(s.nextId, when, interval, if byReference then -1 else repeat)), p);
        case Remove(other) => WithoutStamped(s.entries, other, p);
        case Cancel(other, off) => CancelStamped(s.entries, other, off, p);
        case DoTimer(now) => PassStamped(s.entries, now, p);
      }
      assert AllStamped(Apply(s, actions[0]).entries, p);
      assert Apart(id, Apply(s, actions[0]).entries);
      StaysApart(Apply(s, actions[0]), actions[1..], id);
    }
  }

  // ---------- The classes ----------

  class Timer {
    const id: nat
    const when: int
    const interval: int
    const repeat: int
    var expiration: int
    var repeatCount: int
    var canceled: bool
    ghost var fired: seq<int>

    ghost function View(): TimerState
      reads this
    {
      TimerState(id, when, interval, repeat, expiration, repeatCount, canceled, fired)
    }

    constructor (id: nat, when: int, interval: int, repeat: int)
      ensures View() == NewTimer(id, when, interval, repeat)
    {
      this.id, this.when, this.interval, this.repeat := id, when, interval, repeat;
      expiration, repeatCount, canceled, fired := when, repeat, false, [];
    }

    method RunCallback(now: int)
      modifies this
      ensures View() == Fire(old(View()), now)
    {
      if canceled {
        return;
      }
      fired := fired + [now]; // the callback
      if repeatCount != -1 {
        repeatCount := repeatCount - 1;
        if repeatCount == 0 {
          return;
        }
      }
      expiration := expiration + interval;
    }
  }

  lemma PassCons(todo: seq<Entry>, now: int)
    requires todo != [] && Due(todo[0], now)
    ensures Pass(todo, now).0 == Served(todo[0], now) + Pass(todo[1..], now).0
    ensures Pass(todo, now).1 == Finished(todo[0], now) + Pass(todo[1..], now).1
  {
    var (rest, erased) := Pass(todo[1..], now);
    assert [] + rest == rest && [] + erased == erased;
  }

  lemma PassStep(done: seq<Entry>, over: seq<TimerState>, todo: seq<Entry>, now: int)
    requires todo != [] && Due(todo[0], now)
    ensures done + Pass(todo, now).0 == (done + Served(todo[0], now)) + Pass(todo[1..], now).0
    ensures over + Pass(todo, now).1 == (over + Finished(todo[0], now)) + Pass(todo[1..], now).1
  {
    PassCons(todo, now);
    Associate(done, Served(todo[0], now), Pass(todo[1..], now).0);
    Associate(over, Finished(todo[0], now), Pass(todo[1..], now).1);
  }

  lemma Next<T>(all: seq<T>, done: seq<T>, todo: seq<T>)
    requires all == done + todo && todo != []
    ensures all[|done|] == todo[0] && all[..|done|] == done && all[|done| + 1..] == todo[1..]
  {
  }

  lemma NothingInFront<T>(s: seq<T>)
    ensures [] + s == s
  {
  }

  lemma PassStop(done: seq<Entry>, over: seq<TimerState>, todo: seq<Entry>, now: int)
    requires todo == [] || !Due(todo[0], now)
    ensures done + Pass(todo, now).0 == done + todo && over + Pass(todo, now).1 == over
  {
  }

  lemma {:induction false} PairsApart(entries: seq<Entry>)
    requires forall i, j :: 0 <= i < j < |entries| ==> entries[i].timer.id != entries[j].timer.id
    ensures IdsApart(entries)
    decreases |entries|
  {
    if entries != [] {
      PairsApart(entries[1..]);
      var id := entries[0].timer.id;
      assert forall i :: 0 <= i < |entries| - 1 ==> StampOf(entries[1..][i]).id != id;
      assert Apart(id, entries[1..]);
    }
  }

  lemma NotThere(entries: seq<Entry>, id: nat)
    requires Apart(id, entries)
    ensures Without(entries, id) == (entries, [])
    ensures forall off :: SetCanceled(entries, id, off) == entries
  {
    forall i | 0 <= i < |entries|
      ensures entries[i].timer.id != id
    {
      ApartAt(id, entries, i);
    }
    NothingRemoved(entries, id);
  }

  lemma FlagSet(before: seq<Entry>, after: seq<Entry>, id: nat, off: bool)
    requires IdsApart(before) && |after| == |before|
    requires forall i :: 0 <= i < |before| ==>
               after[i] == if before[i].timer.id == id then Entry(before[i].key, before[i].timer.(canceled := off))
                           else before[i]
    ensures after == SetCanceled(before, id, off)
  {
    forall i | 0 <= i < |before|
      ensures |SetCanceled(before, id, off)| == |before| && SetCanceled(before, id, off)[i] == after[i]
    {
      CanceledAt(before, id, off, i);
    }
    if before == [] {
      assert SetCanceled(before, id, off) == [];
    }
  }

  /** An element of the set: the key and the pointer. */
  datatype Slotted = Slotted(key: int, timer: Timer)

  class TimerQueue {
    var timers: seq<Slotted>

    ghost predicate Valid()
      reads this
    {
      forall i, j :: 0 <= i < j < |timers| ==> timers[i].timer != timers[j].timer
    }

    ghost function Objects(): set<Timer>
      reads this
    {
      set i | 0 <= i < |timers| :: timers[i].timer
    }

    ghost function View(): (v: seq<Entry>)
      reads this, Objects()
      ensures |v| == |timers|
      ensures forall i :: 0 <= i < |v| ==> v[i] == Entry(timers[i].key, timers[i].timer.View())
    {
      seq(|timers|, i requires 0 <= i < |timers| reads this, Objects() => Entry(timers[i].key, timers[i].timer.View()))
    }

    constructor ()
      ensures Valid() && timers == []
    {
      timers := [];
    }

    /** Runs the timer at position `i`, and erases it if its count has come down to zero. */
    method Serve(i: nat, now: int) returns (kept: bool)
      requires Valid() && i < |timers|
      modifies this, timers[i].timer
      ensures Valid() && Objects() <= old(Objects())
      ensures View() == old(View())[..i] + Served(old(View())[i], now) + old(View())[i + 1..]
      ensures kept == (Served(old(View())[i], now) != [])
      ensures !kept ==> old(timers[i].timer) !in Objects()
      ensures Finished(old(View())[i], now) == if kept then [] else [old(timers[i].timer).View()]
    {
      var t := timers[i].timer;
      ghost var before := View();
      t.RunCallback(now);
      ghost var e := Entry(before[i].key, Fire(before[i].timer, now));
      assert View() == before[i := e];
      kept := t.repeatCount != 0;
      if !kept {
        timers := timers[..i] + timers[i + 1..];
        assert View() == before[..i] + before[i + 1..];
      }
    }

    /** The states of timers that have left the set. */
    static ghost function Views(ts: seq<Timer>): (v: seq<TimerState>)
      reads ts
      ensures |v| == |ts| && forall i :: 0 <= i < |v| ==> v[i] == ts[i].View()
    {
      seq(|ts|, i requires 0 <= i < |ts| reads ts => ts[i].View())
    }

    /** One turn of the loop: `done` is in front of position `i`, and `erased` has left the set. */
    method Turn(i: nat, now: int, ghost done: seq<Entry>, ghost todo: seq<Entry>, ghost erased: seq<Timer>)
      returns (kept: bool, ghost gone: seq<Timer>)
      requires Valid() && i == |done| < |timers| && View() == done + todo
      requires forall x :: x in erased ==> x !in Objects()
      modifies this, timers[i].timer
      ensures Valid() && Objects() <= old(Objects())
      ensures View() == (done + Served(todo[0], now)) + todo[1..]
      ensures |done + Served(todo[0], now)| == if kept then i + 1 else i
      ensures Views(gone) == old(Views(erased)) + Finished(todo[0], now)
      ensures forall x :: x in gone ==> x !in Objects() && (x in erased || x in old(Objects()))
    {
      Next(View(), done, todo);
      var t := timers[i].timer;
      assert t in Objects();
      kept := Serve(i, now);
      gone := if kept then erased else erased + [t];
    }

    /** Walks the set in its order, erasing behind itself, until a timer is not due. */
    method DoTimers(now: int) returns (ghost erased: seq<Timer>)
      requires Valid()
      modifies this, Objects()
      ensures Valid()
      ensures View() == Pass(old(View()), now).0 && Views(erased) == Pass(old(View()), now).1
    {
      ghost var done, todo := [], View();
      ghost var stays, leaves := Pass(View(), now).0, Pass(View(), now).1;
      var i := 0;
      var more := true;
      erased := [];
      NothingInFront(todo);
      NothingInFront(stays);
      NothingInFront(leaves);
      while more && i < |timers|
        invariant 0 <= i <= |timers| && Valid() && Objects() <= old(Objects())
        invariant View() == done + todo && |done| == i
        invariant forall x :: x in erased ==> x !in Objects() && x in old(Objects())
        invariant more ==> done + Pass(todo, now).0 == stays && Views(erased) + Pass(todo, now).1 == leaves
        invariant !more ==> done + todo == stays && Views(erased) == leaves
        decreases more, |timers| - i
      {
        Next(View(), done, todo);
        if timers[i].timer.expiration <= now {
          PassStep(done, Views(erased), todo, now);
          var kept;
          kept, erased := Turn(i, now, done, todo, erased);
          done, todo := done + Served(todo[0], now), todo[1..];
          i := if kept then i + 1 else i;
        } else {
          PassStop(done, Views(erased), todo, now);
          more := false;
        }
      }
      if more {
        PassStop(done, Views(erased), todo, now);
      }
    }

    lemma StaysValid(before: seq<Slotted>, i: nat, x: Slotted)
      requires i <= |before| && timers == before[..i] + [x] + before[i..]
      requires forall j :: 0 <= j < |before| ==> before[j].timer != x.timer
      requires forall j, k :: 0 <= j < k < |before| ==> before[j].timer != before[k].timer
      ensures Valid()
    {
      forall j, k | 0 <= j < k < |timers|
        ensures timers[j].timer != timers[k].timer
      {
        assert timers[j] == if j < i then before[j] else if j == i then x else before[j - 1];
        assert timers[k] == if k < i then before[k] else if k == i then x else before[k - 1];
      }
    }

    method InsertAt(i: nat, t: Timer)
      requires Valid() && i <= |timers| && t !in Objects()
      modifies this
      ensures Valid() && View() == old(View())[..i] + [Entry(t.expiration, t.View())] + old(View())[i..]
    {
      ghost var before := View();
      assert forall j :: 0 <= j < |timers| ==> timers[j].timer in Objects();
      timers := timers[..i] + [Slotted(t.expiration, t)] + timers[i..];
      StaysValid(old(timers), i, Slotted(t.expiration, t));
      assert View() == before[..i] + [Entry(t.expiration, t.View())] + before[i..];
    }

    /** The place of an element in the order of the set. */
    method Position(t: Timer) returns (i: nat)
      ensures i == Place(View(), Entry(t.expiration, t.View()))
    {
      ghost var entries, e := View(), Entry(t.expiration, t.View());
      i := 0;
      while i < |timers| && !(t.expiration < timers[i].key
                              || (t.expiration == timers[i].key && t.id < timers[i].timer.id))
        invariant 0 <= i <= |timers|
        invariant Place(entries, e) == i + Place(entries[i..], e)
      {
        assert entries[i..][0] == entries[i] && entries[i..][1..] == entries[i + 1..];
        i := i + 1;
      }
      assert i < |timers| ==> entries[i..][0] == entries[i];
    }

    /** std::set::insert. */
    method InsertTimer(t: Timer)
      requires Valid() && t !in Objects()
      modifies this
      ensures Valid() && View() == Insert(old(View()), Entry(t.expiration, t.View()))
    {
      var i := Position(t);
      InsertAtPlace(View(), Entry(t.expiration, t.View()));
      InsertAt(i, t);
    }

    /** Among the timers of the queue and `t` the id stands for the pointer. */
    ghost predicate Identified(t: Timer)
      reads this, Objects()
    {
      && (forall x :: x in Objects() && x.id == t.id ==> x == t)
      && forall i, j :: 0 <= i < j < |timers| ==> timers[i].timer.id != timers[j].timer.id
    }

    lemma ViewApart(t: Timer)
      requires Identified(t)
      ensures IdsApart(View()) && (t !in Objects() ==> Apart(t.id, View()))
    {
      PairsApart(View());
      assert forall i :: 0 <= i < |timers| ==> timers[i].timer in Objects();
    }

    method RemoveTimer(t: Timer)
      requires Valid()
      modifies this
      ensures Valid() && (old(Identified(t)) ==> View() == Without(old(View()), t.id).0)
      ensures forall i :: 0 <= i < |old(timers)| && old(timers)[i].timer == t ==>
                timers == old(timers)[..i] + old(timers)[i + 1..]
      ensures t !in old(Objects()) ==> timers == old(timers)
    {
      ghost var before, identified := View(), Identified(t);
      if identified {
        ViewApart(t);
      }
      for i := 0 to |timers|
        invariant timers == old(timers)
        invariant forall j :: 0 <= j < i ==> timers[j].timer != t
      {
        if timers[i].timer == t {
          if identified {
            RemovedAt(before, t.id, i);
          }
          timers := timers[..i] + timers[i + 1..];
          assert View() == before[..i] + before[i + 1..];
          return;
        }
      }
      if identified {
        NotThere(before, t.id);
      }
    }

    method CancelTimer(t: Timer, off: bool)
      requires Valid()
      modifies Objects()
      ensures Valid() && timers == old(timers)
      ensures old(Identified(t)) ==> View() == SetCanceled(old(View()), t.id, off)
      ensures forall x :: x in Objects() ==>
                x.View() == if x == t then old(x.View()).(canceled := off) else old(x.View())
    {
      ghost var before, identified := View(), Identified(t);
      if identified {
        ViewApart(t);
      }
      for i := 0 to |timers|
        invariant forall j :: 0 <= j < i ==> timers[j].timer != t
        invariant forall x :: x in Objects() ==> x.View() == old(x.View())
      {
        if timers[i].timer == t {
          timers[i].timer.canceled := off;
          if identified {
            FlagSet(before, View(), t.id, off);
          }
          return;
        }
      }
      if identified {
        NotThere(before, t.id);
      }
    }
  }
}
