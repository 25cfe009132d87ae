/** The lifecycle of the child process that runs an opaque module's tests (engine.py), over every run
    and whatever the child does. Process ids and descriptors are numbered as they are handed out. */
module ModuleChildren {
  import opened Prelude
  import NodeIds
  import opened Tiers

  // ---- what can be observed of a run ----

  datatype Event =
    | Opened(fd: nat)
    | Closed(fd: nat)
    | Forked(pid: nat, moduleKey: string, requests: nat)  // to be written to through this descriptor
    | Killed(pid: nat)
    | HungUp(pid: nat)  // its end of a pipe was found closed
    | Reaped(pid: nat)
    | Sent(pid: nat, node: string)
    | Answered(pid: nat, node: string)
    | Ran(node: string, tier: Tier)  // on a tier of this process's own
    | StaleTornDown(node: string)  // this process's wider fixtures that do not belong to the node

  // A child is `ending` once it was killed, hung up, or can be sent nothing more: it will exit.
  datatype Live = Live(pid: nat, moduleKey: string, requests: nat, pending: Option<string>, ending: bool)

  // What the operating system and the child would see: who is alive with which request unanswered,
  // which descriptors are open, and the numbers below `next` that have been handed out.
  datatype World = World(live: Option<Live>, open: set<nat>, next: nat)

  const BOOT := World(None, {}, 0)

  // The rules. No child is waited for that might never exit. Under `whole` a node may not run here while
  // a child holds its module.
  predicate Allowed(w: World, e: Event, whole: bool) {
    match e
    case Opened(fd) => fd == w.next
    case Closed(fd) => fd in w.open
    case Forked(pid, _, requests) => pid == w.next && w.live.None? && requests in w.open
    case Killed(pid) => w.live.Some? && w.live.value.pid == pid
    case HungUp(pid) => w.live.Some? && w.live.value.pid == pid
    case Reaped(pid) => w.live.Some? && w.live.value.pid == pid && w.live.value.ending
    case Sent(pid, node) =>
      && w.live.Some? && w.live.value.pid == pid && !w.live.value.ending
      && w.live.value.moduleKey == NodeIds.ModuleKey(node) && w.live.value.pending.None?
    case Answered(pid, node) => w.live.Some? && w.live.value.pid == pid && w.live.value.pending == Some(node)
    case StaleTornDown(_) => w.live.None?
    case Ran(node, _) => whole && w.live.Some? ==> w.live.value.moduleKey != NodeIds.ModuleKey(node)
  }

  function Ending(w: World): World {
    if w.live.None? then w else w.(live := Some(w.live.value.(ending := true)))
  }

  function Advance(w: World, e: Event): World {
    match e
    case Opened(fd) => w.(open := w.open + {fd}, next := fd + 1)
    case Closed(fd) =>
      var closed := w.(open := w.open - {fd});
      if w.live.Some? && w.live.value.requests == fd then Ending(closed) else closed
    case Forked(pid, moduleKey, requests) =>
      w.(live := Some(Live(pid, moduleKey, requests, None, false)), next := pid + 1)
    case Killed(_) => Ending(w)
    case HungUp(_) => Ending(w)
    case Reaped(_) => w.(live := None)
    case Sent(_, node) => if w.live.Some? then w.(live := Some(w.live.value.(pending := Some(node)))) else w
    case Answered(_, _) => if w.live.Some? then w.(live := Some(w.live.value.(pending := None))) else w
    case _ => w
  }

  // The world after a log that keeps the rules throughout; None once one is broken.
  function Watch(w: World, log: seq<Event>, whole: bool): Option<World>
    decreases |log|
  {
    if log == [] then Some(w)
    else if Allowed(w, log[0], whole) then Watch(Advance(w, log[0]), log[1..], whole)
    else None
  }

  lemma {:induction false} WatchConcat(w: World, a: seq<Event>, b: seq<Event>, whole: bool)
    ensures Watch(w, a + b, whole) ==
            if Watch(w, a, whole).Some? then Watch(Watch(w, a, whole).value, b, whole) else None
    decreases |a|
  {
    if a == [] {
      assert a + b == b;
    } else {
      assert (a + b)[1..] == a[1..] + b;
      WatchConcat(Advance(w, a[0]), a[1..], b, whole);
    }
  }

  // ---- what a log the rules allow has done ----

  function Count(log: seq<Event>, e: Event): nat {
    if log == [] then 0 else (if log[0] == e then 1 else 0) + Count(log[1..], e)
  }

  function Forks(log: seq<Event>, pid: nat): nat {
    if log == [] then 0 else (if log[0].Forked? && log[0].pid == pid then 1 else 0) + Forks(log[1..], pid)
  }

  function IsLive(w: World, pid: nat): nat {
    if w.live.Some? && w.live.value.pid == pid then 1 else 0
  }

  function IsOpen(w: World, fd: nat): nat {
    if fd in w.open then 1 else 0
  }

  ghost predicate Numbered(w: World) {
    (forall fd :: fd in w.open ==> fd < w.next) && (w.live.Some? ==> w.live.value.pid < w.next)
  }

  // Every process forked and no longer alive was reaped, once; and no number names two processes.
  lemma {:induction false} ReapedExactlyOnce(w: World, log: seq<Event>, whole: bool, pid: nat)
    requires Numbered(w) && Watch(w, log, whole).Some?
    ensures var after := Watch(w, log, whole).value;
            && Numbered(after) && w.next <= after.next
            && IsLive(w, pid) + Forks(log, pid) == Count(log, Reaped(pid)) + IsLive(after, pid)
            && Forks(log, pid) <= (if pid < w.next then 0 else 1)
            && (pid >= after.next ==> Forks(log, pid) == 0)
    decreases |log|
  {
    if log != [] {
      ReapedExactlyOnce(Advance(w, log[0]), log[1..], whole, pid);
    }
  }

  lemma {:induction false} ClosedExactlyOnce(w: World, log: seq<Event>, whole: bool, fd: nat)
    requires Numbered(w) && Watch(w, log, whole).Some?
    ensures var after := Watch(w, log, whole).value;
            && Numbered(after) && w.next <= after.next
            && IsOpen(w, fd) + Count(log, Opened(fd)) == Count(log, Closed(fd)) + IsOpen(after, fd)
            && Count(log, Opened(fd)) <= (if fd < w.next then 0 else 1)
            && (fd >= after.next ==> Count(log, Opened(fd)) == 0)
    decreases |log|
  {
    if log != [] {
      ClosedExactlyOnce(Advance(w, log[0]), log[1..], whole, fd);
    }
  }

  function SentTo(log: seq<Event>, pid: nat): seq<string> {
    if log == [] then []
    else (if log[0].Sent? && log[0].pid == pid then [log[0].node] else []) + SentTo(log[1..], pid)
  }

  function AnsweredBy(log: seq<Event>, pid: nat): seq<string> {
    if log == [] then []
    else (if log[0].Answered? && log[0].pid == pid then [log[0].node] else []) + AnsweredBy(log[1..], pid)
  }

  function Pending(w: World, pid: nat): seq<string> {
    if w.live.Some? && w.live.value.pid == pid && w.live.value.pending.Some? then [w.live.value.pending.value] else []
  }

  // A process reaped is not heard of again.
  lemma {:induction false} ReapedStaysSilent(w: World, log: seq<Event>, whole: bool, pid: nat)
    requires Numbered(w) && Watch(w, log, whole).Some? && pid < w.next && IsLive(w, pid) == 0
    ensures IsLive(Watch(w, log, whole).value, pid) == 0 && SentTo(log, pid) == [] && AnsweredBy(log, pid) == []
    decreases |log|
  {
    if log != [] {
      ReapedStaysSilent(Advance(w, log[0]), log[1..], whole, pid);
    }
  }

  // The answers are those of the first requests, and at most one request is left over: the one
  // pending, when the process is still alive.
  predicate InStep(asked: seq<string>, answered: seq<string>, alive: bool, pending: nat) {
    && answered <= asked
    && |asked| <= |answered| + 1
    && (alive ==> |asked| == |answered| + pending)
  }

  predicate PidInStep(w: World, log: seq<Event>, whole: bool, pid: nat)
    requires Watch(w, log, whole).Some?
  {
    var after := Watch(w, log, whole).value;
    InStep(Pending(w, pid) + SentTo(log, pid), AnsweredBy(log, pid), IsLive(after, pid) == 1, |Pending(after, pid)|)
  }

  lemma {:induction false} PendingAfter(w: World, e: Event, whole: bool, pid: nat)
    requires Allowed(w, e, whole) && e != Reaped(pid)
    ensures var (was, now) := (Pending(w, pid), Pending(Advance(w, e), pid));
            if e.Answered? && e.pid == pid then was == [e.node] && now == []
            else if e.Sent? && e.pid == pid then was == [] && now == [e.node]
            else if e.Forked? && e.pid == pid then was == []
            else was == now
  {
  }

  lemma {:induction false} OneEventInStep(w: World, log: seq<Event>, whole: bool, pid: nat)
    requires log != [] && Allowed(w, log[0], whole) && log[0] != Reaped(pid)
    ensures var rest := Pending(Advance(w, log[0]), pid) + SentTo(log[1..], pid);
            if log[0].Answered? && log[0].pid == pid then
              Pending(w, pid) + SentTo(log, pid) == [log[0].node] + rest
              && AnsweredBy(log, pid) == [log[0].node] + AnsweredBy(log[1..], pid)
            else if log[0].Forked? && log[0].pid == pid then Pending(w, pid) == []
            else
              Pending(w, pid) + SentTo(log, pid) == rest && AnsweredBy(log, pid) == AnsweredBy(log[1..], pid)
  {
    var e, sent, answered := log[0], SentTo(log[1..], pid), AnsweredBy(log[1..], pid);
    PendingAfter(w, e, whole, pid);
    assert [] + sent == sent && [] + answered == answered;
    assert SentTo(log, pid) == if e.Sent? && e.pid == pid then [e.node] + sent else sent;
    assert AnsweredBy(log, pid) == if e.Answered? && e.pid == pid then [e.node] + answered else answered;
  }

  // A process's answers are read for its requests in the order sent, so the k-th frame it writes is
  // taken for the k-th request; at most the last request it was sent has no answer, and none while
  // it lives on between two nodes.
  lemma {:induction false} AnswersFollowRequests(w: World, log: seq<Event>, whole: bool, pid: nat)
    requires Numbered(w) && Watch(w, log, whole).Some?
    ensures PidInStep(w, log, whole, pid)
    decreases |log|
  {
    if log != [] {
      var e := log[0];
      if e == Reaped(pid) {
        ReapedStaysSilent(Advance(w, e), log[1..], whole, pid);
      } else {
        OneEventInStep(w, log, whole, pid);
        AnswersFollowRequests(Advance(w, e), log[1..], whole, pid);
      }
    }
  }

  // ---- the engine's side ----

  // `_ModuleChild`: whose tests it runs, and the parent's ends of its two pipes.
  datatype Child = Child(moduleKey: string, pid: nat, reqW: nat, respR: nat)

  datatype State = State(child: Option<Child>, log: seq<Event>, next: nat)

  // What the child does with one request.
  datatype Behaviour = WriteFails | TimesOut | Eof | Garbage | Replies(text: string)

  // One node that reached routing; `lingers` if a child it makes the engine close must be killed.
  datatype Ask = Ask(node: string, record: Record, restorable: Restorable, lingers: bool, behaviour: Behaviour)

  datatype Response = Gone | TimedOut | Died | Unreadable | Reply(text: string) | RanOn(tier: Tier) | CannotFork

  function CloseEvents(c: Child, lingers: bool): seq<Event> {
    [Closed(c.reqW)] + (if lingers then [Killed(c.pid)] else []) + [Reaped(c.pid), Closed(c.respR)]
  }

  function ReapEvents(c: Child, kill: bool): seq<Event> {
    (if kill then [Killed(c.pid)] else []) + [Reaped(c.pid), Closed(c.reqW), Closed(c.respR)]
  }

  function Spawned(moduleKey: string, next: nat): Child {
    Child(moduleKey, next + 4, next + 1, next + 2)
  }

  // `os.pipe`
  function PipeEvents(next: nat): seq<Event> {
    [Opened(next), Opened(next + 1)]
  }

  // The fork, and the parent's closing of the child's two ends.
  function ForkEvents(moduleKey: string, first: nat): seq<Event> {
    [Forked(first + 4, moduleKey, first + 1), Closed(first), Closed(first + 3)]
  }

  function SpawnEvents(moduleKey: string, next: nat): seq<Event> {
    PipeEvents(next) + (PipeEvents(next + 2) + ForkEvents(moduleKey, next))
  }

  function Close(s: State, lingers: bool): State {
    if s.child.None? then s else State(None, s.log + CloseEvents(s.child.value, lingers), s.next)
  }

  function Reap(s: State, kill: bool): State {
    if s.child.None? then s else State(None, s.log + ReapEvents(s.child.value, kill), s.next)
  }

  function Spawn(s: State, moduleKey: string): State {
    State(Some(Spawned(moduleKey, s.next)), s.log + SpawnEvents(moduleKey, s.next), s.next + 5)
  }

  function Log(s: State, e: Event): State {
    s.(log := s.log + [e])
  }

  // The child for a node: the live one if it is its module's, else a fresh one, forked after this
  // process has torn down what it owns.
  function ChildFor(s: State, node: string, lingers: bool): (t: State)
    ensures t.child.Some? && t.child.value.moduleKey == NodeIds.ModuleKey(node)
  {
    if s.child.Some? && s.child.value.moduleKey == NodeIds.ModuleKey(node) then s
    else Spawn(Log(Close(s, lingers), StaleTornDown(node)), NodeIds.ModuleKey(node))
  }

  function Exchange(s: State, node: string, behaviour: Behaviour): (State, Response)
    requires s.child.Some?
  {
    var pid := s.child.value.pid;
    if behaviour.WriteFails? then (Reap(Log(s, HungUp(pid)), false), Gone)
    else
      var asked := Log(s, Sent(pid, node));
      match behaviour
      case TimesOut => (Reap(asked, true), TimedOut)
      case Eof => (Reap(Log(asked, HungUp(pid)), false), Died)
      case Garbage => (Reap(Log(asked, Answered(pid, node)), true), Unreadable)
      case Replies(text) => (Log(asked, Answered(pid, node)), Reply(text))
  }

  function HoldsModule(s: State, node: string): bool {
    s.child.Some? && s.child.value.moduleKey == NodeIds.ModuleKey(node)
  }

  function Run(o: Options, s: State, ask: Ask): (State, Response) {
    var tier := Route(o, ask.record, HoldsModule(s, ask.node), ask.restorable);
    if tier.ModuleChild? then Exchange(ChildFor(s, ask.node, ask.lingers), ask.node, ask.behaviour)
    else if tier.Refused? then (s, CannotFork)
    else (Log(s, Ran(ask.node, tier)), RanOn(tier))
  }

  const IDLE := State(None, [], 0)

  function RunAll(o: Options, s: State, asks: seq<Ask>): State
    decreases |asks|
  {
    if asks == [] then s else RunAll(o, Run(o, s, asks[0]).0, asks[1..])
  }

  // ---- every run keeps the rules ----

  // The options under which a file is never split between the child and this process.
  predicate Whole(o: Options) {
    o.forkAvailable && !o.inModuleChild && !o.noFork && o.restore
  }

  // The engine's idea of its child is what the world sees, and nothing else is alive or open.
  ghost predicate Keeps(whole: bool, s: State) {
    var w := Watch(BOOT, s.log, whole);
    && w.Some?
    && w.value.next == s.next
    && if s.child.None? then w.value.live.None? && w.value.open == {}
       else
         var c := s.child.value;
         && w.value.live == Some(Live(c.pid, c.moduleKey, c.reqW, None, false))
         && w.value.open == {c.reqW, c.respR}
         && c.reqW != c.respR
  }

  lemma {:induction false} CloseKeeps(whole: bool, s: State, lingers: bool)
    requires Keeps(whole, s)
    ensures Keeps(whole, Close(s, lingers)) && Close(s, lingers).child.None?
  {
    if s.child.Some? {
      var events := CloseEvents(s.child.value, lingers);
      WatchConcat(BOOT, s.log, events, whole);
      CloseIsClean(Watch(BOOT, s.log, whole).value, s.child.value, lingers, whole);
    }
  }

  // The world while `c` is the engine's child, with a request to it unanswered or not.
  ghost predicate Hosts(w: World, c: Child, pending: Option<string>, ending: bool) {
    && w.live == Some(Live(c.pid, c.moduleKey, c.reqW, pending, ending))
    && w.open == {c.reqW, c.respR}
    && c.reqW != c.respR
  }

  lemma {:induction false} WatchOne(w: World, e: Event, rest: seq<Event>, whole: bool)
    requires Allowed(w, e, whole)
    ensures Watch(w, [e] + rest, whole) == Watch(Advance(w, e), rest, whole)
  {
    assert ([e] + rest)[1..] == rest;
  }

  lemma {:induction false} CloseIsClean(w: World, c: Child, lingers: bool, whole: bool)
    requires Hosts(w, c, None, false)
    ensures Watch(w, CloseEvents(c, lingers), whole) == Some(World(None, {}, w.next))
  {
    var w1 := Ending(w.(open := {c.respR}));
    assert w.open - {c.reqW} == {c.respR} && w1.open - {c.respR} == {};
    var tail := [Reaped(c.pid), Closed(c.respR)];
    assert tail == [Reaped(c.pid)] + [Closed(c.respR)] && [Closed(c.respR)] == [Closed(c.respR)] + [];
    WatchOne(w1, Reaped(c.pid), [Closed(c.respR)], whole);
    WatchOne(w1.(live := None), Closed(c.respR), [], whole);
    if lingers {
      WatchOne(w, Closed(c.reqW), [Killed(c.pid)] + tail, whole);
      WatchOne(w1, Killed(c.pid), tail, whole);
      assert CloseEvents(c, lingers) == [Closed(c.reqW)] + ([Killed(c.pid)] + tail);
    } else {
      WatchOne(w, Closed(c.reqW), tail, whole);
      assert CloseEvents(c, lingers) == [Closed(c.reqW)] + tail;
    }
  }

  lemma {:induction false} ReapIsClean(w: World, c: Child, pending: Option<string>, kill: bool, whole: bool)
    requires Hosts(w, c, pending, !kill)
    ensures Watch(w, ReapEvents(c, kill), whole) == Some(World(None, {}, w.next))
  {
    var reaped := w.(live := None);
    var closed := reaped.(open := {c.respR});
    assert w.open - {c.reqW} == {c.respR} && closed.open - {c.respR} == {};
    WatchOne(Ending(w), Reaped(c.pid), [Closed(c.reqW), Closed(c.respR)], whole);
    WatchOne(reaped, Closed(c.reqW), [Closed(c.respR)], whole);
    WatchOne(closed, Closed(c.respR), [], whole);
    var tail := [Reaped(c.pid), Closed(c.reqW), Closed(c.respR)];
    assert tail == [Reaped(c.pid)] + [Closed(c.reqW), Closed(c.respR)];
    assert [Closed(c.reqW), Closed(c.respR)] == [Closed(c.reqW)] + [Closed(c.respR)];
    assert [Closed(c.respR)] == [Closed(c.respR)] + [];
    if kill {
      WatchOne(w, Killed(c.pid), tail, whole);
    } else {
      assert ReapEvents(c, kill) == tail;
    }
  }

  lemma {:induction false} PipeIsClean(live: Option<Live>, open: set<nat>, n: nat, rest: seq<Event>, whole: bool)
    ensures Watch(World(live, open, n), PipeEvents(n) + rest, whole)
      == Watch(World(live, open + {n, n + 1}, n + 2), rest, whole)
  {
    assert open + {n} + {n + 1} == open + {n, n + 1};
    assert PipeEvents(n) + rest == [Opened(n)] + ([Opened(n + 1)] + rest);
    WatchOne(World(live, open, n), Opened(n), [Opened(n + 1)] + rest, whole);
    WatchOne(World(live, open + {n}, n + 1), Opened(n + 1), rest, whole);
  }

  lemma {:induction false} ForkIsClean(w: World, n: nat, moduleKey: string, whole: bool)
    requires w.live.None? && w.next == n + 4 && w.open == {n, n + 1} + {n + 2, n + 2 + 1}
    ensures Watch(w, ForkEvents(moduleKey, n), whole)
      == Some(World(Some(Live(n + 4, moduleKey, n + 1, None, false)), {n + 1, n + 2}, n + 5))
  {
    var forked := World(Some(Live(n + 4, moduleKey, n + 1, None, false)), w.open, n + 5);
    var half := forked.(open := {n + 1, n + 2, n + 3});
    assert w.open - {n} == half.open && half.open - {n + 3} == {n + 1, n + 2};
    var closes := [Closed(n), Closed(n + 3)];
    var fork := Forked(n + 4, moduleKey, n + 1);
    assert ForkEvents(moduleKey, n) == [fork] + closes;
    assert closes == [Closed(n)] + [Closed(n + 3)] && [Closed(n + 3)] == [Closed(n + 3)] + [];
    WatchOne(w, fork, closes, whole);
    WatchOne(forked, Closed(n), [Closed(n + 3)], whole);
    WatchOne(half, Closed(n + 3), [], whole);
  }

  lemma {:induction false} SpawnIsClean(w: World, moduleKey: string, whole: bool)
    requires w.live.None? && w.open == {}
    ensures var c := Spawned(moduleKey, w.next);
            Watch(w, SpawnEvents(moduleKey, w.next), whole)
              == Some(World(Some(Live(c.pid, moduleKey, c.reqW, None, false)), {c.reqW, c.respR}, w.next + 5))
  {
    var n := w.next;
    var fork := ForkEvents(moduleKey, n);
    PipeIsClean(None, {}, n, PipeEvents(n + 2) + fork, whole);
    assert {} + {n, n + 1} == {n, n + 1};
    PipeIsClean(None, {n, n + 1}, n + 2, fork, whole);
    ForkIsClean(World(None, {n, n + 1} + {n + 2, n + 2 + 1}, n + 4), n, moduleKey, whole);
  }

  lemma {:induction false} ChildForKeeps(whole: bool, s: State, node: string, lingers: bool)
    requires Keeps(whole, s)
    ensures Keeps(whole, ChildFor(s, node, lingers))
  {
    if !(s.child.Some? && s.child.value.moduleKey == NodeIds.ModuleKey(node)) {
      CloseKeeps(whole, s, lingers);
      var closed := Close(s, lingers);
      OneMore(closed.log, StaleTornDown(node), whole);
      var ready := Log(closed, StaleTornDown(node));
      SpawnIsClean(Watch(BOOT, ready.log, whole).value, NodeIds.ModuleKey(node), whole);
      WatchConcat(BOOT, ready.log, SpawnEvents(NodeIds.ModuleKey(node), ready.next), whole);
    }
  }

  lemma {:induction false} HungUpKeeps(whole: bool, log: seq<Event>, c: Child, pending: Option<string>)
    requires Watch(BOOT, log, whole).Some? && Hosts(Watch(BOOT, log, whole).value, c, pending, false)
    ensures var w := Watch(BOOT, log, whole).value;
            Watch(BOOT, log + [HungUp(c.pid)] + ReapEvents(c, false), whole) == Some(World(None, {}, w.next))
  {
    var w := Watch(BOOT, log, whole).value;
    OneMore(log, HungUp(c.pid), whole);
    WatchConcat(BOOT, log + [HungUp(c.pid)], ReapEvents(c, false), whole);
    ReapIsClean(Ending(w), c, pending, false, whole);
  }

  // One request and whatever the child makes of it.
  lemma {:induction false} ExchangeKeeps(whole: bool, s: State, node: string, behaviour: Behaviour)
    requires Keeps(whole, s) && s.child.Some? && s.child.value.moduleKey == NodeIds.ModuleKey(node)
    ensures Keeps(whole, Exchange(s, node, behaviour).0)
  {
    var c := s.child.value;
    var w := Watch(BOOT, s.log, whole).value;
    if behaviour.WriteFails? {
      HungUpKeeps(whole, s.log, c, None);
    } else {
      var asked := Log(s, Sent(c.pid, node));
      var w1 := Advance(w, Sent(c.pid, node));
      OneMore(s.log, Sent(c.pid, node), whole);
      if behaviour.Eof? {
        HungUpKeeps(whole, asked.log, c, Some(node));
      } else if behaviour.TimesOut? {
        WatchConcat(BOOT, asked.log, ReapEvents(c, true), whole);
        ReapIsClean(w1, c, Some(node), true, whole);
      } else {
        var answered := Log(asked, Answered(c.pid, node));
        OneMore(asked.log, Answered(c.pid, node), whole);
        if behaviour.Garbage? {
          WatchConcat(BOOT, answered.log, ReapEvents(c, true), whole);
          ReapIsClean(Advance(w1, Answered(c.pid, node)), c, None, true, whole);
        }
      }
    }
  }

  lemma {:induction false} OneMore(log: seq<Event>, e: Event, whole: bool)
    requires Watch(BOOT, log, whole).Some? && Allowed(Watch(BOOT, log, whole).value, e, whole)
    ensures Watch(BOOT, log + [e], whole) == Some(Advance(Watch(BOOT, log, whole).value, e))
  {
    WatchConcat(BOOT, log, [e], whole);
  }

  lemma {:induction false} RunKeeps(o: Options, s: State, ask: Ask)
    requires Keeps(Whole(o), s)
    ensures Keeps(Whole(o), Run(o, s, ask).0)
  {
    var tier := Route(o, ask.record, HoldsModule(s, ask.node), ask.restorable);
    if tier.ModuleChild? {
      ChildForKeeps(Whole(o), s, ask.node, ask.lingers);
      ExchangeKeeps(Whole(o), ChildFor(s, ask.node, ask.lingers), ask.node, ask.behaviour);
    } else if !tier.Refused? {
      if Whole(o) && HoldsModule(s, ask.node) {
        OpenChildTakesNode(o, ask.record, ask.restorable);
        assert false;
      }
      OneMore(s.log, Ran(ask.node, tier), Whole(o));
    }
  }

  lemma {:induction false} RunAllKeeps(o: Options, s: State, asks: seq<Ask>)
    requires Keeps(Whole(o), s)
    ensures Keeps(Whole(o), RunAll(o, s, asks))
    decreases |asks|
  {
    if asks != [] {
      RunKeeps(o, s, asks[0]);
      RunAllKeeps(o, Run(o, s, asks[0]).0, asks[1..]);
    }
  }

  // Over every run and whatever the children do: at most one is alive, requests go only to a live
  // child of the node's own module with none unanswered, nothing is signalled, reaped or closed
  // twice, and (under the right options) no node runs here while a child holds its module. Once
  // everything is torn down every process forked has been reaped once and every descriptor opened
  // closed once.
  lemma {:induction false} EveryRunKeepsTheRules(o: Options, asks: seq<Ask>, lingers: bool, id: nat)
    ensures var s := RunAll(o, IDLE, asks);
            var end := Close(s, lingers);
            && Keeps(Whole(o), s)
            && Watch(BOOT, end.log, Whole(o)).Some?
            && Forks(end.log, id) == Count(end.log, Reaped(id)) <= 1
            && Count(end.log, Opened(id)) == Count(end.log, Closed(id)) <= 1
            && AnsweredBy(end.log, id) <= SentTo(end.log, id)
            && |SentTo(end.log, id)| <= |AnsweredBy(end.log, id)| + 1
  {
    RunAllKeeps(o, IDLE, asks);
    var s := RunAll(o, IDLE, asks);
    CloseKeeps(Whole(o), s, lingers);
    var end := Close(s, lingers);
    ReapedExactlyOnce(BOOT, end.log, Whole(o), id);
    ClosedExactlyOnce(BOOT, end.log, Whole(o), id);
    AnswersFollowRequests(BOOT, end.log, Whole(o), id);
  }

  // A child that answered keeps the module for its next node; one that did not is dropped.
  lemma {:induction false} OnlyAnAnswerKeepsTheChild(o: Options, s: State, ask: Ask)
    ensures var (t, r) := Run(o, s, ask);
            match r
            case Reply(text) => HoldsModule(t, ask.node) && ask.behaviour == Replies(text)
            case RanOn(_) => t.child == s.child
            case CannotFork => t == s && !o.forkAvailable
            case _ => t.child.None?
  {
  }

  // The process a node that goes to a child is sent to.
  function ChildPid(s: State, ask: Ask): nat {
    ChildFor(s, ask.node, ask.lingers).child.value.pid
  }

  predicate GoesToChild(o: Options, s: State, ask: Ask) {
    Route(o, ask.record, HoldsModule(s, ask.node), ask.restorable).ModuleChild?
  }

  lemma {:induction false} LivePidIsUsed(whole: bool, s: State)
    requires Keeps(whole, s)
    ensures s.child.Some? ==> s.child.value.pid < s.next
  {
    ReapedExactlyOnce(BOOT, s.log, whole, 0);
  }

  // What one ask added to the log.
  function Added(s: State, t: State): seq<Event> {
    if |s.log| <= |t.log| then t.log[|s.log|..] else []
  }

  // What the response says of the process: whether it was sent the node, whether a frame came back, and
  // whether it was killed or reaped at all.
  ghost predicate Explains(r: Response, added: seq<Event>, pid: nat, node: string) {
    var sent, answered := Sent(pid, node) in added, Answered(pid, node) in added;
    var killed, reaped := Killed(pid) in added, Reaped(pid) in added;
    && (r.Gone? <==> !sent)
    && (r.Died? <==> sent && !answered && !killed)
    && (r.TimedOut? <==> sent && !answered && killed)
    && (r.Unreadable? <==> answered && reaped)
    && (r.Reply? <==> answered && !reaped)
    && (killed <==> r.TimedOut? || r.Unreadable?)
    && (HungUp(pid) in added <==> r.Gone? || r.Died?)
  }

  predicate IsOf(e: Event, pid: nat) {
    e.Sent? || e.Answered? || e == Killed(pid) || e == Reaped(pid) || e == HungUp(pid)
  }

  ghost predicate Silent(log: seq<Event>, pid: nat) {
    forall i :: 0 <= i < |log| ==> !IsOf(log[i], pid)
  }

  lemma {:induction false} SilentConcat(a: seq<Event>, b: seq<Event>, pid: nat)
    requires Silent(a, pid) && Silent(b, pid)
    ensures Silent(a + b, pid)
  {
  }

  lemma {:induction false} CloseIsSilent(s: State, lingers: bool, pid: nat) returns (closing: seq<Event>)
    requires s.child.Some? ==> s.child.value.pid != pid
    ensures Close(s, lingers) == State(None, s.log + closing, s.next) && Silent(closing, pid)
  {
    closing := if s.child.None? then [] else CloseEvents(s.child.value, lingers);
    assert s.log + [] == s.log;
  }

  lemma {:induction false} SpawnIsSilent(moduleKey: string, next: nat, pid: nat)
    ensures Silent(SpawnEvents(moduleKey, next), pid)
  {
  }

  // To have a child for a node says nothing of that child yet.
  lemma {:induction false} PreparationIsSilent(s: State, ask: Ask) returns (early: seq<Event>)
    requires s.child.Some? ==> s.child.value.pid < s.next
    ensures ChildFor(s, ask.node, ask.lingers).log == s.log + early
    ensures Silent(early, ChildPid(s, ask))
  {
    if HoldsModule(s, ask.node) {
      early := [];
    } else {
      var closing := CloseIsSilent(s, ask.lingers, s.next + 4);
      var torn, spawn := [StaleTornDown(ask.node)], SpawnEvents(NodeIds.ModuleKey(ask.node), s.next);
      SpawnIsSilent(NodeIds.ModuleKey(ask.node), s.next, s.next + 4);
      SilentConcat(torn, spawn, s.next + 4);
      SilentConcat(closing, torn + spawn, s.next + 4);
      early := closing + (torn + spawn);
      assert s.log + closing + torn + spawn == s.log + early;
    }
  }

  lemma {:induction false} ExchangeExplains(s: State, node: string, behaviour: Behaviour) returns (late: seq<Event>)
    requires s.child.Some?
    ensures Exchange(s, node, behaviour).0.log == s.log + late
    ensures Explains(Exchange(s, node, behaviour).1, late, s.child.value.pid, node)
  {
    var c := s.child.value;
    match behaviour
    case WriteFails => late := [HungUp(c.pid)] + ReapEvents(c, false);
    case TimesOut => late := [Sent(c.pid, node)] + ReapEvents(c, true);
    case Eof => late := [Sent(c.pid, node), HungUp(c.pid)] + ReapEvents(c, false);
    case Garbage => late := [Sent(c.pid, node), Answered(c.pid, node)] + ReapEvents(c, true);
    case Replies(_) => late := [Sent(c.pid, node), Answered(c.pid, node)];
  }

  lemma {:induction false} SilenceExplainsNothing(
      r: Response, early: seq<Event>, late: seq<Event>, pid: nat, node: string)
    requires Explains(r, late, pid, node) && Silent(early, pid)
    ensures Explains(r, early + late, pid, node)
  {
    forall e: Event | IsOf(e, pid)
      ensures e in early + late <==> e in late
    {
    }
  }

  // After any run, the response to a node that goes to a child says what was seen to happen to it there,
  // and a reply is the child's own.
  lemma {:induction false} ResponseSaysWhatHappened(o: Options, asks: seq<Ask>, ask: Ask)
    requires GoesToChild(o, RunAll(o, IDLE, asks), ask)
    ensures var s := RunAll(o, IDLE, asks);
            var (t, r) := Run(o, s, ask);
            && s.log <= t.log
            && Explains(r, Added(s, t), ChildPid(s, ask), ask.node)
            && (r.Reply? ==> ask.behaviour == Replies(r.text))
  {
    var s := RunAll(o, IDLE, asks);
    RunAllKeeps(o, IDLE, asks);
    LivePidIsUsed(Whole(o), s);
    var ready := ChildFor(s, ask.node, ask.lingers);
    var early := PreparationIsSilent(s, ask);
    var late := ExchangeExplains(ready, ask.node, ask.behaviour);
    var (t, r) := Run(o, s, ask);
    assert t.log == s.log + (early + late);
    SilenceExplainsNothing(r, early, late, ChildPid(s, ask), ask.node);
  }

  // After any run, two nodes of one module that go to a child one after the other go to the same
  // process exactly when the first was answered.
  lemma {:induction false} SameProcessIffAnswered(o: Options, asks: seq<Ask>, first: Ask, second: Ask)
    requires NodeIds.ModuleKey(first.node) == NodeIds.ModuleKey(second.node)
    requires var s := RunAll(o, IDLE, asks); GoesToChild(o, s, first) && GoesToChild(o, Run(o, s, first).0, second)
    ensures var s := RunAll(o, IDLE, asks);
            var (t, r) := Run(o, s, first);
            ChildPid(t, second) == ChildPid(s, first) <==> r.Reply?
  {
    var s := RunAll(o, IDLE, asks);
    var asked := ChildFor(s, first.node, first.lingers);
    RunAllKeeps(o, IDLE, asks);
    ChildForKeeps(Whole(o), s, first.node, first.lingers);
    LivePidIsUsed(Whole(o), asked);
    OnlyAnAnswerKeepsTheChild(o, s, first);
    assert Run(o, s, first).0.next == asked.next;
  }

  // ---- what runs in this process ----

  // This node ran here on this tier as asked: in this very process only when that was asked of it or of the
  // run; with nothing measured or put back only when recorded pure; with its module put back after it when
  // shared state is to be kept apart and the module can be; merely in this process only when it is not. A
  // recorded disturber runs here only when the whole run is in-process.
  predicate RanSafely(o: Options, ask: Ask, node: string, tier: Tier) {
    && ask.node == node
    && (o.restore && IsInProcess(tier) ==>
          (ask.record.trustedPure || ask.restorable == Some(true)) && (ask.record.mustFork ==> o.noFork))
    && (IsInProcess(tier) ==> o.noFork || ask.record.forceNoFork)
    && (tier.Bare? ==> ask.record.trustedPure)
    && (tier.Restore? ==> !ask.record.trustedPure && o.restore && ask.restorable == Some(true))
    && (tier.InProcess? ==> !ask.record.trustedPure && !o.restore)
    && (tier.Fork? ==> o.forkAvailable || !(o.noFork || ask.record.forceNoFork))
    && !tier.ModuleChild? && !tier.Refused?
  }

  ghost predicate RanAsAsked(o: Options, asks: seq<Ask>, e: Event) {
    e.Ran? ==> exists i :: 0 <= i < |asks| && RanSafely(o, asks[i], e.node, e.tier)
  }

  // What one ask adds to the log, but for the one event of its own tier, is a child's life.
  lemma {:induction false} OneRanAtMost(o: Options, s: State, ask: Ask, e: Event)
    requires e in Run(o, s, ask).0.log
    ensures e in s.log || (if e.Ran? then RanSafely(o, ask, e.node, e.tier) else !o.inModuleChild)
  {
    var tier := Route(o, ask.record, HoldsModule(s, ask.node), ask.restorable);
    if tier.ModuleChild? {
      if o.inModuleChild {
        ChildrenRunTheirNodes(o, ask.record, HoldsModule(s, ask.node), ask.restorable);
        assert false;
      }
      if e.Ran? {
        ChildRunsNothingHere(s, ask, e);
      }
    } else if e !in s.log {
      assert Run(o, s, ask).0.log == if tier.Refused? then s.log else s.log + [Ran(ask.node, tier)];
      RouteIff(o, ask.record, HoldsModule(s, ask.node), ask.restorable);
    }
  }

  lemma {:induction false} ChildRunsNothingHere(s: State, ask: Ask, e: Event)
    requires e.Ran? && e in Exchange(ChildFor(s, ask.node, ask.lingers), ask.node, ask.behaviour).0.log
    ensures e in s.log
  {
    var t := ChildFor(s, ask.node, ask.lingers);
    assert e in t.log;
    assert e in Close(s, ask.lingers).log;
  }

  // Over every run: each node that ran in this process ran as safely as it was asked for; and a process
  // that is itself a module child does nothing but run nodes.
  lemma {:induction false} RunsHereOnlyWhenSafe(o: Options, asks: seq<Ask>, e: Event)
    requires e in RunAll(o, IDLE, asks).log
    ensures RanAsAsked(o, asks, e) && (o.inModuleChild ==> e.Ran?)
  {
    assert [] + asks == asks;
    StaysSafe(o, IDLE, [], asks, e);
  }

  lemma {:induction false} StaysSafe(o: Options, s: State, done: seq<Ask>, asks: seq<Ask>, e: Event)
    requires forall x :: x in s.log ==> RanAsAsked(o, done, x) && (o.inModuleChild ==> x.Ran?)
    requires e in RunAll(o, s, asks).log
    ensures RanAsAsked(o, done + asks, e) && (o.inModuleChild ==> e.Ran?)
    decreases |asks|
  {
    if asks == [] {
      assert done + asks == done;
    } else {
      var t, more := Run(o, s, asks[0]).0, done + [asks[0]];
      forall x | x in t.log
        ensures RanAsAsked(o, more, x) && (o.inModuleChild ==> x.Ran?)
      {
        OneRanAtMost(o, s, asks[0], x);
        RanStays(o, done, asks[0], x);
      }
      assert done + asks == more + asks[1..];
      StaysSafe(o, t, more, asks[1..], e);
    }
  }

  lemma {:induction false} RanStays(o: Options, done: seq<Ask>, ask: Ask, x: Event)
    requires RanAsAsked(o, done, x) || (x.Ran? && RanSafely(o, ask, x.node, x.tier))
    ensures RanAsAsked(o, done + [ask], x)
  {
    var more := done + [ask];
    if x.Ran? {
      if RanAsAsked(o, done, x) {
        var i :| 0 <= i < |done| && RanSafely(o, done[i], x.node, x.tier);
        assert more[i] == done[i];
      } else {
        assert more[|done|] == ask;
      }
    }
  }

  // ---- when a module is split ----

  // The options under which some run has a node run here while a child holds its module.
  predicate Splits(o: Options) {
    o.forkAvailable && !o.inModuleChild && o.restore && o.noFork
  }

  // No node runs here while a child holds its module, and the other rules hold.
  ghost predicate NeverSplit(o: Options, asks: seq<Ask>) {
    Watch(BOOT, RunAll(o, IDLE, asks).log, true).Some?
  }

  lemma {:induction false} NoChildNoSplit(o: Options, s: State, asks: seq<Ask>)
    requires !o.forkAvailable || o.inModuleChild || !o.restore
    requires Keeps(true, s) && s.child.None?
    ensures Keeps(true, RunAll(o, s, asks))
    decreases |asks|
  {
    if asks != [] {
      var ask := asks[0];
      var t := Run(o, s, ask).0;
      if Route(o, ask.record, false, ask.restorable).Refused? {
        assert t == s;
      } else {
        OneMore(s.log, Ran(ask.node, Route(o, ask.record, false, ask.restorable)), true);
      }
      NoChildNoSplit(o, t, asks[1..]);
    }
  }

  // The run that splits `m.py`: its first node goes to a child because the module cannot be put back,
  // its second is recorded pure and runs here while that child is alive.
  function SplittingRun(): seq<Ask> {
    [Ask(FILE + "::" + "t", Record(false, false, false), Some(false), false, Replies("")),
     Ask(FILE + "::" + "u", Record(false, true, false), Some(false), false, Replies(""))]
  }

  const FILE := "m.py"

  lemma {:induction false} OneModule(name: string)
    ensures NodeIds.ModuleKey(FILE + "::" + name) == FILE
  {
    NodeIds.SplitsAtKey(FILE, name);
  }

  lemma {:induction false} ChildOpens(o: Options, ask: Ask)
    requires Splits(o) && ask.record == Record(false, false, false) && ask.restorable == Some(false)
    requires ask.behaviour.Replies?
    ensures var s := Run(o, IDLE, ask).0;
            Keeps(true, s) && s.child.Some? && s.child.value.moduleKey == NodeIds.ModuleKey(ask.node)
  {
    ChildForKeeps(true, IDLE, ask.node, ask.lingers);
    ExchangeKeeps(true, ChildFor(IDLE, ask.node, ask.lingers), ask.node, ask.behaviour);
  }

  lemma {:induction false} RunsHereBesideChild(o: Options, s: State, ask: Ask)
    requires Splits(o) && ask.record == Record(false, true, false)
    requires Keeps(true, s) && s.child.Some? && s.child.value.moduleKey == NodeIds.ModuleKey(ask.node)
    ensures Watch(BOOT, Run(o, s, ask).0.log, true).None?
  {
    var rest := [Ran(ask.node, Route(o, ask.record, true, ask.restorable))];
    assert Run(o, s, ask).0 == Log(s, rest[0]);
    WatchConcat(BOOT, s.log, rest, true);
  }

  lemma {:induction false} RunTwo(o: Options, first: Ask, second: Ask)
    ensures RunAll(o, IDLE, [first, second]) == Run(o, Run(o, IDLE, first).0, second).0
  {
    var s1 := Run(o, IDLE, first).0;
    assert [first, second][1..] == [second] && [second][1..] == [];
    assert RunAll(o, s1, [second]) == RunAll(o, Run(o, s1, second).0, []);
  }

  lemma {:induction false} SplittingRunSplits(o: Options)
    requires Splits(o)
    ensures !NeverSplit(o, SplittingRun())
  {
    var first, second := SplittingRun()[0], SplittingRun()[1];
    OneModule("t");
    OneModule("u");
    ChildOpens(o, first);
    RunsHereBesideChild(o, Run(o, IDLE, first).0, second);
    RunTwo(o, first, second);
    assert SplittingRun() == [first, second];
  }

  // A file is never split in any run exactly when the options are not these: forking is off for tests
  // though the platform could, shared state is to be kept apart, and this is not itself a child.
  lemma {:induction false} NeverSplitIff(o: Options)
    ensures (forall asks :: NeverSplit(o, asks)) <==> !Splits(o)
  {
    if Splits(o) {
      SplittingRunSplits(o);
    } else {
      forall asks
        ensures NeverSplit(o, asks)
      {
        if Whole(o) {
          RunAllKeeps(o, IDLE, asks);
        } else {
          NoChildNoSplit(o, IDLE, asks);
        }
      }
    }
  }

  // ---- the engine as it runs ----

  class Host {
    const options: Options
    var child: Option<Child>
    // What has happened in this run, and the number the system hands out next.
    var log: seq<Event>
    var next: nat

    constructor (options: Options)
      ensures Now() == IDLE && this.options == options
    {
      this.options, child, log, next := options, None, [], 0;
    }

    ghost function Now(): State
      reads this
    {
      State(child, log, next)
    }

    // `os.pipe`
    method OpenPipe() returns (r: nat, w: nat)
      modifies this
      ensures child == old(child) && next == old(next) + 2 && (r, w) == (old(next), old(next) + 1)
      ensures log == old(log) + [Opened(r), Opened(w)]
    {
      r, w := next, next + 1;
      log, next := log + [Opened(r), Opened(w)], next + 2;
    }

    method CloseFd(fd: nat)
      modifies this`log
      ensures log == old(log) + [Closed(fd)]
    {
      log := log + [Closed(fd)];
    }

    // `reap`: wait for the process, after a signal when asked.
    method Wait(pid: nat, kill: bool)
      modifies this`log
      ensures log == old(log) + (if kill then [Killed(pid)] else []) + [Reaped(pid)]
    {
      if kill {
        log := log + [Killed(pid)];
      }
      log := log + [Reaped(pid)];
    }

    method SpawnChild(moduleKey: string) returns (c: Child)
      modifies this
      ensures Now() == Spawn(old(Now()), moduleKey) && child == Some(c)
    {
      var reqR, reqW := OpenPipe();
      var respR, respW := OpenPipe();
      var pid := next;
      log, next := log + [Forked(pid, moduleKey, reqW)], next + 1;
      CloseFd(reqR);
      CloseFd(respW);
      c := Child(moduleKey, pid, reqW, respR);
      child := Some(c);
    }

    method CloseChild(lingers: bool)
      modifies this`child, this`log
      ensures Now() == Close(old(Now()), lingers)
    {
      if child.None? {
        return;
      }
      var c := child.value;
      CloseFd(c.reqW);
      Wait(c.pid, lingers);
      CloseFd(c.respR);
      child := None;
    }

    method ReapChild(kill: bool)
      modifies this`child, this`log
      ensures Now() == Reap(old(Now()), kill)
    {
      if child.None? {
        return;
      }
      var c := child.value;
      Wait(c.pid, kill);
      CloseFd(c.reqW);
      CloseFd(c.respR);
      child := None;
    }

    method RunInChild(node: string, lingers: bool, behaviour: Behaviour) returns (r: Response)
      modifies this
      ensures (Now(), r) == Exchange(ChildFor(old(Now()), node, lingers), node, behaviour)
    {
      var moduleKey := NodeIds.ModuleKey(node);
      var c := child;
      if c.Some? && c.value.moduleKey != moduleKey {
        CloseChild(lingers);
        c := None;
      }
      if c.None? {
        log := log + [StaleTornDown(node)];
        var spawned := SpawnChild(moduleKey);
        c := Some(spawned);
      }
      var pid := c.value.pid;
      if behaviour.WriteFails? {
        log := log + [HungUp(pid)];
        ReapChild(false);
        return Gone;
      }
      log := log + [Sent(pid, node)];
      match behaviour {
        case TimesOut =>
          ReapChild(true);
          r := TimedOut;
        case Eof =>
          log := log + [HungUp(pid)];
          ReapChild(false);
          r := Died;
        case Garbage =>
          log := log + [Answered(pid, node)];
          ReapChild(true);
          r := Unreadable;
        case Replies(text) =>
          log := log + [Answered(pid, node)];
          r := Reply(text);
      }
    }

    method RunNode(ask: Ask) returns (r: Response)
      modifies this
      ensures (Now(), r) == Run(options, old(Now()), ask)
      ensures old(Keeps(Whole(options), Now())) ==> Keeps(Whole(options), Now())
    {
      ghost var before := Now();
      var holds := child.Some? && child.value.moduleKey == NodeIds.ModuleKey(ask.node);
      var tier := Route(options, ask.record, holds, ask.restorable);
      if tier.ModuleChild? {
        r := RunInChild(ask.node, ask.lingers, ask.behaviour);
      } else if tier.Refused? {
        r := CannotFork;
      } else {
        log := log + [Ran(ask.node, tier)];
        r := RanOn(tier);
      }
      if Keeps(Whole(options), before) {
        RunKeeps(options, before, ask);
      }
    }
  }
}
