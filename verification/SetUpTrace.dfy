/** Traces of fixture set-ups and teardowns, and what it means for one to be well nested. */
module SetUpTrace {
  import opened Prelude

  // A completed set-up names the instances its arguments were read from.
  datatype Event = SetUp(handle: nat, sources: seq<nat>) | TornDown(handle: nat)

  // The live instances after one more event; `None` when the event is out of place: a set-up from an
  // instance that is not live, or a teardown of anything but the instance set up last.
  function Advance(live: seq<nat>, e: Event): Option<seq<nat>> {
    match e
    case SetUp(h, sources) => if forall x :: x in sources ==> x in live then Some(live + [h]) else None
    case TornDown(h) => if live != [] && Last(live) == h then Some(Init(live)) else None
  }

  function Replay(trace: seq<Event>): Option<seq<nat>> {
    if trace == [] then Some([])
    else
      var before := Replay(Init(trace));
      if before.None? then None else Advance(before.value, Last(trace))
  }

  // Handles are given out in increasing order, below `bound`.
  ghost predicate Numbered(trace: seq<Event>, bound: nat) {
    && (forall i :: 0 <= i < |trace| && trace[i].SetUp? ==> trace[i].handle < bound)
    && (forall i, j :: 0 <= i < j < |trace| && trace[i].SetUp? && trace[j].SetUp? ==>
          trace[i].handle < trace[j].handle)
  }

  ghost predicate TornDownAt(trace: seq<Event>, h: nat, j: nat) {
    j < |trace| && trace[j] == TornDown(h)
  }

  ghost predicate NotTornDown(trace: seq<Event>, h: nat, from: nat, to: nat) {
    forall k: nat :: from <= k < to ==> !TornDownAt(trace, h, k)
  }

  lemma {:induction false} ReplayPrefix(trace: seq<Event>, k: nat)
    requires Replay(trace).Some? && k <= |trace|
    ensures Replay(trace[..k]).Some?
  {
    if k == |trace| {
      assert trace[..k] == trace;
    } else {
      ReplayPrefix(Init(trace), k);
      assert trace[..k] == Init(trace)[..k];
    }
  }

  lemma {:induction false} ReplayStep(trace: seq<Event>, k: nat)
    requires Replay(trace).Some? && k < |trace|
    ensures Replay(trace[..k]).Some? && Replay(trace[..k + 1]).Some?
    ensures Replay(trace[..k + 1]) == Advance(Replay(trace[..k]).value, trace[k])
  {
    ReplayPrefix(trace, k);
    ReplayPrefix(trace, k + 1);
    assert trace[..k + 1] == trace[..k] + [trace[k]];
  }

  // Until its own teardown an instance stays live, and so does everything below it.
  lemma {:induction false} StaysLive(trace: seq<Event>, from: nat, to: nat, live: seq<nat>, h: nat)
    requires Replay(trace).Some? && from <= to <= |trace|
    requires Replay(trace[..from]).Some? && live + [h] <= Replay(trace[..from]).value
    requires NotTornDown(trace, h, from, to)
    ensures Replay(trace[..to]).Some? && live + [h] <= Replay(trace[..to]).value
  {
    if from < to {
      StaysLive(trace, from, to - 1, live, h);
      ReplayStep(trace, to - 1);
      assert !TornDownAt(trace, h, to - 1);
      var before := Replay(trace[..to - 1]).value;
      assert |before| == |live| + 1 ==> before == live + [h];
    }
  }

  ghost predicate Increasing(s: seq<nat>) {
    forall i, j :: 0 <= i < j < |s| ==> s[i] < s[j]
  }

  // Instances are live in the order they were set up.
  lemma {:induction false} LiveIsIncreasing(trace: seq<Event>, bound: nat, k: nat)
    requires Replay(trace).Some? && Numbered(trace, bound) && k <= |trace|
    ensures Replay(trace[..k]).Some? && Increasing(Replay(trace[..k]).value)
    ensures forall i :: k <= i < |trace| && trace[i].SetUp? ==>
              forall h :: h in Replay(trace[..k]).value ==> h < trace[i].handle
  {
    if k > 0 {
      LiveIsIncreasing(trace, bound, k - 1);
      ReplayStep(trace, k - 1);
      var before, now := Replay(trace[..k - 1]).value, Replay(trace[..k]).value;
      assert forall h :: h in now ==> h in before || (trace[k - 1].SetUp? && h == trace[k - 1].handle);
      forall a, b | 0 <= a < b < |now| ensures now[a] < now[b] {
        assert now[a] == before[a];
        assert b < |before| ==> now[b] == before[b];
        assert before[a] in before;
      }
    }
  }

  // An instance set up at `i` is live, on top of what was live, until its teardown.
  lemma {:induction false} LiveAfterSetUp(trace: seq<Event>, bound: nat, i: nat, k: nat)
    requires Replay(trace).Some? && Numbered(trace, bound) && i < k <= |trace| && trace[i].SetUp?
    requires NotTornDown(trace, trace[i].handle, i + 1, k)
    ensures Replay(trace[..i]).Some? && Replay(trace[..k]).Some? && Increasing(Replay(trace[..k]).value)
    ensures Replay(trace[..i]).value + [trace[i].handle] <= Replay(trace[..k]).value
  {
    ReplayStep(trace, i);
    StaysLive(trace, i + 1, k, Replay(trace[..i]).value, trace[i].handle);
    LiveIsIncreasing(trace, bound, k);
  }

  // A teardown removes the instance set up last: whatever is below the top is not what goes.
  lemma {:induction false} OnlyTheTopGoes(trace: seq<Event>, bound: nat, k: nat, live: seq<nat>, h: nat)
    requires Replay(trace).Some? && k < |trace| && trace[k].TornDown?
    requires Replay(trace[..k]).Some? && Increasing(Replay(trace[..k]).value)
    requires live + [h] <= Replay(trace[..k]).value
    ensures trace[k].handle !in live
    ensures trace[k].handle == h ==> Replay(trace[..k]).value == live + [h] && Replay(trace[..k + 1]) == Some(live)
  {
    ReplayStep(trace, k);
    var now := Replay(trace[..k]).value;
    assert forall i :: 0 <= i < |live| ==> now[i] == live[i] && now[i] < now[|live|];
    assert now[|live|] == h && Last(now) == trace[k].handle;
    if |now| > |live| + 1 {
      assert now[|live|] < now[|now| - 1];
    } else {
      assert now == live + [h] && Init(now) == live;
    }
  }

  // An instance that is not live does not become live without a set-up.
  lemma {:induction false} NotLiveWithoutSetUp(trace: seq<Event>, from: nat, to: nat, h: nat)
    requires Replay(trace).Some? && from <= to <= |trace|
    requires Replay(trace[..from]).Some? && h !in Replay(trace[..from]).value
    requires forall k :: from <= k < to && trace[k].SetUp? ==> trace[k].handle != h
    ensures Replay(trace[..to]).Some? && h !in Replay(trace[..to]).value
    ensures NotTornDown(trace, h, from, to)
  {
    if from < to {
      NotLiveWithoutSetUp(trace, from, to - 1, h);
      ReplayStep(trace, to - 1);
    }
  }

  lemma {:induction false} FirstTeardown(trace: seq<Event>, h: nat, from: nat, to: nat) returns (j: nat)
    requires from <= to <= |trace| && !NotTornDown(trace, h, from, to)
    ensures from <= j < to && TornDownAt(trace, h, j) && NotTornDown(trace, h, from, j)
  {
    j := from;
    while j < to && !TornDownAt(trace, h, j)
      invariant from <= j <= to && NotTornDown(trace, h, from, j)
    {
      j := j + 1;
    }
  }

  // When nothing is live at the end, each set-up is torn down exactly once, and later.
  lemma {:induction false} TornDownExactlyOnce(trace: seq<Event>, bound: nat, i: nat) returns (j: nat)
    requires Replay(trace) == Some([]) && Numbered(trace, bound) && i < |trace| && trace[i].SetUp?
    ensures i < j && TornDownAt(trace, trace[i].handle, j)
    ensures forall k :: TornDownAt(trace, trace[i].handle, k) ==> k == j
  {
    var h := trace[i].handle;
    assert trace[..|trace|] == trace;
    if NotTornDown(trace, h, i + 1, |trace|) {
      LiveAfterSetUp(trace, bound, i, |trace|);
    }
    j := FirstTeardown(trace, h, i + 1, |trace|);
    LiveAfterSetUp(trace, bound, i, j);
    OnlyTheTopGoes(trace, bound, j, Replay(trace[..i]).value, h);
    LiveIsIncreasing(trace, bound, i);
    NotLiveWithoutSetUp(trace, j + 1, |trace|, h);
    assert trace[..0] == [];
    NotLiveWithoutSetUp(trace, 0, i, h);
  }

  // Teardown is the reverse of set-up: of two instances the later one is gone before the earlier one
  // is torn down, unless the earlier one was gone before the later one came.
  lemma {:induction false} TeardownReversesSetUp(trace: seq<Event>, bound: nat, i1: nat, i2: nat, j1: nat, j2: nat)
    requires Replay(trace) == Some([]) && Numbered(trace, bound)
    requires i1 < i2 < |trace| && trace[i1].SetUp? && trace[i2].SetUp?
    requires TornDownAt(trace, trace[i1].handle, j1) && TornDownAt(trace, trace[i2].handle, j2)
    ensures i1 < j1 < i2 || i2 < j2 < j1
  {
    var h1, h2 := trace[i1].handle, trace[i2].handle;
    var first := TornDownExactlyOnce(trace, bound, i1);
    var second := TornDownExactlyOnce(trace, bound, i2);
    if i2 <= j1 <= j2 {
      LiveAfterSetUp(trace, bound, i1, i2);
      assert (Replay(trace[..i1]).value + [h1])[|Replay(trace[..i1]).value|] == h1;
      LiveAfterSetUp(trace, bound, i2, j1);
      OnlyTheTopGoes(trace, bound, j1, Replay(trace[..i2]).value, h2);
    }
  }

  lemma {:induction false} GoneForGood(trace: seq<Event>, bound: nat, j: nat, k: nat)
    requires Replay(trace).Some? && Numbered(trace, bound) && j < k <= |trace| && trace[j].TornDown?
    ensures Replay(trace[..k]).Some? && trace[j].handle !in Replay(trace[..k]).value
  {
    LiveIsIncreasing(trace, bound, j);
    ReplayStep(trace, j);
    var live := Replay(trace[..j]).value;
    assert live == Init(live) + [trace[j].handle] && trace[j].handle in live;
    assert trace[j].handle !in Init(live);
    NotLiveWithoutSetUp(trace, j + 1, k, trace[j].handle);
  }

  // An instance outlasts every instance built from its value.
  lemma {:induction false} SourcesOutlast(trace: seq<Event>, bound: nat, i: nat, x: nat, j: nat, jx: nat)
    requires Replay(trace) == Some([]) && Numbered(trace, bound)
    requires i < |trace| && trace[i].SetUp? && x in trace[i].sources
    requires TornDownAt(trace, trace[i].handle, j) && TornDownAt(trace, x, jx)
    ensures i < j < jx
  {
    var once := TornDownExactlyOnce(trace, bound, i);
    ReplayStep(trace, i);
    if jx < i {
      GoneForGood(trace, bound, jx, i);
    }
    LiveIsIncreasing(trace, bound, i);
    if jx < j {
      LiveAfterSetUp(trace, bound, i, jx);
      OnlyTheTopGoes(trace, bound, jx, Replay(trace[..i]).value, trace[i].handle);
    }
  }
}
