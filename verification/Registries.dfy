/** What a suite leaves in other modules' containers (isolation.py): reported per test, pulled back out
    when the worker leaves the module. One container may be reached under several labels. */
module Registries {
  import opened Prelude

  // A dict's entry by its key; a list's or set's element, named by the value it compares by, so that
  // two elements of a list may compare equal and still be different objects.
  datatype Entry = Entry(name: string, value: nat)

  datatype Kind = Dict | List | Set

  // Whether a value was defined by test code (`_is_test_owned`).
  type Owner = nat -> bool

  // A live container of some library, in its iteration order.
  class Table {
    const kind: Kind
    var contents: seq<Entry>

    constructor (kind: Kind, contents: seq<Entry>)
      ensures this.kind == kind && this.contents == contents
    {
      this.kind, this.contents := kind, contents;
    }
  }

  // `_registry_snapshot`: a container under one label and its shallow copy.
  datatype Watched = Watched(alias: string, table: Table, saved: seq<Entry>)

  predicate Knows(saved: seq<Entry>, name: string) {
    exists i :: 0 <= i < |saved| && saved[i].name == name
  }

  // `container == saved`
  predicate Equal(kind: Kind, a: seq<Entry>, b: seq<Entry>) {
    if kind.List? then a == b
    else (forall i :: 0 <= i < |a| ==> a[i] in b) && (forall i :: 0 <= i < |b| ==> b[i] in a)
  }

  // What the suite added: not in the copy, and test code's own.
  predicate IsAdded(owned: Owner, saved: seq<Entry>, e: Entry) {
    !Knows(saved, e.name) && owned(e.value)
  }

  predicate HasAdded(owned: Owner, saved: seq<Entry>, s: seq<Entry>) {
    exists i :: 0 <= i < |s| && IsAdded(owned, saved, s[i])
  }

  // Added with respect to one of several copies.
  predicate PulledBy(owned: Owner, copies: seq<seq<Entry>>, e: Entry) {
    exists k :: 0 <= k < |copies| && IsAdded(owned, copies[k], e)
  }

  // Everything else, in its place.
  function Cleaned(owned: Owner, copies: seq<seq<Entry>>, s: seq<Entry>): seq<Entry> {
    if s == [] then []
    else Cleaned(owned, copies, Init(s)) + if PulledBy(owned, copies, Last(s)) then [] else [Last(s)]
  }

  lemma {:induction false} CleanedHolds(owned: Owner, copies: seq<seq<Entry>>, s: seq<Entry>, e: Entry)
    ensures e in Cleaned(owned, copies, s) <==> e in s && !PulledBy(owned, copies, e)
  {
    if s != [] {
      CleanedHolds(owned, copies, Init(s), e);
      assert s == Init(s) + [Last(s)];
    }
  }

  lemma {:induction false} CleanedNothing(owned: Owner, copies: seq<seq<Entry>>, s: seq<Entry>)
    requires forall e :: e in s ==> !PulledBy(owned, copies, e)
    ensures Cleaned(owned, copies, s) == s
  {
    if s != [] {
      CleanedNothing(owned, copies, Init(s));
      assert s == Init(s) + [Last(s)];
    }
  }

  lemma {:induction false} PulledByBoth(owned: Owner, a: seq<seq<Entry>>, b: seq<seq<Entry>>, e: Entry)
    ensures PulledBy(owned, a + b, e) <==> PulledBy(owned, a, e) || PulledBy(owned, b, e)
  {
    if PulledBy(owned, a, e) {
      var k :| 0 <= k < |a| && IsAdded(owned, a[k], e);
      assert (a + b)[k] == a[k];
    }
    if PulledBy(owned, b, e) {
      var k :| 0 <= k < |b| && IsAdded(owned, b[k], e);
      assert (a + b)[|a| + k] == b[k];
    }
  }

  lemma {:induction false} CleanedTwice(owned: Owner, a: seq<seq<Entry>>, b: seq<seq<Entry>>, s: seq<Entry>)
    ensures Cleaned(owned, b, Cleaned(owned, a, s)) == Cleaned(owned, a + b, s)
  {
    if s != [] {
      CleanedTwice(owned, a, b, Init(s));
      PulledByBoth(owned, a, b, Last(s));
      var before := Cleaned(owned, a, Init(s));
      if PulledBy(owned, a, Last(s)) {
        assert Cleaned(owned, a, s) == before;
      } else {
        InitOfSnoc(before, Last(s));
      }
    }
  }

  lemma {:induction false} CleanedHasNone(owned: Owner, copies: seq<seq<Entry>>, s: seq<Entry>, k: nat)
    requires k < |copies|
    ensures !HasAdded(owned, copies[k], Cleaned(owned, copies, s))
  {
    var less := Cleaned(owned, copies, s);
    forall i | 0 <= i < |less|
      ensures !IsAdded(owned, copies[k], less[i])
    {
      CleanedHolds(owned, copies, s, less[i]);
    }
  }

  // Equal contents hold nothing new: the comparison only saves work.
  lemma {:induction false} EqualAddsNothing(kind: Kind, owned: Owner, saved: seq<Entry>, s: seq<Entry>)
    requires Equal(kind, s, saved)
    ensures !HasAdded(owned, saved, s)
  {
    forall i | 0 <= i < |s|
      ensures Knows(saved, s[i].name)
    {
      assert s[i] in s;
      assert s[i] in saved;
      var j :| 0 <= j < |saved| && saved[j] == s[i];
    }
  }

  lemma {:induction false} NoneAddedNoneLeaves(owned: Owner, saved: seq<Entry>, s: seq<Entry>)
    requires !HasAdded(owned, saved, s)
    ensures Cleaned(owned, [saved], s) == s
  {
    forall e | e in s
      ensures !PulledBy(owned, [saved], e)
    {
      var i :| 0 <= i < |s| && s[i] == e;
    }
    CleanedNothing(owned, [saved], s);
  }

  // ---- the verdict ----

  type Store = map<Table, seq<Entry>>

  ghost function Tables(before: seq<Watched>): set<Table> {
    set i | 0 <= i < |before| :: before[i].table
  }

  ghost function Contents(before: seq<Watched>): (store: Store)
    reads Tables(before)
    ensures store.Keys == Tables(before)
  {
    map t | t in Tables(before) :: t.contents
  }

  ghost predicate Covers(store: Store, before: seq<Watched>) {
    forall i :: 0 <= i < |before| ==> before[i].table in store
  }

  // The labels whose container holds something the suite added.
  ghost function Grown(owned: Owner, before: seq<Watched>, store: Store): seq<string>
    requires Covers(store, before)
  {
    if before == [] then []
    else
      var w := Last(before);
      Grown(owned, Init(before), store) + if HasAdded(owned, w.saved, store[w.table]) then [w.alias] else []
  }

  // `_registry_delta`, as the labels it names.
  method Delta(owned: Owner, before: seq<Watched>) returns (changed: seq<string>)
    ensures changed == Grown(owned, before, Contents(before))
  {
    changed := [];
    ghost var store := Contents(before);
    for i := 0 to |before|
      invariant changed == Grown(owned, before[..i], store)
    {
      var w := before[i];
      assert Init(before[..i + 1]) == before[..i];
      if Equal(w.table.kind, w.table.contents, w.saved) {
        EqualAddsNothing(w.table.kind, owned, w.saved, w.table.contents);
      } else if HasAdded(owned, w.saved, w.table.contents) {
        changed := changed + [w.alias];
      }
    }
    assert before[..|before|] == before;
  }

  // ---- one container ----

  // The keys of a dict, and the elements of a set, are distinct; a list may hold anything.
  predicate WellFormed(kind: Kind, s: seq<Entry>) {
    kind.List? || forall i, j :: 0 <= i < j < |s| ==> s[i].name != s[j].name
  }

  lemma {:induction false} CleanedIsShorter(owned: Owner, saved: seq<Entry>, s: seq<Entry>)
    ensures |Cleaned(owned, [saved], s)| <= |s|
    ensures |Cleaned(owned, [saved], s)| == |s| <==> !HasAdded(owned, saved, s)
  {
    if s != [] {
      CleanedIsShorter(owned, saved, Init(s));
      assert [saved][0] == saved;
      assert PulledBy(owned, [saved], Last(s)) <==> IsAdded(owned, saved, s[|s| - 1]);
      assert forall i :: 0 <= i < |s| - 1 ==> s[i] == Init(s)[i];
    }
  }

  // `container[:] = keep`: a list keeps its order and what the suite did not add.
  method RestoreList(t: Table, saved: seq<Entry>, owned: Owner) returns (removed: bool)
    modifies t
    ensures t.contents == Cleaned(owned, [saved], old(t.contents))
    ensures removed <==> HasAdded(owned, saved, old(t.contents))
  {
    var keep := KeepUnadded(t.contents, saved, owned);
    CleanedIsShorter(owned, saved, t.contents);
    removed := |keep| != |t.contents|;
    if removed {
      t.contents := keep;
    } else {
      NoneAddedNoneLeaves(owned, saved, t.contents);
    }
  }

  method KeepUnadded(s: seq<Entry>, saved: seq<Entry>, owned: Owner) returns (keep: seq<Entry>)
    ensures keep == Cleaned(owned, [saved], s)
  {
    keep := [];
    for i := 0 to |s|
      invariant keep == Cleaned(owned, [saved], s[..i])
    {
      assert Init(s[..i + 1]) == s[..i];
      assert [saved][0] == saved;
      assert PulledBy(owned, [saved], s[i]) <==> IsAdded(owned, saved, s[i]);
      if Knows(saved, s[i].name) || !owned(s[i].value) {
        keep := keep + [s[i]];
      }
    }
    assert s[..|s|] == s;
  }

  // The names of what the suite added.
  function AddedNames(owned: Owner, saved: seq<Entry>, s: seq<Entry>): set<string> {
    set i | 0 <= i < |s| && IsAdded(owned, saved, s[i]) :: s[i].name
  }

  function WithoutNames(names: set<string>, s: seq<Entry>): seq<Entry> {
    if s == [] then []
    else WithoutNames(names, Init(s)) + if Last(s).name in names then [] else [Last(s)]
  }

  lemma {:induction false} WithoutBothNames(a: set<string>, b: set<string>, s: seq<Entry>)
    ensures WithoutNames(b, WithoutNames(a, s)) == WithoutNames(a + b, s)
  {
    if s != [] {
      WithoutBothNames(a, b, Init(s));
      var before := WithoutNames(a, Init(s));
      if Last(s).name !in a {
        InitOfSnoc(before, Last(s));
      } else {
        assert WithoutNames(a, s) == before;
      }
    }
  }

  lemma {:induction false} WithoutNoNames(names: set<string>, s: seq<Entry>)
    requires names == {}
    ensures WithoutNames(names, s) == s
  {
    if s != [] {
      WithoutNoNames(names, Init(s));
      assert s == Init(s) + [Last(s)];
    }
  }

  // Where names are distinct, they tell what was added.
  lemma {:induction false} NamesTell(owned: Owner, saved: seq<Entry>, names: set<string>, s: seq<Entry>)
    requires forall i :: 0 <= i < |s| ==> (s[i].name in names <==> IsAdded(owned, saved, s[i]))
    ensures WithoutNames(names, s) == Cleaned(owned, [saved], s)
  {
    if s != [] {
      assert forall i :: 0 <= i < |s| - 1 ==> s[i] == Init(s)[i];
      NamesTell(owned, saved, names, Init(s));
      assert [saved][0] == saved;
      assert PulledBy(owned, [saved], Last(s)) <==> IsAdded(owned, saved, s[|s| - 1]);
    }
  }

  // `del container[k]`, `container.discard(v)`: one name at a time.
  method RestoreByName(t: Table, saved: seq<Entry>, owned: Owner) returns (removed: bool)
    requires !t.kind.List? && WellFormed(t.kind, t.contents)
    modifies t
    ensures t.contents == Cleaned(owned, [saved], old(t.contents))
    ensures removed <==> HasAdded(owned, saved, old(t.contents))
  {
    ghost var s := t.contents;
    var left := AddedNames(owned, saved, t.contents);
    ghost var added := left;
    removed := false;
    WithoutNoNames(added - left, s);
    while left != {}
      invariant left <= added && t.contents == WithoutNames(added - left, s)
      invariant removed <==> left != added
      decreases left
    {
      var name :| name in left;
      WithoutBothNames(added - left, {name}, s);
      assert added - left + {name} == added - (left - {name});
      t.contents := WithoutNames({name}, t.contents);
      left, removed := left - {name}, true;
    }
    assert added - left == added;
    NamesTell(owned, saved, added, s);
    NamedIffAdded(owned, saved, s);
  }

  lemma {:induction false} NamedIffAdded(owned: Owner, saved: seq<Entry>, s: seq<Entry>)
    ensures AddedNames(owned, saved, s) != {} <==> HasAdded(owned, saved, s)
  {
    if HasAdded(owned, saved, s) {
      var i :| 0 <= i < |s| && IsAdded(owned, saved, s[i]);
      assert s[i].name in AddedNames(owned, saved, s);
    }
  }

  // One label's container, by its kind; equal contents are left alone.
  method RestoreOne(w: Watched, owned: Owner) returns (removed: bool)
    requires WellFormed(w.table.kind, w.table.contents)
    modifies w.table
    ensures w.table.contents == Cleaned(owned, [w.saved], old(w.table.contents))
    ensures removed <==> HasAdded(owned, w.saved, old(w.table.contents))
  {
    if Equal(w.table.kind, w.table.contents, w.saved) {
      EqualAddsNothing(w.table.kind, owned, w.saved, w.table.contents);
      NoneAddedNoneLeaves(owned, w.saved, w.table.contents);
      return false;
    }
    if w.table.kind.List? {
      removed := RestoreList(w.table, w.saved, owned);
    } else {
      removed := RestoreByName(w.table, w.saved, owned);
    }
  }

  // ---- all the labels ----

  // The copies the labels of one container hold.
  ghost function CopiesOf(before: seq<Watched>, t: Table): seq<seq<Entry>> {
    if before == [] then []
    else CopiesOf(Init(before), t) + if Last(before).table == t then [Last(before).saved] else []
  }

  lemma {:induction false} CopyOfEach(before: seq<Watched>, i: nat) returns (k: nat)
    requires i < |before|
    ensures var copies := CopiesOf(before, before[i].table); k < |copies| && copies[k] == before[i].saved
  {
    if i < |before| - 1 {
      k := CopyOfEach(Init(before), i);
    } else {
      k := |CopiesOf(Init(before), before[i].table)|;
    }
  }

  ghost predicate AllWellFormed(store: Store) {
    forall t :: t in store ==> WellFormed(t.kind, store[t])
  }

  // Each container, after these labels, lacks exactly what one of them finds added; the rest is in place.
  ghost predicate PulledTo(owned: Owner, before: seq<Watched>, store: Store, now: Store) {
    && store.Keys == now.Keys
    && forall t :: t in store ==> now[t] == Cleaned(owned, CopiesOf(before, t), store[t])
  }

  ghost predicate NothingGrown(owned: Owner, before: seq<Watched>, store: Store)
    requires Covers(store, before)
  {
    forall i :: 0 <= i < |before| ==> !HasAdded(owned, before[i].saved, store[before[i].table])
  }

  lemma {:induction false} StartPulled(owned: Owner, store: Store)
    ensures PulledTo(owned, [], store, store)
  {
    forall t | t in store
      ensures Cleaned(owned, [], store[t]) == store[t]
    {
      CleanedNothing(owned, [], store[t]);
    }
  }

  lemma {:induction false} CleanedStaysWellFormed(owned: Owner, copies: seq<seq<Entry>>, kind: Kind, s: seq<Entry>)
    requires WellFormed(kind, s)
    ensures WellFormed(kind, Cleaned(owned, copies, s))
  {
    if s != [] && !kind.List? {
      CleanedStaysWellFormed(owned, copies, kind, Init(s));
      var less := Cleaned(owned, copies, Init(s));
      forall i | 0 <= i < |less|
        ensures less[i].name != Last(s).name
      {
        CleanedHolds(owned, copies, Init(s), less[i]);
        var j :| 0 <= j < |Init(s)| && Init(s)[j] == less[i];
        assert s[j] == less[i];
      }
    }
  }

  lemma {:induction false} PulledStep(owned: Owner, before: seq<Watched>, w: Watched, store: Store, now: Store)
    requires PulledTo(owned, before, store, now) && w.table in store
    ensures PulledTo(owned, before + [w], store, Restored(owned, w, now))
  {
    forall t | t in store
      ensures Restored(owned, w, now)[t] == Cleaned(owned, CopiesOf(before + [w], t), store[t])
    {
      InitOfSnoc(before, w);
      var copies := CopiesOf(before, t);
      if t == w.table {
        CleanedTwice(owned, copies, [w.saved], store[t]);
      } else {
        assert copies + [] == copies;
      }
    }
  }

  lemma {:induction false} NothingGrownSnoc(owned: Owner, before: seq<Watched>, i: nat, store: Store)
    requires i < |before| && Covers(store, before)
    ensures NothingGrown(owned, before[..i + 1], store) <==>
            NothingGrown(owned, before[..i], store) && !HasAdded(owned, before[i].saved, store[before[i].table])
  {
    assert forall k :: 0 <= k < i ==> before[..i + 1][k] == before[..i][k];
    assert before[..i + 1][i] == before[i];
  }

  lemma {:induction false} NothingLeft(owned: Owner, before: seq<Watched>, store: Store, now: Store)
    requires PulledTo(owned, before, store, now) && Covers(store, before)
    ensures Covers(now, before) && NothingGrown(owned, before, now)
  {
    forall i | 0 <= i < |before|
      ensures !HasAdded(owned, before[i].saved, now[before[i].table])
    {
      var k := CopyOfEach(before, i);
      CleanedHasNone(owned, CopiesOf(before, before[i].table), store[before[i].table], k);
    }
  }

  lemma {:induction false} NothingPulled(owned: Owner, before: seq<Watched>, store: Store, t: Table)
    requires Covers(store, before) && NothingGrown(owned, before, store) && t in store
    ensures Cleaned(owned, CopiesOf(before, t), store[t]) == store[t]
  {
    if before == [] {
      CleanedNothing(owned, [], store[t]);
    } else {
      assert forall i :: 0 <= i < |before| - 1 ==> Init(before)[i] == before[i];
      NothingPulled(owned, Init(before), store, t);
      var w := before[|before| - 1];
      var copies := CopiesOf(Init(before), t);
      if w.table == t {
        CleanedTwice(owned, copies, [w.saved], store[t]);
        NoneAddedNoneLeaves(owned, w.saved, store[t]);
      } else {
        assert CopiesOf(before, t) == copies;
      }
    }
  }

  lemma {:induction false} NothingMoved(owned: Owner, before: seq<Watched>, store: Store, now: Store)
    requires PulledTo(owned, before, store, now) && Covers(store, before) && NothingGrown(owned, before, store)
    ensures now == store
  {
    forall t | t in store
      ensures now[t] == store[t]
    {
      NothingPulled(owned, before, store, t);
    }
  }

  // What was pulled out is what the suite added and nothing else; the verdict would find nothing more;
  // and something was changed exactly when the verdict would have found something.
  ghost predicate CleanedUp(owned: Owner, before: seq<Watched>, store: Store, now: Store, changed: seq<string>) {
    && Covers(store, before)
    && Covers(now, before)
    && PulledTo(owned, before, store, now)
    && Grown(owned, before, now) == []
    && (changed == [] <==> Grown(owned, before, store) == [])
    && (changed == [] ==> now == store)
  }

  lemma {:induction false} GrownNowhere(owned: Owner, before: seq<Watched>, store: Store)
    requires Covers(store, before)
    ensures Grown(owned, before, store) == [] <==> NothingGrown(owned, before, store)
  {
    if before != [] {
      GrownNowhere(owned, Init(before), store);
      assert before == Init(before) + [Last(before)];
    }
  }

  // The containers with one label's additions gone.
  ghost function Restored(owned: Owner, w: Watched, now: Store): Store
    requires w.table in now
  {
    now[w.table := Cleaned(owned, [w.saved], now[w.table])]
  }

  // After the first `i` labels.
  ghost predicate CleanedTo(
      owned: Owner, before: seq<Watched>, i: nat, store: Store, now: Store, changed: seq<string>) {
    && i <= |before|
    && Covers(store, before)
    && AllWellFormed(now)
    && PulledTo(owned, before[..i], store, now)
    && (changed == [] <==> NothingGrown(owned, before[..i], store))
  }

  lemma {:induction false} RestoredStep(owned: Owner, before: seq<Watched>, i: nat, store: Store, now: Store)
    requires i < |before| && Covers(store, before) && AllWellFormed(now) && PulledTo(owned, before[..i], store, now)
    ensures PulledTo(owned, before[..i + 1], store, Restored(owned, before[i], now))
    ensures AllWellFormed(Restored(owned, before[i], now))
    ensures NothingGrown(owned, before[..i], store) ==> now[before[i].table] == store[before[i].table]
  {
    var w := before[i];
    CleanedStaysWellFormed(owned, [w.saved], w.table.kind, now[w.table]);
    assert before[..i + 1] == before[..i] + [w];
    PulledStep(owned, before[..i], w, store, now);
    if NothingGrown(owned, before[..i], store) {
      NothingMoved(owned, before[..i], store, now);
    }
  }

  lemma {:induction false} CleanStep(
      owned: Owner, before: seq<Watched>, i: nat, store: Store, now: Store, changed: seq<string>)
    requires i < |before| && CleanedTo(owned, before, i, store, now, changed)
    ensures var w := before[i];
            && w.table in now
            && var removed := HasAdded(owned, w.saved, now[w.table]);
            CleanedTo(owned, before, i + 1, store, Restored(owned, w, now),
                      if removed then changed + [w.alias] else changed)
  {
    NothingGrownSnoc(owned, before, i, store);
    RestoredStep(owned, before, i, store, now);
  }

  lemma {:induction false} CleanStart(owned: Owner, before: seq<Watched>, store: Store)
    requires Covers(store, before) && AllWellFormed(store)
    ensures CleanedTo(owned, before, 0, store, store, [])
  {
    StartPulled(owned, store);
    assert before[..0] == [];
  }

  lemma {:induction false} AllRestored(
      owned: Owner, before: seq<Watched>, store: Store, now: Store, changed: seq<string>)
    requires CleanedTo(owned, before, |before|, store, now, changed)
    ensures CleanedUp(owned, before, store, now, changed)
  {
    assert before[..|before|] == before;
    NothingLeft(owned, before, store, now);
    GrownNowhere(owned, before, now);
    GrownNowhere(owned, before, store);
    if NothingGrown(owned, before, store) {
      NothingMoved(owned, before, store, now);
    }
  }

  // The same, among the containers of a snapshot.
  method RestoreAt(before: seq<Watched>, i: nat, owned: Owner) returns (removed: bool)
    requires i < |before| && WellFormed(before[i].table.kind, before[i].table.contents)
    modifies before[i].table
    ensures before[i].table in old(Contents(before))
    ensures Contents(before) == Restored(owned, before[i], old(Contents(before)))
    ensures removed <==> HasAdded(owned, before[i].saved, old(Contents(before))[before[i].table])
  {
    ghost var now := Contents(before);
    removed := RestoreOne(before[i], owned);
    assert Contents(before) == Restored(owned, before[i], now);
  }

  // Only the suite's own additions leave, in place, whichever labels reach a container; afterwards the
  // verdict finds nothing, and a suite the verdict clears has nothing removed.
  method RestoreRegistries(owned: Owner, before: seq<Watched>) returns (changed: seq<string>)
    requires AllWellFormed(Contents(before))
    modifies Tables(before)
    ensures CleanedUp(owned, before, old(Contents(before)), Contents(before), changed)
  {
    ghost var store := Contents(before);
    changed := [];
    CleanStart(owned, before, store);
    for i := 0 to |before|
      invariant CleanedTo(owned, before, i, store, Contents(before), changed)
    {
      CleanStep(owned, before, i, store, Contents(before), changed);
      assert before[i].table in Tables(before);
      var removed := RestoreAt(before, i, owned);
      if removed {
        changed := changed + [before[i].alias];
      }
    }
    AllRestored(owned, before, store, Contents(before), changed);
  }
}
