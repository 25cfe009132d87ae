/** `fixtures.py`: fixture definitions, and the registry with its nearest-override rule. */
module Fixtures {
  import opened Prelude
  import NodeIds
  import StableSort

  datatype Scope = Function | Class | Module | Package | Session

  // `uid` stands for the identity of the definition object. A binding is a parameter name and the
  // name of the provider that satisfies it.
  datatype FixtureDef = FixtureDef(
    uid: nat,
    name: string,
    scope: Scope,
    autouse: bool,
    location: string,
    bindings: seq<(string, string)>,
    typeKey: Option<string>)
  {
    function Rank(): nat {
      match scope
      case Function => 0
      case Class => 1
      case Module => 2
      case Package => 3
      case Session => 4
    }
  }

  // What a lookup depends on besides the name: the test's module, and its class's MRO names.
  datatype Site = Site(moduleKey: string, classes: seq<string>)

  // ---- how specific a definition is at a site ----

  predicate IsAncestorDir(loc: string, testDir: string) {
    loc == "" || NodeIds.HasPrefix(loc, "..") || testDir == loc || NodeIds.HasPrefix(testDir, loc + "/")
  }

  function LocationDepth(loc: string): int {
    if loc == "" then 0
    else
      var depth := NodeIds.SlashCount(loc) + 1;
      if NodeIds.HasPrefix(loc, "..") then -depth else depth
  }

  const CLASS_SPECIFICITY := 20_000
  const MODULE_SPECIFICITY := 10_000

  // The rank `visible` yields a definition with; `None` when it is out of scope.
  function Specificity(d: FixtureDef, site: Site): Option<int> {
    if NodeIds.HasSeparator(d.location) then
      if NodeIds.Before(d.location) == site.moduleKey && NodeIds.After(d.location) in site.classes
      then Some(CLASS_SPECIFICITY) else None
    else if NodeIds.HasSuffix(d.location, ".py") then
      if d.location == site.moduleKey then Some(MODULE_SPECIFICITY) else None
    else if IsAncestorDir(d.location, NodeIds.DirName(site.moduleKey)) then Some(LocationDepth(d.location))
    else None
  }

  // ---- nearest override ----

  // `spec >= below` is looked past.
  predicate Candidate(d: FixtureDef, site: Site, below: Option<int>) {
    var spec := Specificity(d, site);
    spec.Some? && (below.Some? ==> spec.value < below.value)
  }

  predicate Overtakes(d: FixtureDef, site: Site, below: Option<int>, best: Option<FixtureDef>)
    requires best.Some? ==> Candidate(best.value, site, below)
  {
    Candidate(d, site, below)
    && (best.None? || Specificity(d, site).value > Specificity(best.value, site).value)
  }

  function Nearest(defs: seq<FixtureDef>, site: Site, below: Option<int>): (r: Option<FixtureDef>)
    ensures r.Some? ==> r.value in defs && Candidate(r.value, site, below)
  {
    if defs == [] then None
    else
      var best := Nearest(Init(defs), site, below);
      if Overtakes(Last(defs), site, below, best) then Some(Last(defs)) else best
  }

  predicate BelowNearest(d: FixtureDef, site: Site, below: Option<int>, best: FixtureDef, earlier: bool) {
    Candidate(d, site, below) && Specificity(best, site).Some? ==>
      var spec, top := Specificity(d, site).value, Specificity(best, site).value;
      if earlier then spec < top else spec <= top
  }

  // The first registered among the most specific candidates.
  ghost predicate IsNearestAt(defs: seq<FixtureDef>, site: Site, below: Option<int>, i: nat) {
    && i < |defs|
    && Candidate(defs[i], site, below)
    && forall k :: 0 <= k < |defs| ==> BelowNearest(defs[k], site, below, defs[i], k < i)
  }

  lemma {:induction false} NearestIsFirstMostSpecific(defs: seq<FixtureDef>, site: Site, below: Option<int>)
      returns (i: nat)
    ensures var r := Nearest(defs, site, below);
            if r.None? then forall k :: 0 <= k < |defs| ==> !Candidate(defs[k], site, below)
            else IsNearestAt(defs, site, below, i) && defs[i] == r.value
  {
    i := 0;
    if defs != [] {
      i := NearestIsFirstMostSpecific(Init(defs), site, below);
      var best, r := Nearest(Init(defs), site, below), Nearest(defs, site, below);
      assert forall k :: 0 <= k < |defs| - 1 ==> defs[k] == Init(defs)[k];
      if r.Some? && r == best && !Overtakes(Last(defs), site, below, best) {
        assert BelowNearest(Last(defs), site, below, defs[i], false);
      } else if r.Some? {
        LastIsNearest(defs, site, below, i);
        i := |defs| - 1;
      }
    }
  }

  lemma {:induction false} LastIsNearest(defs: seq<FixtureDef>, site: Site, below: Option<int>, i: nat)
    requires defs != []
    requires var best := Nearest(Init(defs), site, below);
             && Overtakes(Last(defs), site, below, best)
             && if best.None? then forall k :: 0 <= k < |defs| - 1 ==> !Candidate(Init(defs)[k], site, below)
                else IsNearestAt(Init(defs), site, below, i) && Init(defs)[i] == best.value
    ensures IsNearestAt(defs, site, below, |defs| - 1)
  {
    forall k | 0 <= k < |defs| ensures BelowNearest(defs[k], site, below, Last(defs), k < |defs| - 1) {
      if k < |defs| - 1 {
        assert defs[k] == Init(defs)[k];
        if Nearest(Init(defs), site, below).Some? {
          assert BelowNearest(Init(defs)[k], site, below, Init(defs)[i], k < i);
        }
      }
    }
  }

  // ---- the registry's contents, as the sequence of definitions added to it ----

  function Named(reg: seq<FixtureDef>, name: string): seq<FixtureDef> {
    if reg == [] then []
    else Named(Init(reg), name) + if Last(reg).name == name then [Last(reg)] else []
  }

  lemma {:induction false} NamedHolds(reg: seq<FixtureDef>, name: string, d: FixtureDef)
    ensures d in Named(reg, name) <==> d in reg && d.name == name
  {
    if reg != [] {
      NamedHolds(Init(reg), name, d);
      assert d in reg <==> d in Init(reg) || d == Last(reg) by {
        assert reg == Init(reg) + [Last(reg)];
      }
    }
  }

  // The names in order of first registration: the order of the `by_name` dictionary.
  function Names(reg: seq<FixtureDef>): seq<string> {
    if reg == [] then []
    else
      var earlier := Names(Init(reg));
      if Last(reg).name in earlier then earlier else earlier + [Last(reg).name]
  }

  function Providers(reg: seq<FixtureDef>, t: string): seq<string> {
    if reg == [] then []
    else Providers(Init(reg), t) + if Last(reg).typeKey == Some(t) then [Last(reg).name] else []
  }

  function Resolve(reg: seq<FixtureDef>, name: string, site: Site, below: Option<int>): Option<FixtureDef> {
    Nearest(Named(reg, name), site, below)
  }

  lemma {:induction false} ResolveFinds(reg: seq<FixtureDef>, name: string, site: Site, below: Option<int>)
    ensures var r := Resolve(reg, name, site, below);
            r.Some? ==> r.value in reg && r.value.name == name && Candidate(r.value, site, below)
  {
    var r := Resolve(reg, name, site, below);
    if r.Some? {
      NamedHolds(reg, name, r.value);
    }
  }

  function SpecificityOf(reg: seq<FixtureDef>, d: FixtureDef, site: Site): Option<int> {
    if d in Named(reg, d.name) then Specificity(d, site) else None
  }

  function WiderFirst(): (FixtureDef, FixtureDef) -> bool {
    (a: FixtureDef, b: FixtureDef) => a.Rank() >= b.Rank()
  }

  function VisibleAutouse(defs: seq<FixtureDef>, site: Site): seq<FixtureDef> {
    if defs == [] then []
    else VisibleAutouse(Init(defs), site)
         + if Last(defs).autouse && Specificity(Last(defs), site).Some? then [Last(defs)] else []
  }

  function AutouseByName(reg: seq<FixtureDef>, names: seq<string>, site: Site): seq<FixtureDef> {
    if names == [] then []
    else AutouseByName(reg, Init(names), site) + VisibleAutouse(Named(reg, Last(names)), site)
  }

  function Autouse(reg: seq<FixtureDef>, site: Site): seq<FixtureDef> {
    StableSort.Sorted(WiderFirst(), AutouseByName(reg, Names(reg), site))
  }

  // ---- what the autouse fixtures of a site are ----

  function AutouseAt(site: Site): FixtureDef -> bool {
    (d: FixtureDef) => d.autouse && Specificity(d, site).Some?
  }

  function AutouseUnder(names: seq<string>, site: Site): FixtureDef -> bool {
    (d: FixtureDef) => AutouseAt(site)(d) && d.name in names
  }

  function OfScope(scope: Scope): FixtureDef -> bool {
    (d: FixtureDef) => d.scope == scope
  }

  lemma {:induction false} VisibleIsFiltered(reg: seq<FixtureDef>, name: string, site: Site)
    ensures VisibleAutouse(Named(reg, name), site) == Filter(AutouseUnder([name], site), reg)
  {
    if reg != [] {
      VisibleIsFiltered(Init(reg), name, site);
      var before, d := Named(Init(reg), name), Last(reg);
      assert AutouseUnder([name], site)(d) <==> AutouseAt(site)(d) && d.name == name;
      if d.name == name {
        InitOfSnoc(before, d);
        assert Named(reg, name) == before + [d];
      } else {
        assert Named(reg, name) == before;
      }
    }
  }

  // What two filters that never both keep take together.
  lemma {:induction false} FilterEither<T>(keep: T -> bool, other: T -> bool, either: T -> bool, s: seq<T>)
    requires forall i :: 0 <= i < |s| ==> either(s[i]) == (keep(s[i]) || other(s[i])) && !(keep(s[i]) && other(s[i]))
    ensures multiset(Filter(either, s)) == multiset(Filter(keep, s)) + multiset(Filter(other, s))
  {
    if s != [] {
      FilterEither(keep, other, either, Init(s));
      assert either(s[|s| - 1]) == (keep(s[|s| - 1]) || other(s[|s| - 1]));
    }
  }

  lemma {:induction false} ByNameGathers(reg: seq<FixtureDef>, names: seq<string>, site: Site)
    requires NoRepeats(names)
    ensures multiset(AutouseByName(reg, names, site)) == multiset(Filter(AutouseUnder(names, site), reg))
  {
    if names == [] {
      NoneKept(AutouseUnder([], site), reg);
    } else {
      var (before, last) := (Init(names), Last(names));
      ByNameGathers(reg, before, site);
      VisibleIsFiltered(reg, last, site);
      assert names == before + [last] && last !in before;
      FilterEither(AutouseUnder(before, site), AutouseUnder([last], site), AutouseUnder(names, site), reg);
    }
  }

  lemma {:induction false} NoneKept<T>(keep: T -> bool, s: seq<T>)
    requires forall i :: 0 <= i < |s| ==> !keep(s[i])
    ensures Filter(keep, s) == []
  {
    if s != [] {
      NoneKept(keep, Init(s));
      assert !keep(s[|s| - 1]);
    }
  }

  lemma {:induction false} NamesAreDistinct(reg: seq<FixtureDef>)
    ensures NoRepeats(Names(reg))
    ensures forall i :: 0 <= i < |reg| ==> reg[i].name in Names(reg)
  {
    if reg != [] {
      NamesAreDistinct(Init(reg));
      assert forall i :: 0 <= i < |reg| - 1 ==> reg[i] == Init(reg)[i];
    }
  }

  // The dictionary's names stand in order of first registration.
  lemma {:induction false} NamesByFirst(reg: seq<FixtureDef>, i: nat, j: nat) returns (p: nat)
    requires i < j < |Names(reg)|
    ensures p < |reg| && reg[p].name == Names(reg)[i]
    ensures forall q :: 0 <= q <= p ==> reg[q].name != Names(reg)[j]
  {
    var earlier := Names(Init(reg));
    assert forall k :: 0 <= k < |reg| - 1 ==> reg[k] == Init(reg)[k];
    if j < |earlier| {
      p := NamesByFirst(Init(reg), i, j);
    } else {
      NamesAreDistinct(Init(reg));
      p := NameIsThere(Init(reg), i);
    }
  }

  lemma {:induction false} NameIsThere(reg: seq<FixtureDef>, i: nat) returns (p: nat)
    requires i < |Names(reg)|
    ensures p < |reg| && reg[p].name == Names(reg)[i]
  {
    if i < |Names(Init(reg))| {
      p := NameIsThere(Init(reg), i);
    } else {
      p := |reg| - 1;
    }
  }

  // What may stand before a fixture of this scope, widest first.
  predicate MayPrecede(wide: Scope, narrow: Scope) {
    match narrow
    case Session => wide.Session?
    case Package => wide.Session? || wide.Package?
    case Module => !wide.Class? && !wide.Function?
    case Class => !wide.Function?
    case Function => true
  }

  lemma {:induction false} WiderMayPrecede(a: FixtureDef, b: FixtureDef)
    requires WiderFirst()(a, b)
    ensures MayPrecede(a.scope, b.scope)
  {
  }

  lemma {:induction false} GatheredIsAll(reg: seq<FixtureDef>, site: Site)
    ensures multiset(AutouseByName(reg, Names(reg), site)) == multiset(Filter(AutouseAt(site), reg))
  {
    NamesAreDistinct(reg);
    ByNameGathers(reg, Names(reg), site);
    FilterSame(AutouseUnder(Names(reg), site), AutouseAt(site), reg);
  }

  // Every visible autouse fixture, as often as it was registered; widest scope first; and within a
  // scope by the first registration of the name, then in order of registration.
  lemma {:induction false} AutouseIsWidestFirst(reg: seq<FixtureDef>, site: Site, scope: Scope)
    ensures multiset(Autouse(reg, site)) == multiset(Filter(AutouseAt(site), reg))
    ensures var r := Autouse(reg, site); forall i, j :: 0 <= i < j < |r| ==> MayPrecede(r[i].scope, r[j].scope)
    ensures StableSort.InOrder(WiderFirst(), Autouse(reg, site))
    ensures Filter(OfScope(scope), Autouse(reg, site)) == Filter(OfScope(scope), AutouseByName(reg, Names(reg), site))
  {
    var gathered := AutouseByName(reg, Names(reg), site);
    GatheredIsAll(reg, site);
    StableSort.SortedPermutes(WiderFirst(), gathered);
    StableSort.SortedInOrder(WiderFirst(), gathered);
    StableSort.SortedIsStable(WiderFirst(), OfScope(scope), gathered);
    var r := Autouse(reg, site);
    forall i, j | 0 <= i < j < |r|
      ensures MayPrecede(r[i].scope, r[j].scope)
    {
      WiderMayPrecede(r[i], r[j]);
    }
  }

  ghost predicate IndexesByName(reg: seq<FixtureDef>, names: seq<string>, byName: map<string, seq<FixtureDef>>) {
    && names == Names(reg)
    && byName.Keys == (set n | n in names)
    && forall n :: n in byName ==> byName[n] == Named(reg, n)
  }

  ghost predicate IndexesByType(reg: seq<FixtureDef>, byType: map<string, seq<string>>) {
    forall t :: Providers(reg, t) == if t in byType then byType[t] else []
  }

  lemma {:induction false} IndexName(reg: seq<FixtureDef>, names: seq<string>, byName: map<string, seq<FixtureDef>>,
                                     d: FixtureDef)
    requires IndexesByName(reg, names, byName)
    ensures var before := if d.name in byName then byName[d.name] else [];
            IndexesByName(reg + [d], names + if d.name in byName then [] else [d.name],
                          byName[d.name := before + [d]])
  {
    var before := if d.name in byName then byName[d.name] else [];
    var after := byName[d.name := before + [d]];
    if d.name !in byName {
      AbsentName(reg, d.name);
    }
    forall n | n in after ensures after[n] == Named(reg + [d], n) {
    }
    var names' := names + if d.name in byName then [] else [d.name];
    assert after.Keys == byName.Keys + {d.name};
    assert (set n | n in names') == (set n | n in names) + {d.name};
  }

  lemma {:induction false} IndexType(reg: seq<FixtureDef>, byType: map<string, seq<string>>, d: FixtureDef)
    requires IndexesByType(reg, byType)
    ensures IndexesByType(reg + [d],
              if d.typeKey.None? then byType
              else byType[d.typeKey.value := Providers(reg, d.typeKey.value) + [d.name]])
  {
    forall t ensures Providers(reg + [d], t) == Providers(reg, t) + if d.typeKey == Some(t) then [d.name] else [] {
    }
  }

  lemma {:induction false} AbsentName(reg: seq<FixtureDef>, name: string)
    requires name !in Names(reg)
    ensures Named(reg, name) == []
  {
    if reg != [] {
      AbsentName(Init(reg), name);
    }
  }

  lemma {:induction false} NearestStep(defs: seq<FixtureDef>, i: nat, site: Site, below: Option<int>)
    requires i < |defs|
    ensures Nearest(defs[..i + 1], site, below) ==
            if Overtakes(defs[i], site, below, Nearest(defs[..i], site, below)) then Some(defs[i])
            else Nearest(defs[..i], site, below)
  {
    assert Init(defs[..i + 1]) == defs[..i];
  }

  class Registry {
    var names: seq<string>                       // `by_name`'s keys, in insertion order
    var byName: map<string, seq<FixtureDef>>
    var byType: map<string, seq<string>>
    ghost var added: seq<FixtureDef>

    ghost predicate Valid()
      reads this
    {
      IndexesByName(added, names, byName) && IndexesByType(added, byType)
    }

    constructor ()
      ensures Valid() && added == []
    {
      names, byName, byType, added := [], map[], map[], [];
    }

    method Add(d: FixtureDef)
      requires Valid()
      modifies this
      ensures Valid() && added == old(added) + [d]
    {
      IndexName(added, names, byName, d);
      IndexType(added, byType, d);
      AddName(d);
      if d.typeKey.Some? {
        var t := d.typeKey.value;
        byType := byType[t := (if t in byType then byType[t] else []) + [d.name]];
      }
      added := added + [d];
    }

    // `by_name.setdefault(name, []).append(d)`
    method AddName(d: FixtureDef)
      modifies this`names, this`byName
      ensures names == old(names) + if d.name in old(byName) then [] else [d.name]
      ensures byName == old(byName)[d.name :=
                (if d.name in old(byName) then old(byName)[d.name] else []) + [d]]
    {
      if d.name !in byName {
        names := names + [d.name];
        byName := byName[d.name := []];
      }
      byName := byName[d.name := byName[d.name] + [d]];
    }

    method ResolveName(name: string, site: Site, below: Option<int>) returns (r: Option<FixtureDef>)
      requires Valid()
      ensures r == Resolve(added, name, site, below)
    {
      r := None;
      if name !in byName {
        AbsentName(added, name);
      }
      var defs := if name in byName then byName[name] else [];
      for i := 0 to |defs|
        invariant r == Nearest(defs[..i], site, below)
      {
        NearestStep(defs, i, site, below);
        var spec := Specificity(defs[i], site);
        if spec.None? || (below.Some? && spec.value >= below.value) {
          continue;
        }
        if r.None? || spec.value > Specificity(r.value, site).value {
          r := Some(defs[i]);
        }
      }
      assert defs[..|defs|] == defs;
    }

    // The ceiling to look below when `d` requests the name it overrides.
    method SpecificityFor(d: FixtureDef, site: Site) returns (r: Option<int>)
      requires Valid()
      ensures r == SpecificityOf(added, d, site)
    {
      if d.name !in byName {
        AbsentName(added, d.name);
        return None;
      }
      var defs := byName[d.name];
      for i := 0 to |defs|
        invariant Specificity(d, site).Some? ==> d !in defs[..i]
      {
        assert defs[..i + 1] == defs[..i] + [defs[i]];
        var spec := Specificity(defs[i], site);
        if spec.Some? && defs[i] == d {
          return spec;
        }
      }
      assert defs[..|defs|] == defs;
      r := None;
    }

    method AutouseFor(site: Site) returns (r: seq<FixtureDef>)
      requires Valid()
      ensures r == Autouse(added, site)
      ensures multiset(r) == multiset(Filter(AutouseAt(site), added)) && StableSort.InOrder(WiderFirst(), r)
    {
      var out: seq<FixtureDef> := [];
      for i := 0 to |names|
        invariant out == AutouseByName(added, names[..i], site)
      {
        assert Init(names[..i + 1]) == names[..i];
        assert names[i] in names;
        var visible := AutouseAmong(byName[names[i]], site);
        out := out + visible;
      }
      assert names[..|names|] == names;
      r := StableSort.Sorted(WiderFirst(), out);
      AutouseIsWidestFirst(added, site, Session);
    }
  }

  method AutouseAmong(defs: seq<FixtureDef>, site: Site) returns (out: seq<FixtureDef>)
    ensures out == VisibleAutouse(defs, site)
  {
    out := [];
    for k := 0 to |defs|
      invariant out == VisibleAutouse(defs[..k], site)
    {
      assert Init(defs[..k + 1]) == defs[..k];
      var d := defs[k];
      if !d.autouse {
        continue;
      }
      var visible :=
        if NodeIds.HasSeparator(d.location) then
          NodeIds.Before(d.location) == site.moduleKey && NodeIds.After(d.location) in site.classes
        else if NodeIds.HasSuffix(d.location, ".py") then d.location == site.moduleKey
        else IsAncestorDir(d.location, NodeIds.DirName(site.moduleKey));
      if visible {
        out := out + [d];
      }
    }
    assert defs[..|defs|] == defs;
  }
}
