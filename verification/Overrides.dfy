/** Which definition of a name a test gets (fixtures.py), in terms of where the definitions lie: in the
    conftests of the directories around the test, or in classes. */
module Overrides {
  import opened Prelude
  import opened NodeIds
  import opened Fixtures

  // ---- the directories conftests lie in ----

  type Levels = n: nat | n > 0 witness 1

  // Above the run root, or at or below it: `Down("")` is the root itself.
  datatype Directory = Up(levels: Levels) | Down(path: string)

  // `..`, `../..`, ...
  function Dots(levels: Levels): string {
    if levels == 1 then ".." else Dots(levels - 1) + "/.."
  }

  // The location a fixture of the directory's conftest is registered under.
  function Location(d: Directory): string {
    match d
    case Up(levels) => Dots(levels)
    case Down(path) => path
  }

  predicate Encloses(a: Directory, b: Directory) {
    match a
    case Up(levels) => b.Up? ==> levels >= b.levels
    case Down(path) => b.Down? && (path == "" || b.path == path || HasPrefix(b.path, path + "/"))
  }

  // A directory below the run root whose name starts with two dots.
  predicate LooksAbove(d: Directory) {
    d.Down? && HasPrefix(d.path, "..")
  }

  lemma {:induction false} DotsDepth(levels: Levels)
    ensures HasPrefix(Dots(levels), "..") && SlashCount(Dots(levels)) == levels - 1
  {
    if levels == 1 {
      TwoDots("");
    } else {
      DotsDepth(levels - 1);
      TwoDots(Dots(levels - 1) + "/");
      SlashCountSnoc(Dots(levels - 1), '/');
      assert Dots(levels) == Dots(levels - 1) + "/" + "..";
    }
  }

  lemma {:induction false} TwoDots(s: string)
    ensures SlashCount(s + "..") == SlashCount(s)
  {
    SlashCountSnoc(s, '.');
    SlashCountSnoc(s + ".", '.');
    assert s + ".." == s + "." + ".";
  }

  lemma {:induction false} SlashCountSnoc(s: string, c: char)
    ensures SlashCount(s + [c]) == SlashCount(s) + if c == '/' then 1 else 0
  {
    assert (s + [c])[..|s|] == s;
  }

  predicate EndsInPy(p: string): (r: bool)
    ensures r <==> HasSuffix(p, ".py")
  {
    assert |p| >= 3 ==> p[|p| - 3..] == [p[|p| - 3], p[|p| - 2], p[|p| - 1]];
    |p| >= 3 && p[|p| - 3] == '.' && p[|p| - 2] == 'p' && p[|p| - 1] == 'y'
  }

  // Neither a class nor a module fixture's location, for all the branches of `visible` can tell.
  predicate IsPlain(d: Directory) {
    !HasSeparator(Location(d)) && !EndsInPy(Location(d))
  }

  function Here(site: Site): Directory {
    Down(DirName(site.moduleKey))
  }

  lemma {:induction false} SlashCountPrefix(s: string, t: string)
    requires HasPrefix(t, s)
    ensures SlashCount(s) <= SlashCount(t)
    ensures |s| < |t| && t[|t| - 1] == '/' ==> SlashCount(s) < SlashCount(t)
  {
    if |s| < |t| {
      SlashCountPrefix(s, t[..|t| - 1]);
    } else {
      assert s == t;
    }
  }

  lemma {:induction false} DotsAreDots(levels: Levels)
    ensures Last(Dots(levels)) == '.' && forall k :: 0 <= k < |Dots(levels)| ==> Dots(levels)[k] in "./"
  {
    if levels > 1 {
      DotsAreDots(levels - 1);
    }
  }

  lemma {:induction false} AbovesArePlain(levels: Levels)
    ensures IsPlain(Up(levels)) && HasPrefix(Dots(levels), "..")
  {
    DotsAreDots(levels);
    DotsDepth(levels);
  }

  lemma {:induction false} HeadIsShorter(p: string)
    ensures |Head(p)| <= |p| && (p != "" && Last(p) != '/' ==> |Head(p)| < |p|)
  {
    if p != "" && Last(p) != '/' {
      HeadIsShorter(Init(p));
    }
  }

  lemma {:induction false} SlashesAreShorter(p: string)
    ensures |WithoutTrailingSlashes(p)| <= |p|
  {
    if p != "" && Last(p) == '/' {
      SlashesAreShorter(Init(p));
    }
  }

  lemma {:induction false} DirNameIsShorter(p: string)
    ensures |DirName(p)| <= |p| && (HasSuffix(p, ".py") ==> |DirName(p)| < |p|)
  {
    HeadIsShorter(p);
    SlashesAreShorter(Head(p));
    assert HasSuffix(p, ".py") ==> Last(p) == 'y';
  }

  // ---- where a conftest's fixtures are visible ----

  // Not around the test and yet visible to it: the directory looks above the run root, or its path
  // reads as the test's own module or class.
  predicate SeenFromOutside(d: Directory, site: Site) {
    var location := Location(d);
    if HasSeparator(location) then Before(location) == site.moduleKey && After(location) in site.classes
    else if EndsInPy(location) then location == site.moduleKey
    else LooksAbove(d)
  }

  // A conftest's fixtures are visible to the tests its directory is around, exactly when that path reads
  // as a directory's; and to others, exactly when it is misread.
  lemma {:induction false} ConftestIsVisibleIff(def: FixtureDef, d: Directory, site: Site)
    requires def.location == Location(d)
    ensures Specificity(def, site).Some? <==> if Encloses(d, Here(site)) then IsPlain(d) else SeenFromOutside(d, site)
    ensures Specificity(def, site).Some? && IsPlain(d) ==> Specificity(def, site) == Some(LocationDepth(Location(d)))
  {
    DirNameIsShorter(site.moduleKey);
    if d.Up? {
      AbovesArePlain(d.levels);
    }
  }

  // ---- which of two conftests wins ----

  // Of two directories around a test one encloses the other, and the inner one is the more specific,
  // the run root between those above and those below it; unless the inner one looks above the root
  // and the outer one is not further above than the inner one's path is long.
  lemma {:induction false} NearerConftestIsMoreSpecific(a: Directory, b: Directory, testDir: string)
    requires a != b && Encloses(a, Down(testDir)) && Encloses(b, Down(testDir))
    ensures Encloses(a, b) != Encloses(b, a)
    ensures Encloses(a, b) ==>
              (LocationDepth(Location(a)) < LocationDepth(Location(b)) <==>
               (LooksAbove(b) ==> a.Up? && a.levels > SlashCount(b.path) + 1))
    ensures Encloses(a, b) ==>
              (LocationDepth(Location(a)) == LocationDepth(Location(b)) <==>
               LooksAbove(b) && a.Up? && a.levels == SlashCount(b.path) + 1)
  {
    if a.Up? {
      DotsDepth(a.levels);
    }
    if b.Up? {
      DotsDepth(b.levels);
    }
    if a.Down? && b.Down? {
      if |a.path| <= |b.path| {
        OuterIsShallower(a.path, b.path, testDir);
      } else {
        OuterIsShallower(b.path, a.path, testDir);
      }
    }
  }

  lemma {:induction false} PrefixesNest(p: string, q: string, s: string)
    requires HasPrefix(s, p) && HasPrefix(s, q) && |p| <= |q|
    ensures HasPrefix(q, p)
  {
  }

  lemma {:induction false} OuterIsShallower(p: string, q: string, testDir: string)
    requires p != q && |p| <= |q| && Encloses(Down(p), Down(testDir)) && Encloses(Down(q), Down(testDir))
    ensures Encloses(Down(p), Down(q)) && !Encloses(Down(q), Down(p))
    ensures p != "" ==> SlashCount(p) < SlashCount(q) && (HasPrefix(p, "..") <==> HasPrefix(q, ".."))
  {
    if p != "" {
      PrefixesNest(p + "/", q + "/", testDir + "/");
      assert q[..|p| + 1] == p + "/";
      SlashCountPrefix(p, p + "/");
      SlashCountPrefix(p + "/", q);
    }
  }

  // Whether the inner of two directories around a test gives the name its definition: it has one the
  // registry sees there at all, and is not held to be further out than the outer one. Where both are held
  // to be equally far above the root, the first registered is taken.
  predicate InnerWins(outer: Directory, inner: Directory, innerFirst: bool) {
    IsPlain(inner) &&
    (IsPlain(outer) && LooksAbove(inner) ==>
       var n := SlashCount(inner.path) + 1;
       outer.Up? && (outer.levels > n || (innerFirst && outer.levels == n)))
  }

  // A nearer conftest overrides a farther one exactly then, for every pair of conftests around a test, in
  // either order of registration.
  lemma {:induction false} NearerConftestOverridesIff(
    outer: FixtureDef, a: Directory, inner: FixtureDef, b: Directory, site: Site)
    requires outer.name == inner.name && outer.location == Location(a) && inner.location == Location(b)
    requires a != b && Encloses(a, b) && Encloses(a, Here(site)) && Encloses(b, Here(site))
    ensures Resolve([outer, inner], inner.name, site, None) ==
            if InnerWins(a, b, false) then Some(inner) else if IsPlain(a) then Some(outer) else None
    ensures Resolve([inner, outer], inner.name, site, None) ==
            if InnerWins(a, b, true) then Some(inner) else if IsPlain(a) then Some(outer) else None
  {
    ConftestIsVisibleIff(outer, a, site);
    ConftestIsVisibleIff(inner, b, site);
    NearerConftestIsMoreSpecific(a, b, DirName(site.moduleKey));
    if a.Up? {
      DotsDepth(a.levels);
    }
    ResolveOfTwo(outer, inner, site);
    ResolveOfTwo(inner, outer, site);
  }

  lemma {:induction false} ResolveOfTwo(first: FixtureDef, second: FixtureDef, site: Site)
    requires first.name == second.name
    ensures var (x, y) := (Specificity(first, site), Specificity(second, site));
            Resolve([first, second], first.name, site, None) ==
              if x.Some? && (y.None? || y.value <= x.value) then Some(first) else if y.Some? then Some(second) else None
  {
    var reg, name := [first, second], first.name;
    assert Init(reg) == [first] && Init([first]) == [] && Last([first]) == first;
    assert Named([], name) == [] && Named([first], name) == [first];
    assert Named(reg, name) == [first] + [second];
    assert Nearest([first], site, None) == if Specificity(first, site).Some? then Some(first) else None;
  }

  // ---- which of any number of conftests wins ----

  predicate Beats(d: Directory, e: Directory, dFirst: bool) {
    if d == e then dFirst
    else if Encloses(e, d) then InnerWins(e, d, dFirst)
    else !InnerWins(d, e, !dFirst)
  }

  lemma {:induction false} BeatsIffAhead(
      def: FixtureDef, d: Directory, other: FixtureDef, e: Directory, site: Site, dFirst: bool)
    requires def.location == Location(d) && other.location == Location(e)
    requires Encloses(d, Here(site)) && Encloses(e, Here(site)) && IsPlain(d) && IsPlain(e)
    ensures Specificity(def, site).Some? && Specificity(other, site).Some?
    ensures var (x, y) := (Specificity(def, site).value, Specificity(other, site).value);
            Beats(d, e, dFirst) <==> if dFirst then x >= y else x > y
  {
    ConftestIsVisibleIff(def, d, site);
    ConftestIsVisibleIff(other, e, site);
    if d != e {
      NearerConftestIsMoreSpecific(d, e, DirName(site.moduleKey));
      NearerConftestIsMoreSpecific(e, d, DirName(site.moduleKey));
    }
  }

  ghost predicate LieAround(defs: seq<FixtureDef>, dirs: seq<Directory>, site: Site) {
    |dirs| == |defs| &&
    forall k :: 0 <= k < |defs| ==> defs[k].location == Location(dirs[k]) && Encloses(dirs[k], Here(site))
  }

  ghost predicate BeatsTheRest(dirs: seq<Directory>, i: nat)
    requires i < |dirs|
  {
    IsPlain(dirs[i]) && forall k :: 0 <= k < |dirs| && k != i && IsPlain(dirs[k]) ==> Beats(dirs[i], dirs[k], i < k)
  }

  // Of all the definitions of a name in conftests around a test, the one resolved to is the one that beats
  // every other pairwise.
  lemma {:induction false} ConftestIsResolvedIff(defs: seq<FixtureDef>, dirs: seq<Directory>, site: Site, i: nat)
    requires LieAround(defs, dirs, site) && i < |defs|
    ensures IsNearestAt(defs, site, None, i) <==> BeatsTheRest(dirs, i)
    ensures IsNearestAt(defs, site, None, i) ==> Nearest(defs, site, None) == Some(defs[i])
  {
    forall k | 0 <= k < |defs|
      ensures Candidate(defs[k], site, None) <==> IsPlain(dirs[k])
    {
      ConftestIsVisibleIff(defs[k], dirs[k], site);
    }
    if IsPlain(dirs[i]) {
      forall k | 0 <= k < |defs| && k != i && IsPlain(dirs[k])
        ensures BelowNearest(defs[k], site, None, defs[i], k < i) <==> Beats(dirs[i], dirs[k], i < k)
      {
        BeatsIffAhead(defs[i], dirs[i], defs[k], dirs[k], site, i < k);
      }
    }
    if IsNearestAt(defs, site, None, i) {
      NearestIsUnique(defs, site, None, i);
    }
  }

  lemma {:induction false} NearestIsUnique(defs: seq<FixtureDef>, site: Site, below: Option<int>, i: nat)
    requires IsNearestAt(defs, site, below, i)
    ensures Nearest(defs, site, below) == Some(defs[i])
  {
    var j := NearestIsFirstMostSpecific(defs, site, below);
    assert BelowNearest(defs[j], site, below, defs[i], j < i);
    assert BelowNearest(defs[i], site, below, defs[j], i < j);
  }

  // A directory called `..foo`: the run root's fixture wins over its own, even for the tests in it,
  // and its own is seen from everywhere.
  lemma {:induction false} MisreadDirectoryLoses(outer: FixtureDef, inner: FixtureDef, site: Site)
    requires outer.name == inner.name == "db" && outer.location == "" && inner.location == "..foo"
    ensures Resolve([outer, inner], "db", site, None) == Some(outer)
    ensures Resolve([inner], "db", site, None) == Some(inner)
  {
    assert !HasSeparator("") && !HasSeparator("..foo") && !HasSuffix("..foo", ".py");
    assert Specificity(outer, site) == Some(0) && Specificity(inner, site).value < 0;
    assert Init([outer, inner]) == [outer] && Init([outer]) == [] && Init([inner]) == [];
    assert Named([outer], "db") == [outer] && Named([outer, inner], "db") == [outer, inner];
    assert Nearest([outer], site, None) == Some(outer);
  }

  // A directory called `web.py`: its own fixture is seen by no test in it, and the run root's wins.
  lemma {:induction false} PyDirectoryLoses(outer: FixtureDef, inner: FixtureDef, site: Site)
    requires outer.name == inner.name == "db" && outer.location == "" && inner.location == "web.py"
    requires Encloses(Down("web.py"), Here(site))
    ensures Resolve([outer, inner], "db", site, None) == Resolve([inner, outer], "db", site, None) == Some(outer)
    ensures Specificity(inner, site).None?
  {
    assert HasSuffix("web.py", ".py");
    ConftestIsVisibleIff(inner, Down("web.py"), site);
    assert IsPlain(Down("")) && Location(Down("")) == "";
    NearerConftestOverridesIff(outer, Down(""), inner, Down("web.py"), site);
  }

  // ---- definitions in classes ----

  // Visible as the fixture of the test's class or of one of its bases.
  predicate InClass(d: FixtureDef, site: Site) {
    HasSeparator(d.location) && Before(d.location) == site.moduleKey && After(d.location) in site.classes
  }

  // A visible conftest's fixture whose path has this many components, or one more if registered later.
  predicate IsDeep(d: FixtureDef, site: Site, rank: nat, earlier: bool) {
    && !HasSeparator(d.location) && !EndsInPy(d.location)
    && IsAncestorDir(d.location, DirName(site.moduleKey))
    && LocationDepth(d.location) >= if earlier then rank else rank + 1
  }

  // Whichever class of the MRO it is in, the test's own or a base: a class fixture is what its name
  // resolves to exactly when no other of the visible class fixtures was registered before it, and no
  // conftest of the name lies 20,000 directories deep.
  lemma {:induction false} ClassFixtureIsResolvedIff(defs: seq<FixtureDef>, site: Site, i: nat)
    requires i < |defs| && InClass(defs[i], site)
    ensures IsNearestAt(defs, site, None, i) <==>
            forall k :: 0 <= k < |defs| ==>
              !(k < i && InClass(defs[k], site)) && !IsDeep(defs[k], site, 20_000, k < i)
    ensures IsNearestAt(defs, site, None, i) ==> Nearest(defs, site, None) == Some(defs[i])
  {
    forall k | 0 <= k < |defs|
      ensures BelowNearest(defs[k], site, None, defs[i], k < i)
        <==> !(k < i && InClass(defs[k], site)) && !IsDeep(defs[k], site, 20_000, k < i)
    {
    }
    if IsNearestAt(defs, site, None, i) {
      NearestIsUnique(defs, site, None, i);
    }
  }

  // The fixture of the test's own module.
  predicate InModule(d: FixtureDef, site: Site) {
    !HasSeparator(d.location) && EndsInPy(d.location) && d.location == site.moduleKey
  }

  // A fixture of the test's own module is what its name resolves to exactly when no class fixture of the
  // name is visible, no other of the module's was registered before it, and no conftest of the name lies
  // 10,000 directories deep: it beats every other conftest and loses to every class.
  lemma {:induction false} ModuleFixtureIsResolvedIff(defs: seq<FixtureDef>, site: Site, i: nat)
    requires i < |defs| && InModule(defs[i], site)
    ensures IsNearestAt(defs, site, None, i) <==>
            forall k :: 0 <= k < |defs| ==>
              && !InClass(defs[k], site)
              && !(k < i && InModule(defs[k], site))
              && !IsDeep(defs[k], site, 10_000, k < i)
    ensures IsNearestAt(defs, site, None, i) ==> Nearest(defs, site, None) == Some(defs[i])
  {
    forall k | 0 <= k < |defs|
      ensures BelowNearest(defs[k], site, None, defs[i], k < i)
        <==> !InClass(defs[k], site) && !(k < i && InModule(defs[k], site)) && !IsDeep(defs[k], site, 10_000, k < i)
    {
    }
    if IsNearestAt(defs, site, None, i) {
      NearestIsUnique(defs, site, None, i);
    }
  }

  // A class fixture that asks for the name it overrides is never given a base class's.
  lemma {:induction false} ClassOverrideSkipsBases(reg: seq<FixtureDef>, d: FixtureDef, site: Site)
    requires d in reg && InClass(d, site)
    ensures var t := Resolve(reg, d.name, site, SpecificityOf(reg, d, site)); t.Some? ==> !InClass(t.value, site)
  {
    NamedHolds(reg, d.name, d);
    ResolveFinds(reg, d.name, site, SpecificityOf(reg, d, site));
  }

  // A base class registered before its subclass: the test of the subclass is given the base's fixture, and
  // the subclass's own, were it asked, would find nothing to extend.
  lemma {:induction false} BaseClassWins(base: FixtureDef, sub: FixtureDef)
    requires base.name == sub.name && base.location == "m.py::Base" && sub.location == "m.py::Sub"
    ensures var site := Site("m.py", ["Sub", "Base"]);
            && Resolve([base, sub], sub.name, site, None) == Some(base)
            && Resolve([sub, base], sub.name, site, None) == Some(sub)
            && Resolve([base, sub], sub.name, site, SpecificityOf([base, sub], sub, site)) == None
  {
    var site := Site("m.py", ["Sub", "Base"]);
    SplitsAtKey("m.py", "Base");
    SplitsAtKey("m.py", "Sub");
    assert "m.py" + "::" + "Base" == "m.py::Base" && "m.py" + "::" + "Sub" == "m.py::Sub";
    assert site.classes[0] == "Sub" && site.classes[1] == "Base";
    assert InClass(base, site) && InClass(sub, site);
    ResolveOfTwo(base, sub, site);
    ResolveOfTwo(sub, base, site);
    var reg := [base, sub];
    assert reg[1] == sub && sub in reg;
    ClassOverrideSkipsBases(reg, sub, site);
    ResolveFinds(reg, sub.name, site, SpecificityOf(reg, sub, site));
  }
}
