/** `-k` and `-m` (selection.py): trees evaluated while some answers are missing, the names an
    identifier is matched against, and the two-phase decision the engine makes of them. */
module Keywords {
  import opened Prelude
  import opened NodeIds
  import opened SelectionGrammar

  // True, False and "cannot tell yet".
  datatype Verdict = Yes | No | Unknown

  function Sure(b: bool): Verdict {
    if b then Yes else No
  }

  // ---- three-valued evaluation ----

  function Evaluate(tree: Expr, resolve: string -> Verdict): Verdict {
    match tree
    case Ident(name) => resolve(name)
    case Not(arg) =>
      var v := Evaluate(arg, resolve);
      if v == Unknown then Unknown else Sure(v == No)
    case And(args) =>
      if exists i :: 0 <= i < |args| && Evaluate(args[i], resolve) == No then No
      else if exists i :: 0 <= i < |args| && Evaluate(args[i], resolve) == Unknown then Unknown
      else Yes
    case Or(args) =>
      if exists i :: 0 <= i < |args| && Evaluate(args[i], resolve) == Yes then Yes
      else if exists i :: 0 <= i < |args| && Evaluate(args[i], resolve) == Unknown then Unknown
      else No
  }

  // What the tree means once every identifier has an answer.
  predicate Holds(tree: Expr, truth: string -> bool) {
    match tree
    case Ident(name) => truth(name)
    case Not(arg) => !Holds(arg, truth)
    case And(args) => forall i :: 0 <= i < |args| ==> Holds(args[i], truth)
    case Or(args) => exists i :: 0 <= i < |args| && Holds(args[i], truth)
  }

  // `resolve` never contradicts `truth`; it may not know yet.
  ghost predicate Approximates(resolve: string -> Verdict, truth: string -> bool) {
    forall ident :: resolve(ident) == Unknown || resolve(ident) == Sure(truth(ident))
  }

  ghost predicate Decides(resolve: string -> Verdict, truth: string -> bool) {
    forall ident :: resolve(ident) == Sure(truth(ident))
  }

  // A verdict reached early is the verdict: no answer still to come can overturn it.
  lemma {:induction false} EarlyVerdictsStand(tree: Expr, resolve: string -> Verdict, truth: string -> bool)
    requires Approximates(resolve, truth)
    ensures Evaluate(tree, resolve) == Unknown || Evaluate(tree, resolve) == Sure(Holds(tree, truth))
  {
    match tree
    case Ident(name) =>
    case Not(arg) => EarlyVerdictsStand(arg, resolve, truth);
    case And(args) =>
      forall i | 0 <= i < |args|
        ensures Evaluate(args[i], resolve) == Unknown || Evaluate(args[i], resolve) == Sure(Holds(args[i], truth))
      {
        EarlyVerdictsStand(args[i], resolve, truth);
      }
    case Or(args) =>
      forall i | 0 <= i < |args|
        ensures Evaluate(args[i], resolve) == Unknown || Evaluate(args[i], resolve) == Sure(Holds(args[i], truth))
      {
        EarlyVerdictsStand(args[i], resolve, truth);
      }
  }

  // ---- no later than need be ----

  function Identifiers(tree: Expr): set<string> {
    match tree
    case Ident(name) => {name}
    case Not(arg) => Identifiers(arg)
    case And(args) => set i, x | 0 <= i < |args| && x in Identifiers(args[i]) :: x
    case Or(args) => set i, x | 0 <= i < |args| && x in Identifiers(args[i]) :: x
  }

  // No identifier stands in the tree twice.
  ghost predicate ReadsOnce(tree: Expr) {
    match tree
    case Ident(name) => true
    case Not(arg) => ReadsOnce(arg)
    case And(args) => (forall i :: 0 <= i < |args| ==> ReadsOnce(args[i])) && AreApart(args)
    case Or(args) => (forall i :: 0 <= i < |args| ==> ReadsOnce(args[i])) && AreApart(args)
  }

  ghost predicate AreApart(args: seq<Expr>) {
    forall i, j :: 0 <= i < j < |args| ==> Identifiers(args[i]) !! Identifiers(args[j])
  }

  lemma {:induction false} HoldsDepends(tree: Expr, truth: string -> bool, other: string -> bool)
    requires forall x :: x in Identifiers(tree) ==> truth(x) == other(x)
    ensures Holds(tree, truth) == Holds(tree, other)
  {
    match tree
    case Ident(name) =>
    case Not(arg) => HoldsDepends(arg, truth, other);
    case And(args) =>
      forall i | 0 <= i < |args|
        ensures Holds(args[i], truth) == Holds(args[i], other)
      {
        HoldsDepends(args[i], truth, other);
      }
    case Or(args) =>
      forall i | 0 <= i < |args|
        ensures Holds(args[i], truth) == Holds(args[i], other)
      {
        HoldsDepends(args[i], truth, other);
      }
  }

  ghost predicate MayBe(v: Verdict, want: bool) {
    v == Unknown || v == Sure(want)
  }

  // Where no identifier stands twice, an unknown verdict may still come out either way.
  lemma {:induction false} UnknownIsOpen(
      tree: Expr, resolve: string -> Verdict, want: bool) returns (truth: string -> bool)
    requires ReadsOnce(tree) && MayBe(Evaluate(tree, resolve), want)
    ensures Approximates(resolve, truth) && Holds(tree, truth) == want
    decreases tree, 1
  {
    match tree
    case Ident(name) =>
      truth := x => if resolve(x) == Unknown then want else resolve(x) == Yes;
    case Not(arg) =>
      truth := UnknownIsOpen(arg, resolve, !want);
    case And(args) =>
      if want {
        truth := AllOpen(tree, args, resolve, want, |args|);
      } else {
        var i :| 0 <= i < |args| && MayBe(Evaluate(args[i], resolve), false);
        truth := UnknownIsOpen(args[i], resolve, false);
      }
    case Or(args) =>
      if want {
        var i :| 0 <= i < |args| && MayBe(Evaluate(args[i], resolve), true);
        truth := UnknownIsOpen(args[i], resolve, true);
      } else {
        truth := AllOpen(tree, args, resolve, want, |args|);
      }
  }

  // The same of operands that share no identifier, all at once.
  lemma {:induction false} AllOpen(tree: Expr, args: seq<Expr>, resolve: string -> Verdict, want: bool, n: nat)
      returns (truth: string -> bool)
    requires n <= |args| && AreApart(args) && (tree == And(args) || tree == Or(args))
    requires forall i :: 0 <= i < |args| ==> ReadsOnce(args[i]) && MayBe(Evaluate(args[i], resolve), want)
    ensures Approximates(resolve, truth)
    ensures forall i :: 0 <= i < n ==> Holds(args[i], truth) == want
    decreases tree, 0, n
  {
    if n == 0 {
      truth := x => resolve(x) == Yes;
    } else {
      var earlier := AllOpen(tree, args, resolve, want, n - 1);
      var last := UnknownIsOpen(args[n - 1], resolve, want);
      var own := Identifiers(args[n - 1]);
      truth := x => if x in own then last(x) else earlier(x);
      HoldsDepends(args[n - 1], truth, last);
      forall i | 0 <= i < n - 1
        ensures Holds(args[i], truth) == want
      {
        HoldsDepends(args[i], truth, earlier);
      }
    }
  }

  // With every answer in, the three-valued verdict is the plain meaning of the tree, for `-m` too.
  lemma {:induction false} FullVerdictsAreMeanings(tree: Expr, resolve: string -> Verdict, truth: string -> bool)
    requires Decides(resolve, truth)
    ensures Evaluate(tree, resolve) == Sure(Holds(tree, truth))
  {
    match tree
    case Ident(name) =>
    case Not(arg) => FullVerdictsAreMeanings(arg, resolve, truth);
    case And(args) =>
      forall i | 0 <= i < |args|
        ensures Evaluate(args[i], resolve) == Sure(Holds(args[i], truth))
      {
        FullVerdictsAreMeanings(args[i], resolve, truth);
      }
    case Or(args) =>
      forall i | 0 <= i < |args|
        ensures Evaluate(args[i], resolve) == Sure(Holds(args[i], truth))
      {
        FullVerdictsAreMeanings(args[i], resolve, truth);
      }
  }

  // ---- matching one identifier ----

  predicate OccursAt(needle: string, s: string, i: nat) {
    i + |needle| <= |s| && s[i..i + |needle|] == needle
  }

  predicate Occurs(needle: string, s: string) {
    exists i :: 0 <= i <= |s| && OccursAt(needle, s, i)
  }

  lemma {:induction false} OccursIsTransitive(a: string, b: string, c: string)
    requires Occurs(a, b) && Occurs(b, c)
    ensures Occurs(a, c)
  {
    var i :| 0 <= i <= |b| && OccursAt(a, b, i);
    var j :| 0 <= j <= |c| && OccursAt(b, c, j);
    assert b[i..i + |a|] == a && c[j..j + |b|] == b;
    forall k | 0 <= k < |a|
      ensures c[j + i..j + i + |a|][k] == a[k]
    {
      assert a[k] == b[i + k] == c[j + (i + k)];
    }
    assert OccursAt(a, c, j + i);
  }

  // Lower-casing: what is before a `[` lowers the same way whatever follows it. Lowering character
  // by character does, and so does a rule that looks ahead no further than the next uncased sign.
  ghost predicate LowersInPieces(lower: string -> string) {
    forall s, t :: lower(s) <= lower(s + "[" + t)
  }

  function LowerEach(low: char -> string, s: string): string {
    if s == "" then "" else low(s[0]) + LowerEach(low, s[1..])
  }

  lemma {:induction false} LowerEachSplits(low: char -> string, s: string, t: string)
    ensures LowerEach(low, s + t) == LowerEach(low, s) + LowerEach(low, t)
  {
    if s == "" {
      assert s + t == t;
    } else {
      LowerEachSplits(low, s[1..], t);
      assert (s + t)[1..] == s[1..] + t && (s + t)[0] == s[0];
      ConcatAssociates(low(s[0]), LowerEach(low, s[1..]), LowerEach(low, t));
    }
  }

  lemma {:induction false} CharacterwiseLowersInPieces(low: char -> string)
    ensures LowersInPieces(s => LowerEach(low, s))
  {
    forall s: string, t: string
      ensures LowerEach(low, s) <= LowerEach(low, s + "[" + t)
    {
      LowerEachSplits(low, s, "[" + t);
      assert s + "[" + t == s + ("[" + t);
    }
  }

  predicate Matches(lower: string -> string, ident: string, names: seq<string>) {
    exists i :: 0 <= i < |names| && Occurs(lower(ident), lower(names[i]))
  }

  // ---- the names of a node ----

  // `node_id.split("::")`
  function Segments(id: string): (parts: seq<string>)
    ensures parts != []
    decreases |id|
  {
    if HasSeparator(id) then [Before(id)] + Segments(After(id)) else [id]
  }

  // Where a node's names come from: what its path gives, by module key, and its sorted marks.
  datatype Naming = Naming(pathNames: string -> seq<string>, marks: seq<string>)

  function KeywordNames(naming: Naming, id: string): seq<string> {
    naming.pathNames(Segments(id)[0]) + Segments(id)[1..] + naming.marks
  }

  function CaseId(node: string, text: string): string {
    node + "[" + text + "]"
  }

  // A name that is the other, or the other followed by a bracket.
  predicate Extends(name: string, extended: string) {
    extended == name || name + "[" <= extended
  }

  lemma {:induction false} SeparatorStays(s: string, t: string)
    requires HasSeparator(s)
    ensures SeparatorAt(s + t) == SeparatorAt(s) && Before(s + t) == Before(s) && After(s + t) == After(s) + t
  {
    var i, j := SeparatorAt(s), SeparatorAt(s + t);
    assert SeparatorIsAt(s + t, i);
    assert j < i ==> SeparatorIsAt(s, j);
    assert (s + t)[..i] == s[..i];
    assert (s + t)[i + 2..] == s[i + 2..] + t;
  }

  // No `::` appears across the bracket a case id adds.
  lemma {:induction false} NoEarlierSeparator(node: string, text: string)
    requires !HasSeparator(node)
    ensures node + "[" <= Before(CaseId(node, text))
  {
    var id := CaseId(node, text);
    var j := SeparatorAt(id);
    assert id[|node|] == '[';
    assert j + 1 < |node| ==> SeparatorIsAt(node, j);
    assert id[..|node| + 1] == node + "[";
  }

  predicate HasExtension(name: string, names: seq<string>) {
    exists j :: 0 <= j < |names| && Extends(name, names[j])
  }

  // Splitting a case id at `::` splits its node id the same way, though the case text may hold
  // `::` itself; only the last segment grows.
  lemma {:induction false} CaseSegments(node: string, text: string)
    ensures |Segments(node)| <= |Segments(CaseId(node, text))|
    ensures forall i :: 0 <= i < |Segments(node)| ==> Extends(Segments(node)[i], Segments(CaseId(node, text))[i])
    ensures HasSeparator(node) ==> Segments(node)[0] == Segments(CaseId(node, text))[0]
    decreases |node|
  {
    var id := CaseId(node, text);
    if HasSeparator(node) {
      SeparatorStays(node, "[" + text + "]");
      assert id == node + ("[" + text + "]");
      assert After(id) == CaseId(After(node), text);
      CaseSegments(After(node), text);
    } else {
      NoEarlierSeparator(node, text);
    }
  }

  // Whatever matches a node's names matches the names of every one of its cases.
  lemma {:induction false} CasesMatchWhatTheirNodeMatches(
    lower: string -> string, naming: Naming, node: string, text: string, ident: string)
    requires LowersInPieces(lower) && HasSeparator(node)
    requires Matches(lower, ident, KeywordNames(naming, node))
    ensures Matches(lower, ident, KeywordNames(naming, CaseId(node, text)))
  {
    var names, caseNames := KeywordNames(naming, node), KeywordNames(naming, CaseId(node, text));
    var i :| 0 <= i < |names| && Occurs(lower(ident), lower(names[i]));
    NamesGrow(naming, node, text, names[i]);
    assert HasExtension(names[i], caseNames);
    var j :| 0 <= j < |caseNames| && Extends(names[i], caseNames[j]);
    LoweredNamesGrow(lower, names[i], caseNames[j]);
    OccursIsTransitive(lower(ident), lower(names[i]), lower(caseNames[j]));
  }

  lemma {:induction false} NamesGrow(naming: Naming, node: string, text: string, name: string)
    requires HasSeparator(node) && name in KeywordNames(naming, node)
    ensures HasExtension(name, KeywordNames(naming, CaseId(node, text)))
  {
    CaseSegments(node, text);
    var parts, caseParts := Segments(node), Segments(CaseId(node, text));
    var paths := naming.pathNames(parts[0]);
    if name in parts[1..] {
      var i :| 0 <= i < |parts[1..]| && parts[1..][i] == name;
      assert Extends(parts[1 + i], caseParts[1 + i]);
      ExtendedInMiddle(name, paths, caseParts[1..], naming.marks, i);
    } else {
      KeptAtEnds(name, paths, caseParts[1..], naming.marks);
    }
  }

  lemma {:induction false} ExtendedInMiddle(name: string, a: seq<string>, b: seq<string>, c: seq<string>, i: nat)
    requires i < |b| && Extends(name, b[i])
    ensures HasExtension(name, a + b + c)
  {
    assert (a + b + c)[|a| + i] == b[i];
  }

  lemma {:induction false} KeptAtEnds(name: string, a: seq<string>, b: seq<string>, c: seq<string>)
    requires name in a || name in c
    ensures HasExtension(name, a + b + c)
  {
    if name in a {
      var i :| 0 <= i < |a| && a[i] == name;
      assert Extends(name, (a + b + c)[i]);
    } else {
      var i :| 0 <= i < |c| && c[i] == name;
      assert Extends(name, (a + b + c)[|a| + |b| + i]);
    }
  }

  lemma {:induction false} LoweredNamesGrow(lower: string -> string, name: string, extended: string)
    requires LowersInPieces(lower) && Extends(name, extended)
    ensures Occurs(lower(name), lower(extended))
  {
    if extended != name {
      assert extended == name + "[" + extended[|name| + 1..];
      assert lower(name) <= lower(extended);
    }
    assert OccursAt(lower(name), lower(extended), 0);
  }

  // ---- the selection ----

  // `Selection.keyword_verdict`: without a final id a non-match is not yet a No.
  function Resolver(lower: string -> string, names: seq<string>, final: bool): string -> Verdict {
    ident => if Matches(lower, ident, names) then Yes else if final then No else Unknown
  }

  function KeywordVerdict(keyword: Option<Expr>, lower: string -> string, names: seq<string>, final: bool): Verdict {
    if keyword.None? then Yes else Evaluate(keyword.value, Resolver(lower, names, final))
  }

  // A node's variants: itself when it is not parametrized, else one case id per text.
  function VariantIds(node: string, texts: Option<seq<string>>): seq<string> {
    if texts.None? then [node]
    else seq(|texts.value|, i requires 0 <= i < |texts.value| => CaseId(node, texts.value[i]))
  }

  // Whether `-k` as written selects a variant: its tree holds of what the variant's own names match.
  ghost predicate Selects(keyword: Option<Expr>, lower: string -> string, names: seq<string>) {
    keyword.None? || Holds(keyword.value, ident => Matches(lower, ident, names))
  }

  lemma {:induction false} FinalVerdictIsSelection(keyword: Option<Expr>, lower: string -> string, names: seq<string>)
    ensures KeywordVerdict(keyword, lower, names, true) == Sure(Selects(keyword, lower, names))
  {
    if keyword.Some? {
      FullVerdictsAreMeanings(keyword.value, Resolver(lower, names, true), ident => Matches(lower, ident, names));
    }
  }

  // What the engine keeps of a node's variants: the node's own verdict goes first, and only an
  // undecided node is settled per case.
  predicate Keeps(keyword: Option<Expr>, lower: string -> string, naming: Naming, node: string, id: string) {
    match KeywordVerdict(keyword, lower, KeywordNames(naming, node), false)
    case No => false
    case Yes => true
    case Unknown => KeywordVerdict(keyword, lower, KeywordNames(naming, id), true) == Yes
  }

  lemma {:induction false} NodeVerdictStands(
    keyword: Option<Expr>, lower: string -> string, naming: Naming, node: string, texts: Option<seq<string>>, i: nat)
    requires LowersInPieces(lower) && HasSeparator(node) && i < |VariantIds(node, texts)|
    ensures var early := KeywordVerdict(keyword, lower, KeywordNames(naming, node), false);
            early == Unknown
            || early == Sure(Selects(keyword, lower, KeywordNames(naming, VariantIds(node, texts)[i])))
  {
    if keyword.Some? {
      var id := VariantIds(node, texts)[i];
      var resolve := Resolver(lower, KeywordNames(naming, node), false);
      var truth := ident => Matches(lower, ident, KeywordNames(naming, id));
      forall ident
        ensures resolve(ident) == Unknown || resolve(ident) == Sure(truth(ident))
      {
        if resolve(ident) == Yes && texts.Some? {
          CasesMatchWhatTheirNodeMatches(lower, naming, node, texts.value[i], ident);
        }
      }
      EarlyVerdictsStand(keyword.value, resolve, truth);
    }
  }

  // Deciding the node first and the cases later runs exactly the variants `-k` selects: nothing
  // deselected before its fixtures are built could have matched, nothing kept whole should not run.
  lemma {:induction false} TwoPhasesSelectAsOne(
    keyword: Option<Expr>, lower: string -> string, naming: Naming, node: string, texts: Option<seq<string>>)
    requires LowersInPieces(lower) && HasSeparator(node)
    ensures var ids := VariantIds(node, texts);
            forall i :: 0 <= i < |ids| ==>
              (Keeps(keyword, lower, naming, node, ids[i]) <==> Selects(keyword, lower, KeywordNames(naming, ids[i])))
  {
    var ids := VariantIds(node, texts);
    forall i | 0 <= i < |ids|
      ensures Keeps(keyword, lower, naming, node, ids[i]) <==> Selects(keyword, lower, KeywordNames(naming, ids[i]))
    {
      NodeVerdictStands(keyword, lower, naming, node, texts, i);
      FinalVerdictIsSelection(keyword, lower, KeywordNames(naming, ids[i]));
    }
  }

  // ---- which names those are ----

  predicate NoColon(s: string) {
    forall i :: 0 <= i < |s| ==> s[i] != ':'
  }

  // The id of what is reached through these names: a module, then classes, a function, a case.
  function IdOf(first: string, rest: seq<string>): string
    decreases |rest|
  {
    if rest == [] then first else first + "::" + IdOf(rest[0], rest[1..])
  }

  // No name but the last holds a colon, and the last none twice over.
  ghost predicate AreNames(first: string, rest: seq<string>)
    decreases |rest|
  {
    if rest == [] then forall k: nat :: k < |first| ==> !SeparatorIsAt(first, k)
    else NoColon(first) && AreNames(rest[0], rest[1..])
  }

  lemma {:induction false} SegmentsOfId(first: string, rest: seq<string>)
    requires AreNames(first, rest)
    ensures Segments(IdOf(first, rest)) == [first] + rest
    decreases |rest|
  {
    if rest != [] {
      SplitsAtKey(first, IdOf(rest[0], rest[1..]));
      SegmentsOfId(rest[0], rest[1..]);
      assert rest == [rest[0]] + rest[1..];
    }
  }

  // `needle in s`
  ghost predicate Contains(s: string, needle: string) {
    exists before, after :: s == before + needle + after
  }

  ghost predicate OneContains(lower: string -> string, names: seq<string>, ident: string) {
    exists i :: 0 <= i < |names| && Contains(lower(names[i]), lower(ident))
  }

  lemma {:induction false} OccursIffContains(needle: string, s: string)
    ensures Occurs(needle, s) <==> Contains(s, needle)
  {
    if Occurs(needle, s) {
      var i :| 0 <= i <= |s| && OccursAt(needle, s, i);
      assert s == s[..i] + needle + s[i + |needle|..];
    }
    if Contains(s, needle) {
      var before, after :| s == before + needle + after;
      assert s[|before|..|before| + |needle|] == needle;
      assert OccursAt(needle, s, |before|);
    }
  }

  lemma {:induction false} MatchesIffContains(lower: string -> string, ident: string, names: seq<string>)
    ensures Matches(lower, ident, names) <==> OneContains(lower, names, ident)
  {
    forall i | 0 <= i < |names|
      ensures Occurs(lower(ident), lower(names[i])) <==> Contains(lower(names[i]), lower(ident))
    {
      OccursIffContains(lower(ident), lower(names[i]));
    }
  }

  lemma {:induction false} OneOfThreeLists(
      lower: string -> string, a: seq<string>, b: seq<string>, c: seq<string>, ident: string)
    ensures OneContains(lower, a + b + c, ident)
      <==> OneContains(lower, a, ident) || OneContains(lower, b, ident) || OneContains(lower, c, ident)
  {
    var all := a + b + c;
    assert forall i :: 0 <= i < |a| ==> all[i] == a[i];
    assert forall i :: 0 <= i < |b| ==> all[|a| + i] == b[i];
    assert forall i :: 0 <= i < |c| ==> all[|a| + |b| + i] == c[i];
    if OneContains(lower, all, ident) {
      var i :| 0 <= i < |all| && Contains(lower(all[i]), lower(ident));
      assert if i < |a| then all[i] == a[i]
             else if i < |a| + |b| then all[i] == b[i - |a|] else all[i] == c[i - |a| - |b|];
    }
  }

  // The names of a case: its function's with the text in brackets.
  function NamesOfCase(rest: seq<string>, text: Option<string>): seq<string> {
    if rest == [] || text.None? then rest else rest[|rest| - 1 := Last(rest) + "[" + text.value + "]"]
  }

  lemma {:induction false} IdOfCase(first: string, rest: seq<string>, text: string)
    requires rest != []
    ensures IdOf(first, NamesOfCase(rest, Some(text))) == CaseId(IdOf(first, rest), text)
    decreases |rest|
  {
    var named := NamesOfCase(rest, Some(text));
    if |rest| == 1 {
      assert IdOf(named[0], named[1..]) == rest[0] + "[" + text + "]";
      assert IdOf(rest[0], rest[1..]) == rest[0];
    } else {
      assert named[0] == rest[0] && named[1..] == NamesOfCase(rest[1..], Some(text));
      IdOfCase(rest[0], rest[1..], text);
    }
    assert first + "::" + (IdOf(rest[0], rest[1..]) + "[" + text + "]") == CaseId(IdOf(first, rest), text);
  }

  // `-k x` runs a test, or a case of it, exactly when `x`, in any case, is part of a name its path gives,
  // of its class or any other name after its module's, brackets included, or of one of its marks.
  lemma {:induction false} SelectedByName(
      lower: string -> string, naming: Naming, moduleKey: string, rest: seq<string>, text: Option<string>,
      ident: string)
    requires LowersInPieces(lower) && rest != []
    requires AreNames(moduleKey, NamesOfCase(rest, text))
    ensures Keeps(Some(Ident(ident)), lower, naming, IdOf(moduleKey, rest), IdOf(moduleKey, NamesOfCase(rest, text)))
      <==>
        || OneContains(lower, naming.pathNames(moduleKey), ident)
        || OneContains(lower, NamesOfCase(rest, text), ident)
        || OneContains(lower, naming.marks, ident)
  {
    var node, named := IdOf(moduleKey, rest), NamesOfCase(rest, text);
    var id, names := IdOf(moduleKey, named), KeywordNames(naming, IdOf(moduleKey, named));
    var texts := if text.None? then None else Some([text.value]);
    if text.Some? {
      IdOfCase(moduleKey, rest, text.value);
    }
    SplitsAtKey(moduleKey, IdOf(rest[0], rest[1..]));
    assert VariantIds(node, texts)[0] == id;
    TwoPhasesSelectAsOne(Some(Ident(ident)), lower, naming, node, texts);
    SegmentsOfId(moduleKey, named);
    MatchesIffContains(lower, ident, names);
    OneOfThreeLists(lower, naming.pathNames(moduleKey), named, naming.marks, ident);
    assert ([moduleKey] + named)[1..] == named;
  }
}
