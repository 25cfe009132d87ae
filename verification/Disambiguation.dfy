/** `plan._disambiguate`: the ids of a node's variants, with every member of a clash numbered. */
module Disambiguation {
  import opened Prelude

  // ---- decimal numerals ----

  predicate IsNumeral(c: char) {
    '0' <= c <= '9'
  }

  function Numeral(d: nat): char
    requires d < 10
  {
    ['0', '1', '2', '3', '4', '5', '6', '7', '8', '9'][d]
  }

  // `str(n)`
  function Decimal(n: nat): string {
    if n < 10 then [Numeral(n)] else Decimal(n / 10) + [Numeral(n % 10)]
  }

  lemma {:induction false} DecimalIsNumerals(n: nat)
    ensures Decimal(n) != "" && forall i :: 0 <= i < |Decimal(n)| ==> IsNumeral(Decimal(n)[i])
  {
    if n >= 10 {
      DecimalIsNumerals(n / 10);
    }
  }

  lemma {:induction false} DecimalSplits(n: nat)
    ensures Decimal(n) != "" && Last(Decimal(n)) == Numeral(n % 10)
    ensures if n < 10 then |Decimal(n)| == 1 else |Decimal(n)| > 1 && Init(Decimal(n)) == Decimal(n / 10)
  {
    if n >= 10 {
      DecimalIsNumerals(n / 10);
    }
  }

  // What a numeral stands for: the last digit counts once, each before it ten times the next.
  function Reading(s: string): int {
    if s == "" then 0 else 10 * Reading(Init(s)) + (Last(s) as int - '0' as int)
  }

  lemma {:induction false} DecimalStart(n: nat)
    requires n > 0
    ensures Decimal(n) != "" && Decimal(n)[0] != '0'
  {
    if n >= 10 {
      DecimalStart(n / 10);
    }
  }

  // `str(n)` is read as `n`, and does not start with a zero unless that is all there is.
  lemma {:induction false} DecimalReads(n: nat)
    ensures Reading(Decimal(n)) == n
    ensures Decimal(n) != "" && (Decimal(n)[0] == '0' ==> |Decimal(n)| == 1)
    ensures forall i :: 0 <= i < |Decimal(n)| ==> '0' <= Decimal(n)[i] <= '9'
  {
    DecimalSplits(n);
    DecimalIsNumerals(n);
    if n >= 10 {
      DecimalReads(n / 10);
      DecimalStart(n);
    } else {
      assert Init(Decimal(n)) == "";
    }
  }

  lemma {:induction false} DecimalIsInjective(m: nat, n: nat)
    requires Decimal(m) == Decimal(n)
    ensures m == n
  {
    DecimalSplits(m);
    DecimalSplits(n);
    if m >= 10 && n >= 10 {
      DecimalIsInjective(m / 10, n / 10);
    }
  }

  predicate EndsInNumeral(s: string) {
    s != "" && IsNumeral(Last(s))
  }

  // A number written after a text that does not end in one can be read off again.
  lemma {:induction false} NumberIsReadOff(s: string, m: nat, t: string, n: nat)
    requires !EndsInNumeral(s) && !EndsInNumeral(t) && s + Decimal(m) == t + Decimal(n)
    ensures s == t && m == n
  {
    NotShorter(s, m, t, n);
    NotShorter(t, n, s, m);
    assert s == (s + Decimal(m))[..|s|] && t == (t + Decimal(n))[..|t|];
    assert Decimal(m) == (s + Decimal(m))[|s|..] && Decimal(n) == (t + Decimal(n))[|t|..];
    DecimalIsInjective(m, n);
  }

  lemma {:induction false} NotShorter(s: string, m: nat, t: string, n: nat)
    requires !EndsInNumeral(t) && s + Decimal(m) == t + Decimal(n)
    ensures |s| >= |t|
  {
    var whole := s + Decimal(m);
    forall k | |s| <= k < |whole|
      ensures IsNumeral(whole[k])
    {
      DecimalIsNumerals(m);
      assert whole[k] == Decimal(m)[k - |s|];
    }
    assert t != "" ==> Last(t) == whole[|t| - 1];
  }

  // ---- the ids ----

  // The suite's pytest: whether 8 or later, and which characters its `isdigit` takes.
  datatype Rule = Rule(underscore: bool, isDigit: char -> bool)

  ghost predicate IsPython(rule: Rule) {
    (forall c :: IsNumeral(c) ==> rule.isDigit(c)) && !rule.isDigit('_')
  }

  // What a clashing text is numbered after.
  function Stem(rule: Rule, text: string): string {
    if rule.underscore && text != "" && rule.isDigit(Last(text)) then text + "_" else text
  }

  function Count(parts: seq<string>, text: string): nat {
    multiset(parts)[text]
  }

  // How many of the same text come before the `i`-th.
  function Earlier(parts: seq<string>, i: nat): nat
    requires i < |parts|
  {
    Count(parts[..i], parts[i])
  }

  function Label(rule: Rule, parts: seq<string>, i: nat): string
    requires i < |parts|
  {
    if Count(parts, parts[i]) == 1 then parts[i] else Stem(rule, parts[i]) + Decimal(Earlier(parts, i))
  }

  function Get(tally: map<string, nat>, text: string): nat {
    if text in tally then tally[text] else 0
  }

  ghost predicate Tallies(tally: map<string, nat>, parts: seq<string>) {
    forall text :: Get(tally, text) == Count(parts, text)
  }

  lemma {:induction false} TallyOneMore(tally: map<string, nat>, parts: seq<string>, k: nat)
    requires k < |parts| && Tallies(tally, parts[..k])
    ensures Tallies(tally[parts[k] := Get(tally, parts[k]) + 1], parts[..k + 1])
  {
    CountSnoc(parts, k);
    var more := tally[parts[k] := Get(tally, parts[k]) + 1];
    forall text
      ensures Get(more, text) == Count(parts[..k + 1], text)
    {
      assert Get(tally, text) == Count(parts[..k], text);
    }
  }

  // The tally of the clashing texts among the first `k`.
  ghost predicate TalliesClashes(seen: map<string, nat>, parts: seq<string>, k: nat)
    requires k <= |parts|
  {
    forall text :: Count(parts, text) != 1 ==> Get(seen, text) == Count(parts[..k], text)
  }

  lemma {:induction false} ClashTallied(seen: map<string, nat>, parts: seq<string>, k: nat)
    requires k < |parts| && TalliesClashes(seen, parts, k)
    ensures if Count(parts, parts[k]) == 1 then TalliesClashes(seen, parts, k + 1)
            else
              && Get(seen, parts[k]) == Earlier(parts, k)
              && TalliesClashes(seen[parts[k] := Earlier(parts, k) + 1], parts, k + 1)
  {
    CountSnoc(parts, k);
  }

  // In place and in order: a text that is alone stays as it is, the members of a clash are numbered
  // from 0.
  method Disambiguate(rule: Rule, parts: seq<string>) returns (out: seq<string>)
    ensures |out| == |parts|
    ensures forall i :: 0 <= i < |parts| ==> out[i] == Label(rule, parts, i)
  {
    var counts: map<string, nat> := map[];
    for k := 0 to |parts|
      invariant Tallies(counts, parts[..k])
    {
      TallyOneMore(counts, parts, k);
      counts := counts[parts[k] := Get(counts, parts[k]) + 1];
    }
    assert parts[..|parts|] == parts;
    var seen: map<string, nat> := map[];
    out := [];
    for k := 0 to |parts|
      invariant TalliesClashes(seen, parts, k)
      invariant |out| == k && forall i :: 0 <= i < k ==> out[i] == Label(rule, parts, i)
    {
      var text := parts[k];
      ClashTallied(seen, parts, k);
      if Get(counts, text) == 1 {
        out := out + [text];
      } else {
        var n := Get(seen, text);
        seen := seen[text := n + 1];
        out := out + [Stem(rule, text) + Decimal(n)];
      }
    }
  }

  lemma {:induction false} CountSnoc(parts: seq<string>, k: nat)
    requires k < |parts|
    ensures forall t :: Count(parts[..k + 1], t) == Count(parts[..k], t) + if t == parts[k] then 1 else 0
  {
    assert parts[..k + 1] == parts[..k] + [parts[k]];
  }

  // ---- when the ids are distinct ----

  lemma {:induction false} CountGrows(parts: seq<string>, j: nat, k: nat, text: string)
    requires j <= k <= |parts|
    ensures Count(parts[..j], text) <= Count(parts[..k], text)
  {
    assert parts[..k] == parts[..j] + parts[j..k];
  }

  lemma {:induction false} EarlierIsInRange(parts: seq<string>, i: nat)
    requires i < |parts|
    ensures Earlier(parts, i) < Count(parts, parts[i])
  {
    CountSnoc(parts, i);
    CountGrows(parts, i + 1, |parts|, parts[i]);
    assert parts[..|parts|] == parts;
  }

  lemma {:induction false} EarlierIncreases(parts: seq<string>, i: nat, j: nat)
    requires i < j < |parts| && parts[i] == parts[j]
    ensures Earlier(parts, i) < Earlier(parts, j)
  {
    CountSnoc(parts, i);
    CountGrows(parts, i + 1, j, parts[i]);
  }

  lemma {:induction false} NthOccurrence(parts: seq<string>, text: string, n: nat) returns (i: nat)
    requires n < Count(parts, text)
    ensures i < |parts| && parts[i] == text && Earlier(parts, i) == n
  {
    assert parts != [];
    var k := |parts| - 1;
    assert parts[..k + 1] == parts;
    CountSnoc(parts, k);
    if Count(parts[..k], text) == n {
      i := k;
    } else {
      i := NthOccurrence(parts[..k], text, n);
      assert parts[..k][..i] == parts[..i];
    }
  }

  predicate Repeated(parts: seq<string>, text: string) {
    Count(parts, text) > 1
  }

  // A repeated text that ends in a digit while the same text with a `_` is repeated too.
  predicate StemsClash(rule: Rule, parts: seq<string>, text: string) {
    text != "" && rule.isDigit(Last(text)) && Repeated(parts, text) && Repeated(parts, text + "_")
  }

  // Without the underscore: a repeated text that is another one with a number after it, where the other
  // is repeated often enough for one of its own numbers to begin with that number.
  predicate NumbersClash(parts: seq<string>, text: string, longer: string, k: nat) {
    k > 0 && longer == text + Decimal(k) && Repeated(parts, longer) && 10 * k < Count(parts, text)
  }

  // A text that is alone and is what some member of a clash is numbered as.
  predicate AloneClashes(rule: Rule, parts: seq<string>, alone: string, text: string, n: nat) {
    && Count(parts, alone) == 1
    && Repeated(parts, text)
    && n < Count(parts, text)
    && alone == Stem(rule, text) + Decimal(n)
  }

  ghost predicate Clean(rule: Rule, parts: seq<string>) {
    && (if rule.underscore then forall text :: !StemsClash(rule, parts, text)
        else forall text, longer, k: nat :: !NumbersClash(parts, text, longer, k))
    && (forall alone, text, n :: !AloneClashes(rule, parts, alone, text, n))
  }

  lemma {:induction false} StemsAreDistinct(rule: Rule, parts: seq<string>, s: string, t: string)
    requires rule.underscore && IsPython(rule) && Clean(rule, parts) && Repeated(parts, s) && Repeated(parts, t)
    requires Stem(rule, s) == Stem(rule, t)
    ensures s == t
  {
    assert !StemsClash(rule, parts, s) && !StemsClash(rule, parts, t);
    assert s == Init(s + "_") && t == Init(t + "_");
  }

  // A number that ends in another begins with one.
  lemma {:induction false} NumberBefore(d: string, m: nat, n: nat) returns (k: nat)
    requires d != "" && Decimal(m) == d + Decimal(n)
    ensures k > 0 && d == Decimal(k) && 10 * k <= m
  {
    DecimalSplits(m);
    DecimalSplits(n);
    assert Init(Decimal(m)) == d + Init(Decimal(n));
    if n < 10 {
      assert d + Init(Decimal(n)) == d;
      k := m / 10;
    } else {
      k := NumberBefore(d, m / 10, n / 10);
    }
  }

  lemma {:induction false} NumbersDiffer(rule: Rule, parts: seq<string>, s: string, m: nat, t: string, n: nat)
    requires !rule.underscore && Clean(rule, parts) && Repeated(parts, s) && Repeated(parts, t)
    requires |s| <= |t| && m < Count(parts, s) && s + Decimal(m) == t + Decimal(n)
    ensures s == t && m == n
  {
    var whole := s + Decimal(m);
    var d := t[|s|..];
    assert s == whole[..|s|] == t[..|s|] && t == s + d;
    assert Decimal(m) == whole[|s|..] == d + Decimal(n);
    if d != "" {
      var k := NumberBefore(d, m, n);
      assert NumbersClash(parts, s, t, k);
      assert false;
    }
    assert d + Decimal(n) == Decimal(n) && s + d == s;
    DecimalIsInjective(m, n);
  }

  lemma {:induction false} CleanNumbersDiffer(rule: Rule, parts: seq<string>, s: string, m: nat, t: string, n: nat)
    requires (rule.underscore ==> IsPython(rule)) && Clean(rule, parts) && Repeated(parts, s) && Repeated(parts, t)
    requires m < Count(parts, s) && n < Count(parts, t) && Stem(rule, s) + Decimal(m) == Stem(rule, t) + Decimal(n)
    ensures s == t && m == n
  {
    if rule.underscore {
      NumberIsReadOff(Stem(rule, s), m, Stem(rule, t), n);
      StemsAreDistinct(rule, parts, s, t);
    } else if |s| <= |t| {
      NumbersDiffer(rule, parts, s, m, t, n);
    } else {
      NumbersDiffer(rule, parts, t, n, s, m);
    }
  }

  lemma {:induction false} CleanLabelsDiffer(rule: Rule, parts: seq<string>, i: nat, j: nat)
    requires (rule.underscore ==> IsPython(rule)) && Clean(rule, parts) && i < j < |parts|
    ensures Label(rule, parts, i) != Label(rule, parts, j)
  {
    var s, t := parts[i], parts[j];
    var (m, n) := (Earlier(parts, i), Earlier(parts, j));
    EarlierIsInRange(parts, i);
    EarlierIsInRange(parts, j);
    assert !AloneClashes(rule, parts, s, t, n) && !AloneClashes(rule, parts, t, s, m);
    if s == t {
      EarlierIncreases(parts, i, j);
    }
    if Repeated(parts, s) && Repeated(parts, t) && Label(rule, parts, i) == Label(rule, parts, j) {
      CleanNumbersDiffer(rule, parts, s, m, t, n);
    }
  }

  ghost predicate LabelsAreDistinct(rule: Rule, parts: seq<string>) {
    forall i, j :: 0 <= i < j < |parts| ==> Label(rule, parts, i) != Label(rule, parts, j)
  }

  // The ids select one variant each exactly when no two stems clash and no lone text reads as a
  // numbered one, under either rule. Nothing in the function checks it.
  lemma {:induction false} DistinctIffClean(rule: Rule, parts: seq<string>)
    requires rule.underscore ==> IsPython(rule)
    ensures LabelsAreDistinct(rule, parts) <==> Clean(rule, parts)
  {
    if Clean(rule, parts) {
      forall i, j | 0 <= i < j < |parts|
        ensures Label(rule, parts, i) != Label(rule, parts, j)
      {
        CleanLabelsDiffer(rule, parts, i, j);
      }
    } else {
      ClashRepeatsALabel(rule, parts);
    }
  }

  lemma {:induction false} ClashRepeatsALabel(rule: Rule, parts: seq<string>)
    requires (rule.underscore ==> IsPython(rule)) && !Clean(rule, parts)
    ensures !LabelsAreDistinct(rule, parts)
  {
    if alone, text, n: nat :| AloneClashes(rule, parts, alone, text, n) {
      SameLabel(rule, parts, alone, 0, text, n);
    } else if rule.underscore {
      var text :| StemsClash(rule, parts, text);
      assert Last(text + "_") == '_';
      SameLabel(rule, parts, text, 0, text + "_", 0);
    } else {
      var text, longer, k: nat :| NumbersClash(parts, text, longer, k);
      NumberedAlike(rule, parts, text, longer, k);
      SameLabel(rule, parts, text, 10 * k, longer, 0);
    }
  }

  lemma {:induction false} NumberedAlike(rule: Rule, parts: seq<string>, text: string, longer: string, k: nat)
    requires !rule.underscore && NumbersClash(parts, text, longer, k)
    ensures text != longer && Numbered(rule, parts, text, 10 * k) == Numbered(rule, parts, longer, 0)
  {
    DecimalIsNumerals(k);
    assert Decimal(10 * k) == Decimal(k) + Decimal(0);
    assert text + Decimal(10 * k) == longer + Decimal(0);
  }

  function Numbered(rule: Rule, parts: seq<string>, text: string, n: nat): string {
    if Count(parts, text) == 1 then text else Stem(rule, text) + Decimal(n)
  }

  lemma {:induction false} SameLabel(rule: Rule, parts: seq<string>, s: string, m: nat, t: string, n: nat)
    requires s != t && m < Count(parts, s) && n < Count(parts, t)
    requires Numbered(rule, parts, s, m) == Numbered(rule, parts, t, n)
    ensures !LabelsAreDistinct(rule, parts)
  {
    var i := NthOccurrence(parts, s, m);
    var j := NthOccurrence(parts, t, n);
    assert Label(rule, parts, i) == Label(rule, parts, j);
    assert i < j || j < i;
  }

  // Both kinds of clash happen, under this rule and (the first) under the older one.
  lemma {:induction false} LoneTextMayBeTaken(rule: Rule)
    requires IsPython(rule) && !rule.isDigit('a')
    ensures !LabelsAreDistinct(rule, ["a", "a", "a0"])
  {
    var parts := ["a", "a", "a0"];
    assert parts[..0] == [];
    assert Count(parts, "a") == 2 && Count(parts, "a0") == 1;
    assert Label(rule, parts, 0) == "a" + Decimal(0) == "a0" == Label(rule, parts, 2);
  }

  lemma {:induction false} StemsMayClash(rule: Rule)
    requires rule.underscore && IsPython(rule)
    ensures !LabelsAreDistinct(rule, ["1", "1", "1_", "1_"])
  {
    var parts := ["1", "1", "1_", "1_"];
    assert Count(parts, "1") == 2 && Count(parts, "1_") == 2;
    assert "1" + "_" == "1_" && Last("1") == '1' && IsNumeral('1');
    assert StemsClash(rule, parts, "1");
    DistinctIffClean(rule, parts);
  }

  // Under the older rule: eleven times `a` and twice `a1`.
  lemma {:induction false} NumbersMayClash(rule: Rule, parts: seq<string>)
    requires !rule.underscore && Count(parts, "a") == 11 && Count(parts, "a1") == 2
    ensures !LabelsAreDistinct(rule, parts)
  {
    assert "a1" == "a" + Decimal(1);
    assert NumbersClash(parts, "a", "a1", 1);
    DistinctIffClean(rule, parts);
  }
}
