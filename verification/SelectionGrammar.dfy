/** `selection.parse_expr`: the grammar `-k` and `-m` share, from characters to trees and back. */
module SelectionGrammar {
  import opened Prelude

  // Which characters above ASCII are word characters.
  type WordClass = char -> bool

  // `str.isspace`
  predicate IsSpace(c: char) {
    var n := c as int;
    || 0x09 <= n <= 0x0D || 0x1C <= n <= 0x20 || n == 0x85 || n == 0xA0 || n == 0x1680
    || 0x2000 <= n <= 0x200A || n == 0x2028 || n == 0x2029 || n == 0x202F || n == 0x205F || n == 0x3000
  }

  // The class `[\w.:+\-\[\]\\/]`.
  predicate IsIdentChar(word: WordClass, c: char) {
    || 'a' <= c <= 'z' || 'A' <= c <= 'Z' || '0' <= c <= '9'
    || c == '_' || c == '.' || c == ':' || c == '+' || c == '-' || c == '[' || c == ']' || c == '\\' || c == '/'
    || (c as int >= 128 && word(c) && !IsSpace(c))
  }

  // The characters of an identifier below 128, and the spaces.
  lemma {:induction false} AsciiClasses(word: WordClass, c: char)
    requires c as int < 128
    ensures var n := c as int;
            IsIdentChar(word, c) <==>
              || 48 <= n <= 57 || 65 <= n <= 90 || 97 <= n <= 122
              || n in {43, 45, 46, 47, 58, 91, 92, 93, 95}
    ensures IsSpace(c) <==> c as int in {9, 10, 11, 12, 13, 28, 29, 30, 31, 32}
  {
  }

  predicate IsParen(c: char) {
    c == '(' || c == ')'
  }

  datatype Error = UnexpectedCharacter(c: char) | ExpectedIdentifier | MissingParenthesis | Unexpected(token: string)

  // ---- characters to tokens ----

  // How far an identifier reaches: the longest run of identifier characters.
  function IdentLength(word: WordClass, s: string): (n: nat)
    ensures n <= |s|
  {
    if s == "" || !IsIdentChar(word, s[0]) then 0 else 1 + IdentLength(word, s[1..])
  }

  lemma {:induction false} IdentLengthIsLongest(word: WordClass, s: string)
    ensures var n := IdentLength(word, s);
            (forall i :: 0 <= i < n ==> IsIdentChar(word, s[i])) && (n < |s| ==> !IsIdentChar(word, s[n]))
  {
    if s != "" && IsIdentChar(word, s[0]) {
      IdentLengthIsLongest(word, s[1..]);
    }
  }

  function Then(token: string, rest: Result<seq<string>, Error>): Result<seq<string>, Error> {
    if rest.Ok? then Ok([token] + rest.value) else rest
  }

  function Lex(word: WordClass, s: string): Result<seq<string>, Error>
    decreases |s|
  {
    if s == "" then Ok([])
    else if IsSpace(s[0]) then Lex(word, s[1..])
    else if IsParen(s[0]) then Then([s[0]], Lex(word, s[1..]))
    else
      var n := IdentLength(word, s);
      if n == 0 then Err(UnexpectedCharacter(s[0])) else Then(s[..n], Lex(word, s[n..]))
  }

  function Prepended(tokens: seq<string>, rest: Result<seq<string>, Error>): Result<seq<string>, Error> {
    if rest.Ok? then Ok(tokens + rest.value) else rest
  }

  lemma {:induction false} PrependedThen(tokens: seq<string>, token: string, rest: Result<seq<string>, Error>)
    ensures Prepended(tokens, Then(token, rest)) == Prepended(tokens + [token], rest)
  {
    if rest.Ok? {
      ConcatAssociates(tokens, [token], rest.value);
    }
  }

  // Having read `tokens` up to `i`, the rest of the text decides the whole.
  ghost predicate ReadUpTo(word: WordClass, expr: string, tokens: seq<string>, i: nat)
    requires i <= |expr|
  {
    Lex(word, expr) == Prepended(tokens, Lex(word, expr[i..]))
  }

  lemma {:induction false} ReadNothing(word: WordClass, expr: string)
    ensures ReadUpTo(word, expr, [], 0)
  {
    assert expr[0..] == expr;
    var whole := Lex(word, expr);
    assert whole.Ok? ==> [] + whole.value == whole.value;
  }

  lemma {:induction false} ReadEverything(word: WordClass, expr: string, tokens: seq<string>)
    requires ReadUpTo(word, expr, tokens, |expr|)
    ensures Lex(word, expr) == Ok(tokens)
  {
    assert expr[|expr|..] == "";
    assert tokens + [] == tokens;
  }

  lemma {:induction false} ReadSpace(word: WordClass, expr: string, tokens: seq<string>, i: nat)
    requires i < |expr| && IsSpace(expr[i]) && ReadUpTo(word, expr, tokens, i)
    ensures ReadUpTo(word, expr, tokens, i + 1)
  {
    assert expr[i..][1..] == expr[i + 1..];
  }

  lemma {:induction false} ReadParen(word: WordClass, expr: string, tokens: seq<string>, i: nat)
    requires i < |expr| && !IsSpace(expr[i]) && IsParen(expr[i]) && ReadUpTo(word, expr, tokens, i)
    ensures ReadUpTo(word, expr, tokens + [[expr[i]]], i + 1)
  {
    assert expr[i..][1..] == expr[i + 1..];
    PrependedThen(tokens, [expr[i]], Lex(word, expr[i + 1..]));
  }

  lemma {:induction false} ReadIdent(word: WordClass, expr: string, tokens: seq<string>, i: nat)
    requires i < |expr| && !IsSpace(expr[i]) && !IsParen(expr[i]) && ReadUpTo(word, expr, tokens, i)
    ensures var n := IdentLength(word, expr[i..]);
            if n == 0 then Lex(word, expr) == Err(UnexpectedCharacter(expr[i]))
            else ReadUpTo(word, expr, tokens + [expr[i..i + n]], i + n)
  {
    var n := IdentLength(word, expr[i..]);
    assert expr[i..][n..] == expr[i + n..] && expr[i..][..n] == expr[i..i + n];
    PrependedThen(tokens, expr[i..i + n], Lex(word, expr[i + n..]));
  }

  method Tokenize(word: WordClass, expr: string) returns (r: Result<seq<string>, Error>)
    ensures r == Lex(word, expr)
  {
    var tokens: seq<string> := [];
    var i := 0;
    ReadNothing(word, expr);
    while i < |expr|
      invariant 0 <= i <= |expr| && ReadUpTo(word, expr, tokens, i)
    {
      var c := expr[i];
      if IsSpace(c) {
        ReadSpace(word, expr, tokens, i);
        i := i + 1;
      } else if IsParen(c) {
        ReadParen(word, expr, tokens, i);
        tokens, i := tokens + [[c]], i + 1;
      } else {
        ReadIdent(word, expr, tokens, i);
        var n := IdentLength(word, expr[i..]);
        if n == 0 {
          return Err(UnexpectedCharacter(c));
        }
        tokens, i := tokens + [expr[i..i + n]], i + n;
      }
    }
    ReadEverything(word, expr, tokens);
    r := Ok(tokens);
  }

  // ---- tokens to trees ----

  datatype Expr = Ident(name: string) | Not(arg: Expr) | And(args: seq<Expr>) | Or(args: seq<Expr>)

  // The tree read, and the tokens left.
  type Parsed = Result<(Expr, seq<string>), Error>

  function Joined(items: seq<Expr>, make: seq<Expr> -> Expr): Expr {
    if |items| == 1 then items[0] else make(items)
  }

  function MakeAnd(): seq<Expr> -> Expr {
    items => And(items)
  }

  function MakeOr(): seq<Expr> -> Expr {
    items => Or(items)
  }

  function ParseNot(ts: seq<string>): (r: Parsed)
    ensures r.Ok? ==> |r.value.1| < |ts|
    decreases |ts|, 0
  {
    if ts == [] then Err(ExpectedIdentifier)
    else if ts[0] == "not" then
      var r := ParseNot(ts[1..]);
      if r.Err? then r else Ok((Not(r.value.0), r.value.1))
    else if ts[0] == "(" then
      var r := ParseOr(ts[1..]);
      if r.Err? then r
      else if r.value.1 == [] || r.value.1[0] != ")" then Err(MissingParenthesis)
      else Ok((r.value.0, r.value.1[1..]))
    else if ts[0] == ")" || ts[0] == "and" || ts[0] == "or" then Err(Unexpected(ts[0]))
    else Ok((Ident(ts[0]), ts[1..]))
  }

  function ParseAndTail(items: seq<Expr>, ts: seq<string>): (r: Parsed)
    ensures r.Ok? ==> |r.value.1| <= |ts|
    decreases |ts|, 1
  {
    if ts != [] && ts[0] == "and" then
      var r := ParseNot(ts[1..]);
      if r.Err? then r else ParseAndTail(items + [r.value.0], r.value.1)
    else Ok((Joined(items, MakeAnd()), ts))
  }

  function ParseAnd(ts: seq<string>): (r: Parsed)
    ensures r.Ok? ==> |r.value.1| < |ts|
    decreases |ts|, 2
  {
    var r := ParseNot(ts);
    if r.Err? then r else ParseAndTail([r.value.0], r.value.1)
  }

  function ParseOrTail(items: seq<Expr>, ts: seq<string>): (r: Parsed)
    ensures r.Ok? ==> |r.value.1| <= |ts|
    decreases |ts|, 3
  {
    if ts != [] && ts[0] == "or" then
      var r := ParseAnd(ts[1..]);
      if r.Err? then r else ParseOrTail(items + [r.value.0], r.value.1)
    else Ok((Joined(items, MakeOr()), ts))
  }

  function ParseOr(ts: seq<string>): (r: Parsed)
    ensures r.Ok? ==> |r.value.1| < |ts|
    decreases |ts|, 4
  {
    var r := ParseAnd(ts);
    if r.Err? then r else ParseOrTail([r.value.0], r.value.1)
  }

  function ParseTokens(ts: seq<string>): Result<Expr, Error> {
    var r := ParseOr(ts);
    if r.Err? then Err(r.error)
    else if r.value.1 != [] then Err(Unexpected(r.value.1[0]))
    else Ok(r.value.0)
  }

  function Parse(word: WordClass, expr: string): Result<Expr, Error> {
    var tokens := Lex(word, expr);
    if tokens.Err? then Err(tokens.error) else ParseTokens(tokens.value)
  }

  // The parser as it runs: one position over the tokens.
  class Parser {
    const tokens: seq<string>
    var pos: nat

    constructor (tokens: seq<string>)
      ensures this.tokens == tokens && pos == 0
    {
      this.tokens, pos := tokens, 0;
    }

    // The outcome of a method is the function's, and the position is where its remaining tokens start.
    ghost predicate Agrees(r: Result<Expr, Error>, spec: Parsed)
      reads this
    {
      && pos <= |tokens|
      && (r.Err? <==> spec.Err?)
      && if r.Err? then r.error == spec.error else r.value == spec.value.0 && tokens[pos..] == spec.value.1
    }

    predicate Peek(token: string)
      reads this
    {
      pos < |tokens| && tokens[pos] == token
    }

    method ReadNot() returns (r: Result<Expr, Error>)
      requires pos <= |tokens|
      modifies this`pos
      ensures Agrees(r, ParseNot(tokens[old(pos)..]))
      decreases |tokens| - pos, 0
    {
      if Peek("not") {
        pos := pos + 1;
        r := ReadNot();
        return if r.Ok? then Ok(Not(r.value)) else r;
      }
      if pos >= |tokens| {
        return Err(ExpectedIdentifier);
      }
      var t := tokens[pos];
      if t == "(" {
        pos := pos + 1;
        r := ReadOr();
        if r.Ok? {
          if !Peek(")") {
            return Err(MissingParenthesis);
          }
          pos := pos + 1;
        }
        return;
      }
      if t == ")" || t == "and" || t == "or" {
        return Err(Unexpected(t));
      }
      pos := pos + 1;
      r := Ok(Ident(t));
    }

    method ReadAnd() returns (r: Result<Expr, Error>)
      requires pos <= |tokens|
      modifies this`pos
      ensures Agrees(r, ParseAnd(tokens[old(pos)..]))
      decreases |tokens| - pos, 1
    {
      ghost var start := pos;
      r := ReadNot();
      if r.Err? {
        return;
      }
      var items := [r.value];
      while Peek("and")
        invariant start < pos <= |tokens|
        invariant ParseAnd(tokens[start..]) == ParseAndTail(items, tokens[pos..])
        decreases |tokens| - pos
      {
        pos := pos + 1;
        r := ReadNot();
        if r.Err? {
          return;
        }
        items := items + [r.value];
      }
      r := Ok(if |items| == 1 then items[0] else And(items));
    }

    method ReadOr() returns (r: Result<Expr, Error>)
      requires pos <= |tokens|
      modifies this`pos
      ensures Agrees(r, ParseOr(tokens[old(pos)..]))
      decreases |tokens| - pos, 2
    {
      ghost var start := pos;
      r := ReadAnd();
      if r.Err? {
        return;
      }
      var items := [r.value];
      while Peek("or")
        invariant start < pos <= |tokens|
        invariant ParseOr(tokens[start..]) == ParseOrTail(items, tokens[pos..])
        decreases |tokens| - pos
      {
        pos := pos + 1;
        r := ReadAnd();
        if r.Err? {
          return;
        }
        items := items + [r.value];
      }
      r := Ok(if |items| == 1 then items[0] else Or(items));
    }
  }

  method ParseExpr(word: WordClass, expr: string) returns (r: Result<Expr, Error>)
    ensures r == Parse(word, expr)
  {
    var tokens := Tokenize(word, expr);
    if tokens.Err? {
      return Err(tokens.error);
    }
    var parser := new Parser(tokens.value);
    assert parser.tokens[0..] == tokens.value;
    r := parser.ReadOr();
    if r.Ok? && parser.pos != |parser.tokens| {
      r := Err(Unexpected(parser.tokens[parser.pos]));
    }
  }

  // ---- the grammar, said without a parser ----

  const RESERVED := {"(", ")", "and", "or", "not"}

  // `not` binds tightest, then `and`, then `or`; parentheses read as what they enclose.
  ghost predicate ReadsNot(ts: seq<string>, e: Expr)
    decreases |ts|, 0
  {
    || (|ts| > 1 && ts[0] == "not" && e.Not? && ReadsNot(ts[1..], e.arg))
    || (|ts| > 2 && ts[0] == "(" && Last(ts) == ")" && ReadsOr(ts[1..|ts| - 1], e))
    || (|ts| == 1 && ts[0] !in RESERVED && e == Ident(ts[0]))
  }

  // The operands of an `and`, in order.
  ghost predicate ReadsAnds(ts: seq<string>, es: seq<Expr>)
    decreases |ts|, 1
  {
    if |es| == 1 then ReadsNot(ts, es[0])
    else |es| > 1 && exists k :: SplitsAnds(ts, es, k)
  }

  ghost predicate SplitsAnds(ts: seq<string>, es: seq<Expr>, k: nat)
    requires |es| > 1
    decreases |ts|, 0
  {
    0 < k < |ts| && ts[k] == "and" && ReadsNot(ts[..k], es[0]) && ReadsAnds(ts[k + 1..], es[1..])
  }

  ghost predicate ReadsAnd(ts: seq<string>, e: Expr)
    decreases |ts|, 2
  {
    ReadsNot(ts, e) || (e.And? && |e.args| > 1 && ReadsAnds(ts, e.args))
  }

  ghost predicate ReadsOrs(ts: seq<string>, es: seq<Expr>)
    decreases |ts|, 4
  {
    if |es| == 1 then ReadsAnd(ts, es[0])
    else |es| > 1 && exists k :: SplitsOrs(ts, es, k)
  }

  ghost predicate SplitsOrs(ts: seq<string>, es: seq<Expr>, k: nat)
    requires |es| > 1
    decreases |ts|, 3
  {
    0 < k < |ts| && ts[k] == "or" && ReadsAnd(ts[..k], es[0]) && ReadsOrs(ts[k + 1..], es[1..])
  }

  ghost predicate ReadsOr(ts: seq<string>, e: Expr)
    decreases |ts|, 5
  {
    ReadsAnd(ts, e) || (e.Or? && |e.args| > 1 && ReadsOrs(ts, e.args))
  }

  // ---- what the parser reads is in the grammar ----

  lemma {:induction false} ReadsSomething(ts: seq<string>, e: Expr)
    requires ReadsAnd(ts, e)
    ensures ts != []
  {
    if !ReadsNot(ts, e) {
      assert ReadsAnds(ts, e.args);
      var k: nat :| SplitsAnds(ts, e.args, k);
    }
  }

  lemma {:induction false} AndsCons(head: seq<string>, tail: seq<string>, e: Expr, es: seq<Expr>)
    requires ReadsNot(head, e) && ReadsAnds(tail, es)
    ensures ReadsAnds(head + ["and"] + tail, [e] + es)
  {
    var ts := head + ["and"] + tail;
    assert ts[..|head|] == head && ts[|head| + 1..] == tail && ([e] + es)[1..] == es;
    assert SplitsAnds(ts, [e] + es, |head|);
  }

  lemma {:induction false} OrsCons(head: seq<string>, tail: seq<string>, e: Expr, es: seq<Expr>)
    requires ReadsAnd(head, e) && ReadsOrs(tail, es)
    ensures ReadsOrs(head + ["or"] + tail, [e] + es)
  {
    var ts := head + ["or"] + tail;
    ReadsSomething(head, e);
    assert ts[..|head|] == head && ts[|head| + 1..] == tail && ([e] + es)[1..] == es;
    assert SplitsOrs(ts, [e] + es, |head|);
  }

  // The tokens a reading of `ts` consumed.
  function Used(ts: seq<string>, rest: seq<string>): seq<string>
    requires |rest| <= |ts|
  {
    ts[..|ts| - |rest|]
  }

  ghost predicate NotOk(ts: seq<string>, r: Parsed) {
    r.Ok? ==> |r.value.1| < |ts| && ts == Used(ts, r.value.1) + r.value.1 && ReadsNot(Used(ts, r.value.1), r.value.0)
  }

  ghost predicate AndOk(ts: seq<string>, r: Parsed) {
    r.Ok? ==> |r.value.1| < |ts| && ts == Used(ts, r.value.1) + r.value.1 && ReadsAnd(Used(ts, r.value.1), r.value.0)
  }

  ghost predicate OrOk(ts: seq<string>, r: Parsed) {
    r.Ok? ==> |r.value.1| < |ts| && ts == Used(ts, r.value.1) + r.value.1 && ReadsOr(Used(ts, r.value.1), r.value.0)
  }

  lemma {:induction false} NotIsSound(ts: seq<string>)
    ensures NotOk(ts, ParseNot(ts))
    decreases |ts|, 0
  {
    var r := ParseNot(ts);
    if r.Ok? {
      var used := Used(ts, r.value.1);
      if ts[0] == "not" {
        NotIsSound(ts[1..]);
        assert used[1..] == Used(ts[1..], r.value.1);
      } else if ts[0] == "(" {
        OrIsSound(ts[1..]);
        var inner := ParseOr(ts[1..]).value.1;
        assert used[1..|used| - 1] == Used(ts[1..], inner);
        assert ts[1..] == Used(ts[1..], inner) + inner;
        assert Last(used) == inner[0];
      } else {
        assert used == [ts[0]];
      }
    }
  }

  // The operands read after `items`, each behind an `and`.
  ghost predicate AndTailOk(items: seq<Expr>, ts: seq<string>, es: seq<Expr>, r: (Expr, seq<string>)) {
    if es == [] then r == (Joined(items, MakeAnd()), ts)
    else
      && |r.1| < |ts|
      && ts[0] == "and"
      && ts == Used(ts, r.1) + r.1
      && ReadsAnds(Used(ts, r.1)[1..], es)
      && r.0 == And(items + es)
  }

  lemma {:induction false} UsedJoins(ts: seq<string>, mid: seq<string>, rest: seq<string>, link: string)
    requires |rest| < |mid| < |ts| && mid[0] == link && mid == Used(mid, rest) + rest
    requires ts[1..] == Used(ts[1..], mid) + mid
    ensures ts == Used(ts, rest) + rest
    ensures Used(ts, rest)[1..] == Used(ts[1..], mid) + [link] + Used(mid, rest)[1..]
  {
    assert ts == [ts[0]] + Used(ts[1..], mid) + Used(mid, rest) + rest;
    assert Used(mid, rest) == [link] + Used(mid, rest)[1..];
  }

  lemma {:induction false} AndTailExtends(
    items: seq<Expr>, ts: seq<string>, first: (Expr, seq<string>), more: seq<Expr>, r: (Expr, seq<string>))
    requires ts != [] && ts[0] == "and" && NotOk(ts[1..], Ok(first))
    requires AndTailOk(items + [first.0], first.1, more, r) && items != []
    ensures AndTailOk(items, ts, [first.0] + more, r)
  {
    var head := Used(ts[1..], first.1);
    var es := [first.0] + more;
    assert items + [first.0] + more == items + es;
    if more == [] {
      assert Used(ts, r.1) == ["and"] + head;
      assert Used(ts, r.1)[1..] == head;
    } else {
      var tail := Used(first.1, r.1)[1..];
      UsedJoins(ts, first.1, r.1, "and");
      AndsCons(head, tail, first.0, more);
    }
  }

  lemma {:induction false} AndTailIsSound(items: seq<Expr>, ts: seq<string>) returns (es: seq<Expr>)
    requires items != [] && ParseAndTail(items, ts).Ok?
    ensures AndTailOk(items, ts, es, ParseAndTail(items, ts).value)
    decreases |ts|, 1
  {
    var r := ParseAndTail(items, ts).value;
    es := [];
    if ts != [] && ts[0] == "and" {
      NotIsSound(ts[1..]);
      var first := ParseNot(ts[1..]).value;
      var more := AndTailIsSound(items + [first.0], first.1);
      es := [first.0] + more;
      AndTailExtends(items, ts, first, more, r);
    }
  }

  lemma {:induction false} AndIsSound(ts: seq<string>)
    ensures AndOk(ts, ParseAnd(ts))
    decreases |ts|, 2
  {
    NotIsSound(ts);
    var first := ParseNot(ts);
    if first.Ok? && ParseAnd(ts).Ok? {
      var (e, mid) := first.value;
      var rest := ParseAnd(ts).value.1;
      var es := AndTailIsSound([e], mid);
      if es != [] {
        var head, tail := Used(ts, mid), Used(mid, rest)[1..];
        assert Used(ts, rest) == head + ["and"] + tail;
        AndsCons(head, tail, e, es);
      }
    }
  }

  ghost predicate OrTailOk(items: seq<Expr>, ts: seq<string>, es: seq<Expr>, r: (Expr, seq<string>)) {
    if es == [] then r == (Joined(items, MakeOr()), ts)
    else
      && |r.1| < |ts|
      && ts[0] == "or"
      && ts == Used(ts, r.1) + r.1
      && ReadsOrs(Used(ts, r.1)[1..], es)
      && r.0 == Or(items + es)
  }

  lemma {:induction false} OrTailExtends(
    items: seq<Expr>, ts: seq<string>, first: (Expr, seq<string>), more: seq<Expr>, r: (Expr, seq<string>))
    requires ts != [] && ts[0] == "or" && AndOk(ts[1..], Ok(first))
    requires OrTailOk(items + [first.0], first.1, more, r) && items != []
    ensures OrTailOk(items, ts, [first.0] + more, r)
  {
    var head := Used(ts[1..], first.1);
    var es := [first.0] + more;
    assert items + [first.0] + more == items + es;
    if more == [] {
      assert Used(ts, r.1) == ["or"] + head;
      assert Used(ts, r.1)[1..] == head;
    } else {
      var tail := Used(first.1, r.1)[1..];
      UsedJoins(ts, first.1, r.1, "or");
      OrsCons(head, tail, first.0, more);
    }
  }

  lemma {:induction false} OrTailIsSound(items: seq<Expr>, ts: seq<string>) returns (es: seq<Expr>)
    requires items != [] && ParseOrTail(items, ts).Ok?
    ensures OrTailOk(items, ts, es, ParseOrTail(items, ts).value)
    decreases |ts|, 3
  {
    var r := ParseOrTail(items, ts).value;
    es := [];
    if ts != [] && ts[0] == "or" {
      AndIsSound(ts[1..]);
      var first := ParseAnd(ts[1..]).value;
      var more := OrTailIsSound(items + [first.0], first.1);
      es := [first.0] + more;
      OrTailExtends(items, ts, first, more, r);
    }
  }

  lemma {:induction false} OrIsSound(ts: seq<string>)
    ensures OrOk(ts, ParseOr(ts))
    decreases |ts|, 4
  {
    AndIsSound(ts);
    var first := ParseAnd(ts);
    if first.Ok? && ParseOr(ts).Ok? {
      var (e, mid) := first.value;
      var rest := ParseOr(ts).value.1;
      var es := OrTailIsSound([e], mid);
      if es != [] {
        var head, tail := Used(ts, mid), Used(mid, rest)[1..];
        assert Used(ts, rest) == head + ["or"] + tail;
        OrsCons(head, tail, e, es);
      }
    }
  }

  // ---- and everything in the grammar is read ----

  lemma {:induction false} NotIsComplete(ts: seq<string>, e: Expr, rest: seq<string>)
    requires ReadsNot(ts, e)
    ensures ParseNot(ts + rest) == Ok((e, rest))
    decreases |ts|, 0
  {
    if |ts| > 1 && ts[0] == "not" && e.Not? && ReadsNot(ts[1..], e.arg) {
      NotIsComplete(ts[1..], e.arg, rest);
      assert (ts + rest)[1..] == ts[1..] + rest;
    } else if |ts| > 2 && ts[0] == "(" && Last(ts) == ")" && ReadsOr(ts[1..|ts| - 1], e) {
      OrIsComplete(ts[1..|ts| - 1], e, [")"] + rest);
      assert (ts + rest)[1..] == ts[1..|ts| - 1] + ([")"] + rest);
    } else {
      assert (ts + rest)[1..] == rest;
    }
  }

  ghost predicate StopsAnd(rest: seq<string>) {
    rest == [] || rest[0] != "and"
  }

  ghost predicate StopsOr(rest: seq<string>) {
    StopsAnd(rest) && (rest == [] || rest[0] != "or")
  }

  lemma {:induction false} AndTailIsComplete(items: seq<Expr>, ts: seq<string>, es: seq<Expr>, rest: seq<string>)
    requires items != [] && ReadsAnds(ts, es) && StopsAnd(rest)
    ensures ParseAndTail(items, ["and"] + ts + rest) == Ok((And(items + es), rest))
    decreases |ts|, 1
  {
    var input := ["and"] + ts + rest;
    assert input[1..] == ts + rest;
    if |es| == 1 {
      NotIsComplete(ts, es[0], rest);
      assert items + es == items + [es[0]];
    } else {
      var k: nat :| SplitsAnds(ts, es, k);
      var after := ["and"] + ts[k + 1..] + rest;
      assert ts + rest == ts[..k] + after;
      NotIsComplete(ts[..k], es[0], after);
      AndTailIsComplete(items + [es[0]], ts[k + 1..], es[1..], rest);
      assert items + es == items + [es[0]] + es[1..];
    }
  }

  lemma {:induction false} AndIsComplete(ts: seq<string>, e: Expr, rest: seq<string>)
    requires ReadsAnd(ts, e) && StopsAnd(rest)
    ensures ParseAnd(ts + rest) == Ok((e, rest))
    decreases |ts|, 2
  {
    if ReadsNot(ts, e) {
      NotIsComplete(ts, e, rest);
    } else {
      assert ReadsAnds(ts, e.args);
      var k: nat :| SplitsAnds(ts, e.args, k);
      var after := ["and"] + ts[k + 1..] + rest;
      assert ts + rest == ts[..k] + after;
      NotIsComplete(ts[..k], e.args[0], after);
      AndTailIsComplete([e.args[0]], ts[k + 1..], e.args[1..], rest);
      assert [e.args[0]] + e.args[1..] == e.args;
    }
  }

  lemma {:induction false} OrTailIsComplete(items: seq<Expr>, ts: seq<string>, es: seq<Expr>, rest: seq<string>)
    requires items != [] && ReadsOrs(ts, es) && StopsOr(rest)
    ensures ParseOrTail(items, ["or"] + ts + rest) == Ok((Or(items + es), rest))
    decreases |ts|, 3
  {
    var input := ["or"] + ts + rest;
    assert input[1..] == ts + rest;
    if |es| == 1 {
      AndIsComplete(ts, es[0], rest);
      assert items + es == items + [es[0]];
    } else {
      var k: nat :| SplitsOrs(ts, es, k);
      var after := ["or"] + ts[k + 1..] + rest;
      assert ts + rest == ts[..k] + after;
      AndIsComplete(ts[..k], es[0], after);
      OrTailIsComplete(items + [es[0]], ts[k + 1..], es[1..], rest);
      assert items + es == items + [es[0]] + es[1..];
    }
  }

  lemma {:induction false} OrIsComplete(ts: seq<string>, e: Expr, rest: seq<string>)
    requires ReadsOr(ts, e) && StopsOr(rest)
    ensures ParseOr(ts + rest) == Ok((e, rest))
    decreases |ts|, 4
  {
    if ReadsAnd(ts, e) {
      AndIsComplete(ts, e, rest);
    } else {
      assert ReadsOrs(ts, e.args);
      var k: nat :| SplitsOrs(ts, e.args, k);
      var after := ["or"] + ts[k + 1..] + rest;
      assert ts + rest == ts[..k] + after;
      AndIsComplete(ts[..k], e.args[0], after);
      OrTailIsComplete([e.args[0]], ts[k + 1..], e.args[1..], rest);
      assert [e.args[0]] + e.args[1..] == e.args;
    }
  }

  // The parser accepts exactly the grammar's sentences, each with the one tree it stands for.
  lemma {:induction false} ParserIsExact(ts: seq<string>, e: Expr)
    ensures ParseTokens(ts) == Ok(e) <==> ReadsOr(ts, e)
  {
    OrIsSound(ts);
    assert ParseOr(ts).Ok? && ParseOr(ts).value.1 == [] ==> Used(ts, []) == ts;
    if ReadsOr(ts, e) {
      OrIsComplete(ts, e, []);
      assert ts + [] == ts;
    }
  }

  lemma {:induction false} GrammarIsUnambiguous(ts: seq<string>, e: Expr, f: Expr)
    requires ReadsOr(ts, e) && ReadsOr(ts, f)
    ensures e == f
  {
    ParserIsExact(ts, e);
    ParserIsExact(ts, f);
  }

  // ---- printing ----

  predicate IsName(word: WordClass, s: string) {
    s != "" && s !in RESERVED && forall i :: 0 <= i < |s| ==> IsIdentChar(word, s[i])
  }

  // The trees the parser can give back.
  predicate WellFormed(word: WordClass, e: Expr) {
    match e
    case Ident(name) => IsName(word, name)
    case Not(arg) => WellFormed(word, arg)
    case And(args) => |args| > 1 && forall i :: 0 <= i < |args| ==> WellFormed(word, args[i])
    case Or(args) => |args| > 1 && forall i :: 0 <= i < |args| ==> WellFormed(word, args[i])
  }

  // Parentheses only where the grammar needs them.
  function PrintNot(e: Expr): seq<string>
    decreases e, 0
  {
    match e
    case Ident(name) => [name]
    case Not(arg) => ["not"] + PrintNot(arg)
    case And(args) => ["("] + PrintAnds(args) + [")"]
    case Or(args) => ["("] + PrintOrs(args) + [")"]
  }

  function PrintAnds(es: seq<Expr>): seq<string>
    decreases es, 0
  {
    if es == [] then []
    else if |es| == 1 then PrintNot(es[0])
    else PrintNot(es[0]) + ["and"] + PrintAnds(es[1..])
  }

  function PrintAnd(e: Expr): seq<string>
    decreases e, 1
  {
    if e.And? then PrintAnds(e.args) else PrintNot(e)
  }

  function PrintOrs(es: seq<Expr>): seq<string>
    decreases es, 0
  {
    if es == [] then []
    else if |es| == 1 then PrintAnd(es[0])
    else PrintAnd(es[0]) + ["or"] + PrintOrs(es[1..])
  }

  function Print(e: Expr): seq<string> {
    if e.Or? then PrintOrs(e.args) else PrintAnd(e)
  }

  lemma {:induction false} PrintNotReads(word: WordClass, e: Expr)
    requires WellFormed(word, e)
    ensures ReadsNot(PrintNot(e), e)
    decreases e, 0
  {
    var ts := PrintNot(e);
    match e
    case Ident(name) =>
    case Not(arg) =>
      PrintNotReads(word, arg);
      assert ts[1..] == PrintNot(arg);
    case And(args) =>
      PrintAndsReads(word, args);
      assert ts[1..|ts| - 1] == PrintAnds(args);
      ReadsSomething(PrintAnds(args), e);
    case Or(args) =>
      PrintOrsReads(word, args);
      assert ts[1..|ts| - 1] == PrintOrs(args);
      OrsReadSomething(PrintOrs(args), args);
  }

  lemma {:induction false} PrintAndsReads(word: WordClass, es: seq<Expr>)
    requires es != [] && forall i :: 0 <= i < |es| ==> WellFormed(word, es[i])
    ensures ReadsAnds(PrintAnds(es), es)
    decreases es, 0
  {
    PrintNotReads(word, es[0]);
    if |es| > 1 {
      PrintAndsReads(word, es[1..]);
      AndsCons(PrintNot(es[0]), PrintAnds(es[1..]), es[0], es[1..]);
      assert [es[0]] + es[1..] == es;
    }
  }

  lemma {:induction false} PrintAndReads(word: WordClass, e: Expr)
    requires WellFormed(word, e)
    ensures ReadsAnd(PrintAnd(e), e)
    decreases e, 1
  {
    if e.And? {
      PrintAndsReads(word, e.args);
    } else {
      PrintNotReads(word, e);
    }
  }

  lemma {:induction false} PrintOrsReads(word: WordClass, es: seq<Expr>)
    requires es != [] && forall i :: 0 <= i < |es| ==> WellFormed(word, es[i])
    ensures ReadsOrs(PrintOrs(es), es)
    decreases es, 0
  {
    PrintAndReads(word, es[0]);
    if |es| > 1 {
      PrintOrsReads(word, es[1..]);
      OrsCons(PrintAnd(es[0]), PrintOrs(es[1..]), es[0], es[1..]);
      assert [es[0]] + es[1..] == es;
    }
  }

  lemma {:induction false} OrsReadSomething(ts: seq<string>, es: seq<Expr>)
    requires ReadsOrs(ts, es)
    ensures ts != []
  {
    if |es| == 1 {
      ReadsSomething(ts, es[0]);
    } else {
      var k: nat :| SplitsOrs(ts, es, k);
    }
  }

  lemma {:induction false} PrintReads(word: WordClass, e: Expr)
    requires WellFormed(word, e)
    ensures ReadsOr(Print(e), e)
  {
    if e.Or? {
      PrintOrsReads(word, e.args);
    } else {
      PrintAndReads(word, e);
    }
  }

  // ---- and back to characters ----

  predicate IsToken(word: WordClass, t: string) {
    t == "(" || t == ")" || (t != "" && forall i :: 0 <= i < |t| ==> IsIdentChar(word, t[i]))
  }

  predicate AreTokens(word: WordClass, ts: seq<string>) {
    forall i :: 0 <= i < |ts| ==> IsToken(word, ts[i])
  }

  // One space after each token.
  function Spell(ts: seq<string>): string {
    if ts == [] then "" else ts[0] + " " + Spell(ts[1..])
  }

  lemma {:induction false} IdentEndsAtSpace(word: WordClass, t: string, rest: string)
    requires forall i :: 0 <= i < |t| ==> IsIdentChar(word, t[i])
    ensures IdentLength(word, t + " " + rest) == |t|
  {
    var s := t + " " + rest;
    if t != "" {
      IdentEndsAtSpace(word, t[1..], rest);
      assert s[1..] == t[1..] + " " + rest;
    }
  }

  lemma {:induction false} LexToken(word: WordClass, t: string, rest: string)
    requires IsToken(word, t)
    ensures Lex(word, t + " " + rest) == Then(t, Lex(word, rest))
  {
    var s := t + " " + rest;
    assert s[1 + |t|..] == rest;
    var tail := " " + rest;
    assert tail[1..] == rest;
    assert Lex(word, tail) == Lex(word, rest);
    if t == "(" || t == ")" {
      assert s[1..] == tail;
    } else {
      IdentEndsAtSpace(word, t, rest);
      assert IsIdentChar(word, s[0]);
      assert s[..|t|] == t && s[|t|..] == tail;
    }
  }

  lemma {:induction false} LexUndoesSpell(word: WordClass, ts: seq<string>)
    requires AreTokens(word, ts)
    ensures Lex(word, Spell(ts)) == Ok(ts)
  {
    if ts != [] {
      LexUndoesSpell(word, ts[1..]);
      LexToken(word, ts[0], Spell(ts[1..]));
      assert [ts[0]] + ts[1..] == ts;
    }
  }

  lemma {:induction false} LexGivesTokens(word: WordClass, s: string)
    requires Lex(word, s).Ok?
    ensures AreTokens(word, Lex(word, s).value)
    decreases |s|
  {
    if s != "" {
      if IsSpace(s[0]) || IsParen(s[0]) {
        LexGivesTokens(word, s[1..]);
      } else {
        var n := IdentLength(word, s);
        IdentLengthIsLongest(word, s);
        LexGivesTokens(word, s[n..]);
      }
    }
  }

  predicate IsReadable(word: WordClass, c: char) {
    IsSpace(c) || IsParen(c) || IsIdentChar(word, c)
  }

  // The lexer refuses a text exactly when some character has no place in the grammar.
  lemma {:induction false} LexRefusesOnlyStrays(word: WordClass, s: string)
    ensures Lex(word, s).Ok? <==> forall i :: 0 <= i < |s| ==> IsReadable(word, s[i])
    decreases |s|
  {
    if s != "" {
      if IsSpace(s[0]) || IsParen(s[0]) {
        LexRefusesOnlyStrays(word, s[1..]);
        assert s == [s[0]] + s[1..];
      } else {
        var n := IdentLength(word, s);
        IdentLengthIsLongest(word, s);
        if n > 0 {
          LexRefusesOnlyStrays(word, s[n..]);
          assert s == s[..n] + s[n..];
        }
      }
    }
  }

  // And it is the first of them that the error names.
  lemma {:induction false} LexNamesFirstStray(word: WordClass, s: string, i: nat)
    requires i < |s| && !IsReadable(word, s[i]) && forall j :: 0 <= j < i ==> IsReadable(word, s[j])
    ensures Lex(word, s) == Err(UnexpectedCharacter(s[i]))
    decreases |s|
  {
    if IsSpace(s[0]) || IsParen(s[0]) {
      LexNamesFirstStray(word, s[1..], i - 1);
    } else {
      var n := IdentLength(word, s);
      IdentLengthIsLongest(word, s);
      if n > 0 {
        LexNamesFirstStray(word, s[n..], i - n);
      }
    }
  }

  lemma {:induction false} NotTreesAreWellFormed(word: WordClass, ts: seq<string>, e: Expr)
    requires AreTokens(word, ts) && ReadsNot(ts, e)
    ensures WellFormed(word, e)
    decreases |ts|, 0
  {
    if |ts| > 1 && ts[0] == "not" && e.Not? && ReadsNot(ts[1..], e.arg) {
      NotTreesAreWellFormed(word, ts[1..], e.arg);
    } else if |ts| > 2 && ts[0] == "(" && Last(ts) == ")" && ReadsOr(ts[1..|ts| - 1], e) {
      TreesAreWellFormed(word, ts[1..|ts| - 1], e);
    }
  }

  lemma {:induction false} AndsTreesAreWellFormed(word: WordClass, ts: seq<string>, es: seq<Expr>)
    requires AreTokens(word, ts) && ReadsAnds(ts, es)
    ensures forall i :: 0 <= i < |es| ==> WellFormed(word, es[i])
    decreases |ts|, 1
  {
    if |es| == 1 {
      NotTreesAreWellFormed(word, ts, es[0]);
    } else {
      var k: nat :| SplitsAnds(ts, es, k);
      NotTreesAreWellFormed(word, ts[..k], es[0]);
      AndsTreesAreWellFormed(word, ts[k + 1..], es[1..]);
      assert es == [es[0]] + es[1..];
    }
  }

  lemma {:induction false} AndTreesAreWellFormed(word: WordClass, ts: seq<string>, e: Expr)
    requires AreTokens(word, ts) && ReadsAnd(ts, e)
    ensures WellFormed(word, e)
    decreases |ts|, 2
  {
    if ReadsNot(ts, e) {
      NotTreesAreWellFormed(word, ts, e);
    } else {
      AndsTreesAreWellFormed(word, ts, e.args);
    }
  }

  lemma {:induction false} OrsTreesAreWellFormed(word: WordClass, ts: seq<string>, es: seq<Expr>)
    requires AreTokens(word, ts) && ReadsOrs(ts, es)
    ensures forall i :: 0 <= i < |es| ==> WellFormed(word, es[i])
    decreases |ts|, 3
  {
    if |es| == 1 {
      AndTreesAreWellFormed(word, ts, es[0]);
    } else {
      var k: nat :| SplitsOrs(ts, es, k);
      AndTreesAreWellFormed(word, ts[..k], es[0]);
      OrsTreesAreWellFormed(word, ts[k + 1..], es[1..]);
      assert es == [es[0]] + es[1..];
    }
  }

  lemma {:induction false} TreesAreWellFormed(word: WordClass, ts: seq<string>, e: Expr)
    requires AreTokens(word, ts) && ReadsOr(ts, e)
    ensures WellFormed(word, e)
    decreases |ts|, 4
  {
    if ReadsAnd(ts, e) {
      AndTreesAreWellFormed(word, ts, e);
    } else {
      OrsTreesAreWellFormed(word, ts, e.args);
    }
  }

  lemma {:induction false} PrintNotTokens(word: WordClass, e: Expr)
    requires WellFormed(word, e)
    ensures AreTokens(word, PrintNot(e))
    decreases e, 0
  {
    match e
    case Ident(name) =>
    case Not(arg) => PrintNotTokens(word, arg);
    case And(args) => PrintAndsTokens(word, args);
    case Or(args) => PrintOrsTokens(word, args);
  }

  lemma {:induction false} PrintAndsTokens(word: WordClass, es: seq<Expr>)
    requires forall i :: 0 <= i < |es| ==> WellFormed(word, es[i])
    ensures AreTokens(word, PrintAnds(es))
    decreases es, 0
  {
    if es != [] {
      PrintNotTokens(word, es[0]);
      PrintAndsTokens(word, es[1..]);
    }
  }

  lemma {:induction false} PrintAndTokens(word: WordClass, e: Expr)
    requires WellFormed(word, e)
    ensures AreTokens(word, PrintAnd(e))
    decreases e, 1
  {
    if e.And? {
      PrintAndsTokens(word, e.args);
    } else {
      PrintNotTokens(word, e);
    }
  }

  lemma {:induction false} PrintOrsTokens(word: WordClass, es: seq<Expr>)
    requires forall i :: 0 <= i < |es| ==> WellFormed(word, es[i])
    ensures AreTokens(word, PrintOrs(es))
    decreases es, 0
  {
    if es != [] {
      PrintAndTokens(word, es[0]);
      PrintOrsTokens(word, es[1..]);
    }
  }

  lemma {:induction false} PrintTokens(word: WordClass, e: Expr)
    requires WellFormed(word, e)
    ensures AreTokens(word, Print(e))
  {
    if e.Or? {
      PrintOrsTokens(word, e.args);
    } else {
      PrintAndTokens(word, e);
    }
  }

  // Every tree the parser could give back has a text the parser reads as that tree.
  lemma {:induction false} ParseUndoesPrint(word: WordClass, e: Expr)
    requires WellFormed(word, e)
    ensures Parse(word, Spell(Print(e))) == Ok(e)
  {
    PrintTokens(word, e);
    LexUndoesSpell(word, Print(e));
    PrintReads(word, e);
    ParserIsExact(Print(e), e);
  }

  // And it gives back no other: whatever text was read, its tree is well formed, so printing and
  // reading it again changes nothing.
  lemma {:induction false} ParsedTreesPrintBack(word: WordClass, text: string)
    requires Parse(word, text).Ok?
    ensures WellFormed(word, Parse(word, text).value)
    ensures Parse(word, Spell(Print(Parse(word, text).value))) == Parse(word, text)
  {
    var ts := Lex(word, text).value;
    var e := ParseTokens(ts).value;
    LexGivesTokens(word, text);
    ParserIsExact(ts, e);
    TreesAreWellFormed(word, ts, e);
    ParseUndoesPrint(word, e);
  }

  // A text is refused exactly when a character has no place in it, or no tree reads as its tokens.
  lemma {:induction false} RefusedIffUngrammatical(word: WordClass, text: string)
    ensures Parse(word, text).Err? <==>
      Lex(word, text).Err? || forall e :: !ReadsOr(Lex(word, text).value, e)
  {
    var tokens := Lex(word, text);
    if tokens.Ok? {
      var r := ParseTokens(tokens.value);
      if r.Ok? {
        ParserIsExact(tokens.value, r.value);
      } else {
        forall e: Expr
          ensures !ReadsOr(tokens.value, e)
        {
          ParserIsExact(tokens.value, e);
        }
      }
    }
  }

  // ---- which error ----

  // The whole grammar as a counter: whether an operand must come next, and how many parentheses are open.
  // The first token that does not fit is the error; none, and the tokens are an expression.
  function Misfit(ts: seq<string>, operand: bool, open: nat): Option<Error> {
    if operand then
      if ts == [] then Some(ExpectedIdentifier)
      else if ts[0] == "not" then Misfit(ts[1..], true, open)
      else if ts[0] == "(" then Misfit(ts[1..], true, open + 1)
      else if ts[0] in [")", "and", "or"] then Some(Unexpected(ts[0]))
      else Misfit(ts[1..], false, open)
    else if ts != [] && ts[0] in ["and", "or"] then Misfit(ts[1..], true, open)
    else if ts != [] && ts[0] == ")" && open > 0 then Misfit(ts[1..], false, open - 1)
    else if open > 0 then Some(MissingParenthesis)
    else if ts != [] then Some(Unexpected(ts[0]))
    else None
  }

  // Having read from `ts` what it should, a function of the parser leaves the counter where `r` says.
  ghost predicate Counts(r: Parsed, ts: seq<string>, operand: bool, open: nat) {
    Misfit(ts, operand, open) == if r.Err? then Some(r.error) else Misfit(r.value.1, false, open)
  }

  predicate StopsBefore(r: Parsed, operators: set<string>) {
    r.Ok? && r.value.1 != [] ==> r.value.1[0] !in operators
  }

  lemma {:induction false} NotCounts(ts: seq<string>, open: nat)
    ensures Counts(ParseNot(ts), ts, true, open)
    decreases |ts|, 0
  {
    if ts != [] && ts[0] == "not" {
      NotCounts(ts[1..], open);
    } else if ts != [] && ts[0] == "(" {
      OrCounts(ts[1..], open + 1);
    }
  }

  lemma {:induction false} AndTailCounts(items: seq<Expr>, ts: seq<string>, open: nat)
    ensures Counts(ParseAndTail(items, ts), ts, false, open)
    ensures StopsBefore(ParseAndTail(items, ts), {"and"})
    decreases |ts|, 1
  {
    if ts != [] && ts[0] == "and" {
      NotCounts(ts[1..], open);
      var r := ParseNot(ts[1..]);
      if r.Ok? {
        AndTailCounts(items + [r.value.0], r.value.1, open);
      }
    }
  }

  lemma {:induction false} AndCounts(ts: seq<string>, open: nat)
    ensures Counts(ParseAnd(ts), ts, true, open)
    ensures StopsBefore(ParseAnd(ts), {"and"})
    decreases |ts|, 2
  {
    NotCounts(ts, open);
    var r := ParseNot(ts);
    if r.Ok? {
      AndTailCounts([r.value.0], r.value.1, open);
    }
  }

  lemma {:induction false} OrTailCounts(items: seq<Expr>, ts: seq<string>, open: nat)
    requires ts != [] ==> ts[0] != "and"
    ensures Counts(ParseOrTail(items, ts), ts, false, open)
    ensures StopsBefore(ParseOrTail(items, ts), {"and", "or"})
    decreases |ts|, 3
  {
    if ts != [] && ts[0] == "or" {
      AndCounts(ts[1..], open);
      var r := ParseAnd(ts[1..]);
      if r.Ok? {
        OrTailCounts(items + [r.value.0], r.value.1, open);
      }
    }
  }

  lemma {:induction false} OrCounts(ts: seq<string>, open: nat)
    ensures Counts(ParseOr(ts), ts, true, open)
    ensures StopsBefore(ParseOr(ts), {"and", "or"})
    decreases |ts|, 4
  {
    AndCounts(ts, open);
    var r := ParseAnd(ts);
    if r.Ok? {
      OrTailCounts([r.value.0], r.value.1, open);
    }
  }

  // The recursive descent refuses exactly what the counter does, and for the same reason.
  lemma {:induction false} ErrorIsFirstMisfit(ts: seq<string>)
    ensures match ParseTokens(ts)
            case Ok(_) => Misfit(ts, true, 0).None?
            case Err(e) => Misfit(ts, true, 0) == Some(e)
  {
    OrCounts(ts, 0);
  }
}
