/** The parser of parser.cpp on programs without components: it gathers the
    tokens into a forest that prints as the program that was read. */
module CParser {
  import opened CTokens

  ghost function Concat(s: seq<string>): string {
    if s == [] then "" else Concat(s[..|s| - 1]) + s[|s| - 1]
  }

  lemma {:induction false} ConcatAppend(s: seq<string>, t: seq<string>)
    ensures Concat(s + t) == Concat(s) + Concat(t)
  {
    if t == [] {
      assert s + t == s;
    } else {
      assert (s + t)[..|s + t| - 1] == s + t[..|t| - 1];
      ConcatAppend(s, t[..|t| - 1]);
    }
  }

  // What the parser accepts: each function gives the place behind a construct
  // that starts at i, or -1 where the source throws an exception.

  /** Behind the bracket that closes, from inside the outermost pair. */
  ghost function PairEnd(ks: seq<Kind>, left: Kind, right: Kind, i: nat, level: int): (j: int)
    ensures j == -1 || i < j <= |ks|
    decreases |ks| - i
  {
    if i >= |ks| then -1
    else if level == 0 && ks[i] == right then i + 1
    else
      var l := if ks[i] == right then level - 1 else level;
      PairEnd(ks, left, right, i + 1, if ks[i] == left then l + 1 else l)
  }

  /** One round of a bracket loop. */
  lemma PairStep(ks: seq<Kind>, left: Kind, right: Kind, i: nat, level: int)
    ensures PairEnd(ks, left, right, i, level) ==
      if i >= |ks| then -1
      else if level == 0 && ks[i] == right then i + 1
      else PairEnd(ks, left, right, i + 1,
        level + (if ks[i] == right then -1 else 0) + (if ks[i] == left then 1 else 0))
  {
  }

  ghost function MatchPairEnd(ks: seq<Kind>, left: Kind, right: Kind, i: nat): (j: int)
    ensures j == -1 || i < j <= |ks|
  {
    if i < |ks| && ks[i] == left then PairEnd(ks, left, right, i + 1, 0) else -1
  }

  lemma PairStart(ks: seq<Kind>, left: Kind, right: Kind, i: nat)
    ensures MatchPairEnd(ks, left, right, i) ==
      if i < |ks| && ks[i] == left then PairEnd(ks, left, right, i + 1, 0) else -1
  {
  }

  ghost function TemplateEnd(ks: seq<Kind>, i: nat): (j: int)
    ensures j == -1 || i < j <= |ks|
  {
    if i >= |ks| || ks[i] != Template then -1
    else
      var j := MatchPairEnd(ks, Char('<'), Char('>'), i + 1);
      if j == -1 || j == |ks| then -1
      else if ks[j] == Template then MatchPairEnd(ks, Char('<'), Char('>'), j + 1)
      else j
  }

  /** The first place from i on whose type is one of three. */
  ghost function Upto(ks: seq<Kind>, i: nat, a: Kind, b: Kind, c: Kind): (j: int)
    ensures j == -1 || (i <= j < |ks| && (ks[j] == a || ks[j] == b || ks[j] == c))
    decreases |ks| - i
  {
    if i >= |ks| then -1
    else if ks[i] == a || ks[i] == b || ks[i] == c then i
    else Upto(ks, i + 1, a, b, c)
  }

  lemma UptoStep(ks: seq<Kind>, i: nat, a: Kind, b: Kind, c: Kind)
    ensures Upto(ks, i, a, b, c) ==
      if i >= |ks| then -1 else if ks[i] == a || ks[i] == b || ks[i] == c then i else Upto(ks, i + 1, a, b, c)
  {
  }

  /** Behind a function, from its argument list on. */
  ghost function TailEnd(ks: seq<Kind>, i: nat): (j: int)
    ensures j == -1 || i < j <= |ks|
  {
    var j := MatchPairEnd(ks, Char('('), Char(')'), i);
    if j == -1 then -1
    else
      var k := Upto(ks, j, Char(';'), Char('{'), Char('{'));
      if k == -1 then -1
      else if ks[k] == Char(';') then k + 1
      else MatchPairEnd(ks, Char('{'), Char('}'), k)
  }

  /** Where the head of a declaration ends. */
  ghost function HeadEnd(ks: seq<Kind>, i: nat): (j: int)
    ensures j == -1 || i < j < |ks|
  {
    if i >= |ks| || ks[i] != VarId then -1 else Upto(ks, i + 1, Char('('), Char(';'), Char(':'))
  }

  lemma HeadStart(ks: seq<Kind>, i: nat)
    ensures HeadEnd(ks, i) ==
      if i >= |ks| || ks[i] != VarId then -1 else Upto(ks, i + 1, Char('('), Char(';'), Char(':'))
  {
  }

  ghost function VaridEnd(ks: seq<Kind>, i: nat): (j: int)
    ensures j == -1 || i < j <= |ks|
  {
    var h := HeadEnd(ks, i);
    if h == -1 then -1
    else if ks[h] == Char('(') then TailEnd(ks, h)
    else h + 1
  }

  lemma VaridIs(ks: seq<Kind>, i: nat)
    ensures var h := HeadEnd(ks, i);
      VaridEnd(ks, i) == if h == -1 then -1 else if ks[h] == Char('(') then TailEnd(ks, h) else h + 1
    ensures HeadEnd(ks, i) != -1 ==> i < |ks| && ks[i] == VarId
    ensures TakesTemplate(ks, i) <==> HeadEnd(ks, i) != -1
  {
  }

  ghost function NextEnd(ks: seq<Kind>, i: nat): (j: int)
    requires i < |ks|
    ensures j == -1 || i < j <= |ks|
  {
    if ks[i] == Template then TemplateEnd(ks, i)
    else if ks[i] == VarId then VaridEnd(ks, i)
    else i + 1
  }

  /** Where the exception leaves a pair of brackets that is not there: at a
      token of the wrong type, or at the end. */
  ghost function PairStop(ks: seq<Kind>, left: Kind, i: nat): nat {
    if i < |ks| && ks[i] != left then i else |ks|
  }

  /** Where it leaves a template that is none. */
  ghost function TemplateStop(ks: seq<Kind>, i: nat): nat {
    var j := MatchPairEnd(ks, Char('<'), Char('>'), i + 1);
    if j == -1 then PairStop(ks, Char('<'), i + 1)
    else if j == |ks| then |ks|
    else PairStop(ks, Char('<'), j + 1)
  }

  /** Where it leaves the construct at i; only a template can fail before the
      end of the tokens. */
  ghost function NextStop(ks: seq<Kind>, i: nat): (j: nat)
    requires i < |ks|
    ensures i < j <= |ks|
  {
    if ks[i] == Template then TemplateStop(ks, i) else |ks|
  }

  /** What fails at i takes a template before it along: a function whose
      argument list has begun. */
  ghost predicate TakesTemplate(ks: seq<Kind>, i: nat) {
    i < |ks| && ks[i] == VarId && HeadEnd(ks, i) != -1
  }

  /** What is printed for the tokens from i on, after done and, if the last
      construct was a template, after held: everything but the constructs that
      ended in an exception, and a template that such a function had taken. */
  ghost function Printed(ks: seq<Kind>, ts: seq<string>, i: nat, done: string, held: string): string
    requires |ks| == |ts|
    decreases |ks| - i
  {
    if i >= |ks| then done + held
    else
      var j := NextEnd(ks, i);
      if j == -1 then Printed(ks, ts, NextStop(ks, i), done, if TakesTemplate(ks, i) then "" else held)
      else if ks[i] == Template then Printed(ks, ts, j, done + held, Concat(ts[i..j]))
      else Printed(ks, ts, j, done + held + Concat(ts[i..j]), "")
  }

  /** How many errors are reported: one for each exception, and one for each
      port outside a component. */
  ghost function Faults(ks: seq<Kind>, i: nat): nat
    decreases |ks| - i
  {
    if i >= |ks| then 0
    else if NextEnd(ks, i) == -1 then 1 + Faults(ks, NextStop(ks, i))
    else (if ks[i] == Inport || ks[i] == Outport then 1 else 0) + Faults(ks, NextEnd(ks, i))
  }

  /** What one construct changes. */
  lemma OneStep(ks: seq<Kind>, ts: seq<string>, i: nat, done: string, held: string)
    requires |ks| == |ts| && i < |ks|
    ensures var j := NextEnd(ks, i);
      if j == -1 then
        && Printed(ks, ts, i, done, held) ==
           Printed(ks, ts, NextStop(ks, i), done, if TakesTemplate(ks, i) then "" else held)
        && Faults(ks, i) == 1 + Faults(ks, NextStop(ks, i)) && !Accepts(ks, i)
        && i < NextStop(ks, i) <= |ks| && ks[i] != Inport && ks[i] != Outport
      else
        && i < j <= |ks| && Accepts(ks, i) == Accepts(ks, j)
        && Faults(ks, i) == (if ks[i] == Inport || ks[i] == Outport then 1 else 0) + Faults(ks, j)
        && Printed(ks, ts, i, done, held) ==
           if ks[i] == Template then Printed(ks, ts, j, done + held, Concat(ts[i..j]))
           else Printed(ks, ts, j, done + held + Concat(ts[i..j]), "")
  {
  }

  /** A program that parses without exception is printed as it is. */
  lemma {:induction false} AcceptedIsPrinted(ks: seq<Kind>, ts: seq<string>, i: nat, done: string, held: string)
    requires |ks| == |ts| && i <= |ks| && Accepts(ks, i)
    ensures Printed(ks, ts, i, done, held) == done + held + Concat(ts[i..])
    decreases |ks| - i
  {
    if i < |ks| {
      hide NextEnd;
      var j := NextEnd(ks, i);
      assert ts[i..] == ts[i..j] + ts[j..];
      ConcatAppend(ts[i..j], ts[j..]);
      if ks[i] == Template {
        AcceptedIsPrinted(ks, ts, j, done + held, Concat(ts[i..j]));
      } else {
        AcceptedIsPrinted(ks, ts, j, done + held + Concat(ts[i..j]), "");
      }
    } else {
      assert ts[i..] == [];
    }
  }

  /** The token types from i on make a program that parses without exception. */
  ghost predicate Accepts(ks: seq<Kind>, i: nat)
    decreases |ks| - i
  {
    i >= |ks| || (NextEnd(ks, i) != -1 && Accepts(ks, NextEnd(ks, i)))
  }

  class Parser {
    var tokens: seq<CToken>        // what the scanner delivered
    var iter: nat
    var program: seq<CToken>
    var errors: nat
    ghost var texts: seq<string>   // the texts of the tokens
    ghost var kinds: seq<Kind>     // and their types
    ghost var all: set<CToken>     // every token made so far

    constructor (tokens: seq<CToken>, ghost texts: seq<string>, ghost kinds: seq<Kind>)
      requires |texts| == |kinds| == |tokens| && Distinct(tokens)
      requires forall i :: 0 <= i < |tokens| ==>
        tokens[i].IsLeaf() && tokens[i].Ok() && tokens[i].text == texts[i] && tokens[i].kind == kinds[i] && Plain(kinds[i])
      ensures Inv() && iter == 0 && program == [] && errors == 0 && this.texts == texts && this.tokens == tokens
      ensures this.kinds == kinds
      ensures all == Elements(tokens)
    {
      this.tokens, this.texts, this.kinds := tokens, texts, kinds;
      iter, program, errors, all := 0, [], 0, Elements(tokens);
    }

    /** The tokens still to be read are as the scanner made them, and the trees
        of the program are whole and apart from them. */
    ghost predicate Inv()
      reads this, all
    {
      && Forest(all) && iter <= |tokens| == |texts| == |kinds| && Distinct(tokens)
      && (forall i :: 0 <= i < |tokens| ==> tokens[i] in all)
      && (forall i :: iter <= i < |tokens| ==> tokens[i].IsLeaf() && tokens[i].text == texts[i])
      && (forall i :: iter <= i < |tokens| ==> tokens[i].kind == kinds[i] && Plain(kinds[i]))
      && Distinct(program)
      && (forall p :: p in program ==> p in all && p.parent == null && p.sibling == null && p !in tokens[iter..])
    }

    /** The tokens still to be read. */
    ghost function Ahead(): set<CToken>
      requires iter <= |tokens|
      reads this`tokens, this`iter
    {
      Elements(tokens[iter..])
    }

    /** A tree that is in nobody's hands but the caller's. */
    ghost predicate Free(n: CToken)
      reads this, n
    {
      n in all && n.parent == null && n.sibling == null && n !in program && (iter <= |tokens| ==> n !in tokens[iter..])
    }

    /** The texts of the tokens from i to j. */
    ghost function Said(i: int, j: int): string
      requires 0 <= i <= j <= |texts|
      reads this`texts
    {
      Concat(texts[i..j])
    }

    lemma SaidSplit(i: int, j: int, k: int)
      requires 0 <= i <= j <= k <= |texts|
      ensures Said(i, k) == Said(i, j) + Said(j, k)
    {
      assert texts[i..k] == texts[i..j] + texts[j..k];
      ConcatAppend(texts[i..j], texts[j..k]);
    }

    lemma SaidOne(i: int)
      requires 0 <= i < |texts|
      ensures Said(i, i + 1) == texts[i]
    {
      assert texts[i..i + 1] == [texts[i]];
      assert Concat([texts[i]]) == Concat([]) + texts[i];
    }

    /** The type of the next token; the callers have seen that there is one. */
    method MatchAny() returns (t: CToken)
      requires Inv() && iter < |tokens|
      modifies this`iter
      ensures Inv() && iter == old(iter) + 1
      ensures t == tokens[old(iter)] && Free(t) && t.kids == [] && t.out == Said(old(iter), iter)
      ensures old(iter) < |kinds| && t.kind == kinds[old(iter)]
    {
      SaidOne(iter);
      t := tokens[iter];
      iter := iter + 1;
    }

    /** Null stands for the exception at the end of the tokens or at a token of
        another type. */
    method Match(kind: Kind) returns (t: CToken?)
      requires Inv()
      modifies this`iter
      ensures Inv() && old(iter) <= iter
      ensures t != null <==> old(iter) < |kinds| && kinds[old(iter)] == kind
      ensures t == null ==> iter == old(iter)
      ensures t != null ==>
        && iter == old(iter) + 1 && t == tokens[old(iter)] && t.kind == kind
        && Free(t) && t.kids == [] && t.out == Said(old(iter), iter)
    {
      if iter == |tokens| || tokens[iter].kind != kind {
        return null;
      }
      t := MatchAny();
    }

    /** A chain of trees in nobody's hands but the caller's. */
    ghost predicate FreeChain(s: seq<CToken>)
      reads this, s
    {
      && IsChain(s, all)
      && forall k :: k in s ==> k !in program && (iter <= |tokens| ==> k !in tokens[iter..])
    }

    /** One more link of a chain. */
    method Extend(t: CToken, u: CToken, ghost chain: seq<CToken>)
      requires Inv() && FreeChain(chain) && chain != [] && t == chain[|chain| - 1] && Free(u) && u !in chain
      modifies t`sibling
      ensures Inv() && FreeChain(chain + [u])
    {
      t.sibling := u;
      var longer := chain + [u];
      forall i | 0 <= i < |longer|
        ensures longer[i].sibling == if i + 1 < |longer| then longer[i + 1] else null
      {
        if i < |chain| - 1 {
          assert longer[i] == chain[i] && old(chain[i].sibling) == chain[i + 1];
        }
      }
      forall n | n in all
        ensures n.Ok()
      {
        assert old(n.Ok());
        assert t !in n.kids;
        StillOk(n);
      }
    }

    /** The tokens from start on are a chain. */
    ghost predicate Gathered(start: int)
      requires Inv()
      reads this, all, tokens
    {
      && 0 <= start < iter && FreeChain(tokens[start..iter]) && Outs(tokens[start..iter]) == Said(start, iter)
    }

    /** One more token for the chain that ends at t. */
    method Take(t: CToken, ghost start: int) returns (u: CToken)
      requires Inv() && Gathered(start) && iter < |tokens| && t == tokens[iter - 1]
      modifies this`iter, t`sibling
      ensures Inv() && iter == old(iter) + 1 && Gathered(start) && iter <= |tokens| && u == tokens[iter - 1]
    {
      hide Forest, Said, IsChain, Outs;
      ghost var chain := tokens[start..iter];
      u := MatchAny();
      assert tokens[start..iter] == chain + [u];
      SaidSplit(start, old(iter), iter);
      OutsConcat(chain, [u]);
      OutsOne(u);
      label L:
      Extend(t, u, chain);
      SameOuts@L(chain + [u]);
    }

    /** The test of a bracket loop, and its level after the token. */
    method Round(left: Kind, right: Kind, level: int) returns (closed: bool, after: int)
      requires Inv() && iter < |tokens|
      ensures |kinds| == |tokens| && (closed ==> PairEnd(kinds, left, right, iter, level) == iter + 1 && kinds[iter] == right)
      ensures !closed ==> PairEnd(kinds, left, right, iter, level) == PairEnd(kinds, left, right, iter + 1, after)
    {
      hide PairEnd, Forest;
      PairStep(kinds, left, right, iter, level);
      after := level;
      if !(level != 0 || tokens[iter].kind != right) {
        return true, level;
      }
      if tokens[iter].kind == right {
        after := after - 1;
      }
      if tokens[iter].kind == left {
        after := after + 1;
      }
      closed := false;
    }

    /** The chain from the bracket at start to the one that closes it; null if
        there is none. */
    ghost predicate Matched(s: CToken?, chain: seq<CToken>, left: Kind, right: Kind, start: nat)
      reads this, chain
    {
      if s == null then MatchPairEnd(kinds, left, right, start) == -1 && iter == PairStop(kinds, left, start)
      else
        && iter == MatchPairEnd(kinds, left, right, start) && iter <= |tokens| == |texts|
        && FreeChain(chain) && chain == tokens[start..iter] && chain != [] && s == chain[0]
        && Outs(chain) == Said(start, iter)
    }

    /** From a bracket to the one that closes it; the tokens become a chain.
        Null stands for the exception. */
    method MatchPair(left: Kind, right: Kind) returns (s: CToken?, ghost chain: seq<CToken>)
      requires Inv()
      modifies this`iter, Ahead()`sibling
      ensures Inv() && old(iter) <= iter && Matched(s, chain, left, right, old(iter))
    {
      hide *;
      PairStart(kinds, left, right, iter);
      AheadIs();
      ghost var start := iter;
      chain := [];
      s := Match(left);
      if s == null {
        NoPair(left, right, start);
      } else {
        StartChain(s, start);
        AheadIs();
        InAhead(start, start);
        Later(start);
        var ok := Gather(left, right, s, start);
        if !ok {
          s := null;
          NoPair(left, right, start);
        } else {
          chain := tokens[start..iter];
          Pair(s, left, right, start);
        }
      }
    }

    lemma NoPair(left: Kind, right: Kind, start: nat)
      requires Inv()
      requires (iter == start && !(start < |kinds| && kinds[start] == left))
        || (iter == |kinds| && start < |kinds| && kinds[start] == left)
      ensures MatchPairEnd(kinds, left, right, start) == -1 ==> Matched(null, [], left, right, start)
    {
    }

    lemma Pair(s: CToken, left: Kind, right: Kind, start: nat)
      requires Inv() && Gathered(start) && s == tokens[start] && iter == MatchPairEnd(kinds, left, right, start)
      ensures Matched(s, tokens[start..iter], left, right, start)
    {
    }

    /** The loop of MatchPair. */
    method Gather(left: Kind, right: Kind, first: CToken, ghost start: int) returns (ok: bool)
      requires Inv() && Gathered(start) && 0 < iter <= |tokens| && first == tokens[iter - 1]
      modifies this`iter, first`sibling, Ahead()`sibling
      ensures Inv() && old(iter) <= iter && (ok ==> Gathered(start))
      ensures |kinds| == |tokens| && (ok <==> PairEnd(kinds, left, right, old(iter), 0) != -1)
      ensures iter == if ok then PairEnd(kinds, left, right, old(iter), 0) else |kinds|
    {
      hide Forest, Said, IsChain, Outs, Inv, PairEnd, Gathered;
      var t := first;
      var level := 0;
      Bounds();
      while true
        invariant Inv() && old(iter) <= iter <= |tokens| && Gathered(start) && t == tokens[iter - 1]
        invariant t == first || t in old(Ahead())
        invariant PairEnd(kinds, left, right, old(iter), 0) == PairEnd(kinds, left, right, iter, level)
        decreases |tokens| - iter
      {
        if AtEnd() {
          PairStep(kinds, left, right, iter, level);
          return false;
        }
        var closed;
        closed, level := Round(left, right, level);
        InAhead(old(iter), iter);
        t := Take(t, start);
        if closed {
          return true;
        }
      }
    }

    lemma StartChain(t: CToken, start: int)
      requires Inv() && 0 <= start < iter && t == tokens[start] && iter == start + 1
      requires Free(t) && t.out == Said(start, iter)
      ensures Gathered(start) && iter <= |tokens| == |kinds|
    {
      OutsOne(t);
      ChainOne(t);
      assert tokens[start..iter] == [t];
    }

    lemma AheadIs()
      requires Inv()
      ensures iter <= |tokens| == |kinds| && Ahead() == Elements(tokens[iter..])
    {
    }

    lemma InAhead(start: int, i: int)
      requires 0 <= start <= i < |tokens|
      ensures tokens[i] in Elements(tokens[start..])
    {
      assert tokens[start..][i - start] == tokens[i];
    }

    lemma ChainOne(t: CToken)
      requires Free(t)
      ensures FreeChain([t])
    {
    }

    /** AppendChild of trees that are the caller's. */
    method Append(t: CToken, token: CToken, ghost chain: seq<CToken>)
      requires Inv() && Free(t) && FreeChain(chain) && chain != [] && token == chain[0] && t !in chain
      modifies t`child, t`lastChild, t`kids, t`height, t`out, Elements(t.kids)`sibling, Elements(chain)`parent
      ensures Inv() && Free(t) && t.kids == old(t.kids) + chain && t.out == old(t.out) + old(Outs(chain))
    {
      hide Outs, Said;
      assert t.Ok();
      t.AppendChild(token, chain, all);
    }

    /** A tree of the caller's that prints as prefix and the tokens from start
        on, and whose children are among them or extra. */
    ghost predicate Built(t: CToken, prefix: string, start: int, extra: set<CToken>)
      reads this, t
    {
      && Free(t) && 0 <= start <= iter <= |texts| && start <= |tokens| && t.out == prefix + Said(start, iter)
      && forall k :: k in t.kids ==> k in tokens[start..] || k in extra
    }

    /** AppendChild(MatchAny()). */
    method AppendAny(t: CToken, ghost prefix: string, ghost start: int, ghost extra: set<CToken>)
      requires Inv() && Built(t, prefix, start, extra) && iter < |tokens|
      modifies this`iter, t, Elements(t.kids)`sibling, Ahead()`parent
      ensures Inv() && Built(t, prefix, start, extra) && iter == old(iter) + 1 && t.kind == old(t.kind)
      ensures old(iter) < |tokens| && t.kids == old(t.kids) + [tokens[old(iter)]]
    {
      hide Forest, Said;
      var u := MatchAny();
      SaidSplit(start, old(iter), iter);
      OutsOne(u);
      ChainOne(u);
      Append(t, u, [u]);
    }

    /** AppendChild(Match(kind)). */
    method AppendMatch(t: CToken, kind: Kind, ghost prefix: string, ghost start: int, ghost extra: set<CToken>)
        returns (ok: bool)
      requires Inv() && Built(t, prefix, start, extra)
      modifies this`iter, t, Elements(t.kids)`sibling, Ahead()`parent
      ensures Inv() && old(iter) <= iter && t.kind == old(t.kind) && (ok ==> Built(t, prefix, start, extra))
      ensures ok <==> old(iter) < |kinds| && kinds[old(iter)] == kind
      ensures iter == if ok then old(iter) + 1 else old(iter)
    {
      hide Forest, Said;
      var u := Match(kind);
      if u == null {
        return false;
      }
      SaidSplit(start, old(iter), iter);
      OutsOne(u);
      ChainOne(u);
      Append(t, u, [u]);
      ok := true;
    }

    /** AppendChild(MatchPair(left, right)). */
    method AppendPair(t: CToken, left: Kind, right: Kind, ghost prefix: string, ghost start: int, ghost extra: set<CToken>)
        returns (ok: bool)
      requires Inv() && Built(t, prefix, start, extra)
      modifies this`iter, t, Elements(t.kids)`sibling, Ahead()
      ensures Inv() && old(iter) <= iter && t.kind == old(t.kind) && (ok ==> Built(t, prefix, start, extra))
      ensures ok <==> MatchPairEnd(kinds, left, right, old(iter)) != -1
      ensures iter == if ok then MatchPairEnd(kinds, left, right, old(iter)) else PairStop(kinds, left, old(iter))
    {
      hide Forest, Said, Outs, FreeChain;
      var s, chain := MatchPair(left, right);
      if s == null {
        return false;
      }
      SaidSplit(start, old(iter), iter);
      InSlice(start, old(iter));
      Append(t, s, chain);
      ok := true;
    }

    lemma InSlice(start: int, here: int)
      requires 0 <= start <= here <= iter <= |tokens|
      ensures forall k :: k in tokens[here..iter] ==> k in tokens[start..]
    {
    }

    /** What a construct that starts at a token and prints as its own tokens is. */
    ghost predicate Parsed(t: CToken, start: int)
      reads this, t
    {
      Built(t, "", start, {})
    }

    method ParseTemplate() returns (t: CToken?)
      requires Inv()
      modifies this`iter, Ahead()
      ensures Inv() && old(iter) <= iter
      ensures t != null ==> old(iter) < iter && Parsed(t, old(iter)) && t.kind == Template && t in tokens[old(iter)..]
      ensures t != null <==> TemplateEnd(kinds, old(iter)) != -1
      ensures t != null ==> iter == TemplateEnd(kinds, old(iter))
      ensures t == null && old(iter) < |kinds| && kinds[old(iter)] == Template ==> iter == TemplateStop(kinds, old(iter))
    {
      hide Inv, Forest, Said, MatchPairEnd, PairStop, Outs, FreeChain;
      ghost var start := iter;
      t := Match(Template);
      if t == null {
        return;
      }
      var ok := AppendPair(t, Char('<'), Char('>'), "", start, {});
      if !ok || AtEnd() {
        return null;
      }
      var again := NextIs(Template);
      if again {
        Later(start);
        ok := AppendMatch(t, Template, "", start, {});
        if !ok {
          return null;
        }
        Later(start);
        ok := AppendPair(t, Char('<'), Char('>'), "", start, {});
        if !ok {
          return null;
        }
      }
    }

    lemma Later(start: int)
      requires Inv() && 0 <= start <= iter
      ensures Elements(tokens[iter..]) <= Elements(tokens[start..])
    {
      assert tokens[start..][iter - start..] == tokens[iter..];
    }

    predicate AtEnd()
      reads this
    {
      iter == |tokens|
    }

    method NextIs(kind: Kind) returns (yes: bool)
      requires Inv()
      ensures yes <==> iter < |kinds| && kinds[iter] == kind
      ensures iter <= |tokens| == |kinds|
    {
      yes := iter < |tokens| && tokens[iter].kind == kind;
    }

    /** A function body, without connect statements, components and ports. */
    method ParseFunctBody() returns (funct: CToken?)
      requires Inv()
      modifies this`iter, Ahead()
      ensures Inv() && old(iter) <= iter
      ensures funct != null ==> old(iter) < iter && Parsed(funct, old(iter)) && funct in tokens[old(iter)..]
      ensures funct != null <==> MatchPairEnd(kinds, Char('{'), Char('}'), old(iter)) != -1
      ensures funct != null ==> iter == MatchPairEnd(kinds, Char('{'), Char('}'), old(iter))
      ensures funct == null ==> iter == PairStop(kinds, Char('{'), old(iter))
    {
      hide Inv, Forest, Said, PairEnd;
      ghost var start := iter;
      funct := Match(Char('{'));
      if funct == null {
        return;
      }
      var level := 0;
      while true
        invariant Inv() && start < iter <= |tokens| && Parsed(funct, start) && funct in tokens[start..]
        invariant MatchPairEnd(kinds, Char('{'), Char('}'), start) == PairEnd(kinds, Char('{'), Char('}'), iter, level)
        decreases |tokens| - iter
      {
        Bounds();
        if AtEnd() {
          PairStep(kinds, Char('{'), Char('}'), iter, level);
          return null;
        }
        var closed;
        closed, level := Round(Char('{'), Char('}'), level);
        if closed {
          break;
        }
        Later(start);
        AppendAny(funct, "", start, {});
      }
      Later(start);
      var ok := AppendMatch(funct, Char('}'), "", start, {});
      if !ok {
        return null;
      }
    }

    /** A token that the parser makes to hold others. */
    method NewToken(kind: Kind) returns (t: CToken)
      requires Inv()
      modifies this`all
      ensures Inv() && fresh(t) && all == old(all) + {t}
      ensures Free(t) && t.kids == [] && t.out == "" && t.kind == kind
    {
      t := new CToken(kind, "");
      all := all + {t};
    }

    /** AppendChild of one tree that prints as the tokens from here to iter. */
    method AppendTree(t: CToken, u: CToken, ghost prefix: string, ghost start: int, ghost here: int, ghost extra: set<CToken>)
      requires Inv() && Free(t) && Parsed(u, here) && u != t && 0 <= start <= here <= |texts|
      requires t.out == prefix + Said(start, here) && u in tokens[start..]
      requires forall k :: k in t.kids ==> k in tokens[start..] || k in extra
      modifies t, Elements(t.kids)`sibling, u`parent
      ensures Inv() && Built(t, prefix, start, extra) && t.kind == old(t.kind)
    {
      hide Forest, Said;
      SaidSplit(start, here, iter);
      OutsOne(u);
      ChainOne(u);
      Append(t, u, [u]);
    }

    /** The tree of a template that waits for its function, if there is one. */
    ghost function Waiting(): set<CToken>
      reads this`program
    {
      if program == [] then {} else {program[|program| - 1]}
    }

    /** The program ends with a template. */
    ghost predicate Holds()
      reads this`program, program`kind
    {
      program != [] && program[|program| - 1].kind == Template
    }

    /** What the program prints before and for such a template. */
    ghost function Done(): string
      reads this`program, program`kind, program`out
    {
      if Holds() then Outs(program[..|program| - 1]) else Outs(program)
    }

    ghost function Held(): string
      reads this`program, program`kind, program`out
    {
      if Holds() then program[|program| - 1].out else ""
    }

    lemma DoneAndHeld()
      ensures Done() + Held() == Outs(program)
    {
      if Holds() {
        var tmpl := program[|program| - 1];
        OutsConcat(program[..|program| - 1], [tmpl]);
        OutsOne(tmpl);
        assert program == program[..|program| - 1] + [tmpl];
      }
    }

    /** Takes a template off the end of the program. */
    method TakeTemplate(f: CToken) returns (ghost prefix: string)
      requires Inv() && Free(f) && f.kids == [] && f.out == ""
      modifies this`program, f, Waiting()`parent
      ensures Inv() && Free(f) && f.out == prefix && Outs(program) + prefix == old(Outs(program))
      ensures forall k :: k in f.kids ==> k in old(Waiting())
      ensures program <= old(program) && f.kind == old(f.kind) && Outs(program) == old(Done())
    {
      hide Forest, Outs;
      prefix := "";
      if |program| > 0 && program[|program| - 1].kind == Template {
        var tmpl := program[|program| - 1];
        ghost var before := program;
        program := program[..|program| - 1];
        assert before == program + [tmpl];
        OutsConcat(program, [tmpl]);
        OutsOne(tmpl);
        ChainOne(tmpl);
        prefix := tmpl.out;
        label L:
        Append(f, tmpl, [tmpl]);
        SameOuts@L(program);
      }
    }

    /** A function's tree, with the template and with what came before its
        argument list. */
    method BeginFunction(h: CToken) returns (f: CToken, ghost prefix: string)
      requires Inv() && Free(h)
      modifies this`program, this`all, Waiting()`parent, Waiting()`sibling, h`parent
      ensures Inv() && fresh(f) && all == old(all) + {f} && Built(f, prefix, iter, old(Waiting()) + {h})
      ensures Outs(program) + prefix == old(Outs(program)) + h.out
      ensures f.kind == FunctionDefinition && Outs(program) == old(Done())
    {
      hide Forest, Said, Outs, Done, IsChain;
      f := NewToken(FunctionDefinition);
      label L:
      prefix := TakeTemplate(f);
      AppendHead(f, h, prefix, old(Waiting()));
      prefix := prefix + h.out;
    }

    /** AppendChild(h). */
    method AppendHead(f: CToken, h: CToken, ghost prefix: string, ghost extra: set<CToken>)
      requires Inv() && Free(f) && Free(h) && f != h && f.out == prefix
      requires forall k :: k in f.kids ==> k in extra
      modifies f, Elements(f.kids)`sibling, h`parent
      ensures Inv() && Built(f, prefix + h.out, iter, extra + {h}) && f.kind == old(f.kind)
      ensures h.out == old(h.out) && Outs(program) == old(Outs(program))
    {
      hide Forest, Said, Outs, IsChain;
      OutsOne(h);
      ChainOne(h);
      label M:
      Append(f, h, [h]);
      SameOuts@M(program);
      SaidNothing(iter);
    }

    /** A function or its declaration, from its argument list on; h is what came
        before. */
    method ParseFunction(h: CToken) returns (f: CToken?)
      requires Inv() && Free(h) && iter < |kinds| && kinds[iter] == Char('(')
      modifies this`iter, this`program, this`all, Ahead(), Waiting()`parent, Waiting()`sibling, h`parent, h`sibling
      ensures Inv() && old(iter) <= iter && old(all) <= all && fresh(all - old(all))
      ensures f != null <==> TailEnd(kinds, old(iter)) != -1
      ensures iter == if f != null then TailEnd(kinds, old(iter)) else |kinds|
      ensures Outs(program) == old(Done())
      ensures f != null ==> f.kind == FunctionDefinition
      ensures f != null ==> Free(f) && Outs(program) + f.out == old(Outs(program)) + h.out + Said(old(iter), iter)
    {
      hide Forest, Said, Outs, Inv;
      ghost var start := iter;
      ghost var prefix: string;
      f, prefix := BeginFunction(h);
      label L:
      Apart();
      var ok := FinishFunction(f, prefix, start, Elements(f.kids));
      SameOuts@L(program);
      if !ok {
        return null;
      }
    }

    lemma Bounds()
      requires Inv()
      ensures iter <= |tokens| == |texts| == |kinds|
    {
    }

    lemma Apart()
      requires Inv()
      ensures forall p :: p in program ==> p !in Ahead()
    {
    }

    /** The argument list and what follows it, to a semicolon or a body. */
    method FinishFunction(f: CToken, ghost prefix: string, ghost start: int, ghost extra: set<CToken>) returns (ok: bool)
      requires Inv() && Built(f, prefix, start, extra) && start == iter && extra == Elements(f.kids)
      requires start < |kinds| && kinds[start] == Char('(')
      modifies this`iter, f, Elements(f.kids)`sibling, Ahead()
      ensures Inv() && old(iter) <= iter && (ok ==> Built(f, prefix, start, extra))
      ensures ok <==> TailEnd(kinds, start) != -1
      ensures iter == if ok then TailEnd(kinds, start) else |kinds|
      ensures f.kind == old(f.kind)
    {
      hide Forest, Said, Outs, Inv, MatchPairEnd, Upto, Built;
      ok := AppendPair(f, Char('('), Char(')'), prefix, start, extra);
      Bounds();
      UptoStep(kinds, iter, Char(';'), Char('{'), Char('{'));
      if !ok || AtEnd() {
        return false;
      }
      Within(f, prefix, start, extra);
      ok := AppendTail(f, prefix, start, extra);
    }

    lemma Within(f: CToken, prefix: string, start: int, extra: set<CToken>)
      requires Inv() && Built(f, prefix, start, extra)
      ensures 0 <= start <= iter && Elements(f.kids) <= Elements(tokens[start..]) + extra
      ensures Elements(tokens[iter..]) <= Elements(tokens[start..])
    {
      Later(start);
    }

    /** What follows the argument list. */
    method AppendTail(f: CToken, ghost prefix: string, ghost start: int, ghost extra: set<CToken>) returns (ok: bool)
      requires Inv() && Built(f, prefix, start, extra) && iter < |tokens|
      modifies this`iter, f, Elements(f.kids)`sibling, Ahead()
      ensures Inv() && old(iter) <= iter && (ok ==> Built(f, prefix, start, extra)) && f.kind == old(f.kind)
      ensures var k := Upto(kinds, old(iter), Char(';'), Char('{'), Char('{'));
        && (ok <==> k != -1 && (kinds[k] == Char(';') || MatchPairEnd(kinds, Char('{'), Char('}'), k) != -1))
        && iter == if !ok then |kinds|
                   else if kinds[k] == Char(';') then k + 1 else MatchPairEnd(kinds, Char('{'), Char('}'), k)
    {
      hide Forest, Said, Outs, Inv, MatchPairEnd, Upto, Built;
      ghost var here := iter;
      var found := NextIs(Char(';'));
      Bounds();
      UptoStep(kinds, iter, Char(';'), Char('{'), Char('{'));
      if !found {
        while true
          invariant Inv() && here <= iter <= |tokens| && Built(f, prefix, start, extra) && f.kind == old(f.kind)
          invariant Elements(f.kids) <= old(Elements(f.kids)) + old(Ahead())
          invariant Upto(kinds, iter, Char(';'), Char('{'), Char('{')) == Upto(kinds, here, Char(';'), Char('{'), Char('{'))
          decreases |tokens| - iter
        {
          UptoStep(kinds, iter, Char(';'), Char('{'), Char('{'));
          Bounds();
          if AtEnd() {
            return false;
          }
          var brace := NextIs(Char('{'));
          found := NextIs(Char(';'));
          if brace || found {
            break;
          }
          Later(here);
          InAhead(here, iter);
          AppendAny(f, prefix, start, extra);
        }
      }
      Later(here);
      if found {
        ok := AppendMatch(f, Char(';'), prefix, start, extra);
      } else {
        ok := AppendBody(f, prefix, start, extra);
      }
    }

    /** AppendChild(parse_funct_body()). */
    method AppendBody(f: CToken, ghost prefix: string, ghost start: int, ghost extra: set<CToken>) returns (ok: bool)
      requires Inv() && Built(f, prefix, start, extra)
      modifies this`iter, f, Elements(f.kids)`sibling, Ahead()
      ensures Inv() && old(iter) <= iter && (ok ==> Built(f, prefix, start, extra))
      ensures ok <==> MatchPairEnd(kinds, Char('{'), Char('}'), old(iter)) != -1
      ensures ok ==> iter == MatchPairEnd(kinds, Char('{'), Char('}'), old(iter))
      ensures !ok ==> iter == PairStop(kinds, Char('{'), old(iter))
      ensures f.kind == old(f.kind)
    {
      hide Forest, Said, Outs;
      ghost var here := iter;
      var body := ParseFunctBody();
      if body == null {
        return false;
      }
      Later(start);
      AppendTree(f, body, prefix, start, here, extra);
      ok := true;
    }

    lemma SaidNothing(i: int)
      requires 0 <= i <= |texts|
      ensures Said(i, i) == ""
    {
    }

    lemma Single(t: CToken, start: int)
      requires Inv() && 0 <= start < iter && Free(t) && t.kids == [] && t.out == Said(start, iter)
      ensures Parsed(t, start) && iter <= |tokens|
    {
    }

    /** The first loop of parse_varid: an identifier and what follows it. */
    method ParseHead() returns (t: CToken?)
      requires Inv()
      modifies this`iter, Ahead()
      ensures Inv() && old(iter) <= iter
      ensures t != null ==> old(iter) < iter < |tokens| && Parsed(t, old(iter)) && t in old(Ahead())
      ensures t != null <==> HeadEnd(kinds, old(iter)) != -1
      ensures t != null ==> iter == HeadEnd(kinds, old(iter)) && t.kind == VarId
      ensures t == null && old(iter) < |kinds| && kinds[old(iter)] == VarId ==> iter == |kinds|
    {
      hide Forest, Said, Outs, Inv, Upto, HeadEnd, Free;
      ghost var start := iter;
      HeadStart(kinds, start);
      t := Match(VarId);
      if t == null {
        return;
      }
      Single(t, start);
      while true
        invariant Inv() && start < iter <= |tokens| && Parsed(t, start) && t in tokens[start..] && t.kind == VarId
        invariant HeadEnd(kinds, start) == Upto(kinds, iter, Char('('), Char(';'), Char(':'))
        decreases |tokens| - iter
      {
        UptoStep(kinds, iter, Char('('), Char(';'), Char(':'));
        Bounds();
        if AtEnd() {
          return null;
        }
        var stop := EndsHead();
        if stop {
          break;
        }
        Later(start);
        AppendAny(t, "", start, {});
      }
    }

    /** What starts with an identifier: a function, or a piece of a declaration. */
    method ParseVarid() returns (t: CToken?)
      requires Inv()
      modifies this`iter, this`program, this`all, Ahead(), Waiting()`parent, Waiting()`sibling
      ensures Inv() && old(iter) <= iter && old(all) <= all && fresh(all - old(all))
      ensures t != null <==> VaridEnd(kinds, old(iter)) != -1
      ensures t != null ==> iter == VaridEnd(kinds, old(iter)) && t.kind != Template
      ensures t == null && old(iter) < |kinds| && kinds[old(iter)] == VarId ==> iter == |kinds|
      ensures t == null && TakesTemplate(kinds, old(iter)) ==> Outs(program) == old(Done())
      ensures t == null && !TakesTemplate(kinds, old(iter)) ==> program == old(program)
      ensures t != null ==>
        old(iter) < iter && Free(t) && Outs(program) + t.out == old(Outs(program)) + Said(old(iter), iter)
    {
      hide Forest, Said, Outs, Inv, TailEnd, Upto, HeadEnd, VaridEnd, TakesTemplate, Done, FreeChain;
      ghost var start := iter;
      Apart();
      VaridIs(kinds, start);
      label L:
      t := ParseHead();
      SameOuts@L(program);
      if t == null {
        return;
      }
      SameDone@L();
      Later(start);
      t := ParseRest(t, start);
    }

    /** What comes behind the head of a declaration. */
    method ParseRest(h: CToken, ghost start: int) returns (t: CToken?)
      requires Inv() && 0 <= start < iter < |tokens| && Parsed(h, start) && h.kind == VarId
      requires HeadEnd(kinds, start) == iter
      modifies this`iter, this`program, this`all, h, Elements(h.kids)`sibling, Ahead(), Waiting()`parent, Waiting()`sibling
      ensures Inv() && old(iter) <= iter && old(all) <= all && fresh(all - old(all))
      ensures t != null <==> VaridEnd(kinds, start) != -1
      ensures t != null ==> iter == VaridEnd(kinds, start) && t.kind != Template
      ensures t == null ==> iter == |kinds| && Outs(program) == old(Done())
      ensures t != null ==> Free(t) && Outs(program) + t.out == old(Outs(program)) + Said(start, iter)
    {
      hide Forest, Said, Outs, Inv, TailEnd, Upto, HeadEnd, VaridEnd, TakesTemplate, Done, FreeChain;
      VaridIs(kinds, start);
      Bounds();
      ghost var here := iter;
      var call := NextIs(Char('('));
      if call {
        t := ParseFunction(h);
        Bounds();
        SaidSplit(start, here, iter);
      } else {
        Apart();
        label L:
        t := h;
        AppendAny(t, "", start, {});
        SameOuts@L(program);
      }
    }

    /** The next token is one of those that end the head of a declaration. */
    method EndsHead() returns (yes: bool)
      requires Inv() && iter < |tokens|
      ensures |kinds| == |tokens|
      ensures yes <==> kinds[iter] == Char('(') || kinds[iter] == Char(';') || kinds[iter] == Char(':')
    {
      var kind := tokens[iter].kind;
      yes := kind == Char('(') || kind == CompId || kind == Char(';') || kind == Char(':');
    }

    /** One round of the main loop: the next construct, with what it must print. */
    method ParseNext() returns (t: CToken?)
      requires Inv() && iter < |tokens|
      modifies this`iter, this`program, this`all, this`errors, Ahead(), Waiting()`parent, Waiting()`sibling
      ensures Inv() && old(iter) <= iter && old(all) <= all && fresh(all - old(all))
      ensures old(iter) < |kinds| && (t != null <==> NextEnd(kinds, old(iter)) != -1)
      ensures iter == if t != null then NextEnd(kinds, old(iter)) else NextStop(kinds, old(iter))
      ensures t == null && TakesTemplate(kinds, old(iter)) ==> iter == |kinds| && Outs(program) == old(Done())
      ensures t == null && !TakesTemplate(kinds, old(iter)) ==> program == old(program)
      ensures t != null ==> (t.kind == Template <==> kinds[old(iter)] == Template)
      ensures t != null && t.kind == Template ==> Outs(program) == old(Outs(program)) && t.out == Said(old(iter), iter)
      ensures errors == old(errors) + if kinds[old(iter)] == Inport || kinds[old(iter)] == Outport then 1 else 0
      ensures t != null ==>
        old(iter) < iter && Free(t) && Outs(program) + t.out == old(Outs(program)) + Said(old(iter), iter)
    {
      hide Forest, Said, Outs, TemplateEnd, VaridEnd;
      Apart();
      label L:
      var kind := tokens[iter].kind;
      if kind == Template {
        t := ParseTemplate();
        SameOuts@L(program);
      } else if kind == VarId {
        t := ParseVarid();
      } else {
        t := MatchAny();
        SameOuts@L(program);
        if kind == Inport || kind == Outport {
          errors := errors + 1;
        }
      }
    }

    /** The main loop.  After an exception it goes on where the exception left
        the tokens, having lost what it was reading. */
    method Parse() returns (ok: bool)
      requires Inv() && iter == 0 && program == [] && errors == 0
      modifies this`iter, this`program, this`all, this`errors, all
      ensures Inv() && |kinds| == |texts| && Outs(program) == Printed(kinds, texts, 0, "", "")
      ensures errors == Faults(kinds, 0) && (ok <==> Accepts(kinds, 0))
    {
      hide Forest, Said, Outs, Inv, NextEnd, NextStop, Printed, Faults, Accepts, Done, Held;
      ok := true;
      NothingSaid();
      Bounds();
      while iter < |tokens|
        invariant Inv() && iter <= |tokens| == |texts| == |kinds| && old(all) <= all && fresh(all - old(all))
        invariant Printed(kinds, texts, 0, "", "") == Printed(kinds, texts, iter, Done(), Held())
        invariant Faults(kinds, 0) == errors + Faults(kinds, iter)
        invariant Accepts(kinds, 0) <==> ok && Accepts(kinds, iter)
        decreases |tokens| - iter
      {
        WithinAll();
        var fine := ParseOne();
        ok := ok && fine;
        Bounds();
      }
      DoneAndHeld();
      AllRead(Done(), Held());
    }

    /** One round of the main loop. */
    method ParseOne() returns (fine: bool)
      requires Inv() && iter < |tokens|
      modifies this`iter, this`program, this`all, this`errors, Ahead(), Waiting()`parent, Waiting()`sibling
      ensures Inv() && old(iter) < iter <= |kinds| == |texts| && old(all) <= all && fresh(all - old(all))
      ensures Printed(kinds, texts, old(iter), old(Done()), old(Held())) == Printed(kinds, texts, iter, Done(), Held())
      ensures errors + Faults(kinds, iter) == old(errors) + Faults(kinds, old(iter))
      ensures Accepts(kinds, old(iter)) <==> fine && Accepts(kinds, iter)
    {
      hide Forest, Said, Outs, Inv, NextEnd, NextStop, Printed, Faults, Accepts, Done, Held, TakesTemplate;
      ghost var start := iter;
      DoneAndHeld();
      Apart();
      Bounds();
      OneStep(kinds, texts, start, Done(), Held());
      label L:
      var t := ParseNext();
      Bounds();
      fine := t != null;
      if t == null {
        Fail();
        if TakesTemplate(kinds, start) {
          DoneAndHeld();
          AllRead(Done(), Held());
          AllRead(old(Done()), "");
        } else {
          SameOuts@L(program);
          SameDone@L();
        }
      } else {
        SaidIs(start, iter);
        Push(t);
      }
    }

    twostate lemma SameDone()
      requires program == old(program) && forall p :: p in program ==> p.out == old(p.out) && p.kind == old(p.kind)
      ensures Done() == old(Done()) && Held() == old(Held())
    {
      SameOuts(program);
      if Holds() {
        SameOuts(program[..|program| - 1]);
      }
    }

    lemma SaidIs(i: int, j: int)
      requires 0 <= i <= j <= |texts|
      ensures Said(i, j) == Concat(texts[i..j])
    {
    }

    lemma AllRead(done: string, held: string)
      requires Inv() && iter >= |kinds|
      ensures |kinds| == |texts| && Printed(kinds, texts, iter, done, held) == done + held
      ensures Faults(kinds, iter) == 0 && Accepts(kinds, iter)
    {
    }

    method Fail()
      requires Inv()
      modifies this`errors
      ensures Inv() && errors == old(errors) + 1
    {
      errors := errors + 1;
    }

    method Push(t: CToken)
      requires Inv() && Free(t)
      modifies this`program
      ensures Inv() && program == old(program) + [t]
      ensures Done() == (if t.kind == Template then Outs(old(program)) else Outs(old(program)) + t.out)
      ensures Held() == if t.kind == Template then t.out else ""
    {
      program := program + [t];
      assert program[..|program| - 1] == old(program);
      OutsConcat(old(program), [t]);
      OutsOne(t);
    }

    lemma NothingSaid()
      requires program == []
      ensures Done() == "" && Held() == ""
    {
    }

    lemma WithinAll()
      requires Inv()
      ensures Ahead() <= all && Waiting() <= all
    {
    }

    method WriteProgram() returns (s: string)
      requires Inv()
      modifies this`program
      ensures s == old(Outs(program)) && program == []
    {
      hide Outs, Said;
      s := "";
      var i := 0;
      NoOuts();
      while i < |program|
        modifies {}
        invariant 0 <= i <= |program| && s == Outs(program[..i])
      {
        var p := program[i];
        assert p in program && Linked([p]);
        OutsOne(p);
        OutsConcat(program[..i], [p]);
        assert program[..i + 1] == program[..i] + [p] && [p][0..] == [p];
        var t := p.Write([p], 0, p.height + 1, all);
        s := s + t;
        i := i + 1;
      }
      assert program[..i] == program;
      program := [];
    }
  }

  /** Reads and prints any program without components: what is printed is
      everything but the constructs that ended in an exception, and so, if none
      did, what was read, token by token and nothing else. */
  method Translate(kinds: seq<Kind>, texts: seq<string>) returns (ok: bool, errors: nat, printed: string)
    requires |kinds| == |texts| && forall i :: 0 <= i < |kinds| ==> Plain(kinds[i])
    ensures printed == Printed(kinds, texts, 0, "", "") && errors == Faults(kinds, 0)
    ensures ok <==> Accepts(kinds, 0)
    ensures ok ==> printed == Concat(texts)
  {
    hide Concat, Outs, Printed, Faults, Accepts;
    var tokens := [];
    for i := 0 to |kinds|
      invariant |tokens| == i && Distinct(tokens) && fresh(Elements(tokens))
      invariant forall j :: 0 <= j < i ==>
        tokens[j].IsLeaf() && tokens[j].Ok() && tokens[j].text == texts[j] && tokens[j].kind == kinds[j]
    {
      var t := new CToken(kinds[i], texts[i]);
      assert Elements(tokens + [t]) == Elements(tokens) + {t};
      tokens := tokens + [t];
    }
    var parser := new Parser(tokens, texts, kinds);
    ok := parser.Parse();
    errors := parser.errors;
    printed := parser.WriteProgram();
    if ok {
      AcceptedIsPrinted(kinds, texts, 0, "", "");
      assert texts[0..] == texts;
    }
  }

  /** What a program without components is made of. */
  predicate Plain(kind: Kind) {
    !kind.Component? && !kind.Connect? && !kind.CompId? && !kind.PortId? && !kind.TypeName?
  }

  ghost function Elements(s: seq<CToken>): set<CToken> {
    set k | k in s
  }

  lemma NoOuts()
    ensures Outs([]) == ""
  {
  }

  lemma OutsOne(t: CToken)
    ensures Outs([t]) == t.out
  {
    assert [t][1..] == [];
  }
}
