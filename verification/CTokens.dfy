/** The token forest of token.cpp: tokens with a chain of children each, built
    in place and printed in preorder. */
module CTokens {

  /** The token types that matter to the parser. */
  datatype Kind =
    | Template | Component | Connect | Inport | Outport | VarId | CompId | PortId | TypeName
    | FunctionDefinition | Char(c: char) | Other(n: nat)

  class CToken {
    var kind: Kind
    var text: string
    var child: CToken?
    var sibling: CToken?
    var lastChild: CToken?

    ghost var kids: seq<CToken>     // the chain of children
    ghost var parent: CToken?
    ghost var height: nat           // more than that of any child
    ghost var out: string           // what printing this token and what is below it gives

    /** The chain of children is what the pointers say. */
    ghost predicate Ok()
      reads this`child, this`lastChild, this`text, this`kids, this`out, this`height
      reads kids`sibling, kids`parent, kids`height, kids`out
    {
      && child == First(kids) && lastChild == Last(kids) && Linked(kids) && Distinct(kids)
      && (forall k :: k in kids ==> k.parent == this && k.height < height)
      && out == text + Outs(kids)
    }

    constructor (kind: Kind, text: string)
      ensures this.kind == kind && this.text == text && IsLeaf() && Ok()
    {
      this.kind, this.text := kind, text;
      child, sibling, lastChild := null, null, null;
      kids, parent, height, out := [], null, 0, text;
    }

    /** A token as the scanner delivers it. */
    ghost predicate IsLeaf()
      reads this
    {
      kids == [] && child == null && lastChild == null && out == text && sibling == null && parent == null
    }

    /** The walk to the end of the children, which lastChild is said to be. */
    method FindLast() returns (t: CToken?)
      requires Ok()
      ensures t == lastChild
    {
      t := child;
      ghost var i := 0;
      while t != null && t.sibling != null
        invariant kids != [] ==> 0 <= i < |kids| && t == kids[i]
        invariant kids == [] ==> t == null
        decreases |kids| - i
      {
        t := t.sibling;
        i := i + 1;
      }
    }

    /** The walk to the end of a chain. */
    static method EndOf(token: CToken, ghost chain: seq<CToken>) returns (last: CToken)
      requires Linked(chain) && chain != [] && token == chain[0]
      ensures last == chain[|chain| - 1]
    {
      last := token;
      ghost var j := 0;
      while last.sibling != null
        invariant 0 <= j < |chain| && last == chain[j]
        decreases |chain| - j
      {
        last := last.sibling;
        j := j + 1;
      }
    }

    /** The pointers of AppendChild. */
    method LinkChain(token: CToken, ghost chain: seq<CToken>)
      requires Ok() && Linked(chain) && Distinct(kids + chain) && chain != [] && token == chain[0]
      modifies this`child, this`lastChild, kids`sibling
      ensures child == First(kids + chain) && lastChild == Last(kids + chain) && Linked(kids + chain)
    {
      hide Outs;
      ghost var all := kids + chain;
      assert forall i :: 0 <= i < |chain| ==> all[|kids| + i] == chain[i];
      var t := FindLast();
      assert lastChild == t;
      if child == null {
        child := token;
        lastChild := EndOf(token, chain);
      } else {
        assert lastChild != null && lastChild == all[|kids| - 1];
        lastChild := EndOf(token, chain);
        t.sibling := token;
      }
      forall j | 0 <= j < |all|
        ensures all[j].sibling == if j + 1 < |all| then all[j + 1] else null
      {
        if j < |kids| - 1 {
          assert all[j] == kids[j] && old(kids[j].sibling) == kids[j + 1];
        } else if j >= |kids| {
          var m := j - |kids|;
          assert all[j] == chain[m] && old(chain[m].sibling) == if m + 1 < |chain| then chain[m + 1] else null;
        }
      }
      assert Linked(all) && all == kids + chain;
    }

    /** The ghost fields after LinkChain. */
    ghost method Adopt(chain: seq<CToken>)
      requires child == First(kids + chain) && lastChild == Last(kids + chain) && Linked(kids + chain)
      requires Distinct(kids + chain) && this !in kids + chain && out == text + Outs(kids)
      requires forall k :: k in kids ==> k.parent == this && k.height < height
      modifies this`kids, this`height, this`out, chain`parent
      ensures Ok() && kids == old(kids) + chain && out == old(out) + old(Outs(chain))
      ensures forall k :: k in chain ==> k.parent == this
    {
      hide Linked, Distinct;
      OutsConcat(kids, chain);
      kids, out, height := kids + chain, out + Outs(chain), height + Tallest(chain);
      forall k | k in chain {
        k.parent := this;
      }
      SameOuts(kids);
    }

    /** Appends a chain of tokens, of which none is a child yet, to the children
        of a token that is none either. */
    method AppendChild(token: CToken, ghost chain: seq<CToken>, ghost all: set<CToken>)
      requires Forest(all) && this in all && parent == null
      requires IsChain(chain, all) && chain != [] && token == chain[0] && this !in chain
      modifies this`child, this`lastChild, this`kids, this`height, this`out, kids`sibling, chain`parent
      ensures Forest(all) && kids == old(kids) + chain && out == old(out) + old(Outs(chain))
      ensures forall k :: k in chain ==> k.parent == this
    {
      hide Linked, Distinct, Outs;
      DistinctConcat(kids, chain);
      LinkChain(token, chain);
      Adopt(chain);
      forall n | n in all && n != this
        ensures n.Ok()
      {
        assert old(n.Ok()) && old(Ok());
        assert forall k :: k in n.kids ==> old(k.parent) == n;
        assert forall k :: k in old(kids) ==> old(k.parent) == this;
        StillOk(n);
      }
    }

    /** The pointers of InsertChild. */
    method LinkInsert(token: CToken, ghost chain: seq<CToken>)
      requires Ok() && Linked(chain) && Distinct(chain + kids) && chain != [] && token == chain[0]
      modifies this`child, this`lastChild, chain`sibling
      ensures child == First(chain + kids) && lastChild == Last(chain + kids) && Linked(chain + kids)
    {
      ghost var all := chain + kids;
      var last := FindLast();
      assert lastChild == last;
      var t := EndOf(token, chain);
      t.sibling := child;
      child := token;
      if lastChild == null {
        lastChild := t;
      }
      forall j | 0 <= j < |all|
        ensures all[j].sibling == if j + 1 < |all| then all[j + 1] else null
      {
        assert all[|chain| - 1] == t;
        if j < |chain| - 1 {
          assert all[j] == chain[j] && old(chain[j].sibling) == chain[j + 1];
        } else if j >= |chain| {
          var m := j - |chain|;
          assert all[j] == kids[m] && old(kids[m].sibling) == if m + 1 < |kids| then kids[m + 1] else null;
        }
      }
      assert Linked(all) && all == chain + kids;
    }

    /** The ghost fields after LinkInsert. */
    ghost method AdoptFirst(chain: seq<CToken>)
      requires child == First(chain + kids) && lastChild == Last(chain + kids) && Linked(chain + kids)
      requires Distinct(chain + kids) && this !in chain + kids && out == text + Outs(kids)
      requires forall k :: k in kids ==> k.parent == this && k.height < height
      modifies this`kids, this`height, this`out, chain`parent
      ensures Ok() && kids == chain + old(kids) && out == text + old(Outs(chain)) + old(Outs(kids))
      ensures forall k :: k in chain ==> k.parent == this
    {
      hide Linked, Distinct;
      OutsConcat(chain, kids);
      kids, out, height := chain + kids, text + Outs(chain) + Outs(kids), height + Tallest(chain);
      forall k | k in chain {
        k.parent := this;
      }
      SameOuts(kids);
    }

    /** Puts a chain of tokens before the children. */
    method InsertChild(token: CToken, ghost chain: seq<CToken>, ghost all: set<CToken>)
      requires Forest(all) && this in all && parent == null
      requires IsChain(chain, all) && chain != [] && token == chain[0] && this !in chain
      modifies this`child, this`lastChild, this`kids, this`height, this`out, chain`sibling, chain`parent
      ensures Forest(all) && kids == chain + old(kids) && out == text + old(Outs(chain)) + old(Outs(kids))
      ensures forall k :: k in chain ==> k.parent == this
    {
      hide Linked, Distinct, Outs;
      DistinctConcat(chain, kids);
      LinkInsert(token, chain);
      AdoptFirst(chain);
      forall n | n in all && n != this
        ensures n.Ok()
      {
        assert old(n.Ok()) && old(Ok());
        assert forall k :: k in n.kids ==> old(k.parent) == n;
        assert forall k :: k in chain ==> old(k.parent) == null;
        StillOk(n);
      }
      var t := FindLast();
      assert lastChild == t;
    }

    /** Prints this token, what is below it, and the rest of its chain, without
        line information. */
    method Write(ghost chain: seq<CToken>, ghost i: int, ghost bound: nat, ghost all: set<CToken>) returns (s: string)
      requires Forest(all) && Linked(chain) && 0 <= i < |chain| && this == chain[i]
      requires forall k :: k in chain ==> k in all && k.height < bound
      ensures s == Outs(chain[i..])
      decreases bound, |chain| - i
    {
      assert Ok();
      s := text;
      assert kids == [] ==> Outs(kids) == "" && out == text;
      if child != null {
        var below := child.Write(kids, 0, height, all);
        assert kids[0..] == kids;
        s := s + below;
      }
      assert s == out;
      assert chain[i..][1..] == chain[i + 1..];
      if sibling != null {
        assert chain[i].sibling == chain[i + 1];
        var rest := sibling.Write(chain, i + 1, bound, all);
        s := s + rest;
      }
    }
  }

  /** A token is linked as before if nothing about it and its children changed. */
  twostate lemma StillOk(n: CToken)
    requires old(n.Ok())
    requires unchanged(n`child) && unchanged(n`lastChild) && unchanged(n`text) && unchanged(n`kids)
    requires unchanged(n`out) && unchanged(n`height)
    requires forall k :: k in n.kids ==>
      k.sibling == old(k.sibling) && k.parent == old(k.parent) && k.height == old(k.height) && k.out == old(k.out)
    ensures n.Ok()
  {
    SameOuts(n.kids);
  }

  twostate lemma SameOuts(s: seq<CToken>)
    requires forall k :: k in s ==> k.out == old(k.out)
    ensures Outs(s) == old(Outs(s))
  {
    if s != [] {
      assert forall k :: k in s[1..] ==> k in s;
      SameOuts(s[1..]);
    }
  }

  lemma DistinctConcat(s: seq<CToken>, t: seq<CToken>)
    requires Distinct(s) && Distinct(t) && forall k :: k in s && k in t ==> k.parent != null && k.parent == null
    ensures Distinct(s + t)
  {
    forall i, j | 0 <= i < j < |s + t|
      ensures (s + t)[i] != (s + t)[j]
    {
      if i < |s| <= j {
        assert s[i] in s && t[j - |s|] in t;
      }
    }
  }

  ghost function First(s: seq<CToken>): CToken? {
    if s == [] then null else s[0]
  }

  ghost function Last(s: seq<CToken>): CToken? {
    if s == [] then null else s[|s| - 1]
  }

  ghost predicate Distinct(s: seq<CToken>) {
    forall i, j :: 0 <= i < j < |s| ==> s[i] != s[j]
  }

  /** The sibling pointers lead along s to its end. */
  ghost predicate Linked(s: seq<CToken>)
    reads s`sibling
  {
    forall i {:trigger s[i].sibling} :: 0 <= i < |s| ==> s[i].sibling == (if i + 1 < |s| then s[i + 1] else null)
  }

  /** What is printed for the tokens of s. */
  ghost function Outs(s: seq<CToken>): string
    reads s`out
  {
    if s == [] then "" else s[0].out + Outs(s[1..])
  }

  /** More than the height of any of s. */
  ghost function Tallest(s: seq<CToken>): (h: nat)
    reads s`height
    ensures forall k :: k in s ==> k.height < h
  {
    if s == [] then 0
    else
      var h := Tallest(s[1..]);
      assert forall k :: k in s ==> k == s[0] || k in s[1..];
      if s[0].height < h then h else s[0].height + 1
  }

  /** All tokens made so far are well linked among themselves. */
  ghost predicate Forest(all: set<CToken>)
    reads all
  {
    (forall n :: n in all ==> forall k :: k in n.kids ==> k in all) && forall n :: n in all ==> n.Ok()
  }

  /** A chain of tokens that are nobody's children. */
  ghost predicate IsChain(s: seq<CToken>, all: set<CToken>)
    reads s
  {
    Linked(s) && Distinct(s) && forall k :: k in s ==> k in all && k.parent == null
  }

  lemma {:induction false} OutsConcat(s: seq<CToken>, t: seq<CToken>)
    ensures Outs(s + t) == Outs(s) + Outs(t)
  {
    if s == [] {
      assert s + t == t;
    } else {
      assert (s + t)[1..] == s[1..] + t;
      OutsConcat(s[1..], t);
    }
  }
}
