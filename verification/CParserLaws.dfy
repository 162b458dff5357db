/** The grammar behind the parser, said without its loops: what counts as a
    construct, how a text splits into constructs and failures, and which of
    its tokens are printed. */
module CParserLaws {
  import opened CTokens
  import opened CParser

  /** How often k stands from i to j. */
  ghost function Count(ks: seq<Kind>, k: Kind, i: int, j: int): int
    requires 0 <= i <= j <= |ks|
  {
    if i == j then 0 else Count(ks, k, i, j - 1) + (if ks[j - 1] == k then 1 else 0)
  }

  /** From a bracket at i to the one before j that closes it: as many of the
      one as of the other, and not so at any place between. */
  ghost predicate Closes(ks: seq<Kind>, left: Kind, right: Kind, i: int, j: int) {
    && 0 <= i < j <= |ks| && ks[i] == left
    && Count(ks, left, i, j) == Count(ks, right, i, j)
    && forall k :: i < k < j ==> Count(ks, left, i, k) > Count(ks, right, i, k)
  }

  /** j is the first place from i on whose type is one of those. */
  ghost predicate FirstOf(ks: seq<Kind>, i: int, j: int, those: set<Kind>) {
    0 <= i <= j < |ks| && ks[j] in those && forall k :: i <= k < j ==> ks[k] !in those
  }

  ghost predicate EndsTemplate(ks: seq<Kind>, m: int, j: int) {
    0 <= m < |ks| && if ks[m] == Template then Closes(ks, Char('<'), Char('>'), m + 1, j) else j == m
  }

  /** One or two template heads, something behind them. */
  ghost predicate IsTemplate(ks: seq<Kind>, i: int, j: int) {
    && 0 <= i < |ks| && ks[i] == Template
    && exists m :: Closes(ks, Char('<'), Char('>'), i + 1, m) && EndsTemplate(ks, m, j)
  }

  ghost predicate EndsFunction(ks: seq<Kind>, b: int, j: int) {
    0 <= b < |ks| && if ks[b] == Char(';') then j == b + 1 else Closes(ks, Char('{'), Char('}'), b, j)
  }

  /** An argument list, then a semicolon or a body. */
  ghost predicate IsFunction(ks: seq<Kind>, i: int, j: int) {
    exists m, b ::
      Closes(ks, Char('('), Char(')'), i, m) && FirstOf(ks, m, b, {Char(';'), Char('{')}) && EndsFunction(ks, b, j)
  }

  ghost predicate IsHead(ks: seq<Kind>, i: int, h: int) {
    0 <= i < |ks| && ks[i] == VarId && FirstOf(ks, i + 1, h, {Char('('), Char(';'), Char(':')})
  }

  ghost predicate HasHead(ks: seq<Kind>, i: int) {
    exists h :: IsHead(ks, i, h)
  }

  ghost predicate EndsVarid(ks: seq<Kind>, h: int, j: int) {
    0 <= h < |ks| && if ks[h] == Char('(') then IsFunction(ks, h, j) else j == h + 1
  }

  ghost predicate IsVarid(ks: seq<Kind>, i: int, j: int) {
    exists h :: IsHead(ks, i, h) && EndsVarid(ks, h, j)
  }

  ghost predicate Construct(ks: seq<Kind>, i: int, j: int) {
    && 0 <= i < |ks|
    && if ks[i] == Template then IsTemplate(ks, i, j)
       else if ks[i] == VarId then IsVarid(ks, i, j)
       else j == i + 1
  }

  /** Reading goes on at a token that should have been the opening bracket of a
      template head, and else nowhere. */
  ghost predicate Misplaced(ks: seq<Kind>, i: int, j: int) {
    && 0 <= i < |ks| && ks[i] == Template && i < j < |ks| && ks[j] != Char('<')
    && (j == i + 1 || (Closes(ks, Char('<'), Char('>'), i + 1, j - 1) && ks[j - 1] == Template))
  }

  ghost predicate Failure(ks: seq<Kind>, i: int, j: int) {
    && 0 <= i < |ks| && (forall k :: !Construct(ks, i, k))
    && if exists k :: Misplaced(ks, i, k) then Misplaced(ks, i, j) else j == |ks|
  }

  /** cuts splits the text into constructs and failures. */
  ghost predicate Reading(ks: seq<Kind>, cuts: seq<nat>) {
    && cuts != [] && cuts[|cuts| - 1] == |ks|
    && forall n :: 0 <= n < |cuts| - 1 ==> Construct(ks, cuts[n], cuts[n + 1]) || Failure(ks, cuts[n], cuts[n + 1])
  }

  // Brackets.

  lemma CountStart(ks: seq<Kind>, k: Kind, i: int)
    requires 0 <= i < |ks|
    ensures Count(ks, k, i, i + 1) == if ks[i] == k then 1 else 0
  {
    assert Count(ks, k, i, i) == 0;
  }

  lemma CountNext(ks: seq<Kind>, k: Kind, i: int, j: int)
    requires 0 <= i <= j < |ks|
    ensures Count(ks, k, i, j + 1) == Count(ks, k, i, j) + if ks[j] == k then 1 else 0
  {
  }

  /** The pair that opened at s is still open at i. */
  ghost predicate Open(ks: seq<Kind>, left: Kind, right: Kind, s: int, i: int) {
    && 0 <= s < i <= |ks| && ks[s] == left
    && forall k :: s < k <= i ==> Count(ks, left, s, k) > Count(ks, right, s, k)
  }

  lemma OpenEnds(ks: seq<Kind>, left: Kind, right: Kind, s: int)
    requires Open(ks, left, right, s, |ks|)
    ensures forall j :: !Closes(ks, left, right, s, j)
  {
    hide Count;
  }

  lemma OpenNext(ks: seq<Kind>, left: Kind, right: Kind, s: int, i: int)
    requires left != right && Open(ks, left, right, s, i) && i < |ks|
    ensures if Count(ks, left, s, i) - Count(ks, right, s, i) == 1 && ks[i] == right
      then Closes(ks, left, right, s, i + 1) else Open(ks, left, right, s, i + 1)
  {
    hide Count;
    CountNext(ks, left, s, i);
    CountNext(ks, right, s, i);
    forall k | s < k < i + 1
      ensures Count(ks, left, s, k) > Count(ks, right, s, k)
    {
      hide Closes;
    }
  }

  /** Within a pair that opened at s, the level is by how much the opening
      brackets so far outnumber the closing ones, less one. */
  lemma {:induction false} PairLevel(ks: seq<Kind>, left: Kind, right: Kind, s: nat, i: nat, level: int)
    requires left != right && Open(ks, left, right, s, i)
    requires level == Count(ks, left, s, i) - Count(ks, right, s, i) - 1
    ensures PairEnd(ks, left, right, i, level) != -1 ==> Closes(ks, left, right, s, PairEnd(ks, left, right, i, level))
    ensures PairEnd(ks, left, right, i, level) == -1 ==> forall j :: !Closes(ks, left, right, s, j)
    decreases |ks| - i
  {
    hide PairEnd, Count, Open, Closes;
    PairStep(ks, left, right, i, level);
    OpenBounds(ks, left, right, s, i);
    if i == |ks| {
      OpenEnds(ks, left, right, s);
    } else {
      OpenNext(ks, left, right, s, i);
      CountNext(ks, left, s, i);
      CountNext(ks, right, s, i);
      if !(level == 0 && ks[i] == right) {
        PairLevel(ks, left, right, s, i + 1,
          level + (if ks[i] == right then -1 else 0) + (if ks[i] == left then 1 else 0));
      }
    }
  }

  lemma OpenBounds(ks: seq<Kind>, left: Kind, right: Kind, s: int, i: int)
    requires Open(ks, left, right, s, i)
    ensures 0 <= s < i <= |ks|
  {
  }

  /** The bracket loop finds the closing bracket, exactly if there is one. */
  lemma PairIff(ks: seq<Kind>, left: Kind, right: Kind, i: nat)
    requires left != right
    ensures var e := MatchPairEnd(ks, left, right, i);
      (e != -1 ==> Closes(ks, left, right, i, e)) && forall j :: Closes(ks, left, right, i, j) ==> j == e != -1
  {
    hide PairEnd, Count;
    PairStart(ks, left, right, i);
    if i < |ks| && ks[i] == left {
      CountStart(ks, left, i);
      CountStart(ks, right, i);
      PairLevel(ks, left, right, i, i + 1, 0);
      forall j
        ensures Closes(ks, left, right, i, j) ==> j == MatchPairEnd(ks, left, right, i) != -1
      {
        OneClose(ks, left, right, i, j, MatchPairEnd(ks, left, right, i));
      }
    }
  }

  lemma OneClose(ks: seq<Kind>, left: Kind, right: Kind, i: nat, j: int, k: int)
    ensures Closes(ks, left, right, i, j) && Closes(ks, left, right, i, k) ==> j == k
  {
    hide Count;
  }

  lemma FirstNext(ks: seq<Kind>, i: int, those: set<Kind>)
    requires 0 <= i < |ks|
    ensures ks[i] in those ==> FirstOf(ks, i, i, those) && forall k :: FirstOf(ks, i, k, those) ==> k == i
    ensures ks[i] !in those ==> forall k :: FirstOf(ks, i, k, those) <==> FirstOf(ks, i + 1, k, those)
  {
  }

  lemma {:induction false} UptoIff(ks: seq<Kind>, i: nat, a: Kind, b: Kind, c: Kind)
    ensures var e := Upto(ks, i, a, b, c);
      (e != -1 ==> FirstOf(ks, i, e, {a, b, c})) && forall j :: FirstOf(ks, i, j, {a, b, c}) ==> j == e != -1
    decreases |ks| - i
  {
    UptoStep(ks, i, a, b, c);
    if i < |ks| {
      FirstNext(ks, i, {a, b, c});
      hide FirstOf, Upto;
      if !(ks[i] == a || ks[i] == b || ks[i] == c) {
        UptoIff(ks, i + 1, a, b, c);
      }
    }
  }

  // Constructs.

  lemma TemplateIff(ks: seq<Kind>, i: nat)
    ensures var e := TemplateEnd(ks, i);
      (e != -1 ==> IsTemplate(ks, i, e)) && forall j :: IsTemplate(ks, i, j) ==> j == e != -1
  {
    hide Closes, MatchPairEnd;
    PairIff(ks, Char('<'), Char('>'), i + 1);
    var m, e := MatchPairEnd(ks, Char('<'), Char('>'), i + 1), TemplateEnd(ks, i);
    if m != -1 {
      PairIff(ks, Char('<'), Char('>'), m + 1);
      assert e != -1 ==> EndsTemplate(ks, m, e);
    }
  }

  lemma FunctionIff(ks: seq<Kind>, i: nat)
    ensures var e := TailEnd(ks, i);
      (e != -1 ==> IsFunction(ks, i, e)) && forall j :: IsFunction(ks, i, j) ==> j == e != -1
  {
    PairIff(ks, Char('('), Char(')'), i);
    var m := MatchPairEnd(ks, Char('('), Char(')'), i);
    if m != -1 {
      assert {Char(';'), Char('{'), Char('{')} == {Char(';'), Char('{')};
      UptoIff(ks, m, Char(';'), Char('{'), Char('{'));
      var b := Upto(ks, m, Char(';'), Char('{'), Char('{'));
      if b != -1 {
        PairIff(ks, Char('{'), Char('}'), b);
      }
    }
    hide Closes, MatchPairEnd, FirstOf, Upto;
  }

  lemma HeadIff(ks: seq<Kind>, i: nat)
    ensures var e := HeadEnd(ks, i);
      (e != -1 ==> IsHead(ks, i, e)) && forall h :: IsHead(ks, i, h) ==> h == e != -1
    ensures TakesTemplate(ks, i) <==> HasHead(ks, i)
  {
    HeadStart(ks, i);
    UptoIff(ks, i + 1, Char('('), Char(';'), Char(':'));
    hide FirstOf, Upto;
  }

  lemma VaridIff(ks: seq<Kind>, i: nat)
    ensures var e := VaridEnd(ks, i);
      (e != -1 ==> IsVarid(ks, i, e)) && forall j :: IsVarid(ks, i, j) ==> j == e != -1
  {
    HeadIff(ks, i);
    var h := HeadEnd(ks, i);
    if h != -1 {
      FunctionIff(ks, h);
    }
    hide IsHead, HeadEnd, IsFunction, TailEnd;
  }

  lemma ConstructIff(ks: seq<Kind>, i: nat)
    requires i < |ks|
    ensures var e := NextEnd(ks, i);
      (e != -1 ==> Construct(ks, i, e)) && forall j :: Construct(ks, i, j) ==> j == e != -1
  {
    TemplateIff(ks, i);
    VaridIff(ks, i);
    hide IsTemplate, TemplateEnd, IsVarid, VaridEnd;
  }

  lemma FailureIff(ks: seq<Kind>, i: nat)
    requires i < |ks|
    ensures NextEnd(ks, i) == -1 ==> Failure(ks, i, NextStop(ks, i))
    ensures forall j :: Failure(ks, i, j) ==> NextEnd(ks, i) == -1 && j == NextStop(ks, i)
  {
    ConstructIff(ks, i);
    if NextEnd(ks, i) == -1 && ks[i] == Template {
      StopIff(ks, i);
    }
    hide Construct, NextEnd, TemplateStop, Closes;
  }

  lemma StopIff(ks: seq<Kind>, i: nat)
    requires i < |ks| && ks[i] == Template && TemplateEnd(ks, i) == -1
    ensures var e := TemplateStop(ks, i);
      (e < |ks| ==> Misplaced(ks, i, e)) && forall j :: Misplaced(ks, i, j) ==> j == e
    ensures TemplateStop(ks, i) <= |ks|
  {
    PairIff(ks, Char('<'), Char('>'), i + 1);
    var m := MatchPairEnd(ks, Char('<'), Char('>'), i + 1);
    hide Closes, MatchPairEnd;
  }

  // Readings.

  /** One span of a reading. */
  lemma SpanIs(ks: seq<Kind>, cuts: seq<nat>, n: int)
    requires Reading(ks, cuts) && 0 <= n < |cuts| - 1
    ensures cuts[n] < |ks| && cuts[n + 1] <= |ks|
    ensures Construct(ks, cuts[n], cuts[n + 1]) <==> NextEnd(ks, cuts[n]) != -1
    ensures cuts[n + 1] == if NextEnd(ks, cuts[n]) == -1 then NextStop(ks, cuts[n]) else NextEnd(ks, cuts[n])
    ensures Failure(ks, cuts[n], cuts[n + 1]) <==> NextEnd(ks, cuts[n]) == -1
  {
    assert cuts[n] < |ks| by {
      hide IsTemplate, IsVarid;
    }
    ConstructIff(ks, cuts[n]);
    FailureIff(ks, cuts[n]);
    hide Construct, Failure, NextEnd, NextStop;
  }

  /** Every text has a reading. */
  lemma {:induction false} ReadingExists(ks: seq<Kind>, i: nat) returns (cuts: seq<nat>)
    requires i <= |ks|
    ensures Reading(ks, cuts) && cuts[0] == i
    decreases |ks| - i
  {
    if i == |ks| {
      cuts := [i];
    } else {
      var j := if NextEnd(ks, i) == -1 then NextStop(ks, i) else NextEnd(ks, i);
      ConstructIff(ks, i);
      FailureIff(ks, i);
      hide Construct, Failure, NextEnd, NextStop;
      var rest := ReadingExists(ks, j);
      cuts := [i] + rest;
    }
  }

  /** The text parses exactly if all of its spans are constructs. */
  lemma {:induction false} AcceptsIff(ks: seq<Kind>, cuts: seq<nat>, n: int)
    requires Reading(ks, cuts) && 0 <= n < |cuts|
    ensures Accepts(ks, cuts[n]) <==> forall m :: n <= m < |cuts| - 1 ==> Construct(ks, cuts[m], cuts[m + 1])
    decreases |cuts| - n
  {
    if n < |cuts| - 1 {
      SpanIs(ks, cuts, n);
      AcceptsIff(ks, cuts, n + 1);
      hide Construct, Failure, NextEnd, NextStop;
    }
  }

  /** A template before span n is lost: a function with a head fails there, or
      behind failures that have none. */
  ghost predicate LostAt(ks: seq<Kind>, cuts: seq<nat>, n: int)
    requires Reading(ks, cuts) && 0 <= n
  {
    exists m :: n <= m < |cuts| - 1 && HasHead(ks, cuts[m]) && FailTo(ks, cuts, n, m)
  }

  ghost predicate FailTo(ks: seq<Kind>, cuts: seq<nat>, n: int, m: int)
    requires 0 <= n <= m < |cuts| - 1
  {
    forall l :: n <= l <= m ==> Failure(ks, cuts[l], cuts[l + 1])
  }

  /** A span is printed if it is a construct and no template that is lost. */
  ghost predicate Kept(ks: seq<Kind>, cuts: seq<nat>, n: int)
    requires Reading(ks, cuts) && 0 <= n < |cuts| - 1
  {
    Construct(ks, cuts[n], cuts[n + 1]) && !(ks[cuts[n]] == Template && LostAt(ks, cuts, n + 1))
  }

  /** The texts of the spans from n on that are printed. */
  ghost function KeptFrom(ks: seq<Kind>, ts: seq<string>, cuts: seq<nat>, n: int): string
    requires Reading(ks, cuts) && |ks| == |ts| && 0 <= n < |cuts|
    decreases |cuts| - n
  {
    if n == |cuts| - 1 then ""
    else
      SpanIs(ks, cuts, n);
      (if Kept(ks, cuts, n) then Concat(ts[cuts[n]..cuts[n + 1]]) else "") + KeptFrom(ks, ts, cuts, n + 1)
  }

  /** The places of the errors: failures, and ports outside a component. */
  ghost function FaultsFrom(ks: seq<Kind>, cuts: seq<nat>, n: int): set<int>
    requires Reading(ks, cuts) && 0 <= n
  {
    set m | n <= m < |cuts| - 1 &&
      (Failure(ks, cuts[m], cuts[m + 1]) || ks[cuts[m]] == Inport || ks[cuts[m]] == Outport)
  }

  lemma LostStep(ks: seq<Kind>, cuts: seq<nat>, n: int)
    requires Reading(ks, cuts) && 0 <= n < |cuts| - 1
    ensures LostAt(ks, cuts, n) <==>
      Failure(ks, cuts[n], cuts[n + 1]) && (HasHead(ks, cuts[n]) || LostAt(ks, cuts, n + 1))
  {
    hide Failure, HasHead, Construct;
    if Failure(ks, cuts[n], cuts[n + 1]) {
      if HasHead(ks, cuts[n]) {
        assert FailTo(ks, cuts, n, n);
      } else if LostAt(ks, cuts, n + 1) {
        var m :| n + 1 <= m < |cuts| - 1 && HasHead(ks, cuts[m]) && FailTo(ks, cuts, n + 1, m);
        assert FailTo(ks, cuts, n, m);
      }
      if LostAt(ks, cuts, n) {
        var m :| n <= m < |cuts| - 1 && HasHead(ks, cuts[m]) && FailTo(ks, cuts, n, m);
        assert n < m ==> FailTo(ks, cuts, n + 1, m);
      }
    }
  }

  lemma KeptStep(ks: seq<Kind>, ts: seq<string>, cuts: seq<nat>, n: int)
    requires Reading(ks, cuts) && |ks| == |ts| && 0 <= n < |cuts| - 1
    ensures cuts[n] <= cuts[n + 1] <= |ks|
    ensures Kept(ks, cuts, n) <==>
      Construct(ks, cuts[n], cuts[n + 1]) && !(ks[cuts[n]] == Template && LostAt(ks, cuts, n + 1))
    ensures KeptFrom(ks, ts, cuts, n) ==
      (if Kept(ks, cuts, n) then Concat(ts[cuts[n]..cuts[n + 1]]) else "") + KeptFrom(ks, ts, cuts, n + 1)
  {
    SpanIs(ks, cuts, n);
    hide Construct, Failure, Concat;
  }

  /** What is printed from any span on. */
  lemma {:induction false} PrintedFrom(ks: seq<Kind>, ts: seq<string>, cuts: seq<nat>, n: int, done: string, held: string)
    requires Reading(ks, cuts) && |ks| == |ts| && 0 <= n < |cuts|
    ensures Printed(ks, ts, cuts[n], done, held) ==
      done + (if LostAt(ks, cuts, n) then "" else held) + KeptFrom(ks, ts, cuts, n)
    decreases |cuts| - n
  {
    hide NextEnd, NextStop, Construct, Failure, HasHead, TakesTemplate, LostAt, Concat, Kept, Accepts, Faults;
    if n == |cuts| - 1 {
      NothingLost(ks, cuts, n);
    } else {
      var i, j := cuts[n], cuts[n + 1];
      hide Reading, Printed, KeptFrom;
      SpanIs(ks, cuts, n);
      LostStep(ks, cuts, n);
      KeptStep(ks, ts, cuts, n);
      OneStep(ks, ts, i, done, held);
      HeadIff(ks, i);
      if NextEnd(ks, i) == -1 {
        PrintedFrom(ks, ts, cuts, n + 1, done, if TakesTemplate(ks, i) then "" else held);
      } else if ks[i] == Template {
        PrintedFrom(ks, ts, cuts, n + 1, done + held, Concat(ts[i..j]));
      } else {
        PrintedFrom(ks, ts, cuts, n + 1, done + held + Concat(ts[i..j]), "");
      }
    }
  }

  lemma NothingLost(ks: seq<Kind>, cuts: seq<nat>, n: int)
    requires Reading(ks, cuts) && n == |cuts| - 1
    ensures !LostAt(ks, cuts, n)
  {
  }

  lemma {:induction false} FaultsAre(ks: seq<Kind>, cuts: seq<nat>, n: int)
    requires Reading(ks, cuts) && 0 <= n < |cuts|
    ensures Faults(ks, cuts[n]) == |FaultsFrom(ks, cuts, n)|
    decreases |cuts| - n
  {
    hide NextEnd, NextStop, Construct, Failure;
    if n == |cuts| - 1 {
      assert FaultsFrom(ks, cuts, n) == {};
    } else {
      SpanIs(ks, cuts, n);
      FaultsAre(ks, cuts, n + 1);
      var fault := Failure(ks, cuts[n], cuts[n + 1]) || ks[cuts[n]] == Inport || ks[cuts[n]] == Outport;
      assert FaultsFrom(ks, cuts, n) == FaultsFrom(ks, cuts, n + 1) + if fault then {n} else {};
    }
  }

  /** Printed are the constructs, less the templates that a failing function
      took along; reported are the failures and the ports. */
  lemma WhatIsPrinted(ks: seq<Kind>, ts: seq<string>, cuts: seq<nat>)
    requires Reading(ks, cuts) && |ks| == |ts| && cuts[0] == 0
    ensures Printed(ks, ts, 0, "", "") == KeptFrom(ks, ts, cuts, 0)
    ensures Faults(ks, 0) == |FaultsFrom(ks, cuts, 0)|
    ensures Accepts(ks, 0) <==> forall n :: 0 <= n < |cuts| - 1 ==> Construct(ks, cuts[n], cuts[n + 1])
  {
    hide Printed, KeptFrom, FaultsFrom, Accepts, Construct, Failure, LostAt, Faults;
    PrintedFrom(ks, ts, cuts, 0, "", "");
    FaultsAre(ks, cuts, 0);
    AcceptsIff(ks, cuts, 0);
  }
}
