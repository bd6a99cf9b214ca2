/** The lazy merge of priority-sorted rule lists (src/include/cnode-result.hh). */
module CnodeResult {
  import opened Basics
  import opened PacketExpr
  import opened RuleList

  /** A position in the live list of the node at `addr`: `rest` is what lies
      ahead of the list iterator, the current rule first. */
  datatype Cursor = Cursor(addr: nat, rest: seq<Rule>, ismatch: bool)

  ghost predicate Matching(x: Rule, d: Data) {
    Matchable(x.expr, d) && Matches(x.expr, d)
  }

  ghost predicate CursorOK(c: Cursor, d: Data) {
    && c.rest != [] && Sorted(c.rest)
    && (forall x | x in c.rest :: Matchable(x.expr, d))
    && (c.ismatch ==> Matches(c.rest[0].expr, d))
  }

  ghost predicate AllOK(cs: seq<Cursor>, d: Data) {
    forall i | 0 <= i < |cs| :: CursorOK(cs[i], d)
  }

  /** How often `x` lies ahead of the cursors. */
  ghost function Ahead(cs: seq<Cursor>, x: Rule): nat {
    if cs == [] then 0 else multiset(cs[0].rest)[x] + Ahead(cs[1..], x)
  }

  ghost function Length(cs: seq<Cursor>): nat {
    if cs == [] then 0 else |cs[0].rest| + Length(cs[1..])
  }

  lemma {:induction false} AheadUpdate(cs: seq<Cursor>, i: nat, c: Cursor, x: Rule)
    requires i < |cs|
    ensures Ahead(cs[i := c], x) + multiset(cs[i].rest)[x] == Ahead(cs, x) + multiset(c.rest)[x]
    ensures Length(cs[i := c]) + |cs[i].rest| == Length(cs) + |c.rest|
  {
    if i == 0 {
      assert cs[i := c][1..] == cs[1..];
    } else {
      assert cs[i := c][1..] == cs[1..][i - 1 := c];
      AheadUpdate(cs[1..], i - 1, c, x);
    }
  }

  lemma {:induction false} AheadLast(cs: seq<Cursor>, x: Rule)
    requires cs != []
    ensures Ahead(cs, x) == Ahead(cs[..|cs| - 1], x) + multiset(cs[|cs| - 1].rest)[x]
    ensures Length(cs) == Length(cs[..|cs| - 1]) + |cs[|cs| - 1].rest|
  {
    if |cs| > 1 {
      AheadLast(cs[1..], x);
      assert cs[1..][..|cs| - 2] == cs[..|cs| - 1][1..];
    }
  }

  /** Swap-with-last removal of the list at `i`. */
  function Removed(cs: seq<Cursor>, i: nat): seq<Cursor>
    requires i < |cs|
  {
    cs[i := cs[|cs| - 1]][..|cs| - 1]
  }

  lemma AheadRemoved(cs: seq<Cursor>, i: nat, x: Rule)
    requires i < |cs|
    ensures Ahead(Removed(cs, i), x) + multiset(cs[i].rest)[x] == Ahead(cs, x)
    ensures Length(Removed(cs, i)) + |cs[i].rest| == Length(cs)
  {
    var last := cs[|cs| - 1];
    var t := cs[i := last];
    AheadUpdate(cs, i, last, x);
    AheadLast(t, x);
    assert |t| == |cs| && t[|t| - 1] == last && Removed(cs, i) == t[..|t| - 1];
  }

  /** The iterator of list `i` advanced; the list is dropped at its end. */
  function Advanced(cs: seq<Cursor>, i: nat): seq<Cursor>
    requires i < |cs| && cs[i].rest != []
  {
    if |cs[i].rest| == 1 then Removed(cs, i)
    else cs[i := Cursor(cs[i].addr, cs[i].rest[1..], false)]
  }

  lemma AdvancedAhead(cs: seq<Cursor>, i: nat, x: Rule)
    requires i < |cs| && cs[i].rest != []
    ensures Ahead(Advanced(cs, i), x) + (if x == cs[i].rest[0] then 1 else 0) == Ahead(cs, x)
    ensures Length(Advanced(cs, i)) + 1 == Length(cs)
  {
    var rest := cs[i].rest;
    assert rest == [rest[0]] + rest[1..];
    if |rest| == 1 {
      AheadRemoved(cs, i, x);
    } else {
      AheadUpdate(cs, i, Cursor(cs[i].addr, rest[1..], false), x);
    }
  }

  lemma AdvancedOK(cs: seq<Cursor>, i: nat, d: Data)
    requires i < |cs| && AllOK(cs, d)
    ensures AllOK(Advanced(cs, i), d)
  {
  }

  lemma {:induction false} AheadWhere(cs: seq<Cursor>, x: Rule) returns (i: nat)
    requires Ahead(cs, x) > 0
    ensures i < |cs| && x in cs[i].rest
  {
    if x in cs[0].rest {
      i := 0;
    } else {
      i := AheadWhere(cs[1..], x);
      i := i + 1;
    }
  }

  /** Marking the current rule of a list as a match moves nothing. */
  lemma {:induction false} AheadMarked(cs: seq<Cursor>, i: nat, x: Rule)
    requires i < |cs|
    ensures Ahead(cs[i := cs[i].(ismatch := true)], x) == Ahead(cs, x)
    ensures Length(cs[i := cs[i].(ismatch := true)]) == Length(cs)
  {
    AheadUpdate(cs, i, cs[i].(ismatch := true), x);
  }

  /** Each cursor of `ds` stands in the same list as one of `cs`, further on. */
  ghost predicate Later(ds: seq<Cursor>, cs: seq<Cursor>) {
    forall j | 0 <= j < |ds| :: HasSource(ds[j], cs)
  }

  ghost predicate HasSource(d: Cursor, cs: seq<Cursor>) {
    exists i :: 0 <= i < |cs| && IsLater(d, cs[i])
  }

  ghost predicate IsLater(d: Cursor, c: Cursor) {
    d.addr == c.addr && |d.rest| <= |c.rest| && d.rest == c.rest[|c.rest| - |d.rest|..]
  }

  lemma LaterAdvanced(cs: seq<Cursor>, i: nat, old_: seq<Cursor>)
    requires i < |cs| && cs[i].rest != [] && Later(cs, old_)
    ensures Later(Advanced(cs, i), old_)
  {
  }

  class Results {
    const data: Data
    var numLists: nat
    var traversed: seq<Cursor>

    ghost predicate Valid()
      reads this
    {
      numLists <= |traversed| && AllOK(Active(), data)
    }

    ghost function Active(): seq<Cursor>
      reads this
      requires numLists <= |traversed|
    {
      traversed[..numLists]
    }

    constructor (d: Data)
      ensures Valid() && Active() == [] && Spare() == 0 && data == d
    {
      data := d;
      numLists := 0;
      traversed := [];
    }

    /** Cursors that can be recorded without growing the vector. */
    ghost function Spare(): nat
      reads this
      requires numLists <= |traversed|
    {
      |traversed| - numLists
    }

    /** Records a list unless it is empty; growing the vector may throw. */
    method Push(addr: nat, rules: seq<Rule>, left: nat) returns (rest: nat, threw: bool)
      requires Valid() && Sorted(rules) && forall x | x in rules :: Matchable(x.expr, data)
      modifies this
      ensures Valid() && rest + (if rules == [] || old(Spare()) > 0 || threw then 0 else 1) == left
      ensures threw <==> rules != [] && old(Spare()) == 0 && left == 0
      ensures threw ==> Active() == old(Active()) && Spare() == old(Spare())
      ensures !threw ==> Active() == old(Active()) + (if rules == [] then [] else [Cursor(addr, rules, false)])
      ensures !threw ==> Spare() == old(Spare()) - (if rules == [] || old(Spare()) == 0 then 0 else 1)
    {
      rest, threw := left, false;
      if rules != [] {
        var c := Cursor(addr, rules, false);
        if numLists == |traversed| {
          if left == 0 {
            return left, true;
          }
          rest := left - 1;
          traversed := traversed + [c];
        } else {
          traversed := traversed[numLists := c];
        }
        numLists := numLists + 1;
        assert Active() == old(Active()) + [c];
      }
    }

    method Advance(i: nat)
      requires Valid() && i < numLists
      modifies this
      ensures Valid() && Active() == Advanced(old(Active()), i)
    {
      AdvancedOK(Active(), i, data);
      var current := traversed[i];
      assert Active()[i] == current;
      if |current.rest| == 1 {
        numLists := numLists - 1;
        traversed := traversed[i := traversed[numLists]];
      } else {
        traversed := traversed[i := Cursor(current.addr, current.rest[1..], false)];
      }
      assert Active() == Advanced(old(Active()), i);
    }

    /** Marks list `i` so that its current rule is not matched again. */
    method Mark(i: nat)
      requires Valid() && i < numLists && Matches(traversed[i].rest[0].expr, data)
      modifies this
      ensures Valid() && numLists == old(numLists)
      ensures Active() == old(Active())[i := old(Active())[i].(ismatch := true)]
    {
      traversed := traversed[i := traversed[i].(ismatch := true)];
      assert Active() == old(Active())[i := old(Active())[i].(ismatch := true)];
    }

    /** One round of the loop in `Next`. */
    method Look(p: Pos) returns (q: Pos)
      requires Valid() && p.i < numLists
      modifies this
      ensures Valid() && (Active(), q) == Looked(old(Active()), p, data)
    {
      var current := traversed[p.i];
      assert Active()[p.i] == current && CursorOK(current, data);
      var rule := current.rest[0];
      assert rule in current.rest;
      if p.best.None? || rule.priority < p.minPri {
        if current.ismatch || Matches(rule.expr, data) {
          Mark(p.i);
          q := Pos(p.i + 1, Some(rule), rule.priority, p.i);
        } else {
          Advance(p.i);
          q := p;
        }
      } else {
        q := p.(i := p.i + 1);
      }
    }

    /** The next matching rule: one of smallest priority number among those
        ahead, which it is removed from; None if no matching rule is ahead. */
    method Next() returns (r: Option<Rule>)
      requires Valid()
      modifies this
      ensures Valid() && Taken(old(Active()), Active(), r, data)
    {
      ghost var cs0 := Active();
      var p := Pos(0, None, 0, 0);
      ScanStart(cs0, data);
      while p.i < numLists
        invariant Valid() && Scan(Active(), cs0, data, p)
        decreases Length(Active()) + (numLists - p.i)
      {
        ScanLooked(Active(), cs0, data, p);
        p := Look(p);
      }
      ScanEnd(Active(), cs0, data, p);
      r := p.best;
      if r.Some? {
        Advance(p.minIdx);
      }
    }
  }

  /** The local variables of `Next`. */
  datatype Pos = Pos(i: nat, best: Option<Rule>, minPri: nat, minIdx: nat)

  /** The effect of one round: mark list `i` as the best so far, skip its current
      rule, or pass it by. */
  ghost function Looked(cs: seq<Cursor>, p: Pos, d: Data): (seq<Cursor>, Pos)
    requires AllOK(cs, d) && p.i < |cs|
  {
    assert CursorOK(cs[p.i], d);
    var rule := cs[p.i].rest[0];
    assert rule in cs[p.i].rest;
    if p.best.Some? && p.minPri <= rule.priority then (cs, p.(i := p.i + 1))
    else if Matches(rule.expr, d) then
      (cs[p.i := cs[p.i].(ismatch := true)], Pos(p.i + 1, Some(rule), rule.priority, p.i))
    else (Advanced(cs, p.i), p)
  }

  /** The effect of taking the next match: None if no match is ahead, else one
      of smallest priority number, which alone of the matches is ahead no
      longer; cursors only move on in their lists. */
  ghost predicate Taken(cs: seq<Cursor>, cs': seq<Cursor>, r: Option<Rule>, d: Data) {
    && Later(cs', cs) && NoMoreAhead(cs', cs)
    && (r.None? ==> forall x: Rule | Matching(x, d) :: Ahead(cs, x) == 0)
    && (r.Some? ==>
          && Matching(r.value, d) && Ahead(cs, r.value) > 0 && Length(cs') < Length(cs)
          && forall x: Rule | Matching(x, d) && Ahead(cs, x) > 0 :: r.value.priority <= x.priority)
    && (forall x: Rule | Matching(x, d) :: Ahead(cs, x) == Ahead(cs', x) + (if r == Some(x) then 1 else 0))
  }

  /** Where `Next` stands after looking at the first `i` lists: the best so far
      is the current rule of list `minIdx`, and nothing that matches has been
      passed over. */
  ghost predicate Scan(cs: seq<Cursor>, cs0: seq<Cursor>, d: Data, p: Pos) {
    && AllOK(cs, d) && Front(cs, d, p) && SameMatches(cs, cs0, d) && Later(cs, cs0)
    && Length(cs) <= Length(cs0) && NoMoreAhead(cs, cs0)
  }

  ghost predicate Front(cs: seq<Cursor>, d: Data, p: Pos) {
    && p.i <= |cs|
    && (forall j | 0 <= j < p.i :: cs[j].rest != [] && p.minPri <= cs[j].rest[0].priority)
    && (p.best.None? ==> p.i == 0)
    && (p.best.Some? ==>
          && p.minIdx < p.i && p.minPri == p.best.value.priority
          && cs[p.minIdx].rest[0] == p.best.value && Matching(p.best.value, d))
  }

  lemma FrontMark(cs: seq<Cursor>, d: Data, p: Pos)
    requires Front(cs, d, p) && p.i < |cs| && cs[p.i].rest != [] && Matching(cs[p.i].rest[0], d)
    requires p.best.None? || cs[p.i].rest[0].priority < p.minPri
    ensures var rule := cs[p.i].rest[0];
            Front(cs[p.i := cs[p.i].(ismatch := true)], d, Pos(p.i + 1, Some(rule), rule.priority, p.i))
  {
  }

  lemma FrontSkip(cs: seq<Cursor>, d: Data, p: Pos)
    requires Front(cs, d, p) && p.i < |cs| && cs[p.i].rest != []
    ensures Front(Advanced(cs, p.i), d, p)
  {
  }

  ghost predicate NoMoreAhead(cs: seq<Cursor>, cs0: seq<Cursor>) {
    forall x: Rule :: Ahead(cs, x) <= Ahead(cs0, x)
  }

  ghost predicate SameMatches(cs: seq<Cursor>, cs0: seq<Cursor>, d: Data) {
    forall x: Rule | Matching(x, d) :: Ahead(cs, x) == Ahead(cs0, x)
  }

  lemma ScanStart(cs: seq<Cursor>, d: Data)
    requires AllOK(cs, d)
    ensures Scan(cs, cs, d, Pos(0, None, 0, 0))
  {
  }

  /** A round keeps the picture and gets closer to the end. */
  ghost predicate Progress(cs: seq<Cursor>, cs0: seq<Cursor>, d: Data, p: Pos)
    requires AllOK(cs, d) && p.i < |cs|
  {
    var (ds, q) := Looked(cs, p, d);
    Scan(ds, cs0, d, q) && Length(ds) + (|ds| - q.i) < Length(cs) + (|cs| - p.i)
  }

  lemma ScanLooked(cs: seq<Cursor>, cs0: seq<Cursor>, d: Data, p: Pos)
    requires Scan(cs, cs0, d, p) && p.i < |cs|
    ensures Progress(cs, cs0, d, p)
  {
    assert CursorOK(cs[p.i], d);
    var rule := cs[p.i].rest[0];
    assert rule in cs[p.i].rest;
    if p.best.Some? && p.minPri <= rule.priority {
      LookedPass(cs, cs0, d, p);
    } else if Matches(rule.expr, d) {
      LookedMark(cs, cs0, d, p);
    } else {
      LookedSkip(cs, cs0, d, p);
    }
  }

  lemma LookedPass(cs: seq<Cursor>, cs0: seq<Cursor>, d: Data, p: Pos)
    requires Scan(cs, cs0, d, p) && p.i < |cs| && cs[p.i].rest != []
    requires p.best.Some? && p.minPri <= cs[p.i].rest[0].priority
    ensures Progress(cs, cs0, d, p)
  {
    ScanPass(cs, cs0, d, p);
    assert Looked(cs, p, d) == (cs, p.(i := p.i + 1));
  }

  lemma LookedMark(cs: seq<Cursor>, cs0: seq<Cursor>, d: Data, p: Pos)
    requires Scan(cs, cs0, d, p) && p.i < |cs| && cs[p.i].rest != [] && Matching(cs[p.i].rest[0], d)
    requires p.best.None? || cs[p.i].rest[0].priority < p.minPri
    ensures Progress(cs, cs0, d, p)
  {
    var rule := cs[p.i].rest[0];
    ScanMark(cs, cs0, d, p);
    assert Looked(cs, p, d) == (cs[p.i := cs[p.i].(ismatch := true)], Pos(p.i + 1, Some(rule), rule.priority, p.i));
  }

  lemma LookedSkip(cs: seq<Cursor>, cs0: seq<Cursor>, d: Data, p: Pos)
    requires Scan(cs, cs0, d, p) && p.i < |cs| && cs[p.i].rest != [] && Matchable(cs[p.i].rest[0].expr, d)
    requires !Matches(cs[p.i].rest[0].expr, d) && (p.best.None? || cs[p.i].rest[0].priority < p.minPri)
    ensures Progress(cs, cs0, d, p)
  {
    ScanSkip(cs, cs0, d, p);
    assert Looked(cs, p, d) == (Advanced(cs, p.i), p);
  }

  lemma ScanPass(cs: seq<Cursor>, cs0: seq<Cursor>, d: Data, p: Pos)
    requires Scan(cs, cs0, d, p) && p.i < |cs| && p.best.Some?
    requires cs[p.i].rest != [] && p.minPri <= cs[p.i].rest[0].priority
    ensures Scan(cs, cs0, d, p.(i := p.i + 1))
  {
  }

  lemma ScanMark(cs: seq<Cursor>, cs0: seq<Cursor>, d: Data, p: Pos)
    requires Scan(cs, cs0, d, p) && p.i < |cs| && Matches(cs[p.i].rest[0].expr, d)
    requires p.best.None? || cs[p.i].rest[0].priority < p.minPri
    ensures var ds := cs[p.i := cs[p.i].(ismatch := true)];
            var rule := cs[p.i].rest[0];
            Scan(ds, cs0, d, Pos(p.i + 1, Some(rule), rule.priority, p.i)) && Length(ds) == Length(cs)
  {
    var ds := cs[p.i := cs[p.i].(ismatch := true)];
    assert CursorOK(cs[p.i], d);
    assert cs[p.i].rest[0] in cs[p.i].rest;
    MarkedSame(cs, p.i);
    MarkedLater(cs, p.i, cs0, d);
    FrontMark(cs, d, p);
    assert SameMatches(ds, cs0, d) && NoMoreAhead(ds, cs0);
  }

  lemma MarkedSame(cs: seq<Cursor>, i: nat)
    requires i < |cs|
    ensures forall x: Rule :: Ahead(cs[i := cs[i].(ismatch := true)], x) == Ahead(cs, x)
    ensures cs[i].rest != [] ==> Length(cs[i := cs[i].(ismatch := true)]) == Length(cs)
  {
    forall x: Rule ensures Ahead(cs[i := cs[i].(ismatch := true)], x) == Ahead(cs, x) { AheadMarked(cs, i, x); }
    if cs[i].rest != [] { AheadMarked(cs, i, cs[i].rest[0]); }
  }

  lemma MarkedLater(cs: seq<Cursor>, i: nat, cs0: seq<Cursor>, d: Data)
    requires i < |cs| && AllOK(cs, d) && Later(cs, cs0) && Matches(cs[i].rest[0].expr, d)
    ensures AllOK(cs[i := cs[i].(ismatch := true)], d) && Later(cs[i := cs[i].(ismatch := true)], cs0)
  {
  }

  /** Skipping a rule that does not match loses no match. */
  lemma ScanSkip(cs: seq<Cursor>, cs0: seq<Cursor>, d: Data, p: Pos)
    requires Scan(cs, cs0, d, p) && p.i < |cs| && !Matches(cs[p.i].rest[0].expr, d)
    ensures Scan(Advanced(cs, p.i), cs0, d, p)
    ensures Length(Advanced(cs, p.i)) + 1 == Length(cs) && |Advanced(cs, p.i)| <= |cs|
  {
    var ds := Advanced(cs, p.i);
    assert CursorOK(cs[p.i], d);
    SkippedSame(cs, p.i, d);
    AdvancedOK(cs, p.i, d);
    LaterAdvanced(cs, p.i, cs0);
    FrontSkip(cs, d, p);
    assert SameMatches(ds, cs0, d) && NoMoreAhead(ds, cs0);
  }

  lemma SkippedSame(cs: seq<Cursor>, i: nat, d: Data)
    requires i < |cs| && cs[i].rest != [] && !Matching(cs[i].rest[0], d)
    ensures SameMatches(Advanced(cs, i), cs, d) && Length(Advanced(cs, i)) + 1 == Length(cs)
    ensures NoMoreAhead(Advanced(cs, i), cs)
  {
    forall x: Rule ensures Ahead(Advanced(cs, i), x) <= Ahead(cs, x) { AdvancedAhead(cs, i, x); }
    forall x: Rule | Matching(x, d) ensures Ahead(Advanced(cs, i), x) == Ahead(cs, x) { AdvancedAhead(cs, i, x); }
    AdvancedAhead(cs, i, cs[i].rest[0]);
  }

  /** All lists looked at: no match is ahead, or `r` is one of smallest priority
      number and taking it leaves the others. */
  lemma ScanEnd(cs: seq<Cursor>, cs0: seq<Cursor>, d: Data, p: Pos)
    requires Scan(cs, cs0, d, p) && p.i == |cs|
    ensures Taken(cs0, if p.best.Some? then Advanced(cs, p.minIdx) else cs, p.best, d)
  {
    SmallestAhead(cs, p.minPri, d);
    if p.best.Some? {
      assert CursorOK(cs[p.minIdx], d);
      AdvancedCounts(cs, p.minIdx);
      LaterAdvanced(cs, p.minIdx, cs0);
      TakenOne(cs0, cs, Advanced(cs, p.minIdx), p.best.value, d);
    }
  }

  lemma TakenOne(cs0: seq<Cursor>, cs: seq<Cursor>, ds: seq<Cursor>, r: Rule, d: Data)
    requires SameMatches(cs, cs0, d) && NoMoreAhead(cs, cs0) && Length(ds) < Length(cs) <= Length(cs0)
    requires Later(ds, cs0) && Matching(r, d)
    requires forall x: Rule :: Ahead(ds, x) + (if x == r then 1 else 0) == Ahead(cs, x)
    requires forall x: Rule | Ahead(cs, x) > 0 :: r.priority <= x.priority
    ensures Taken(cs0, ds, Some(r), d)
  {
  }

  lemma AdvancedCounts(cs: seq<Cursor>, i: nat)
    requires i < |cs| && cs[i].rest != []
    ensures forall x: Rule :: Ahead(Advanced(cs, i), x) + (if x == cs[i].rest[0] then 1 else 0) == Ahead(cs, x)
    ensures Length(Advanced(cs, i)) + 1 == Length(cs)
  {
    forall x: Rule ensures Ahead(Advanced(cs, i), x) + (if x == cs[i].rest[0] then 1 else 0) == Ahead(cs, x) {
      AdvancedAhead(cs, i, x);
    }
    AdvancedAhead(cs, i, cs[i].rest[0]);
  }

  /** If no list's current rule is below `p`, no rule ahead is. */
  lemma SmallestAhead(cs: seq<Cursor>, p: nat, d: Data)
    requires AllOK(cs, d) && forall j | 0 <= j < |cs| :: p <= cs[j].rest[0].priority
    ensures forall x: Rule | Ahead(cs, x) > 0 :: p <= x.priority
  {
  }
}
