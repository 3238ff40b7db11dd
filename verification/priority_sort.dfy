/** The comparator sort both the analyzer and the roadmap apply to gaps:
    `(a, b) => rank(a.priority) - rank(b.priority)` under a stable sort. The sort is
    modelled as a stable insertion sort; `StableSortUnique` shows that every stable sort
    by this comparator returns the same sequence, so the choice of algorithm is immaterial. */
module PrioritySort {
  import opened Types

  /** Ranks never decrease along the sequence. */
  predicate Sorted(gs: seq<SkillGap>) {
    forall i, j :: 0 <= i < j < |gs| ==> Rank(gs[i].priority) <= Rank(gs[j].priority)
  }

  /** `gs.filter(g => g.priority === p)`: the in-order subsequence of one tier. */
  function OfPriority(p: Priority, gs: seq<SkillGap>): (r: seq<SkillGap>)
    ensures |r| <= |gs|
    ensures forall g {:trigger g in r} :: g in r <==> g in gs && g.priority == p
  {
    if |gs| == 0 then []
    else if gs[0].priority == p then [gs[0]] + OfPriority(p, gs[1..])
    else OfPriority(p, gs[1..])
  }

  lemma {:induction false} OfPriorityAppend(p: Priority, a: seq<SkillGap>, b: seq<SkillGap>)
    ensures OfPriority(p, a + b) == OfPriority(p, a) + OfPriority(p, b)
  {
    if |a| == 0 {
      assert a + b == b;
    } else {
      assert (a + b)[1..] == a[1..] + b;
      OfPriorityAppend(p, a[1..], b);
    }
  }

  /** A tier with no member in `gs` is empty, and a sequence all of one tier is its own tier. */
  lemma OfPriorityExtremes(p: Priority, gs: seq<SkillGap>)
    ensures (forall g :: g in gs ==> g.priority != p) ==> OfPriority(p, gs) == []
    ensures (forall g :: g in gs ==> g.priority == p) ==> OfPriority(p, gs) == gs
  {
    if forall g :: g in gs ==> g.priority != p {
      OfPriorityNone(p, gs);
    }
    if forall g :: g in gs ==> g.priority == p {
      OfPriorityAll(p, gs);
    }
  }

  lemma {:induction false} OfPriorityNone(p: Priority, gs: seq<SkillGap>)
    requires forall g :: g in gs ==> g.priority != p
    ensures OfPriority(p, gs) == []
  {
    if |gs| > 0 {
      assert gs[0] in gs;
      assert forall g :: g in gs[1..] ==> g in gs;
      OfPriorityNone(p, gs[1..]);
    }
  }

  lemma {:induction false} OfPriorityAll(p: Priority, gs: seq<SkillGap>)
    requires forall g :: g in gs ==> g.priority == p
    ensures OfPriority(p, gs) == gs
  {
    if |gs| > 0 {
      assert gs[0] in gs;
      assert forall g :: g in gs[1..] ==> g in gs;
      OfPriorityAll(p, gs[1..]);
      assert gs == [gs[0]] + gs[1..];
    }
  }

  /** A run of one priority followed by a run of a later-ranked one is sorted. */
  lemma UniformAppendSorted(a: seq<SkillGap>, b: seq<SkillGap>, p: Priority, q: Priority)
    requires forall i :: 0 <= i < |a| ==> a[i].priority == p
    requires forall i :: 0 <= i < |b| ==> b[i].priority == q
    requires Rank(p) <= Rank(q)
    ensures Sorted(a + b)
  {
    var e := a + b;
    forall i, j | 0 <= i < j < |e|
      ensures Rank(e[i].priority) <= Rank(e[j].priority)
    {
      if i >= |a| {
        assert e[i] == b[i - |a|] && e[j] == b[j - |a|];
      } else if j < |a| {
        assert e[i] == a[i] && e[j] == a[j];
      } else {
        assert e[i] == a[i] && e[j] == b[j - |a|];
      }
    }
  }

  /** The three tiers laid end to end: high, then medium, then low. */
  function Tiers(gs: seq<SkillGap>): seq<SkillGap> {
    OfPriority(High, gs) + OfPriority(Medium, gs) + OfPriority(Low, gs)
  }

  /** Places `g` in front of the first element whose rank is not smaller than its own. */
  function Insert(g: SkillGap, gs: seq<SkillGap>): (r: seq<SkillGap>)
    ensures multiset(r) == multiset(gs) + multiset{g}
  {
    if |gs| == 0 || Rank(g.priority) <= Rank(gs[0].priority) then [g] + gs
    else
      assert gs == [gs[0]] + gs[1..];
      [gs[0]] + Insert(g, gs[1..])
  }

  /** Inserting into a sorted sequence keeps it sorted. */
  lemma {:induction false} InsertSorted(g: SkillGap, gs: seq<SkillGap>)
    requires Sorted(gs)
    ensures Sorted(Insert(g, gs))
  {
    if |gs| == 0 {
    } else if Rank(g.priority) <= Rank(gs[0].priority) {
      SortedTail(gs);
      SortedCons(g, gs);
    } else {
      SortedTail(gs);
      InsertSorted(g, gs[1..]);
      AllAtLeast(gs[0], g, gs[1..], Insert(g, gs[1..]));
      SortedCons(gs[0], Insert(g, gs[1..]));
    }
  }

  /** Every member of `rest` (a permutation of `t` plus `g`) ranks at least as high as `x`. */
  lemma AllAtLeast(x: SkillGap, g: SkillGap, t: seq<SkillGap>, rest: seq<SkillGap>)
    requires multiset(rest) == multiset(t) + multiset{g}
    requires Rank(x.priority) <= Rank(g.priority)
    requires forall y :: y in t ==> Rank(x.priority) <= Rank(y.priority)
    ensures forall y :: y in rest ==> Rank(x.priority) <= Rank(y.priority)
  {
    forall y | y in rest
      ensures Rank(x.priority) <= Rank(y.priority)
    {
      assert y in multiset(rest);
    }
  }

  lemma SortedTail(gs: seq<SkillGap>)
    requires |gs| > 0 && Sorted(gs)
    ensures Sorted(gs[1..])
    ensures forall y :: y in gs[1..] ==> Rank(gs[0].priority) <= Rank(y.priority)
    ensures forall y :: y in gs ==> Rank(gs[0].priority) <= Rank(y.priority)
  {
    forall y | y in gs[1..]
      ensures Rank(gs[0].priority) <= Rank(y.priority)
    {
      var j :| 0 <= j < |gs[1..]| && gs[1..][j] == y;
      assert gs[j + 1] == y;
    }
  }

  lemma SortedCons(x: SkillGap, t: seq<SkillGap>)
    requires Sorted(t)
    requires forall y :: y in t ==> Rank(x.priority) <= Rank(y.priority)
    ensures Sorted([x] + t)
  {
    var s := [x] + t;
    forall i, j | 0 <= i < j < |s|
      ensures Rank(s[i].priority) <= Rank(s[j].priority)
    {
      if i == 0 {
        assert s[j] == t[j - 1];
        assert s[j] in t;
      } else {
        assert s[i] == t[i - 1] && s[j] == t[j - 1];
      }
    }
  }

  /** Stable insertion sort by priority rank. */
  function StableSortByPriority(gs: seq<SkillGap>): (r: seq<SkillGap>)
    ensures multiset(r) == multiset(gs)
    ensures |r| == |gs|
    ensures Sorted(r)
  {
    if |gs| == 0 then []
    else
      assert gs == [gs[0]] + gs[1..];
      var t := StableSortByPriority(gs[1..]);
      InsertSorted(gs[0], t);
      Insert(gs[0], t)
  }

  /** Inserting `g` extends exactly `g`'s own tier, at its front. */
  lemma {:induction false} InsertTier(p: Priority, g: SkillGap, gs: seq<SkillGap>)
    ensures OfPriority(p, Insert(g, gs)) ==
      (if g.priority == p then [g] + OfPriority(p, gs) else OfPriority(p, gs))
  {
    if |gs| == 0 || Rank(g.priority) <= Rank(gs[0].priority) {
      assert ([g] + gs)[1..] == gs;
    } else {
      InsertTier(p, g, gs[1..]);
      assert ([gs[0]] + Insert(g, gs[1..]))[1..] == Insert(g, gs[1..]);
      RankInjective(g.priority, gs[0].priority);
    }
  }

  /** Stability: the sort keeps every tier's members in their input order. */
  lemma {:induction false} SortKeepsTiers(p: Priority, gs: seq<SkillGap>)
    ensures OfPriority(p, StableSortByPriority(gs)) == OfPriority(p, gs)
  {
    if |gs| > 0 {
      SortKeepsTiers(p, gs[1..]);
      InsertTier(p, gs[0], StableSortByPriority(gs[1..]));
    }
  }

  /** A sorted sequence is its tiers laid end to end. */
  lemma {:induction false} SortedIsTiers(gs: seq<SkillGap>)
    requires Sorted(gs)
    ensures gs == Tiers(gs)
  {
    if |gs| > 0 {
      var x, t := gs[0], gs[1..];
      assert gs == [x] + t;
      SortedTail(gs);
      SortedIsTiers(t);
      TiersCons(x, t);
      assert Tiers(gs) == [x] + Tiers(t);
    }
  }

  /** An element ranked no higher than everything after it heads the tiers. */
  lemma TiersCons(x: SkillGap, t: seq<SkillGap>)
    requires forall y :: y in t ==> Rank(x.priority) <= Rank(y.priority)
    ensures Tiers([x] + t) == [x] + Tiers(t)
  {
    match x.priority
    case High => TiersConsHigh(x, t);
    case Medium =>
      AboveHigh(x, t);
      TiersConsMedium(x, t);
    case Low =>
      AboveHigh(x, t);
      AboveMedium(x, t);
      TiersConsLow(x, t);
  }

  lemma TiersConsHigh(x: SkillGap, t: seq<SkillGap>)
    requires x.priority == High
    ensures Tiers([x] + t) == [x] + Tiers(t)
  {
    var h, m, l := OfPriority(High, t), OfPriority(Medium, t), OfPriority(Low, t);
    OfPriorityConsSame(High, x, t);
    OfPriorityConsOther(Medium, x, t);
    OfPriorityConsOther(Low, x, t);
    ConsAssoc(x, h, m, l);
  }

  lemma TiersConsMedium(x: SkillGap, t: seq<SkillGap>)
    requires x.priority == Medium && OfPriority(High, t) == []
    ensures Tiers([x] + t) == [x] + Tiers(t)
  {
    var m, l := OfPriority(Medium, t), OfPriority(Low, t);
    OfPriorityConsOther(High, x, t);
    OfPriorityConsSame(Medium, x, t);
    OfPriorityConsOther(Low, x, t);
    ConsAssocEmpty(x, m, l);
  }

  lemma TiersConsLow(x: SkillGap, t: seq<SkillGap>)
    requires x.priority == Low && OfPriority(High, t) == [] && OfPriority(Medium, t) == []
    ensures Tiers([x] + t) == [x] + Tiers(t)
  {
    var l := OfPriority(Low, t);
    OfPriorityConsOther(High, x, t);
    OfPriorityConsOther(Medium, x, t);
    OfPriorityConsSame(Low, x, t);
    ConsAssocEmpty(x, [], l);
  }

  lemma ConsAssoc<T>(x: T, a: seq<T>, b: seq<T>, c: seq<T>)
    ensures ([x] + a) + b + c == [x] + (a + b + c)
  {
  }

  lemma ConsAssocEmpty<T>(x: T, b: seq<T>, c: seq<T>)
    ensures [] + ([x] + b) + c == [x] + ([] + b + c)
    ensures [] + [] + ([x] + c) == [x] + ([] + [] + c)
  {
  }

  /** Behind an element that is not high, nothing is high. */
  lemma AboveHigh(x: SkillGap, t: seq<SkillGap>)
    requires x.priority != High
    requires forall y :: y in t ==> Rank(x.priority) <= Rank(y.priority)
    ensures OfPriority(High, t) == []
  {
    forall y | y in t
      ensures y.priority != High
    {
      assert Rank(x.priority) <= Rank(y.priority);
    }
    OfPriorityNone(High, t);
  }

  /** Behind a low element, nothing is medium. */
  lemma AboveMedium(x: SkillGap, t: seq<SkillGap>)
    requires x.priority == Low
    requires forall y :: y in t ==> Rank(x.priority) <= Rank(y.priority)
    ensures OfPriority(Medium, t) == []
  {
    forall y | y in t
      ensures y.priority != Medium
    {
      assert Rank(x.priority) <= Rank(y.priority);
    }
    OfPriorityNone(Medium, t);
  }

  lemma OfPriorityCons(p: Priority, x: SkillGap, t: seq<SkillGap>)
    ensures OfPriority(p, [x] + t) ==
      (if x.priority == p then [x] + OfPriority(p, t) else OfPriority(p, t))
  {
    if x.priority == p {
      OfPriorityConsSame(p, x, t);
    } else {
      OfPriorityConsOther(p, x, t);
    }
  }

  lemma OfPriorityConsSame(p: Priority, x: SkillGap, t: seq<SkillGap>)
    requires x.priority == p
    ensures OfPriority(p, [x] + t) == [x] + OfPriority(p, t)
  {
    assert ([x] + t)[1..] == t;
  }

  lemma OfPriorityConsOther(p: Priority, x: SkillGap, t: seq<SkillGap>)
    requires x.priority != p
    ensures OfPriority(p, [x] + t) == OfPriority(p, t)
  {
    assert ([x] + t)[1..] == t;
  }

  /** The sort result is the concatenation of the input's tiers. */
  lemma SortIsTiers(gs: seq<SkillGap>)
    ensures StableSortByPriority(gs) == Tiers(gs)
  {
    var r := StableSortByPriority(gs);
    SortedIsTiers(r);
    SortKeepsTiers(High, gs);
    SortKeepsTiers(Medium, gs);
    SortKeepsTiers(Low, gs);
  }

  /** Any sorted sequence with the same tiers as `gs` is the sort of `gs`: a stable sort by
      this comparator has exactly one possible output. */
  lemma StableSortUnique(gs: seq<SkillGap>, r: seq<SkillGap>)
    requires Sorted(r)
    requires forall p :: OfPriority(p, r) == OfPriority(p, gs)
    ensures r == StableSortByPriority(gs)
  {
    SortedIsTiers(r);
    SortIsTiers(gs);
    assert OfPriority(High, r) == OfPriority(High, gs);
    assert OfPriority(Medium, r) == OfPriority(Medium, gs);
    assert OfPriority(Low, r) == OfPriority(Low, gs);
  }

  /** An input that is already sorted comes back unchanged. */
  lemma SortOfSorted(gs: seq<SkillGap>)
    requires Sorted(gs)
    ensures StableSortByPriority(gs) == gs
  {
    SortedIsTiers(gs);
    SortIsTiers(gs);
  }
}
