/** The roadmap view's grouping: a sorted copy of the gaps, split into the phases
    Foundation (high), Core Skills (medium) and Advanced (low), in that order, with the
    empty phases dropped. */
module Roadmap {
  import opened Types
  import opened PrioritySort
  import GapAnalysis

  datatype PhaseName = Foundation | CoreSkills | Advanced

  datatype Phase = Phase(name: PhaseName, skills: seq<SkillGap>)

  /** The priority whose gaps a phase collects. */
  function PhasePriority(n: PhaseName): (p: Priority)
    ensures Rank(p) == PhaseOrder(n)
  {
    match n
    case Foundation => High
    case CoreSkills => Medium
    case Advanced => Low
  }

  /** Position of a phase in the fixed display order. */
  function PhaseOrder(n: PhaseName): nat {
    match n
    case Foundation => 0
    case CoreSkills => 1
    case Advanced => 2
  }

  function PhaseTitle(n: PhaseName): string {
    match n
    case Foundation => "Foundation"
    case CoreSkills => "Core Skills"
    case Advanced => "Advanced"
  }

  /** The three display titles are different, so a title names its phase. */
  lemma PhaseTitleInjective(m: PhaseName, n: PhaseName)
    ensures PhaseTitle(m) == PhaseTitle(n) ==> m == n
  {
    assert |PhaseTitle(Foundation)| == 10 && |PhaseTitle(CoreSkills)| == 11;
    assert |PhaseTitle(PhaseName.Advanced)| == 8;
  }

  /** `[...skillGaps].sort(...)`: a sorted copy; the input value itself is untouched. */
  function SortedGaps(gaps: seq<SkillGap>): (r: seq<SkillGap>)
    ensures multiset(r) == multiset(gaps)
    ensures Sorted(r)
    ensures forall p :: OfPriority(p, r) == OfPriority(p, gaps)
  {
    forall p ensures OfPriority(p, StableSortByPriority(gaps)) == OfPriority(p, gaps) {
      SortKeepsTiers(p, gaps);
    }
    StableSortByPriority(gaps)
  }

  /** `.filter(phase => phase.skills.length > 0)`. */
  function NonEmpty(ps: seq<Phase>): (r: seq<Phase>)
    ensures |r| <= |ps|
    ensures forall ph {:trigger ph in r} :: ph in r <==> ph in ps && |ph.skills| > 0
  {
    if |ps| == 0 then []
    else if |ps[0].skills| > 0 then [ps[0]] + NonEmpty(ps[1..])
    else NonEmpty(ps[1..])
  }

  /** The three candidate phases, before the empty ones are dropped. */
  function AllPhases(gaps: seq<SkillGap>): seq<Phase> {
    var sorted := SortedGaps(gaps);
    [ Phase(Foundation, OfPriority(High, sorted)),
      Phase(CoreSkills, OfPriority(Medium, sorted)),
      Phase(PhaseName.Advanced, OfPriority(Low, sorted)) ]
  }

  /** Display orders strictly increase along the list. */
  predicate Increasing(ps: seq<Phase>) {
    forall i, j :: 0 <= i < j < |ps| ==> PhaseOrder(ps[i].name) < PhaseOrder(ps[j].name)
  }

  /** The roadmap's phases: each non-empty, holding exactly the gaps of its priority in
      their input order, and appearing in the order Foundation, Core Skills, Advanced. */
  function Phases(gaps: seq<SkillGap>): (r: seq<Phase>)
    ensures |r| <= 3
    ensures forall i :: 0 <= i < |r| ==> |r[i].skills| > 0
    ensures forall i :: 0 <= i < |r| ==> r[i].skills == OfPriority(PhasePriority(r[i].name), gaps)
    ensures Increasing(r)
    ensures forall n :: (exists i :: 0 <= i < |r| && r[i].name == n) <==>
      |OfPriority(PhasePriority(n), gaps)| > 0
  {
    var ps := AllPhases(gaps);
    AllPhasesFacts(gaps);
    NonEmptyIncreasing(ps);
    var r := NonEmpty(ps);
    assert forall i :: 0 <= i < |r| ==> r[i] in r;
    PhaseNames(gaps, r);
    r
  }

  /** The candidates come in display order, each holding the gaps of its own priority, one
      per phase name. */
  lemma AllPhasesFacts(gaps: seq<SkillGap>)
    ensures Increasing(AllPhases(gaps))
    ensures forall ph :: ph in AllPhases(gaps) ==>
      ph.skills == OfPriority(PhasePriority(ph.name), gaps)
    ensures forall n :: Phase(n, OfPriority(PhasePriority(n), gaps)) in AllPhases(gaps)
  {
    var ps := AllPhases(gaps);
    assert OfPriority(High, SortedGaps(gaps)) == OfPriority(High, gaps);
    assert OfPriority(Medium, SortedGaps(gaps)) == OfPriority(Medium, gaps);
    assert OfPriority(Low, SortedGaps(gaps)) == OfPriority(Low, gaps);
    forall n ensures Phase(n, OfPriority(PhasePriority(n), gaps)) in ps {
      match n
      case Foundation => assert ps[0] == Phase(n, OfPriority(PhasePriority(n), gaps));
      case CoreSkills => assert ps[1] == Phase(n, OfPriority(PhasePriority(n), gaps));
      case Advanced => assert ps[2] == Phase(n, OfPriority(PhasePriority(n), gaps));
    }
  }

  /** A phase name occurs in the filtered list exactly when its tier is non-empty. */
  lemma PhaseNames(gaps: seq<SkillGap>, r: seq<Phase>)
    requires r == NonEmpty(AllPhases(gaps))
    requires forall ph :: ph in AllPhases(gaps) ==>
      ph.skills == OfPriority(PhasePriority(ph.name), gaps)
    requires forall n :: Phase(n, OfPriority(PhasePriority(n), gaps)) in AllPhases(gaps)
    ensures forall n :: (exists i :: 0 <= i < |r| && r[i].name == n) <==>
      |OfPriority(PhasePriority(n), gaps)| > 0
  {
    forall n
      ensures (exists i :: 0 <= i < |r| && r[i].name == n) ==>
        |OfPriority(PhasePriority(n), gaps)| > 0
      ensures |OfPriority(PhasePriority(n), gaps)| > 0 ==>
        exists i :: 0 <= i < |r| && r[i].name == n
    {
      var ph := Phase(n, OfPriority(PhasePriority(n), gaps));
      if exists i :: 0 <= i < |r| && r[i].name == n {
        var i :| 0 <= i < |r| && r[i].name == n;
        assert r[i] in r;
      }
      if |ph.skills| > 0 {
        assert ph in r;
        var i :| 0 <= i < |r| && r[i] == ph;
        assert r[i].name == n;
      }
    }
  }

  /** Dropping empty phases keeps the display order. */
  lemma {:induction false} NonEmptyIncreasing(ps: seq<Phase>)
    requires Increasing(ps)
    ensures Increasing(NonEmpty(ps))
  {
    if |ps| > 0 {
      var t := ps[1..];
      assert Increasing(t) by {
        forall i, j | 0 <= i < j < |t|
          ensures PhaseOrder(t[i].name) < PhaseOrder(t[j].name)
        {
          assert t[i] == ps[i + 1] && t[j] == ps[j + 1];
        }
      }
      NonEmptyIncreasing(t);
      if |ps[0].skills| > 0 {
        var r := NonEmpty(t);
        forall y | y in r
          ensures PhaseOrder(ps[0].name) < PhaseOrder(y.name)
        {
          var k :| 0 <= k < |t| && t[k] == y;
          assert ps[k + 1] == y;
        }
        ConsIncreasing(ps[0], r);
      }
    }
  }

  lemma ConsIncreasing(x: Phase, r: seq<Phase>)
    requires Increasing(r)
    requires forall y :: y in r ==> PhaseOrder(x.name) < PhaseOrder(y.name)
    ensures Increasing([x] + r)
  {
    var s := [x] + r;
    forall i, j | 0 <= i < j < |s|
      ensures PhaseOrder(s[i].name) < PhaseOrder(s[j].name)
    {
      if i == 0 {
        assert s[j] == r[j - 1];
        assert s[j] in r;
      } else {
        assert s[i] == r[i - 1] && s[j] == r[j - 1];
      }
    }
  }

  /** A phase of the given name when it has members, nothing otherwise. */
  function Opt(n: PhaseName, skills: seq<SkillGap>): seq<Phase> {
    if |skills| > 0 then [Phase(n, skills)] else []
  }

  /** The phase list is the non-empty ones among Foundation, Core Skills, Advanced. */
  lemma PhasesShape(gaps: seq<SkillGap>)
    ensures NonEmpty(AllPhases(gaps)) ==
      Opt(Foundation, OfPriority(High, gaps)) + Opt(CoreSkills, OfPriority(Medium, gaps)) +
      Opt(PhaseName.Advanced, OfPriority(Low, gaps))
  {
    var h, m, l := OfPriority(High, gaps), OfPriority(Medium, gaps), OfPriority(Low, gaps);
    var a, b, c := Phase(Foundation, h), Phase(CoreSkills, m), Phase(PhaseName.Advanced, l);
    assert AllPhases(gaps) == [a, b, c];
    NonEmptyThree(a, b, c);
  }

  lemma NonEmptyThree(a: Phase, b: Phase, c: Phase)
    ensures NonEmpty([a, b, c]) ==
      Opt(a.name, a.skills) + Opt(b.name, b.skills) + Opt(c.name, c.skills)
  {
    assert [a, b, c][1..] == [b, c] && [b, c][1..] == [c] && [c][1..] == [];
    assert NonEmpty([c]) == Opt(c.name, c.skills);
    assert NonEmpty([b, c]) == Opt(b.name, b.skills) + NonEmpty([c]);
  }

  /** Concatenating the phases gives back the sorted gaps, so no gap is lost or repeated
      and the phase sizes add up to the number of gaps. */
  function Flatten(ps: seq<Phase>): seq<SkillGap> {
    if |ps| == 0 then [] else ps[0].skills + Flatten(ps[1..])
  }

  lemma PhasesPartition(gaps: seq<SkillGap>)
    ensures Flatten(Phases(gaps)) == SortedGaps(gaps)
    ensures |Flatten(Phases(gaps))| == |gaps|
    ensures multiset(Flatten(Phases(gaps))) == multiset(gaps)
  {
    var h, m, l := OfPriority(High, gaps), OfPriority(Medium, gaps), OfPriority(Low, gaps);
    var pa, pb, pc := Opt(Foundation, h), Opt(CoreSkills, m), Opt(PhaseName.Advanced, l);
    PhasesShape(gaps);
    SortIsTiers(gaps);
    FlattenAppend(pa + pb, pc);
    FlattenAppend(pa, pb);
    FlattenOpt(Foundation, h);
    FlattenOpt(CoreSkills, m);
    FlattenOpt(PhaseName.Advanced, l);
  }

  /** An optional phase flattens to its skills, or to nothing when it was dropped. */
  lemma FlattenOpt(n: PhaseName, skills: seq<SkillGap>)
    ensures Flatten(Opt(n, skills)) == skills
  {
    if |skills| > 0 {
      assert Opt(n, skills)[1..] == [];
      assert skills + [] == skills;
    }
  }

  lemma {:induction false} FlattenAppend(a: seq<Phase>, b: seq<Phase>)
    ensures Flatten(a + b) == Flatten(a) + Flatten(b)
  {
    if |a| == 0 {
      assert a + b == b;
    } else {
      assert (a + b)[1..] == a[1..] + b;
      FlattenAppend(a[1..], b);
    }
  }

  /** Two different phases never share a gap. */
  lemma PhasesDisjoint(gaps: seq<SkillGap>)
    ensures var r := Phases(gaps);
      forall i, j, g :: 0 <= i < j < |r| && g in r[i].skills ==> g !in r[j].skills
  {
  }

  /** The analyzer never produces priority low, so its roadmap has no Advanced phase and
      at most two phases. */
  lemma AnalyzerRoadmap(c: CareerPath, userSkills: seq<Skill>, catalog: GapAnalysis.Catalog)
    ensures var r := Phases(GapAnalysis.AnalyzeGaps(Some(c), userSkills, catalog));
      |r| <= 2 && forall i :: 0 <= i < |r| ==> r[i].name != PhaseName.Advanced
  {
    GapAnalysis.AnalyzeTiers(c, userSkills, catalog);
    NoLowPhases(GapAnalysis.AnalyzeGaps(Some(c), userSkills, catalog));
  }

  lemma NoLowPhases(gaps: seq<SkillGap>)
    requires OfPriority(Low, gaps) == []
    ensures var r := Phases(gaps);
      |r| <= 2 && forall i :: 0 <= i < |r| ==> r[i].name != PhaseName.Advanced
  {
    PhasesShape(gaps);
    var pa := Opt(Foundation, OfPriority(High, gaps));
    var pb := Opt(CoreSkills, OfPriority(Medium, gaps));
    assert Phases(gaps) == pa + pb + [];
  }
}
