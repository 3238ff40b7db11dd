/** The application shell: the user's skill list with its add, remove and resume-merge
    operations, and the four-step wizard Choose Career, Add Skills, Analysis, Roadmap. */
module App {
  import opened Types
  import opened Skills

  // ----- The skill list -----

  /** `[...prev, skill]`: appends at the end, even when a skill with that id is present. */
  function AddSkill(skills: seq<Skill>, s: Skill): (r: seq<Skill>)
    ensures |r| == |skills| + 1
    ensures r[..|skills|] == skills && r[|skills|] == s
  {
    skills + [s]
  }

  /** `prev.filter(skill => skill.id !== skillId)`. */
  function RemoveSkill(skills: seq<Skill>, id: string): (r: seq<Skill>)
    ensures |r| <= |skills|
    ensures forall s {:trigger s in r} :: s in r <==> s in skills && s.id != id
  {
    if |skills| == 0 then []
    else if skills[0].id != id then [skills[0]] + RemoveSkill(skills[1..], id)
    else RemoveSkill(skills[1..], id)
  }

  /** Removing is the missing-skill filter against the single id: the survivors keep their
      original order. */
  lemma {:induction false} RemoveIsMissing(skills: seq<Skill>, id: string)
    ensures RemoveSkill(skills, id) == MissingSkills(skills, {id})
  {
    if |skills| > 0 {
      RemoveIsMissing(skills[1..], id);
    }
  }

  lemma {:induction false} RemoveAppend(a: seq<Skill>, b: seq<Skill>, id: string)
    ensures RemoveSkill(a + b, id) == RemoveSkill(a, id) + RemoveSkill(b, id)
  {
    if |a| == 0 {
      assert a + b == b;
    } else {
      assert (a + b)[1..] == a[1..] + b;
      RemoveAppend(a[1..], b, id);
    }
  }

  /** Removing an id that is absent changes nothing; removing twice is removing once. */
  lemma {:induction false} RemoveAbsent(skills: seq<Skill>, id: string)
    requires forall i :: 0 <= i < |skills| ==> skills[i].id != id
    ensures RemoveSkill(skills, id) == skills
  {
    if |skills| > 0 {
      RemoveAbsent(skills[1..], id);
    }
  }

  lemma RemoveIdempotent(skills: seq<Skill>, id: string)
    ensures RemoveSkill(RemoveSkill(skills, id), id) == RemoveSkill(skills, id)
  {
    var r := RemoveSkill(skills, id);
    assert forall i :: 0 <= i < |r| ==> r[i] in r;
    RemoveAbsent(r, id);
  }

  /** Removing the id of a skill just added undoes the addition, and also drops any
      earlier skills with the same id. */
  lemma RemoveUndoesAdd(skills: seq<Skill>, s: Skill)
    ensures RemoveSkill(AddSkill(skills, s), s.id) == RemoveSkill(skills, s.id)
  {
    RemoveAppend(skills, [s], s.id);
    assert [s][1..] == [];
  }

  /** Adding a skill whose id is new, then removing that id, restores the list. */
  lemma AddThenRemoveFresh(skills: seq<Skill>, s: Skill)
    requires s.id !in Ids(skills)
    ensures RemoveSkill(AddSkill(skills, s), s.id) == skills
  {
    RemoveUndoesAdd(skills, s);
    RemoveAbsent(skills, s.id);
  }

  // ----- Resume merge -----

  /** The four skills the mock resume analysis always "extracts". */
  const MockSkills: seq<Skill> := [
    Skill("javascript", "JavaScript", "Programming", Some(Intermediate), None),
    Skill("html", "HTML", "Frontend", Some(Advanced), None),
    Skill("css", "CSS", "Frontend", Some(Intermediate), None),
    Skill("git", "Git", "Tools", Some(Intermediate), None)
  ]

  /** The mock ids, in order. */
  lemma MockIds()
    ensures Ids(MockSkills) == ["javascript", "html", "css", "git"]
  {
  }

  /** The mock ids are pairwise different. */
  lemma MockDistinct()
    ensures DistinctIds(MockSkills)
  {
    MockIds();
  }

  /** Appends, in mock order, those mock skills whose id is not yet in the list. */
  function MergeResume(skills: seq<Skill>): (r: seq<Skill>)
    ensures |skills| <= |r| <= |skills| + 4
    ensures r[..|skills|] == skills
    ensures forall s :: s in r[|skills|..] <==> s in MockSkills && s.id !in Ids(skills)
    ensures r[|skills|..] == MissingSkills(MockSkills, IdSet(skills))
    ensures DistinctIds(r[|skills|..])
  {
    var extra := MissingSkills(MockSkills, IdSet(skills));
    MockDistinct();
    MissingSkillsDistinct(MockSkills, IdSet(skills));
    assert (skills + extra)[|skills|..] == extra;
    skills + extra
  }

  /** After a merge every mock id is present. */
  lemma MergeHasAllMockIds(skills: seq<Skill>)
    ensures forall i :: 0 <= i < |MockSkills| ==> MockSkills[i].id in Ids(MergeResume(skills))
  {
    var r := MergeResume(skills);
    forall i | 0 <= i < |MockSkills|
      ensures MockSkills[i].id in Ids(r)
    {
      var m := MockSkills[i];
      if m.id in Ids(skills) {
        var k :| 0 <= k < |skills| && skills[k].id == m.id;
        assert r[k] == skills[k];
      } else {
        assert m in r[|skills|..];
        var k :| 0 <= k < |r[|skills|..]| && r[|skills|..][k] == m;
        assert r[|skills| + k] == m;
      }
    }
  }

  /** A second merge adds nothing. */
  lemma MergeIdempotent(skills: seq<Skill>)
    ensures MergeResume(MergeResume(skills)) == MergeResume(skills)
  {
    var r := MergeResume(skills);
    MergeHasAllMockIds(skills);
    forall m | m in MockSkills
      ensures m.id in IdSet(r)
    {
      var i :| 0 <= i < |MockSkills| && MockSkills[i] == m;
      IdSetMembership(r, m.id);
    }
    MissingSkillsExtremes(MockSkills, IdSet(r));
    assert MissingSkills(MockSkills, IdSet(r)) == [];
    assert MergeResume(r) == r + [];
    assert r + [] == r;
  }

  /** Merging into the empty list gives exactly the four mock skills. */
  lemma MergeIntoEmpty()
    ensures MergeResume([]) == MockSkills
  {
    MissingSkillsExtremes(MockSkills, IdSet([]));
    assert [] + MockSkills == MockSkills;
  }

  // ----- The step wizard -----

  datatype Step = CareerStep | SkillsStep | AnalysisStep | RoadmapStep

  /** The `steps` array in order. */
  const Steps: seq<Step> := [CareerStep, SkillsStep, AnalysisStep, RoadmapStep]

  /** `steps.findIndex(step => step.id === currentStep)`: the position of the step. */
  function StepIndex(s: Step): (i: nat)
    ensures i < |Steps| && Steps[i] == s
  {
    match s
    case CareerStep => 0
    case SkillsStep => 1
    case AnalysisStep => 2
    case RoadmapStep => 3
  }

  /** Each step sits at exactly one position. */
  lemma StepIndexInverse(i: nat)
    requires i < |Steps|
    ensures StepIndex(Steps[i]) == i
  {
  }

  /** `handleNext`: the following step, or the same step on the last one. */
  function Next(s: Step): (t: Step)
    ensures StepIndex(s) + 1 < |Steps| ==> StepIndex(t) == StepIndex(s) + 1
    ensures StepIndex(s) + 1 == |Steps| ==> t == s
  {
    var n := StepIndex(s) + 1;
    if n < |Steps| then Steps[n] else s
  }

  /** `handlePrevious`: the preceding step, or the same step on the first one. */
  function Previous(s: Step): (t: Step)
    ensures StepIndex(s) > 0 ==> StepIndex(t) == StepIndex(s) - 1
    ensures StepIndex(s) == 0 ==> t == s
  {
    var n := StepIndex(s) - 1;
    if n >= 0 then Steps[n] else s
  }

  /** Going forward then back, or back then forward, returns to the start away from the
      ends. */
  lemma NextPreviousRoundTrip(s: Step)
    ensures StepIndex(s) + 1 < |Steps| ==> Previous(Next(s)) == s
    ensures StepIndex(s) > 0 ==> Next(Previous(s)) == s
  {
    StepIndexInverse(StepIndex(s));
    if StepIndex(s) + 1 < |Steps| {
      StepIndexInverse(StepIndex(Previous(Next(s))));
    }
    if StepIndex(s) > 0 {
      StepIndexInverse(StepIndex(Next(Previous(s))));
    }
  }

  /** The application state the wizard works on. */
  datatype AppState = AppState(step: Step, career: Option<CareerPath>, skills: seq<Skill>)

  const InitialApp: AppState := AppState(CareerStep, None, [])

  /** `canProceed()`: whether the Next button is enabled. */
  function CanProceed(st: AppState): (b: bool)
    ensures st.step == CareerStep ==> (b <==> st.career.Some?)
    ensures st.step == SkillsStep ==> (b <==> |st.skills| > 0)
    ensures st.step == AnalysisStep || st.step == RoadmapStep ==> b
  {
    match st.step
    case CareerStep => st.career.Some?
    case SkillsStep => |st.skills| > 0
    case AnalysisStep => true
    case RoadmapStep => true
  }

  /** The `completed` flag of a step in the progress indicator. */
  function Completed(st: AppState, s: Step): (b: bool)
    ensures s == CareerStep ==> (b <==> st.career.Some?)
    ensures s == SkillsStep ==> (b <==> |st.skills| > 0)
    ensures s == AnalysisStep || s == RoadmapStep ==> !b
  {
    match s
    case CareerStep => st.career.Some?
    case SkillsStep => |st.skills| > 0
    case AnalysisStep => false
    case RoadmapStep => false
  }

  /** On the first two steps Next is enabled exactly when the current step shows as
      completed; on the last two it is always enabled, though neither step ever completes. */
  lemma CanProceedMatchesCompleted(st: AppState)
    ensures StepIndex(st.step) < 2 ==> (CanProceed(st) <==> Completed(st, st.step))
    ensures StepIndex(st.step) >= 2 ==> CanProceed(st) && !Completed(st, st.step)
  {
  }

  /** What the user can do. Each action is available only where the page offers it: the
      career picker on the first step, the skill form on the second, Next when its button
      is shown and enabled, Previous when its button is enabled. */
  datatype Action =
    | SelectCareer(c: CareerPath)
    | Add(s: Skill)
    | Remove(id: string)
    | AnalyzeResume
    | PressNext
    | PressPrevious

  function Apply(st: AppState, a: Action): (r: AppState)
    ensures !a.PressNext? && !a.PressPrevious? ==> r.step == st.step
    ensures st.step != CareerStep ==> r.career == st.career
    ensures st.step != SkillsStep ==> r.skills == st.skills
    ensures a.PressNext? ==> r.step == (if StepIndex(st.step) + 1 < |Steps| && CanProceed(st)
      then Next(st.step) else st.step)
    ensures a.PressPrevious? ==> r.step == Previous(st.step)
    ensures r.career.None? ==> st.career.None?
    ensures a.SelectCareer? && st.step == CareerStep ==> r.career == Some(a.c)
    ensures a.Add? && st.step == SkillsStep ==> r.skills == AddSkill(st.skills, a.s)
    ensures a.Remove? && st.step == SkillsStep ==> r.skills == RemoveSkill(st.skills, a.id)
    ensures a.AnalyzeResume? && st.step == SkillsStep ==> r.skills == MergeResume(st.skills)
    ensures !a.SelectCareer? ==> r.career == st.career
    ensures !(a.Add? || a.Remove? || a.AnalyzeResume?) ==> r.skills == st.skills
  {
    match a
    case SelectCareer(c) =>
      if st.step == CareerStep then st.(career := Some(c)) else st
    case Add(s) =>
      if st.step == SkillsStep then st.(skills := AddSkill(st.skills, s)) else st
    case Remove(id) =>
      if st.step == SkillsStep then st.(skills := RemoveSkill(st.skills, id)) else st
    case AnalyzeResume =>
      if st.step == SkillsStep then st.(skills := MergeResume(st.skills)) else st
    case PressNext =>
      // On the last step the Next button is replaced, so only earlier steps advance.
      if StepIndex(st.step) + 1 < |Steps| && CanProceed(st) then st.(step := Next(st.step))
      else st
    case PressPrevious =>
      st.(step := Previous(st.step))
  }

  /** Past the first step a career is chosen; past the second the skill list is non-empty. */
  predicate Guarded(st: AppState) {
    && (StepIndex(st.step) >= 1 ==> st.career.Some?)
    && (StepIndex(st.step) >= 2 ==> |st.skills| > 0)
  }

  lemma ApplyGuarded(st: AppState, a: Action)
    requires Guarded(st)
    ensures Guarded(Apply(st, a))
  {
    match a
    case Remove(id) =>
    case PressNext =>
    case PressPrevious =>
    case _ =>
  }

  /** Applies a sequence of actions from left to right. */
  function Run(st: AppState, actions: seq<Action>): AppState
    decreases |actions|
  {
    if |actions| == 0 then st else Run(Apply(st, actions[0]), actions[1..])
  }

  /** Choosing a career, pressing Next, adding a skill and pressing Next again reaches the
      analysis view with that career and that one skill. */
  lemma ReachAnalysis(c: CareerPath, s: Skill)
    ensures var st := Run(InitialApp, [SelectCareer(c), PressNext, Add(s), PressNext]);
      st.step == AnalysisStep && st.career == Some(c) && st.skills == [s]
  {
    var acts := [SelectCareer(c), PressNext, Add(s), PressNext];
    var s1 := Apply(InitialApp, SelectCareer(c));
    assert s1 == AppState(CareerStep, Some(c), []);
    assert CanProceed(s1);
    var s2 := Apply(s1, PressNext);
    assert s2 == AppState(SkillsStep, Some(c), []);
    var s3 := Apply(s2, Add(s));
    assert [] + [s] == [s];
    assert s3 == AppState(SkillsStep, Some(c), [s]);
    assert CanProceed(s3);
    var s4 := Apply(s3, PressNext);
    assert s4 == AppState(AnalysisStep, Some(c), [s]);
    assert acts[1..] == [PressNext, Add(s), PressNext];
    assert acts[1..][1..] == [Add(s), PressNext];
    assert acts[1..][1..][1..] == [PressNext];
    assert Run(s4, [PressNext][1..]) == s4;
    assert Run(s3, [PressNext]) == s4;
    assert Run(s2, [Add(s), PressNext]) == s4;
    assert Run(s1, [PressNext, Add(s), PressNext]) == s4;
  }

  /** Every state the user can reach from the start is guarded: in particular the analysis
      view always has a career and at least one skill to work with. */
  lemma {:induction false} RunGuarded(st: AppState, actions: seq<Action>)
    requires Guarded(st)
    ensures Guarded(Run(st, actions))
    decreases |actions|
  {
    if |actions| > 0 {
      ApplyGuarded(st, actions[0]);
      RunGuarded(Apply(st, actions[0]), actions[1..]);
    }
  }

  lemma ReachableGuarded(actions: seq<Action>)
    ensures var st := Run(InitialApp, actions);
      (st.step == AnalysisStep || st.step == RoadmapStep) ==>
        st.career.Some? && |st.skills| > 0
  {
    RunGuarded(InitialApp, actions);
  }
}
