/** The analysis view's progress summary: which career skills the user already has, and
    the completion percentage over the required ones. */
module Progress {
  import opened Types
  import opened Skills
  import opened PrioritySort
  import GapAnalysis

  /** `skills.filter(skill => userSkillIds.includes(skill.id))`. */
  function MatchedSkills(skills: seq<Skill>, userIds: seq<string>): (r: seq<Skill>)
    ensures |r| <= |skills|
    ensures forall s {:trigger s in r} :: s in r <==> s in skills && s.id in userIds
  {
    if |skills| == 0 then []
    else if skills[0].id in userIds then [skills[0]] + MatchedSkills(skills[1..], userIds)
    else MatchedSkills(skills[1..], userIds)
  }

  /** Filtering distributes over concatenation, so the matched skills keep their list order. */
  lemma {:induction false} MatchedSkillsAppend(a: seq<Skill>, b: seq<Skill>, ids: seq<string>)
    ensures MatchedSkills(a + b, ids) == MatchedSkills(a, ids) + MatchedSkills(b, ids)
  {
    if |a| == 0 {
      assert a + b == b;
    } else {
      assert (a + b)[1..] == a[1..] + b;
      MatchedSkillsAppend(a[1..], b, ids);
    }
  }

  /** Matched and missing skills split the list: together they account for every entry. */
  lemma {:induction false} MatchedPlusMissing(skills: seq<Skill>, userSkills: seq<Skill>)
    ensures |MatchedSkills(skills, Ids(userSkills))| + |MissingSkills(skills, IdSet(userSkills))|
      == |skills|
  {
    if |skills| > 0 {
      MatchedPlusMissing(skills[1..], userSkills);
    }
  }

  /** `Math.round(matched / total * 100)` for a non-negative quotient, read as exact
      rounding half up: the integer nearest to 100 * matched / total, ties going up. */
  function CompletionPercentage(matched: nat, total: nat): (pct: nat)
    requires total > 0
    ensures 2 * total * pct <= 200 * matched + total < 2 * total * (pct + 1)
  {
    (200 * matched + total) / (2 * total)
  }

  lemma MulLeft(k: nat, a: nat, b: nat)
    requires a <= b
    ensures k * a <= k * b
  {
  }

  /** With at most `total` matches the percentage lies in 0..100. */
  lemma PercentageBounds(matched: nat, total: nat)
    requires 0 < total && matched <= total
    ensures 0 <= CompletionPercentage(matched, total) <= 100
  {
    var pct := CompletionPercentage(matched, total);
    if pct > 100 {
      MulLeft(2 * total, 101, pct);
    }
  }

  /** The percentage shows 100 exactly when 200 * matched >= 199 * total; in particular
      when everything matches, and, with fewer than 200 required skills, only then. */
  lemma PercentageFull(matched: nat, total: nat)
    requires 0 < total && matched <= total
    ensures CompletionPercentage(matched, total) == 100 <==> 200 * matched >= 199 * total
    ensures matched == total ==> CompletionPercentage(matched, total) == 100
    ensures total < 200 ==> (CompletionPercentage(matched, total) == 100 <==> matched == total)
  {
    var pct := CompletionPercentage(matched, total);
    PercentageBounds(matched, total);
    if pct == 100 {
      assert 2 * total * pct == 200 * total;
    } else {
      assert pct + 1 <= 100;
      MulLeft(2 * total, pct + 1, 100);
    }
  }

  /** The percentage shows 0 exactly when 200 * matched < total; in particular when
      nothing matches. */
  lemma PercentageZero(matched: nat, total: nat)
    requires 0 < total
    ensures CompletionPercentage(matched, total) == 0 <==> 200 * matched < total
    ensures matched == 0 ==> CompletionPercentage(matched, total) == 0
  {
    var pct := CompletionPercentage(matched, total);
    if pct > 0 {
      MulLeft(2 * total, 1, pct);
    } else {
      assert 2 * total * pct == 0;
    }
  }

  /** More matches never lower the percentage. */
  lemma PercentageMonotone(m1: nat, m2: nat, total: nat)
    requires 0 < total && m1 <= m2
    ensures CompletionPercentage(m1, total) <= CompletionPercentage(m2, total)
  {
    var p1, p2 := CompletionPercentage(m1, total), CompletionPercentage(m2, total);
    if p1 > p2 {
      MulLeft(2 * total, p2 + 1, p1);
    }
  }

  /** What the progress panel shows: matched skills of both lists, the "m of n" pair and the
      percentage, which is undefined (`NaN` in the view) for a career without required
      skills. */
  datatype Summary = Summary(
    requiredMatched: seq<Skill>,
    niceToHaveMatched: seq<Skill>,
    requiredTotal: nat,
    percentage: Option<nat>)

  function Summarize(c: CareerPath, userSkills: seq<Skill>): (r: Summary)
    ensures r.requiredTotal == |c.requiredSkills|
    ensures |r.requiredMatched| <= r.requiredTotal
    ensures forall s :: s in r.requiredMatched <==> s in c.requiredSkills && s.id in Ids(userSkills)
    ensures forall s :: s in r.niceToHaveMatched <==>
      s in c.niceToHaveSkills && s.id in Ids(userSkills)
    ensures r.percentage.None? <==> r.requiredTotal == 0
    ensures r.percentage.Some? ==> r.percentage.value <= 100
    ensures r.percentage.Some? ==>
      r.percentage.value == CompletionPercentage(|r.requiredMatched|, r.requiredTotal)
    ensures r.requiredMatched == MatchedSkills(c.requiredSkills, Ids(userSkills))
    ensures r.niceToHaveMatched == MatchedSkills(c.niceToHaveSkills, Ids(userSkills))
  {
    var ids := Ids(userSkills);
    var req := MatchedSkills(c.requiredSkills, ids);
    var total := |c.requiredSkills|;
    if total == 0 then Summary(req, MatchedSkills(c.niceToHaveSkills, ids), 0, None)
    else
      PercentageBounds(|req|, total);
      Summary(req, MatchedSkills(c.niceToHaveSkills, ids), total,
        Some(CompletionPercentage(|req|, total)))
  }

  /** The matched required count and the number of high-priority gaps, computed from the
      same career and skills, add up to the number of required skills. */
  lemma MatchedPlusHighGaps(c: CareerPath, userSkills: seq<Skill>, catalog: GapAnalysis.Catalog)
    ensures |Summarize(c, userSkills).requiredMatched| +
      |OfPriority(High, GapAnalysis.AnalyzeGaps(Some(c), userSkills, catalog))|
      == |c.requiredSkills|
  {
    GapAnalysis.AnalyzeTiers(c, userSkills, catalog);
    MatchedPlusMissing(c.requiredSkills, userSkills);
  }
}
