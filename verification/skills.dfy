/** Skill-list helpers shared by the gap analyzer, the progress summary and the
    resume merge: identity of a skill is its id. */
module Skills {
  import opened Types

  /** `skills.map(skill => skill.id)`. */
  function Ids(skills: seq<Skill>): (r: seq<string>)
    ensures |r| == |skills|
    ensures forall i :: 0 <= i < |skills| ==> r[i] == skills[i].id
  {
    if |skills| == 0 then [] else [skills[0].id] + Ids(skills[1..])
  }

  /** `new Set(skills.map(skill => skill.id))`. */
  function IdSet(skills: seq<Skill>): (r: set<string>)
    ensures forall s :: s in skills ==> s.id in r
    ensures forall id :: id in r ==> id in Ids(skills)
  {
    set id | id in Ids(skills)
  }

  lemma IdSetMembership(skills: seq<Skill>, id: string)
    ensures id in IdSet(skills) <==> id in Ids(skills)
    ensures id in Ids(skills) <==> exists i :: 0 <= i < |skills| && skills[i].id == id
  {
    if id in Ids(skills) {
      var i :| 0 <= i < |skills| && Ids(skills)[i] == id;
    }
  }

  /** The in-order subsequence of `skills` whose ids are not in `ids`. */
  function MissingSkills(skills: seq<Skill>, ids: set<string>): (r: seq<Skill>)
    ensures |r| <= |skills|
    ensures forall s {:trigger s in r} :: s in r <==> s in skills && s.id !in ids
  {
    if |skills| == 0 then []
    else if skills[0].id !in ids then [skills[0]] + MissingSkills(skills[1..], ids)
    else MissingSkills(skills[1..], ids)
  }

  /** Filtering distributes over concatenation, which is what "keeps the input order" means. */
  lemma {:induction false} MissingSkillsAppend(a: seq<Skill>, b: seq<Skill>, ids: set<string>)
    ensures MissingSkills(a + b, ids) == MissingSkills(a, ids) + MissingSkills(b, ids)
  {
    if |a| == 0 {
      assert a + b == b;
    } else {
      assert (a + b)[1..] == a[1..] + b;
      MissingSkillsAppend(a[1..], b, ids);
    }
  }

  /** No id occurs twice. */
  predicate DistinctIds(skills: seq<Skill>) {
    forall i, j :: 0 <= i < j < |skills| ==> skills[i].id != skills[j].id
  }

  /** Filtering a list without repeated ids gives a list without repeated ids. */
  lemma {:induction false} MissingSkillsDistinct(skills: seq<Skill>, ids: set<string>)
    requires DistinctIds(skills)
    ensures DistinctIds(MissingSkills(skills, ids))
  {
    if |skills| > 0 {
      var t := skills[1..];
      assert DistinctIds(t) by {
        forall i, j | 0 <= i < j < |t|
          ensures t[i].id != t[j].id
        {
          assert t[i] == skills[i + 1] && t[j] == skills[j + 1];
        }
      }
      MissingSkillsDistinct(t, ids);
      if skills[0].id !in ids {
        var m := MissingSkills(t, ids);
        var r := [skills[0]] + m;
        forall i, j | 0 <= i < j < |r|
          ensures r[i].id != r[j].id
        {
          assert r[j] == m[j - 1];
          if i == 0 {
            assert r[j] in m;
            var k :| 0 <= k < |t| && t[k] == r[j];
            assert skills[k + 1] == r[j];
          } else {
            assert r[i] == m[i - 1];
          }
        }
      }
    }
  }

  /** Nothing is filtered out when no id is excluded, everything when every id is. */
  lemma {:induction false} MissingSkillsExtremes(skills: seq<Skill>, ids: set<string>)
    ensures (forall s :: s in skills ==> s.id !in ids) ==> MissingSkills(skills, ids) == skills
    ensures (forall s :: s in skills ==> s.id in ids) ==> MissingSkills(skills, ids) == []
  {
    if |skills| > 0 {
      MissingSkillsExtremes(skills[1..], ids);
    }
  }
}
