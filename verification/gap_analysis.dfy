/** The gap analyzer: for a selected career and the user's skills, one gap per required
    skill the user lacks (priority high), then one per missing nice-to-have skill
    (priority medium), stably sorted by priority, each with a learning-time estimate and a
    list of resources. The resource catalog is a parameter. */
module GapAnalysis {
  import opened Types
  import opened Text
  import opened Skills
  import opened PrioritySort

  /** The curated catalog: skill id to its resource list. */
  type Catalog = map<string, seq<Resource>>

  const DefaultLearningTime: string := "4-6 weeks"

  /** Learning time by exact (case-sensitive) skill name. */
  const LearningTimes: map<string, string> := map[
    "HTML" := "2-3 weeks",
    "CSS" := "3-4 weeks",
    "JavaScript" := "6-8 weeks",
    "React" := "4-6 weeks",
    "Python" := "6-10 weeks",
    "SQL" := "3-4 weeks",
    "Git/Version Control" := "1-2 weeks",
    "Node.js" := "4-6 weeks",
    "TypeScript" := "2-3 weeks",
    "Docker" := "3-4 weeks",
    "AWS" := "8-12 weeks",
    "Machine Learning" := "12-16 weeks",
    "Figma" := "2-3 weeks",
    "Testing" := "3-4 weeks"
  ]

  const SearchUrl: string := "https://www.google.com/search?q="

  /** `timeMap[name] || '4-6 weeks'`: an empty table value would also fall back, but the
      table has none, so a listed name always gets its own entry. */
  function EstimatedLearningTime(name: string): (t: string)
    ensures name in LearningTimes ==> t == LearningTimes[name]
    ensures name !in LearningTimes ==> t == DefaultLearningTime
    ensures t != ""
  {
    if name in LearningTimes && LearningTimes[name] != "" then LearningTimes[name]
    else DefaultLearningTime
  }

  /** A few lookups: exact names hit the table, anything else (including a different
      letter case) gets the default. */
  lemma LearningTimeExamples()
    ensures EstimatedLearningTime("CSS") == "3-4 weeks"
    ensures EstimatedLearningTime("JavaScript") == "6-8 weeks"
    ensures EstimatedLearningTime("Machine Learning") == "12-16 weeks"
    ensures EstimatedLearningTime("css") == "4-6 weeks"
    ensures EstimatedLearningTime("Kubernetes") == "4-6 weeks"
  {
  }

  /** The synthesized pair offered when the catalog has no entry for a skill: a free
      beginner course and a free intermediate documentation entry, whose search URLs carry
      the name with each whitespace run turned into `+`. */
  function DefaultResources(skill: Skill): (r: seq<Resource>)
    ensures |r| == 2
    ensures r[0].id == skill.id + "-generic-1" && r[1].id == skill.id + "-generic-2"
    ensures r[0].id != r[1].id
    ensures r[0].kind == Course && r[1].kind == Documentation
    ensures r[0].difficulty == Beginner && r[1].difficulty == Intermediate
    ensures r[0].isFree && r[1].isFree
    ensures r[0].rating == 4.5 && r[1].rating == 4.3
    ensures r[0].url == CourseUrl(skill.name) && r[1].url == DocsUrl(skill.name)
  {
    GenericIdsDiffer(skill.id);
    [ Resource(
        skill.id + "-generic-1", "Learn " + skill.name, Course, "Multiple Providers",
        CourseUrl(skill.name), "4-6 weeks", Beginner, 4.5, true),
      Resource(
        skill.id + "-generic-2", skill.name + " Documentation", Documentation, "Official Docs",
        DocsUrl(skill.name), "2-3 weeks", Intermediate, 4.3, true) ]
  }

  lemma GenericIdsDiffer(id: string)
    ensures id + "-generic-1" != id + "-generic-2"
  {
    var a, b := id + "-generic-1", id + "-generic-2";
    assert a[|a| - 1] != b[|b| - 1];
  }

  /** The search URL of the generic course: a whitespace-free URL under the search
      prefix, spelling the name verbatim when it has no whitespace. */
  function CourseUrl(name: string): (url: string)
    ensures SearchUrl <= url && NoWs(url)
    ensures NoWs(name) ==> url == SearchUrl + "learn+" + name
    ensures url == SearchUrl + "learn+" + Scan(name, "+", false)
  {
    var q := SearchQuery(name);
    NoWsConcat(SearchUrl + "learn+", q);
    assert SearchUrl + "learn+" + q == SearchUrl + ("learn+" + q);
    SearchUrl + "learn+" + q
  }

  /** The search URL of the generic documentation entry, with the same guarantees. */
  function DocsUrl(name: string): (url: string)
    ensures SearchUrl <= url && NoWs(url)
    ensures NoWs(name) ==> url == SearchUrl + name + "+documentation"
    ensures url == SearchUrl + Scan(name, "+", false) + "+documentation"
  {
    var q := SearchQuery(name);
    NoWsConcat(SearchUrl, q);
    NoWsConcat(SearchUrl + q, "+documentation");
    assert SearchUrl + q + "+documentation" == SearchUrl + (q + "+documentation");
    SearchUrl + q + "+documentation"
  }

  /** `name.replace(/\s+/g, '+')`: a query term without whitespace; a name that has none
      is used verbatim. */
  function SearchQuery(name: string): (q: string)
    ensures NoWs(q)
    ensures NoWs(name) ==> q == name
    ensures q == Scan(name, "+", false)
  {
    ReplaceWsRunsNoWs(name, "+");
    ReplaceMatchesScan(name, "+");
    ReplaceWsRunsIdentity(name, "+");
    ReplaceWsRuns(name, "+")
  }

  lemma NoWsConcat(a: string, b: string)
    requires NoWs(a) && NoWs(b)
    ensures NoWs(a + b)
  {
    forall i | 0 <= i < |a + b|
      ensures !IsWs((a + b)[i])
    {
      if i >= |a| {
        assert (a + b)[i] == b[i - |a|];
      }
    }
  }

  /** `resources[skill.id] || getDefaultResources(skill)`: an entry that is present is used
      as it is, even when it is empty (an empty array is truthy); only a missing id falls
      back to the synthesized pair. */
  function ResourcesFor(catalog: Catalog, skill: Skill): (r: seq<Resource>)
    ensures skill.id in catalog ==> r == catalog[skill.id]
    ensures skill.id !in catalog ==>
      r == DefaultResources(skill) && |r| == 2 && forall i :: 0 <= i < |r| ==> r[i].isFree
  {
    if skill.id in catalog then catalog[skill.id] else DefaultResources(skill)
  }

  function MakeGap(skill: Skill, p: Priority, catalog: Catalog): (g: SkillGap)
    ensures g.skill == skill && g.priority == p
  {
    SkillGap(skill, p, EstimatedLearningTime(skill.name), ResourcesFor(catalog, skill))
  }

  /** The well-formedness every emitted gap has: its time and resources are the ones looked
      up for its own skill. */
  predicate Resolved(g: SkillGap, catalog: Catalog) {
    && g.estimatedLearningTime == EstimatedLearningTime(g.skill.name)
    && g.resources == ResourcesFor(catalog, g.skill)
  }

  /** The `forEach` over one career list: a gap of priority `p` for each skill whose id the
      user does not have, in list order. */
  function GapsFor(skills: seq<Skill>, ids: set<string>, p: Priority, catalog: Catalog)
    : (r: seq<SkillGap>)
    ensures |r| == |MissingSkills(skills, ids)|
    ensures forall i :: 0 <= i < |r| ==> r[i] == MakeGap(MissingSkills(skills, ids)[i], p, catalog)
  {
    var ms := MissingSkills(skills, ids);
    seq(|ms|, i requires 0 <= i < |ms| => MakeGap(ms[i], p, catalog))
  }

  lemma GapsForMembers(skills: seq<Skill>, ids: set<string>, p: Priority, catalog: Catalog)
    ensures forall g :: g in GapsFor(skills, ids, p, catalog) ==>
      g.skill in skills && g.skill.id !in ids && g.priority == p && Resolved(g, catalog)
  {
    var r := GapsFor(skills, ids, p, catalog);
    forall g | g in r
      ensures g.skill in skills && g.skill.id !in ids
    {
      var i :| 0 <= i < |r| && r[i] == g;
      assert MissingSkills(skills, ids)[i] in MissingSkills(skills, ids);
    }
  }

  /** The gaps before sorting: one per missing required entry, all high, then one per
      missing nice-to-have entry, all medium. */
  function Emitted(c: CareerPath, userSkills: seq<Skill>, catalog: Catalog): (r: seq<SkillGap>)
    ensures var ids := IdSet(userSkills); var n := |MissingSkills(c.requiredSkills, ids)|;
      && |r| == n + |MissingSkills(c.niceToHaveSkills, ids)|
      && forall k :: 0 <= k < |r| ==> r[k].priority == (if k < n then High else Medium)
  {
    var ids := IdSet(userSkills);
    GapsFor(c.requiredSkills, ids, High, catalog) + GapsFor(c.niceToHaveSkills, ids, Medium, catalog)
  }

  /** `useSkillGapAnalysis(selectedCareer, userSkills)`. */
  function AnalyzeGaps(career: Option<CareerPath>, userSkills: seq<Skill>, catalog: Catalog)
    : (r: seq<SkillGap>)
    ensures career.None? ==> r == []
    ensures Sorted(r)
    ensures career.Some? ==> multiset(r) == multiset(Emitted(career.value, userSkills, catalog))
  {
    match career
    case None => []
    case Some(c) => StableSortByPriority(Emitted(c, userSkills, catalog))
  }

  /** Every gap names a skill of the career the user does not have (by id), carries the
      priority of the list it came from, and never has priority low. */
  lemma GapsAreMissing(c: CareerPath, userSkills: seq<Skill>, catalog: Catalog)
    ensures forall g :: g in AnalyzeGaps(Some(c), userSkills, catalog) ==>
      && g.skill.id !in Ids(userSkills)
      && (g.priority == High ==> g.skill in c.requiredSkills)
      && (g.priority == Medium ==> g.skill in c.niceToHaveSkills)
      && g.priority != Low
      && Resolved(g, catalog)
  {
    var ids := IdSet(userSkills);
    var r := AnalyzeGaps(Some(c), userSkills, catalog);
    var a := GapsFor(c.requiredSkills, ids, High, catalog);
    var b := GapsFor(c.niceToHaveSkills, ids, Medium, catalog);
    GapsForMembers(c.requiredSkills, ids, High, catalog);
    GapsForMembers(c.niceToHaveSkills, ids, Medium, catalog);
    forall g | g in r
      ensures g.skill.id !in Ids(userSkills)
      ensures g.priority == High ==> g.skill in c.requiredSkills
      ensures g.priority == Medium ==> g.skill in c.niceToHaveSkills
      ensures g.priority != Low && Resolved(g, catalog)
    {
      assert g in multiset(r);
      assert g in a + b;
    }
  }

  /** The sort leaves the emitted order alone: the result is the required-skill gaps in
      career order followed by the nice-to-have gaps in career order. */
  lemma AnalyzeIsEmissionOrder(c: CareerPath, userSkills: seq<Skill>, catalog: Catalog)
    ensures AnalyzeGaps(Some(c), userSkills, catalog) == Emitted(c, userSkills, catalog)
  {
    var ids := IdSet(userSkills);
    var a := GapsFor(c.requiredSkills, ids, High, catalog);
    var b := GapsFor(c.niceToHaveSkills, ids, Medium, catalog);
    UniformAppendSorted(a, b, High, Medium);
    SortOfSorted(a + b);
  }

  /** Each tier of the result is exactly the gaps from one career list, in career order;
      the low tier is empty. */
  lemma AnalyzeTiers(c: CareerPath, userSkills: seq<Skill>, catalog: Catalog)
    ensures var r := AnalyzeGaps(Some(c), userSkills, catalog); var ids := IdSet(userSkills);
      && OfPriority(High, r) == GapsFor(c.requiredSkills, ids, High, catalog)
      && OfPriority(Medium, r) == GapsFor(c.niceToHaveSkills, ids, Medium, catalog)
      && OfPriority(Low, r) == []
  {
    var ids := IdSet(userSkills);
    var a := GapsFor(c.requiredSkills, ids, High, catalog);
    var b := GapsFor(c.niceToHaveSkills, ids, Medium, catalog);
    AnalyzeIsEmissionOrder(c, userSkills, catalog);
    GapsForMembers(c.requiredSkills, ids, High, catalog);
    GapsForMembers(c.niceToHaveSkills, ids, Medium, catalog);
    OfPriorityAppend(High, a, b);
    OfPriorityAppend(Medium, a, b);
    OfPriorityAppend(Low, a, b);
    OfPriorityExtremes(High, a);
    OfPriorityExtremes(High, b);
    OfPriorityExtremes(Medium, a);
    OfPriorityExtremes(Medium, b);
    OfPriorityExtremes(Low, a);
    OfPriorityExtremes(Low, b);
  }

  /** The number of gaps is the number of required entries plus the number of nice-to-have
      entries whose id the user lacks; lists are not deduplicated. */
  lemma AnalyzeCount(c: CareerPath, userSkills: seq<Skill>, catalog: Catalog)
    ensures var ids := IdSet(userSkills);
      |AnalyzeGaps(Some(c), userSkills, catalog)| ==
        |MissingSkills(c.requiredSkills, ids)| + |MissingSkills(c.niceToHaveSkills, ids)|
  {
    AnalyzeIsEmissionOrder(c, userSkills, catalog);
  }

  /** Only the set of user ids matters: duplicate or reordered user skills change nothing. */
  lemma AnalyzeDependsOnIds(career: Option<CareerPath>, u: seq<Skill>, v: seq<Skill>, catalog: Catalog)
    requires forall id :: id in Ids(u) <==> id in Ids(v)
    ensures AnalyzeGaps(career, u, catalog) == AnalyzeGaps(career, v, catalog)
  {
    assert IdSet(u) == IdSet(v);
  }

  /** Adding a skill whose id the user already has changes nothing. */
  lemma AnalyzeIgnoresDuplicate(career: Option<CareerPath>, u: seq<Skill>, s: Skill, catalog: Catalog)
    requires s.id in Ids(u)
    ensures AnalyzeGaps(career, u + [s], catalog) == AnalyzeGaps(career, u, catalog)
  {
    forall id
      ensures id in Ids(u + [s]) <==> id in Ids(u)
    {
      assert Ids(u + [s]) == Ids(u) + [s.id];
    }
    AnalyzeDependsOnIds(career, u + [s], u, catalog);
  }

  /** A missing skill listed both as required and as nice-to-have yields two gaps: a high
      one, and after it a medium one. */
  lemma SharedSkillTwoGaps(c: CareerPath, userSkills: seq<Skill>, s: Skill, catalog: Catalog)
    requires s in c.requiredSkills && s in c.niceToHaveSkills && s.id !in Ids(userSkills)
    ensures var r := AnalyzeGaps(Some(c), userSkills, catalog);
      exists i, j :: 0 <= i < j < |r| &&
        r[i] == MakeGap(s, High, catalog) && r[j] == MakeGap(s, Medium, catalog)
  {
    var ids := IdSet(userSkills);
    assert s.id !in ids;
    var a, b := GapsFor(c.requiredSkills, ids, High, catalog), GapsFor(c.niceToHaveSkills, ids, Medium, catalog);
    AnalyzeIsEmissionOrder(c, userSkills, catalog);
    assert AnalyzeGaps(Some(c), userSkills, catalog) == a + b;
    var ka := GapAt(c.requiredSkills, ids, High, catalog, s);
    var kb := GapAt(c.niceToHaveSkills, ids, Medium, catalog, s);
    AppendAt(a, b, ka, kb);
  }

  lemma AppendAt<T>(a: seq<T>, b: seq<T>, i: nat, j: nat)
    requires i < |a| && j < |b|
    ensures i < |a| + j < |a + b|
    ensures (a + b)[i] == a[i] && (a + b)[|a| + j] == b[j]
  {
  }

  /** A listed skill the user lacks has its gap somewhere in the list's gaps. */
  lemma GapAt(skills: seq<Skill>, ids: set<string>, p: Priority, catalog: Catalog, s: Skill)
    returns (k: nat)
    requires s in skills && s.id !in ids
    ensures k < |GapsFor(skills, ids, p, catalog)|
    ensures GapsFor(skills, ids, p, catalog)[k] == MakeGap(s, p, catalog)
  {
    var m := MissingSkills(skills, ids);
    assert s in m;
    k :| 0 <= k < |m| && m[k] == s;
  }

  /** With no repeated id inside either career list, no tier of the result repeats an id.
      Across tiers a skill listed in both lists still gives two gaps (`SharedSkillTwoGaps`). */
  lemma AnalyzeTiersDistinct(c: CareerPath, userSkills: seq<Skill>, catalog: Catalog)
    requires DistinctIds(c.requiredSkills) && DistinctIds(c.niceToHaveSkills)
    ensures forall p :: GapIdsDistinct(OfPriority(p, AnalyzeGaps(Some(c), userSkills, catalog)))
  {
    var ids := IdSet(userSkills);
    AnalyzeTiers(c, userSkills, catalog);
    GapsForDistinct(c.requiredSkills, ids, High, catalog);
    GapsForDistinct(c.niceToHaveSkills, ids, Medium, catalog);
    assert GapIdsDistinct([]);
    forall p
      ensures GapIdsDistinct(OfPriority(p, AnalyzeGaps(Some(c), userSkills, catalog)))
    {
      match p
      case High =>
      case Medium =>
      case Low =>
    }
  }

  /** No two gaps name skills with the same id. */
  predicate GapIdsDistinct(gs: seq<SkillGap>) {
    forall i, j :: 0 <= i < j < |gs| ==> gs[i].skill.id != gs[j].skill.id
  }

  /** The gaps of a list without repeated ids name pairwise different ids. */
  lemma GapsForDistinct(skills: seq<Skill>, ids: set<string>, p: Priority, catalog: Catalog)
    requires DistinctIds(skills)
    ensures GapIdsDistinct(GapsFor(skills, ids, p, catalog))
  {
    MissingSkillsDistinct(skills, ids);
    var m := MissingSkills(skills, ids);
    var r := GapsFor(skills, ids, p, catalog);
    forall i, j | 0 <= i < j < |r|
      ensures r[i].skill.id != r[j].skill.id
    {
      assert r[i].skill == m[i] && r[j].skill == m[j];
    }
  }

  /** A missing skill listed twice among the required skills yields the same high gap
      twice: the list is not deduplicated. */
  lemma RepeatedSkillTwoGaps(c: CareerPath, userSkills: seq<Skill>, i: nat, j: nat, catalog: Catalog)
    requires i < j < |c.requiredSkills| && c.requiredSkills[i] == c.requiredSkills[j]
    requires c.requiredSkills[i].id !in Ids(userSkills)
    ensures var r := AnalyzeGaps(Some(c), userSkills, catalog);
      var g := MakeGap(c.requiredSkills[i], High, catalog);
      exists k1, k2 :: 0 <= k1 < k2 < |r| && r[k1] == g && r[k2] == g
  {
    var ids := IdSet(userSkills);
    var req := c.requiredSkills;
    IdSetMembership(userSkills, req[i].id);
    AnalyzeIsEmissionOrder(c, userSkills, catalog);
    var p, q := MissingTwice(req, ids, i, j);
    var a := GapsFor(req, ids, High, catalog);
    var r := a + GapsFor(c.niceToHaveSkills, ids, Medium, catalog);
    assert r[p] == a[p] && r[q] == a[q];
  }

  /** An entry kept by the filter and repeated later in the list is kept at two positions. */
  lemma MissingTwice(req: seq<Skill>, ids: set<string>, i: nat, j: nat) returns (p: nat, q: nat)
    requires i < j < |req| && req[i] == req[j] && req[i].id !in ids
    ensures p < q < |MissingSkills(req, ids)|
    ensures MissingSkills(req, ids)[p] == req[i] && MissingSkills(req, ids)[q] == req[i]
  {
    var s := req[i];
    var u, v := req[..j], req[j..];
    assert req == u + v;
    MissingSkillsAppend(u, v, ids);
    var m1, m2 := MissingSkills(u, ids), MissingSkills(v, ids);
    assert u[i] == s && v[0] == s;
    assert s in m1 && s in m2;
    var p' :| 0 <= p' < |m1| && m1[p'] == s;
    var q' :| 0 <= q' < |m2| && m2[q'] == s;
    assert (m1 + m2)[p'] == s && (m1 + m2)[|m1| + q'] == s;
    p, q := p', |m1| + q';
  }

  /** Required HTML, CSS, JavaScript against a user who has HTML: two high gaps, CSS then
      JavaScript, with estimates "3-4 weeks" and "6-8 weeks". */
  lemma HtmlCssJavaScriptExample(c: CareerPath, html: Skill, css: Skill, js: Skill, catalog: Catalog)
    requires html.id == "html" && css.id == "css" && js.id == "javascript"
    requires html.name == "HTML" && css.name == "CSS" && js.name == "JavaScript"
    requires c.requiredSkills == [html, css, js] && c.niceToHaveSkills == []
    ensures var r := AnalyzeGaps(Some(c), [html], catalog);
      && |r| == 2
      && r[0].skill == css && r[1].skill == js
      && r[0].priority == High && r[1].priority == High
      && r[0].estimatedLearningTime == "3-4 weeks"
      && r[1].estimatedLearningTime == "6-8 weeks"
  {
    AnalyzeIsEmissionOrder(c, [html], catalog);
    ExampleEmitted(c, html, css, js, catalog);
    ExampleTimes(css, js, catalog);
  }

  lemma ExampleEmitted(c: CareerPath, html: Skill, css: Skill, js: Skill, catalog: Catalog)
    requires html.id == "html" && css.id == "css" && js.id == "javascript"
    requires c.requiredSkills == [html, css, js] && c.niceToHaveSkills == []
    ensures Emitted(c, [html], catalog) == [MakeGap(css, High, catalog), MakeGap(js, High, catalog)]
  {
    SingleIdSet(html);
    var ids := IdSet([html]);
    MissingCssJs(html, css, js, ids);
    TwoGaps(c.requiredSkills, ids, css, js, catalog);
    var a := GapsFor(c.requiredSkills, ids, High, catalog);
    var b := GapsFor(c.niceToHaveSkills, ids, Medium, catalog);
    assert Emitted(c, [html], catalog) == a + b;
    assert |b| == 0;
    assert a + b == a;
  }

  lemma ExampleTimes(css: Skill, js: Skill, catalog: Catalog)
    requires css.name == "CSS" && js.name == "JavaScript"
    ensures MakeGap(css, High, catalog).estimatedLearningTime == "3-4 weeks"
    ensures MakeGap(js, High, catalog).estimatedLearningTime == "6-8 weeks"
  {
    LearningTimeExamples();
  }

  lemma TwoGaps(req: seq<Skill>, ids: set<string>, a: Skill, b: Skill, catalog: Catalog)
    requires MissingSkills(req, ids) == [a, b]
    ensures GapsFor(req, ids, High, catalog) == [MakeGap(a, High, catalog), MakeGap(b, High, catalog)]
  {
    var r := GapsFor(req, ids, High, catalog);
    assert r[0] == MakeGap(a, High, catalog);
    assert r[1] == MakeGap(b, High, catalog);
  }

  lemma SingleIdSet(s: Skill)
    ensures IdSet([s]) == {s.id}
  {
    assert Ids([s]) == [s.id];
  }

  lemma MissingCssJs(html: Skill, css: Skill, js: Skill, ids: set<string>)
    requires html.id == "html" && css.id == "css" && js.id == "javascript"
    requires ids == {"html"}
    ensures MissingSkills([html, css, js], ids) == [css, js]
  {
    assert "css" != "html" && "javascript" != "html";
    assert [js][1..] == [];
    assert MissingSkills([js], ids) == [js] + MissingSkills([], ids);
    assert [css, js][1..] == [js];
    assert MissingSkills([css, js], ids) == [css] + MissingSkills([js], ids);
    assert [html, css, js][1..] == [css, js];
    assert MissingSkills([html, css, js], ids) == MissingSkills([css, js], ids);
  }

  /** A career whose required skills the user all has and that lists no nice-to-have
      skills gives no gaps. */
  lemma NothingMissingNoGaps(c: CareerPath, userSkills: seq<Skill>, catalog: Catalog)
    requires c.niceToHaveSkills == []
    requires forall s :: s in c.requiredSkills ==> s.id in Ids(userSkills)
    ensures AnalyzeGaps(Some(c), userSkills, catalog) == []
  {
    AnalyzeCount(c, userSkills, catalog);
    MissingSkillsExtremes(c.requiredSkills, IdSet(userSkills));
  }
}
