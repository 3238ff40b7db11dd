/** The records and closed enumerations the application passes around:
    skills, career paths, learning resources and skill gaps. */
module Types {

  datatype Option<+T> = None | Some(value: T)

  /** Shared by a skill's proficiency and a resource's difficulty. */
  datatype Level = Beginner | Intermediate | Advanced

  /** Urgency of a gap; required skills are `High`, nice-to-have ones `Medium`. */
  datatype Priority = High | Medium | Low

  datatype ResourceType = Course | Tutorial | Documentation | Book | Certification

  /** Two skills are the same skill iff their ids are equal. */
  datatype Skill = Skill(
    id: string,
    name: string,
    category: string,
    proficiency: Option<Level>,
    isRequired: Option<bool>)

  /** Reference data: the two ordered skill lists are what the analysis reads. */
  datatype CareerPath = CareerPath(
    id: string,
    title: string,
    description: string,
    icon: string,
    averageSalary: string,
    growthRate: string,
    requiredSkills: seq<Skill>,
    niceToHaveSkills: seq<Skill>)

  /** `kind` is the resource's `type` tag; `rating` is an opaque display value. */
  datatype Resource = Resource(
    id: string,
    title: string,
    kind: ResourceType,
    provider: string,
    url: string,
    duration: string,
    difficulty: Level,
    rating: real,
    isFree: bool)

  datatype SkillGap = SkillGap(
    skill: Skill,
    priority: Priority,
    estimatedLearningTime: string,
    resources: seq<Resource>)

  /** Position of a priority in the sort order high < medium < low. */
  function Rank(p: Priority): (r: nat)
    ensures r < 3
    ensures r == 0 <==> p == High
    ensures r == 2 <==> p == Low
  {
    match p
    case High => 0
    case Medium => 1
    case Low => 2
  }

  /** The rank order is a strict total order on priorities: equal ranks mean equal priorities. */
  lemma RankInjective(p: Priority, q: Priority)
    ensures Rank(p) == Rank(q) <==> p == q
  {
  }
}
