# Career roadmap generator — a Dafny model of the skill-gap pipeline

The career roadmap generator ("SkillBridge") is a single-page application. The user walks
through a four-step wizard:

1. Choose a career path.
2. Add their current skills, by hand or from a mock resume analysis.
3. See a skill-gap analysis.
4. See a learning roadmap built from those gaps.

This project models the logic behind those screens as pure Dafny functions over immutable
datatypes, and proves properties of them.

- **Types** (`types.dfy`): skills, career paths, resources and skill gaps. Priority,
  level and resource type are closed enumerations. The optional `proficiency` and
  `isRequired` fields are `Option`s.
- **Gap analyzer** (`gap_analysis.dfy`, with `skills.dfy` and `priority_sort.dfy`):
  - emits a high-priority gap for every required skill whose id the user lacks, then a
    medium-priority gap for every such nice-to-have skill;
  - stable-sorts the gaps by priority rank;
  - gives each gap a learning-time estimate from the exact-name table, defaulting to
    "4-6 weeks";
  - gives each gap its catalog resources, or two synthesized free search-link resources
    when the catalog has no entry.

  The stable sort is modelled as an insertion sort. `PrioritySort.StableSortUnique` shows
  that any sorted result with the input's per-priority subsequences equals it. So every
  stable sort with this comparator gives the same output.
- **Roadmap phases** (`roadmap.dfy`): a sorted copy of the gaps is split into Foundation
  (high), Core Skills (medium) and Advanced (low), and empty phases are dropped.
- **Progress summary** (`progress.dfy`):
  - the required and nice-to-have skills the user has, matched by id;
  - the completion percentage. `Math.round` of the quotient is modelled as exact
    round-half-up on the rational value 100 * matched / total.
- **Skill form** (`skill_input.dfy`, with `text.dfy`):
  - a blank name is rejected;
  - the stored name is the trimmed input;
  - the id is the lower-cased raw input with each whitespace run replaced by `-`.
- **Application shell** (`app.dfy`):
  - adding a skill, removing a skill and merging the mock resume skills;
  - the wizard's step order, Next/Previous moves, `canProceed` guard and "completed" flags;
  - a small action machine. It shows that the analysis and roadmap steps are only reached
    with a chosen career and a non-empty skill list.

Some behaviours of the code are easy to miss, and the model keeps them:

- a missing skill listed twice among the required skills gives two gaps
  (`GapAnalysis.RepeatedSkillTwoGaps`), and one listed in both career lists gives a high
  gap and then a medium gap (`GapAnalysis.SharedSkillTwoGaps`);
- with no repeated id inside either list, each priority tier is free of duplicates
  (`GapAnalysis.AnalyzeTiersDistinct`). Across the whole result, the claim that distinct
  inputs give no duplicates fails when a skill is in both lists, as
  `GapAnalysis.SharedSkillTwoGaps` shows;
- leading and trailing whitespace in a typed name become `-` in the id
  (`SkillInput.DeriveIdEnds`).

## Model

| member | source | states |
|---|---|---|
| Types.Rank | src/hooks/useSkillGapAnalysis.ts:37-38 | high, medium and low rank 0, 1 and 2 respectively. |
| Types.RankInjective | src/hooks/useSkillGapAnalysis.ts:37-38 | Two priorities have the same rank exactly when they are equal, so the comparator only ties equal priorities. |
| Text.Trim | src/components/SkillInput.tsx:25-28 | `trim()` returns a contiguous slice of the input. Everything around the slice is whitespace. Its first and last characters are not whitespace. It is empty exactly when the input is blank. |
| Text.Lower | src/components/SkillInput.tsx:27 | `toLowerCase()` keeps the length and lower-cases each position independently. |
| Text.LowerIdempotent | src/components/SkillInput.tsx:27 | Lower-casing twice equals lower-casing once, and leaves no upper-case letter. |
| Text.ReplaceWsRunsChars | src/hooks/useSkillGapAnalysis.ts:71 | `replace(/\s+/g, sep)` only emits non-whitespace characters of the input or characters of the separator. |
| Text.ReplaceWsRuns | src/hooks/useSkillGapAnalysis.ts:71 | `replace(/\s+/g, sep)` with a one-character separator never makes the string longer. With a non-empty separator the result is empty exactly when the input is. |
| Text.ReplaceMatchesScan | src/components/SkillInput.tsx:27 | The run-by-run replacement equals an independent left-to-right scan that emits the separator once at the start of each whitespace run. |
| Text.ReplaceWsRunsIdentity | src/hooks/useSkillGapAnalysis.ts:71 | A string without whitespace is returned unchanged. |
| Text.ReplaceWsRunsNoWs | src/hooks/useSkillGapAnalysis.ts:82 | With a whitespace-free separator, the result contains no whitespace. |
| Skills.Ids | src/hooks/useSkillGapAnalysis.ts:9 | `userSkills.map(skill => skill.id)` keeps the length and order. |
| Skills.IdSet | src/hooks/useSkillGapAnalysis.ts:9 | The id `Set` holds exactly the ids of the listed skills. |
| Skills.IdSetMembership | src/hooks/useSkillGapAnalysis.ts:9 | An id is in the set exactly when some listed skill has it. |
| Skills.MissingSkills | src/App.tsx:38-39 | The filter keeps exactly the entries whose id is not in the id set, and never grows the list. |
| Skills.MissingSkillsAppend | src/hooks/useSkillGapAnalysis.ts:13-34 | Filtering a concatenation is concatenating the filtered parts. |
| Skills.MissingSkillsDistinct | src/App.tsx:38-39 | Filtering a list without repeated ids gives a list without repeated ids. |
| Skills.MissingSkillsExtremes | src/App.tsx:38-39 | If no id is in the set, the list comes back whole. If every id is, the result is empty. |
| PrioritySort.OfPriority | src/components/Roadmap.tsx:36-38 | `filter(gap => gap.priority === p)` keeps exactly the gaps of priority `p`. |
| PrioritySort.OfPriorityAppend | src/components/Roadmap.tsx:36-38 | The priority filter distributes over concatenation. |
| PrioritySort.OfPriorityExtremes | src/components/Roadmap.tsx:36-38 | A tier absent from the sequence filters to empty, and a sequence of one tier is its own filter. |
| PrioritySort.UniformAppendSorted | src/hooks/useSkillGapAnalysis.ts:36-39 | A run of one priority followed by a run of a later-ranked priority is already in comparator order. |
| PrioritySort.Insert | src/hooks/useSkillGapAnalysis.ts:36-39 | The insertion step adds exactly the one element: the multiset grows by that element. |
| PrioritySort.InsertSorted | src/hooks/useSkillGapAnalysis.ts:36-39 | Inserting into a sorted sequence keeps it sorted. |
| PrioritySort.StableSortByPriority | src/hooks/useSkillGapAnalysis.ts:36-39 | The sort returns a permutation of its input, ordered by non-decreasing rank. |
| PrioritySort.InsertTier | src/hooks/useSkillGapAnalysis.ts:36-39 | Insertion puts the element at the front of its own tier and leaves the other tiers unchanged. |
| PrioritySort.SortKeepsTiers | src/hooks/useSkillGapAnalysis.ts:36-39 | Stability: each tier of the sorted output keeps its members in input order. |
| PrioritySort.SortedIsTiers | src/components/Roadmap.tsx:10-13 | A sorted sequence equals its high, medium and low tiers laid end to end. |
| PrioritySort.OfPriorityCons | src/components/Roadmap.tsx:36-38 | Filtering a sequence with a new head keeps that head exactly when it has the filtered priority. |
| PrioritySort.TiersCons | src/components/Roadmap.tsx:10-13 | An element ranked no later than everything after it stays at the head of the tiers. |
| PrioritySort.SortIsTiers | src/components/Roadmap.tsx:10-13 | The sort result equals the input's high tier, then medium tier, then low tier. |
| PrioritySort.StableSortUnique | src/hooks/useSkillGapAnalysis.ts:36-39 | Any sorted sequence with the same tiers as the input equals the sort result, so every stable sort by this comparator agrees. |
| PrioritySort.SortOfSorted | src/hooks/useSkillGapAnalysis.ts:36-39 | Sorting an already sorted sequence changes nothing. |
| GapAnalysis.EstimatedLearningTime | src/hooks/useSkillGapAnalysis.ts:43-62 | A name in the table gets its table entry. Any other name gets "4-6 weeks". The estimate is never empty. |
| GapAnalysis.LearningTimeExamples | src/hooks/useSkillGapAnalysis.ts:44-61 | Examples: "CSS" gives "3-4 weeks", "JavaScript" gives "6-8 weeks" and "Machine Learning" gives "12-16 weeks". "css" and "Kubernetes" get the default, because matching is exact. |
| GapAnalysis.DefaultResources | src/hooks/useSkillGapAnalysis.ts:64-89 | The fallback is exactly two resources. Their ids are `<id>-generic-1` and `<id>-generic-2`, which differ. They are a course then documentation, beginner then intermediate, rated 4.5 and 4.3, both free, with the two search URLs. |
| GapAnalysis.CourseUrl | src/hooks/useSkillGapAnalysis.ts:71 | The course URL is the search prefix, `learn+`, then the name with each whitespace run replaced by one `+`, as the independent scan `Text.Scan` reads it. So it has no whitespace, and a whitespace-free name appears verbatim. |
| GapAnalysis.DocsUrl | src/hooks/useSkillGapAnalysis.ts:82 | The documentation URL is the search prefix, then the name with each whitespace run replaced by one `+`, then `+documentation`. So it has no whitespace, and a whitespace-free name appears verbatim. |
| GapAnalysis.SearchQuery | src/hooks/useSkillGapAnalysis.ts:71 | The query term is the name with each whitespace run replaced by one `+`, as the scan reads it. It has no whitespace, and a name without whitespace is used verbatim. |
| GapAnalysis.ResourcesFor | src/hooks/useSkillGapAnalysis.ts:19 | A catalog entry that is present is used as-is, even when empty. A missing id gets the two free fallback resources. |
| GapAnalysis.MakeGap | src/hooks/useSkillGapAnalysis.ts:15-20 | A gap carries the skill and the priority it was created with. |
| GapAnalysis.GapsFor | src/hooks/useSkillGapAnalysis.ts:13-22 | The `forEach` over one career list gives one gap per missing entry, in list order. Each gap is built from that entry. |
| GapAnalysis.GapsForMembers | src/hooks/useSkillGapAnalysis.ts:13-34 | Every gap from one list names a skill of that list that the user lacks. It carries that list's priority, and its time and resources are looked up for its own skill. |
| GapAnalysis.Emitted | src/hooks/useSkillGapAnalysis.ts:10-34 | The unsorted gaps are one per missing required entry, all high, followed by one per missing nice-to-have entry, all medium. |
| GapAnalysis.AnalyzeGaps | src/hooks/useSkillGapAnalysis.ts:5-41 | With no career the result is empty. Otherwise it is sorted by rank and is a permutation of the emitted required-then-nice-to-have gaps. |
| GapAnalysis.GapsAreMissing | src/hooks/useSkillGapAnalysis.ts:9-34 | No gap's skill id is a user id. High gaps come from required skills and medium gaps from nice-to-have skills. Low is never produced. |
| GapAnalysis.AnalyzeIsEmissionOrder | src/hooks/useSkillGapAnalysis.ts:12-39 | The sort leaves the emitted order as it is: required gaps in career order, then nice-to-have gaps in career order. |
| GapAnalysis.AnalyzeTiers | src/hooks/useSkillGapAnalysis.ts:12-39 | The high tier is exactly the required-list gaps and the medium tier exactly the nice-to-have gaps. The low tier is empty. |
| GapAnalysis.AnalyzeCount | src/hooks/useSkillGapAnalysis.ts:12-34 | The number of gaps is the number of missing required entries plus the number of missing nice-to-have entries. |
| GapAnalysis.AnalyzeDependsOnIds | src/hooks/useSkillGapAnalysis.ts:9 | Only the set of user ids matters: user lists with the same ids give the same gaps. |
| GapAnalysis.AnalyzeIgnoresDuplicate | src/hooks/useSkillGapAnalysis.ts:9 | Adding a user skill whose id is already present changes nothing. |
| GapAnalysis.AnalyzeTiersDistinct | src/hooks/useSkillGapAnalysis.ts:13-34 | When neither career list repeats an id, no priority tier of the result repeats an id. |
| GapAnalysis.GapsForDistinct | src/hooks/useSkillGapAnalysis.ts:13-22 | The gaps of one list without repeated ids name pairwise different ids. |
| GapAnalysis.SharedSkillTwoGaps | src/hooks/useSkillGapAnalysis.ts:13-34 | A missing skill that occurs in both career lists gives a high gap and, at a later position, a medium gap. This holds for any lists and user skills. |
| GapAnalysis.RepeatedSkillTwoGaps | src/hooks/useSkillGapAnalysis.ts:13-22 | A missing skill listed twice among the required skills gives the same high gap at two positions. |
| GapAnalysis.MissingTwice | src/hooks/useSkillGapAnalysis.ts:13-22 | The missing-skill filter keeps a missing entry at both of its positions. |
| GapAnalysis.GapAt | src/hooks/useSkillGapAnalysis.ts:13-22 | A listed skill the user lacks has its gap, with the list's priority, among that list's gaps. |
| GapAnalysis.HtmlCssJavaScriptExample | src/hooks/useSkillGapAnalysis.ts:12-22 | Required HTML, CSS and JavaScript, against a user who has HTML, gives two high gaps. They are CSS ("3-4 weeks") then JavaScript ("6-8 weeks"). |
| GapAnalysis.NothingMissingNoGaps | src/hooks/useSkillGapAnalysis.ts:12-39 | If the user has every required skill and the career lists no nice-to-have skills, there are no gaps. |
| Roadmap.PhasePriority | src/components/Roadmap.tsx:36-38 | Each phase's priority rank is its position in the display order. |
| Roadmap.PhaseTitleInjective | src/components/Roadmap.tsx:36-38 | The three phase titles are different, so each title names one phase. |
| Roadmap.SortedGaps | src/components/Roadmap.tsx:10-13 | The sorted copy is a permutation of the gaps, ordered by rank, with every tier in input order. |
| Roadmap.NonEmpty | src/components/Roadmap.tsx:39 | The filter keeps exactly the phases with at least one skill. |
| Roadmap.Phases | src/components/Roadmap.tsx:35-39 | Every phase is non-empty and holds exactly the gaps of its priority, in input order. Phases appear in strictly increasing display order. A phase appears exactly when its tier is non-empty. |
| Roadmap.AllPhasesFacts | src/components/Roadmap.tsx:35-38 | The three candidate phases come in display order. Each holds exactly the gaps of its own priority, and each phase name has one candidate. |
| Roadmap.PhaseNames | src/components/Roadmap.tsx:35-39 | After the empty candidates are dropped, a phase name occurs exactly when its tier is non-empty. |
| Roadmap.NonEmptyIncreasing | src/components/Roadmap.tsx:39 | Dropping empty phases keeps the remaining phases in display order. |
| Roadmap.PhasesShape | src/components/Roadmap.tsx:35-39 | The phase list is Foundation, then Core Skills, then Advanced, each present exactly when it has gaps. |
| Roadmap.PhasesPartition | src/components/Roadmap.tsx:35-39 | The phases laid end to end give back the sorted gaps. So the phase sizes add up to the number of gaps, and no gap is lost or repeated. |
| Roadmap.FlattenAppend | src/components/Roadmap.tsx:35-39 | Flattening distributes over concatenation of phase lists. |
| Roadmap.FlattenOpt | src/components/Roadmap.tsx:39 | A phase kept by the filter flattens to its skills, and a dropped one contributes nothing, which is its empty skill list. |
| Roadmap.PhasesDisjoint | src/components/Roadmap.tsx:35-39 | No gap occurs in two different phases. |
| Roadmap.AnalyzerRoadmap | src/components/Roadmap.tsx:38 | For the analyzer's output there is no Advanced phase and at most two phases. |
| Roadmap.NoLowPhases | src/components/Roadmap.tsx:35-39 | Gaps without low-priority entries give at most two phases and no Advanced phase. |
| Progress.MatchedSkills | src/components/SkillGapAnalysis.tsx:18-23 | The matched list keeps exactly the career skills whose id is a user id, and never grows the list. Its order is fixed by `Progress.MatchedSkillsAppend`. |
| Progress.MatchedSkillsAppend | src/components/SkillGapAnalysis.tsx:18-23 | The filter distributes over concatenation. Together with the membership clause this makes the matched list the in-order subsequence. |
| Progress.MatchedPlusMissing | src/components/SkillGapAnalysis.tsx:18-20 | The matched skills and the missing skills of a list together account for every entry. |
| Progress.CompletionPercentage | src/components/SkillGapAnalysis.tsx:25-27 | The percentage is the integer nearest to 100·matched/total, with halves rounding up. |
| Progress.PercentageBounds | src/components/SkillGapAnalysis.tsx:25-27 | With at most `total` matches, the percentage lies in 0..100. |
| Progress.PercentageFull | src/components/SkillGapAnalysis.tsx:25-27 | The percentage is 100 exactly when 200·matched ≥ 199·total. It is 100 when everything matches. With fewer than 200 required skills it is 100 only then. |
| Progress.PercentageZero | src/components/SkillGapAnalysis.tsx:25-27 | The percentage is 0 exactly when 200·matched < total, and in particular when nothing matches. |
| Progress.PercentageMonotone | src/components/SkillGapAnalysis.tsx:25-27 | More matches never lower the percentage. |
| Progress.Summarize | src/components/SkillGapAnalysis.tsx:17-27 | The matched lists are the in-order filters of the two career lists by user id, repeats included. The required total is the number of required skills. The percentage is undefined exactly when there are none, and otherwise it is the rounded completion percentage of the matched count over the total, so at most 100. |
| Progress.MatchedPlusHighGaps | src/components/SkillGapAnalysis.tsx:84-90 | "Skills mastered" plus the high-priority gaps of the same inputs equals the number of required skills. |
| SkillInput.DeriveId | src/components/SkillInput.tsx:27 | The id is the lower-cased input with each whitespace run replaced by one `-`, as the independent scan `Text.Scan` reads it. So it has no whitespace and no upper-case letter, it is empty only for an empty input, and it is the lower-cased input when the input has no whitespace. |
| SkillInput.DeriveIdEnds | src/components/SkillInput.tsx:27 | The id is derived before trimming, so whitespace at the start or end of the input becomes `-` at that end of the id. |
| SkillInput.ReplaceEndsWithSep | src/components/SkillInput.tsx:27 | A string ending in whitespace is replaced into one ending in the separator's last character. |
| SkillInput.DeriveIdInnerSpace | src/components/SkillInput.tsx:27 | "Node JS" gets the id "node-js". |
| SkillInput.DeriveIdLeadingSpace | src/components/SkillInput.tsx:27 | "  Go" gets the id "-go": a run of two spaces becomes one `-`. |
| SkillInput.ReplaceOneSpace | src/components/SkillInput.tsx:27 | Two whitespace-free words joined by one space come out joined by `-`. |
| SkillInput.ReplacePrefixNoWs | src/components/SkillInput.tsx:27 | A whitespace-free prefix passes through the replacement unchanged. |
| SkillInput.SubmitSkill | src/components/SkillInput.tsx:24-35 | A blank name adds nothing and leaves the form as it was. Otherwise the skill has the trimmed name, the derived non-empty id and the selected category and proficiency, with no `isRequired`. The name field is then cleared and the selections are kept. |
| SkillInput.SubmitFromInitial | src/components/SkillInput.tsx:18-35 | From the fresh form, a non-blank name gives a skill in "Programming" at intermediate, and the form returns to its initial state. |
| App.AddSkill | src/App.tsx:20-22 | The skill is appended at the end, with everything before it unchanged and no deduplication. |
| App.RemoveSkill | src/App.tsx:24-26 | Removal keeps exactly the skills with a different id, and never grows the list. |
| App.RemoveIsMissing | src/App.tsx:24-26 | Removal equals the missing-skill filter against the single id, so the survivors keep their order. |
| App.RemoveAppend | src/App.tsx:24-26 | Removal distributes over concatenation. |
| App.RemoveAbsent | src/App.tsx:24-26 | Removing an id that no skill has changes nothing. |
| App.RemoveIdempotent | src/App.tsx:24-26 | Removing the same id twice equals removing it once. |
| App.RemoveUndoesAdd | src/App.tsx:20-26 | Adding a skill and then removing its id equals removing that id from the original list. |
| App.AddThenRemoveFresh | src/App.tsx:20-26 | Adding a skill with a new id and then removing that id restores the list. |
| App.MockIds | src/App.tsx:30-35 | The mock resume skills are javascript, html, css and git, in that order. |
| App.MockDistinct | src/App.tsx:30-35 | No two mock skills share an id. |
| App.MergeResume | src/App.tsx:37-40 | The merge keeps the existing list as a prefix. After it come the mock skills whose ids are new, in mock order, with no id repeated and at most four. |
| App.MergeHasAllMockIds | src/App.tsx:37-40 | After a merge, all four mock ids are present. |
| App.MergeIdempotent | src/App.tsx:37-40 | A second merge adds nothing. |
| App.MergeIntoEmpty | src/App.tsx:30-40 | Merging into an empty list gives exactly the four mock skills. |
| App.StepIndex | src/App.tsx:43-50 | `findIndex` gives the step's position in the steps array. |
| App.StepIndexInverse | src/App.tsx:43-50 | Each position holds the step whose index it is. |
| App.Next | src/App.tsx:62-67 | Next moves to the following step, and does nothing on the last step. |
| App.Previous | src/App.tsx:69-74 | Previous moves to the preceding step, and does nothing on the first step. |
| App.NextPreviousRoundTrip | src/App.tsx:62-74 | Away from the ends, Next then Previous, and Previous then Next, return to the starting step. |
| App.CanProceed | src/App.tsx:52-60 | Next is enabled on the career step iff a career is chosen, and on the skills step iff the list is non-empty. It is always enabled on analysis and roadmap. |
| App.Completed | src/App.tsx:43-48 | The career step is completed iff a career is chosen, and the skills step iff the list is non-empty. Analysis and roadmap never complete. |
| App.CanProceedMatchesCompleted | src/App.tsx:43-60 | On the first two steps, Next is enabled exactly when the current step is completed. On the last two it is always enabled, though the step is never completed. |
| App.Apply | src/App.tsx:136-196 | Only Next and Previous change the step, and Next advances only when enabled and not on the last step. The career changes only on the career step and the skill list only on the skills step. A chosen career is never unset. On the career step SelectCareer sets the career; on the skills step Add, Remove and AnalyzeResume apply `AddSkill`, `RemoveSkill` and `MergeResume` to the list. Nothing else changes: only SelectCareer can change the career, and only Add, Remove and AnalyzeResume can change the skill list. |
| App.ReachAnalysis | src/App.tsx:136-162 | Choosing a career, Next, adding one skill and Next reaches the analysis step with that career and that skill. |
| App.ApplyGuarded | src/App.tsx:52-74 | Every action keeps these two facts: past the first step a career is chosen, and past the second the skill list is non-empty. |
| App.RunGuarded | src/App.tsx:52-74 | Any sequence of actions keeps both facts. |
| App.ReachableGuarded | src/App.tsx:153-162 | In every reachable state, the analysis and roadmap steps have a chosen career and at least one skill. |

## Left out

- Rendering: JSX, Tailwind classes, icons, and the colour and icon helpers. These are
  presentation only.
- The career selector component. It only displays careers and highlights the selected one.
- React machinery: `useState`, `useMemo` and update scheduling. The resume merge reads the
  skill list captured when the handler was created. The model merges against the current
  list.
- The resume file upload and the `File` object. These are browser I/O. The "analysis" is a
  fixed list, modelled as `App.MockSkills`.
- The contents of the career and resource catalogs under `src/data`. These files are not
  part of this model. The resource catalog is a parameter (`GapAnalysis.Catalog`, a map from
  skill id to resources), and careers are arbitrary `CareerPath` values.
- Lookups by plain-object key (`timeMap[name]`, `resources[skill.id]`) in the source also see
  keys inherited from `Object.prototype`, such as `constructor`. The model uses maps
  without such keys.
- Floating point:
  - `rating` is an exact `real`.
  - The completion percentage is computed from the exact quotient, not from the double
    `matched / total * 100`. The two can differ at a tie. For 23 of 40 the double is
    57.49999999999999, so the source shows 57 and `CompletionPercentage(23, 40)` is 58.
    For 29 of 200 the source shows 14 and the model 15.
  - A career with no required skills shows `NaN` in the source. The model gives `None`.
- Unicode: `toLowerCase`, `trim` and `\s` are modelled on ASCII only. Lower-casing maps
  `A`..`Z`. Whitespace is space, tab, line feed, vertical tab, form feed and carriage
  return.
- App.Apply: the Add action takes any skill. Skills built by the form are described
  separately by `SkillInput.SubmitSkill`.
- Progress.PercentageFull: the percentage shows 100 exactly when every required skill is
  matched only if there are fewer than 200 required skills. With 200 or more, one
  unmatched skill still rounds to 100.
