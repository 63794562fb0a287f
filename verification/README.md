# Seed-time grade components and subject criteria

A Dafny model of the two data seeders of the academic backend's
infrastructure layer.

- **GradeComponentSeeder** gives every subject a fixed two-level tree of
  weighted grade components.
  - A subject whose code contains `LAB` or `PRJ` gets:
    - Lab Exercises 30, split into Lab 1 / Lab 2;
    - Midterm Exam 30;
    - Final Exam 40.
  - Every other subject gets:
    - Assignments 20, split in two;
    - Progress Tests 30, split in two;
    - Final Exam 50.
  - `CreateChildComponents` splits a parent's integer weight evenly over
    named children and hands the remainder to the front.
- **SubjectCriteriaSeeder** gives every subject its pass criteria.
  - Every subject gets three mandatory base criteria.
  - Then comes one two-criterion block per category whose prefix table
    matches the subject code, case-insensitively. The categories are
    Software Engineering, Database, Web, Math, Computer Science and
    Design, taken in that fixed order.

Both seeders are modelled as pure functions from the subject list (key and
nullable code) to the list of records they add. `Guid.NewGuid()` is
modelled as a counter: the k-th record created gets key `nextId + k`. That
is the order in which the C# code draws them, including the children of the
lazy `CreateChildComponents` iterator, whose keys are drawn when
`AddRange` consumes it.

Files:

| file | contents |
|---|---|
| `Wrappers.dfy` | `Option` and `Result` |
| `Entities.dfy` | the subject record and distinct keys |
| `Text.dfy` | the .NET string operations the seeders use: ordinal `Contains`, `StartsWith` with `OrdinalIgnoreCase`, and `IsNullOrWhiteSpace` |
| `Seqs.dfy` | a slicing lemma |
| `GradeComponentSeeder.dfy` | the weight split, the per-subject template, the seeding loop and its forest invariants |
| `SubjectCriteriaSeeder.dfy` | the criteria templates, the prefix tables and `HasPrefix`, the per-subject criteria list and the seeding loop |

Both seeding loops are written once, generically: `Build` takes the
per-subject builder as a parameter. The seeder's own loop is `Build`
applied to the fixed template (`BuildComponents`, `BuildCriteria`). The
loop lemmas are proved for any builder. For the grade seeder, that means
any builder that yields well-formed blocks.

Behaviour of the code worth noting:

- `CreateChildComponents` does not fail on an empty or null name list. It
  yields no children.
- `/` and `%` truncate toward zero, as C# does, rather than flooring.
- Nothing checks that the weights a seeder writes total 100. Here that is
  a proved property of the fixed template, not a runtime check.

## Model

| member | source | states |
|---|---|---|
| GradeComponentSeeder.CreateChildComponents | Fap.Infrastructure/Data/Seed/GradeComponentSeeder.cs:111-134 | A null name list gives no children. Otherwise there is one child per name, in order, with `Name = childNames[i]`, the given subject, the parent's key as `ParentId`, and fresh keys in order. |
| GradeComponentSeeder.ChildrenSplitParentWeight | Fap.Infrastructure/Data/Seed/GradeComponentSeeder.cs:118-123 | For a non-negative parent weight, the children's weights total the parent's weight. They never increase along the list, and the first exceeds the last by at most one. |
| GradeComponentSeeder.SplitIsBalanced | Fap.Infrastructure/Data/Seed/GradeComponentSeeder.cs:118-123 | The truncating quotient-plus-remainder split of a non-negative weight is conserving, non-increasing and even. |
| GradeComponentSeeder.BalancedSplitIsUnique | Fap.Infrastructure/Data/Seed/GradeComponentSeeder.cs:118-123 | Any conserving, non-increasing, even split of a non-negative weight into n parts is exactly the split the seeder computes. |
| GradeComponentSeeder.SplitOfNegativeWeight | Fap.Infrastructure/Data/Seed/GradeComponentSeeder.cs:118-123 | For a negative weight, C#'s remainder is never positive, so every child gets the truncated quotient. The children total the weight minus that remainder, so they total the parent's weight exactly when the child count divides it; a negative weight that the child count does not divide is not conserved. |
| GradeComponentSeeder.SumShares | Fap.Infrastructure/Data/Seed/GradeComponentSeeder.cs:121-123 | n shares of `base`, the first `extra` of which get one point more, total `n*base` plus the number of shares that received the point. |
| GradeComponentSeeder.PracticalIsCaseSensitiveContainment | Fap.Infrastructure/Data/Seed/GradeComponentSeeder.cs:35 | The branch tests containment, not a prefix: `ENGLAB1` and `SWPRJ301` are lab/project codes. It is case-sensitive: `lab101` is not. |
| GradeComponentSeeder.PracticalInAnyContext | Fap.Infrastructure/Data/Seed/GradeComponentSeeder.cs:35 | For every code: a lab/project code stays one whatever text is put before or after it, so `LAB` or `PRJ` anywhere selects the branch, not only at the start. |
| GradeComponentSeeder.NoCapitalsNotPractical | Fap.Infrastructure/Data/Seed/GradeComponentSeeder.cs:35 | For every code: a code without the capitals `L` and `P` takes the other branch, so lower-case `lab` or `prj` does not select it. |
| GradeComponentSeeder.SubjectComponents | Fap.Infrastructure/Data/Seed/GradeComponentSeeder.cs:35-103 | A lab/project subject gets 5 components and any other subject gets 7. |
| GradeComponentSeeder.PracticalTemplate | Fap.Infrastructure/Data/Seed/GradeComponentSeeder.cs:35-66 | The exact lab/project block. Lab Exercises 30 has children Lab 1 15 and Lab 2 15; then come Midterm Exam 30 and Final Exam 40, all of the subject. |
| GradeComponentSeeder.TheoryTemplate | Fap.Infrastructure/Data/Seed/GradeComponentSeeder.cs:68-103 | The exact block of the other subjects. Assignments 20 has children 10/10; Progress Tests 30 has children 15/15; then comes Final Exam 50. |
| GradeComponentSeeder.SubjectComponentsWellFormed | Fap.Infrastructure/Data/Seed/GradeComponentSeeder.cs:35-103 | One subject's block has:<br>- keys in creation order;<br>- every component of that subject;<br>- every child under an earlier root;<br>- every parent's weight exactly covered by its children;<br>- roots totalling 100. |
| GradeComponentSeeder.PracticalShape | Fap.Infrastructure/Data/Seed/GradeComponentSeeder.cs:39-66 | The 30/15/15/30/40 lab/project shape is a well-formed block whatever its names. |
| GradeComponentSeeder.TheoryShape | Fap.Infrastructure/Data/Seed/GradeComponentSeeder.cs:70-102 | The 20/10/10/30/15/15/50 shape is a well-formed block whatever its names. |
| GradeComponentSeeder.BuildFailsOnNullCode | Fap.Infrastructure/Data/Seed/GradeComponentSeeder.cs:31-35 | The loop throws exactly when some subject code is null. It does so at the first such subject, all of whose predecessors have codes. |
| GradeComponentSeeder.BuildIsConcatenationOfBlocks | Fap.Infrastructure/Data/Seed/GradeComponentSeeder.cs:31-104 | With every code present, the output is the subjects' blocks in subject order, each keyed on from where the previous block stopped. |
| GradeComponentSeeder.BuildStaysWithinSubjects | Fap.Infrastructure/Data/Seed/GradeComponentSeeder.cs:31-104 | Every component added belongs to one of the input subjects. |
| GradeComponentSeeder.BuildIsWellFormed | Fap.Infrastructure/Data/Seed/GradeComponentSeeder.cs:31-104 | The whole output is a forest:<br>- fresh keys in order;<br>- each child under an earlier root of its own subject;<br>- every parent's weight exactly covered by its children. |
| GradeComponentSeeder.BuildRootWeightsTotal100 | Fap.Infrastructure/Data/Seed/GradeComponentSeeder.cs:31-104 | When subject keys are distinct, every subject's parentless components total 100 across the whole output. |
| GradeComponentSeeder.SeedOutcome | Fap.Infrastructure/Data/Seed/GradeComponentSeeder.cs:13-104 | The seeder adds nothing in the skip cases. Otherwise it fails exactly when a code is null. On success, the output is a well-formed forest in which every subject's roots total 100. |
| Text.Contains | Fap.Infrastructure/Data/Seed/GradeComponentSeeder.cs:35 | Ordinal `Contains` is true exactly when the pattern occurs at some index. |
| Text.StartsWithIgnoreCase | Fap.Infrastructure/Data/Seed/SubjectCriteriaSeeder.cs:266 | `StartsWith` with `OrdinalIgnoreCase` is true exactly when the prefix is no longer than the code and matches its first characters up to case. |
| Text.FoldedPrefixUnique | Fap.Infrastructure/Data/Seed/SubjectCriteriaSeeder.cs:266 | Two equally long upper-case prefixes that both start a code, ignoring case, are equal. |
| SubjectCriteriaSeeder.AnyPrefix | Fap.Infrastructure/Data/Seed/SubjectCriteriaSeeder.cs:266 | `Any` over the prefixes is true exactly when some listed prefix starts the code, ignoring case. |
| SubjectCriteriaSeeder.HasPrefix | Fap.Infrastructure/Data/Seed/SubjectCriteriaSeeder.cs:259-267 | It is false for a blank code or an empty prefix list. Otherwise it is true exactly when some prefix starts the code, ignoring case. |
| SubjectCriteriaSeeder.Instantiate | Fap.Infrastructure/Data/Seed/SubjectCriteriaSeeder.cs:45-246 | One criterion per template, in order, each carrying the subject's key and a fresh key in creation order. |
| SubjectCriteriaSeeder.SeedOutcome | Fap.Infrastructure/Data/Seed/SubjectCriteriaSeeder.cs:21-248 | Nothing is added when criteria already exist or there are no subjects. Otherwise the criteria have fresh keys in creation order and each carries an input subject's key. When subject keys are distinct, each subject's criteria are the three base criteria followed by the blocks of the categories its code matches. |
| SubjectCriteriaSeeder.Blocks | Fap.Infrastructure/Data/Seed/SubjectCriteriaSeeder.cs:85-247 | Each category contributes exactly two criteria. |
| SubjectCriteriaSeeder.CategoryBlocksFollowCategories | Fap.Infrastructure/Data/Seed/SubjectCriteriaSeeder.cs:85-247 | The six conditional blocks together are the blocks of the matching categories, in the order SE, DB, Web, Math, CS, Design. |
| SubjectCriteriaSeeder.SubjectTemplatesStartWithBase | Fap.Infrastructure/Data/Seed/SubjectCriteriaSeeder.cs:44-247 | A subject's list is the three mandatory base criteria followed by two criteria per matching category. Its first three entries are mandatory. |
| SubjectCriteriaSeeder.BlankCodeGetsBaseOnly | Fap.Infrastructure/Data/Seed/SubjectCriteriaSeeder.cs:261-264 | A blank code matches no category and gets exactly the three base criteria. |
| SubjectCriteriaSeeder.NullCodeGetsBaseOnly | Fap.Infrastructure/Data/Seed/SubjectCriteriaSeeder.cs:82 | A null code, read as the empty string, gets exactly the three base criteria. |
| SubjectCriteriaSeeder.AtMostTwoCategories | Fap.Infrastructure/Data/Seed/SubjectCriteriaSeeder.cs:12-17 | No code matches more than two categories, and no code's criteria list is longer than seven. |
| SubjectCriteriaSeeder.BlankGuardIsRedundant | Fap.Infrastructure/Data/Seed/SubjectCriteriaSeeder.cs:259-267 | On every prefix table, `HasPrefix` answers as the bare `Any` over the table, because every key starts with a capital letter. So the blank-code guard, and which characters count as white space, never change which categories a code gets. |
| SubjectCriteriaSeeder.HasPrefixByKey | Fap.Infrastructure/Data/Seed/SubjectCriteriaSeeder.cs:259-267 | For a table of three-letter upper-case prefixes, a non-blank code has a prefix from the table exactly when its first three letters, folded, are listed. |
| SubjectCriteriaSeeder.SelectionByKey | Fap.Infrastructure/Data/Seed/SubjectCriteriaSeeder.cs:12-17 | The categories and the criteria list of a non-blank code depend only on its first three letters, read without regard to case. |
| SubjectCriteriaSeeder.NoCategoryWhenShort | Fap.Infrastructure/Data/Seed/SubjectCriteriaSeeder.cs:12-17 | A code shorter than three characters matches no category. |
| SubjectCriteriaSeeder.CodeGetsKeyTemplates | Fap.Infrastructure/Data/Seed/SubjectCriteriaSeeder.cs:82-247 | Any code starting with a capital-letter key, in any case, gets that key's categories and criteria list. |
| SubjectCriteriaSeeder.DatabaseKeyCriteria | Fap.Infrastructure/Data/Seed/SubjectCriteriaSeeder.cs:12-13 | DBI is both a Software Engineering and a Database key. Its subjects get base + Project Completion, Lab Work Submission, Database Practical Exam, SQL Assignment Completion. |
| SubjectCriteriaSeeder.ProjectKeyCriteria | Fap.Infrastructure/Data/Seed/SubjectCriteriaSeeder.cs:12-14 | PRJ is both a Software Engineering and a Web key. Its subjects get base + Project Completion, Lab Work Submission, Web Application Project, Project Presentation. |
| SubjectCriteriaSeeder.ProgrammingKeyCriteria | Fap.Infrastructure/Data/Seed/SubjectCriteriaSeeder.cs:12-16 | PRF, PRO and CSD are both Software Engineering and Computer Science keys. Their subjects get base + Project Completion, Lab Work Submission, Programming Assignments, Coding Challenge Participation. |
| SubjectCriteriaSeeder.BlocksMandatory | Fap.Infrastructure/Data/Seed/SubjectCriteriaSeeder.cs:85-247 | Every category block starts with a mandatory criterion. |
| SubjectCriteriaSeeder.MandatoryCriteria | Fap.Infrastructure/Data/Seed/SubjectCriteriaSeeder.cs:44-247 | A subject has at least 3 mandatory criteria plus one per matching category. At most one criterion per category is optional. |
| SubjectCriteriaSeeder.TemplateFacts | Fap.Infrastructure/Data/Seed/SubjectCriteriaSeeder.cs:113-247 | The only optional criteria are SQL Assignment Completion, Coding Challenge Participation and Studio Critique Participation. Every minimum score is non-negative. |
| SubjectCriteriaSeeder.BuildIsConcatenationOfBlocks | Fap.Infrastructure/Data/Seed/SubjectCriteriaSeeder.cs:40-248 | The output is each subject's criteria list, in subject order, each keyed on from where the previous list stopped. |
| SubjectCriteriaSeeder.BuildKeysAndSubjects | Fap.Infrastructure/Data/Seed/SubjectCriteriaSeeder.cs:40-248 | Keys are fresh and in creation order. Every criterion carries the key of one of the input subjects. |
| SubjectCriteriaSeeder.EachSubjectGetsItsList | Fap.Infrastructure/Data/Seed/SubjectCriteriaSeeder.cs:40-248 | When subject keys are distinct, the criteria carrying a subject's key are exactly that subject's list, in order. |
| SubjectCriteriaSeeder.EachSubjectGetsItsCriteria | Fap.Infrastructure/Data/Seed/SubjectCriteriaSeeder.cs:40-248 | When subject keys are distinct, each subject's criteria are the three base criteria followed by the blocks of the categories its code matches. |

## Left out

- Database access and console output: `AnyAsync`, `ToListAsync`, `AddRangeAsync`, `SaveAsync` and the `Console.WriteLine` summaries. They become the boolean "already seeded" input, the subject list input and the returned record list.
- `Guid.NewGuid()`: it is nondeterministic. It is modelled as a counter, which is distinct and in creation order; only key equalities matter to the seeders.
- `DateTime.UtcNow` (`CreatedAt`): it is a clock read and is not modelled.
- Unicode: `OrdinalIgnoreCase` is modelled as ASCII letter folding, and `char.IsWhiteSpace` as the Latin-1 white-space set, so the other Unicode spaces (U+2000 to U+200A, U+3000 and the like) are not white space here. All prefixes are ASCII capitals, and `BlankGuardIsRedundant` shows the white-space set cannot change a code's categories.
- `decimal` `MinScore` is modelled as a Dafny `real`, which is exact for the one-decimal constants used.
- A null prefix array to `HasPrefix` cannot occur in the source, since every call passes a static table. It is covered by the empty-sequence case.
- A null `childNames` array is the `None` case of `CreateChildComponents`.
- Weighted grade aggregation and pass/fail evaluation against measured values: no code in these files computes them.
- `BaseSeeder`, the other seeders, the design-time DbContext factory and the schema migration: they are configuration and persistence, with no rule-bearing logic.
- The IPFS service, controller, DTOs and settings: they are HTTP plumbing over a third-party pinning gateway.
- GradeComponentSeeder.ChildrenSplitParentWeight: it requires a non-negative parent weight, because C#'s truncating remainder does not conserve a negative weight that the child count does not divide. The negative case is stated by `SplitOfNegativeWeight` instead. The seeder itself only splits 20 and 30.
- 32-bit overflow of `WeightPercent`: weights are unbounded integers here. The seeder's weights are at most 50.
