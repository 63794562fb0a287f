/** The subject-criteria seeder: every subject gets three mandatory base
    criteria, then a block of two criteria for each subject category whose
    code prefixes match its subject code, in a fixed category order. */
module SubjectCriteriaSeeder {
  import opened Wrappers
  import opened Entities
  import Text
  import Seqs

  /** The fifteen criteria the seeder knows, each with the name, description,
      minimum score and mandatory flag it is written with. */
  datatype Template =
    | MinimumAttendance
    | MinimumAverageGrade
    | NoFailingComponentScores
    | ProjectCompletion
    | LabWorkSubmission
    | DatabasePracticalExam
    | SqlAssignmentCompletion
    | WebApplicationProject
    | ProjectPresentation
    | MidtermExamMinimum
    | FinalExamMinimum
    | ProgrammingAssignments
    | CodingChallengeParticipation
    | PortfolioReview
    | StudioCritiqueParticipation
  {
    function Name(): string {
      match this
      case MinimumAttendance => "Minimum Attendance Requirement"
      case MinimumAverageGrade => "Minimum Average Grade"
      case NoFailingComponentScores => "No Failing Component Scores"
      case ProjectCompletion => "Project Completion"
      case LabWorkSubmission => "Lab Work Submission"
      case DatabasePracticalExam => "Database Practical Exam"
      case SqlAssignmentCompletion => "SQL Assignment Completion"
      case WebApplicationProject => "Web Application Project"
      case ProjectPresentation => "Project Presentation"
      case MidtermExamMinimum => "Midterm Exam Minimum"
      case FinalExamMinimum => "Final Exam Minimum"
      case ProgrammingAssignments => "Programming Assignments"
      case CodingChallengeParticipation => "Coding Challenge Participation"
      case PortfolioReview => "Portfolio Review"
      case StudioCritiqueParticipation => "Studio Critique Participation"
    }

    function Description(): string {
      match this
      case MinimumAttendance =>
        "Student must attend at least 75% of all class sessions to be eligible for final exam"
      case MinimumAverageGrade =>
        "Overall average grade must be at least 5.0 to pass the subject"
      case NoFailingComponentScores =>
        "No individual grade component (quiz, midterm, final, etc.) can be below 3.0"
      case ProjectCompletion =>
        "Must complete and present a software project with minimum score of 5.0"
      case LabWorkSubmission =>
        "Must submit at least 80% of lab assignments"
      case DatabasePracticalExam =>
        "Must achieve at least 5.0 in database practical exam"
      case SqlAssignmentCompletion =>
        "Must complete all SQL assignments with average score >= 6.0"
      case WebApplicationProject =>
        "Must develop and deploy a complete web application with minimum score of 6.0"
      case ProjectPresentation =>
        "Must present the web project to class with minimum score of 5.0"
      case MidtermExamMinimum =>
        "Must achieve at least 4.0 in midterm exam to be eligible for final"
      case FinalExamMinimum =>
        "Must achieve at least 4.0 in final exam to pass the subject"
      case ProgrammingAssignments =>
        "Must submit at least 85% of programming assignments with average >= 5.5"
      case CodingChallengeParticipation =>
        "Must participate in at least 2 coding challenges"
      case PortfolioReview =>
        "Must submit a portfolio piece approved by the studio mentor"
      case StudioCritiqueParticipation =>
        "Participate in at least two critique sessions during the course"
    }

    /** The `decimal` threshold, exact as a real. */
    function MinScore(): real {
      match this
      case MinimumAttendance => 75.0
      case MinimumAverageGrade => 5.0
      case NoFailingComponentScores => 3.0
      case ProjectCompletion => 5.0
      case LabWorkSubmission => 80.0
      case DatabasePracticalExam => 5.0
      case SqlAssignmentCompletion => 6.0
      case WebApplicationProject => 6.0
      case ProjectPresentation => 5.0
      case MidtermExamMinimum => 4.0
      case FinalExamMinimum => 4.0
      case ProgrammingAssignments => 5.5
      case CodingChallengeParticipation => 2.0
      case PortfolioReview => 6.0
      case StudioCritiqueParticipation => 2.0
    }

    predicate IsMandatory() {
      !(SqlAssignmentCompletion? || CodingChallengeParticipation? || StudioCritiqueParticipation?)
    }
  }

  /** A criterion row as the seeder fills it in: its key, its subject, and the
      template its Name, Description, MinScore and IsMandatory columns are
      copied from. `CreatedAt` is left out (it reads the clock). */
  datatype SubjectCriterion = SubjectCriterion(id: Id, subjectId: Id, template: Template) {
    function Name(): string { template.Name() }
    function Description(): string { template.Description() }
    function MinScore(): real { template.MinScore() }
    predicate IsMandatory() { template.IsMandatory() }
  }

  function Templates(cs: seq<SubjectCriterion>): seq<Template> {
    seq(|cs|, i requires 0 <= i < |cs| => cs[i].template)
  }

  // ---------------------------------------------------------------------
  // Categories and their prefix tables
  // ---------------------------------------------------------------------

  datatype Category = SoftwareEngineering | Database | Web | Math | ComputerScience | Design

  function Prefixes(c: Category): seq<string> {
    match c
    case SoftwareEngineering => ["PRF", "CEA", "PRO", "CSD", "DBI", "PRJ", "SWP", "SWT", "SEP"]
    case Database => ["DBI"]
    case Web => ["PRJ", "WDU"]
    case Math => ["MAE", "MAD", "MAS"]
    case ComputerScience => ["CSI", "CSD", "PRF", "PRO"]
    case Design => ["DRP", "DTG", "DRS", "VCM", "TPG", "DGP", "ANS", "ANC", "GRP"]
  }

  /** `prefixes.Any(p => code.StartsWith(p, OrdinalIgnoreCase))`. */
  function AnyPrefix(code: string, prefixes: seq<string>): (r: bool)
    ensures r <==> exists k :: 0 <= k < |prefixes| && Text.StartsWithIgnoreCase(code, prefixes[k])
  {
    if |prefixes| == 0 then false
    else Text.StartsWithIgnoreCase(code, prefixes[0]) || AnyPrefix(code, prefixes[1..])
  }

  /** `HasPrefix`: false for a blank code or an empty prefix list, otherwise
      whether some prefix starts the code, ignoring case. */
  function HasPrefix(code: string, prefixes: seq<string>): (r: bool)
    ensures r <==> && !Text.IsBlank(code)
                   && exists k :: 0 <= k < |prefixes| && Text.StartsWithIgnoreCase(code, prefixes[k])
  {
    if Text.IsBlank(code) || |prefixes| == 0 then false
    else AnyPrefix(code, prefixes)
  }

  /** `[c]` when the code has one of the category's prefixes, else `[]`. */
  function IfMatches(code: string, c: Category): seq<Category> {
    if HasPrefix(code, Prefixes(c)) then [c] else []
  }

  /** The categories the code belongs to, in the order the seeder tests them. */
  function MatchingCategories(code: string): seq<Category> {
    IfMatches(code, SoftwareEngineering) + IfMatches(code, Database) + IfMatches(code, Web)
    + IfMatches(code, Math) + IfMatches(code, ComputerScience) + IfMatches(code, Design)
  }

  // ---------------------------------------------------------------------
  // Criteria templates
  // ---------------------------------------------------------------------

  /** The three criteria every subject gets. */
  const BaseTemplates: seq<Template> :=
    [MinimumAttendance, MinimumAverageGrade, NoFailingComponentScores]

  /** The two criteria a category adds, in the order the seeder adds them. */
  function CategoryTemplates(c: Category): seq<Template> {
    match c
    case SoftwareEngineering => [ProjectCompletion, LabWorkSubmission]
    case Database => [DatabasePracticalExam, SqlAssignmentCompletion]
    case Web => [WebApplicationProject, ProjectPresentation]
    case Math => [MidtermExamMinimum, FinalExamMinimum]
    case ComputerScience => [ProgrammingAssignments, CodingChallengeParticipation]
    case Design => [PortfolioReview, StudioCritiqueParticipation]
  }

  /** The block of category `c`, added when the code has one of its prefixes. */
  function CategoryBlock(code: string, c: Category): seq<Template> {
    if HasPrefix(code, Prefixes(c)) then CategoryTemplates(c) else []
  }

  /** The category blocks in the fixed order Software Engineering, Database,
      Web, Math, Computer Science, Design: two criteria per matching category. */
  function CategoryBlocks(code: string): seq<Template> {
    CategoryBlock(code, SoftwareEngineering)
    + CategoryBlock(code, Database)
    + CategoryBlock(code, Web)
    + CategoryBlock(code, Math)
    + CategoryBlock(code, ComputerScience)
    + CategoryBlock(code, Design)
  }

  /** The criteria list for a subject code: the base criteria, then the category blocks. */
  function SubjectTemplates(code: string): seq<Template> {
    BaseTemplates + CategoryBlocks(code)
  }

  // ---------------------------------------------------------------------
  // SeedAsync
  // ---------------------------------------------------------------------

  /** The criteria of one subject from templates, with fresh keys from `nextId`. */
  function Instantiate(ts: seq<Template>, subjectId: Id, nextId: Id): (r: seq<SubjectCriterion>)
    ensures |r| == |ts|
    ensures Templates(r) == ts
    ensures forall i :: 0 <= i < |r| ==> r[i].id == nextId + i && r[i].subjectId == subjectId
  {
    seq(|ts|, i requires 0 <= i < |ts| => SubjectCriterion(nextId + i, subjectId, ts[i]))
  }

  /** The code the seeder classifies: a null code is read as the empty string. */
  function CodeOf(subject: Subject): string {
    subject.subjectCode.GetOr("")
  }

  /** The foreach over the subjects, for a per-code criteria list `select`:
      each subject's criteria in subject order, keys running on from block
      to block. The seeder's own loop is `Build(SubjectTemplates, ...)`. */
  function Build(select: string -> seq<Template>, subjects: seq<Subject>, nextId: Id): seq<SubjectCriterion> {
    if |subjects| == 0 then []
    else
      var block := Instantiate(select(CodeOf(subjects[0])), subjects[0].id, nextId);
      block + Build(select, subjects[1..], nextId + |block|)
  }

  function BuildCriteria(subjects: seq<Subject>, nextId: Id): seq<SubjectCriterion> {
    Build(SubjectTemplates, subjects, nextId)
  }

  /** The criteria the seeder adds. Nothing is added when criteria already
      exist or there are no subjects. */
  function Seed(criteriaExist: bool, subjects: seq<Subject>, nextId: Id): (r: seq<SubjectCriterion>)
    ensures criteriaExist || |subjects| == 0 ==> r == []
    ensures !criteriaExist && |subjects| > 0 ==> r == BuildCriteria(subjects, nextId)
  {
    if criteriaExist || |subjects| == 0 then [] else BuildCriteria(subjects, nextId)
  }

  // ---------------------------------------------------------------------
  // Properties of the template selection
  // ---------------------------------------------------------------------

  /** The criteria of a list of categories, two per category, in list order. */
  function Blocks(cats: seq<Category>): (r: seq<Template>)
    ensures |r| == 2 * |cats|
  {
    if |cats| == 0 then [] else CategoryTemplates(cats[0]) + Blocks(cats[1..])
  }

  lemma {:induction false} BlocksAppend(a: seq<Category>, b: seq<Category>)
    ensures Blocks(a + b) == Blocks(a) + Blocks(b)
    decreases |a|
  {
    if |a| == 0 {
      assert a + b == b;
    } else {
      assert (a + b)[1..] == a[1..] + b;
      BlocksAppend(a[1..], b);
    }
  }

  lemma CategoryBlockIsBlocks(code: string, c: Category)
    ensures CategoryBlock(code, c) == Blocks(IfMatches(code, c))
  {
    assert Blocks([c]) == CategoryTemplates(c) + Blocks([]);
  }

  /** The criteria added after the base ones are exactly the two criteria of
      each matching category, category by category in the seeder's order. */
  lemma CategoryBlocksFollowCategories(code: string)
    ensures CategoryBlocks(code) == Blocks(MatchingCategories(code))
  {
    var m1, m2, m3 := IfMatches(code, SoftwareEngineering), IfMatches(code, Database), IfMatches(code, Web);
    var m4, m5, m6 := IfMatches(code, Math), IfMatches(code, ComputerScience), IfMatches(code, Design);
    CategoryBlockIsBlocks(code, SoftwareEngineering);
    CategoryBlockIsBlocks(code, Database);
    CategoryBlockIsBlocks(code, Web);
    CategoryBlockIsBlocks(code, Math);
    CategoryBlockIsBlocks(code, ComputerScience);
    CategoryBlockIsBlocks(code, Design);
    BlocksAppend(m1, m2);
    BlocksAppend(m1 + m2, m3);
    BlocksAppend(m1 + m2 + m3, m4);
    BlocksAppend(m1 + m2 + m3 + m4, m5);
    BlocksAppend(m1 + m2 + m3 + m4 + m5, m6);
  }

  /** Every subject's list is the three base criteria followed by the blocks
      of its matching categories; the base criteria are all mandatory. */
  lemma SubjectTemplatesStartWithBase(code: string)
    ensures SubjectTemplates(code) == BaseTemplates + Blocks(MatchingCategories(code))
    ensures forall i :: 0 <= i < 3 ==> SubjectTemplates(code)[i].IsMandatory()
  {
    CategoryBlocksFollowCategories(code);
  }

  /** A blank code matches no category, so it gets the base criteria only. */
  lemma BlankCodeGetsBaseOnly(code: string)
    requires Text.IsBlank(code)
    ensures MatchingCategories(code) == []
    ensures SubjectTemplates(code) == BaseTemplates
  {
    assert CategoryBlocks(code) == [];
  }

  /** A null code is read as the empty string, which is blank. */
  lemma NullCodeGetsBaseOnly(subject: Subject)
    requires subject.subjectCode.None?
    ensures SubjectTemplates(CodeOf(subject)) == BaseTemplates
  {
    BlankCodeGetsBaseOnly("");
  }

  /** Each category appears at most once and in the seeder's order, and no
      code is in more than two categories: the tables are laid out so that a
      code has at most two of their prefixes. */
  lemma AtMostTwoCategories(code: string)
    ensures |MatchingCategories(code)| <= 2
    ensures |SubjectTemplates(code)| <= 7
  {
    SubjectTemplatesStartWithBase(code);
    // Every prefix is three letters, and the shared ones are the keys
    // DBI, PRJ, PRF, PRO and CSD, each in exactly two tables.
    if Text.IsBlank(code) {
      BlankCodeGetsBaseOnly(code);
    } else if |code| < 3 {
      NoCategoryWhenShort(code);
    } else {
      var key := Text.FoldAll(code[..3]);
      Text.FoldedPrefixOf(code, 3);
      SelectionByKey(code, key);
      KeyCategoriesAtMostTwo(key);
    }
  }

  // ---------------------------------------------------------------------
  // Selection by the code's first three letters
  // ---------------------------------------------------------------------

  /** A three-character key in folded (upper-case) form. */
  predicate IsKey(key: string) {
    |key| == 3 && Text.IsFolded(key)
  }

  lemma PrefixesAreKeys(c: Category)
    ensures forall k :: 0 <= k < |Prefixes(c)| ==> IsKey(Prefixes(c)[k])
  {
  }

  function IfListed(key: string, c: Category): seq<Category> {
    if key in Prefixes(c) then [c] else []
  }

  /** The categories whose tables list `key`, in the seeder's order. */
  function KeyCategories(key: string): seq<Category> {
    IfListed(key, SoftwareEngineering) + IfListed(key, Database) + IfListed(key, Web)
    + IfListed(key, Math) + IfListed(key, ComputerScience) + IfListed(key, Design)
  }

  /** A non-blank code starting with a key, in any case, has a prefix from a
      table of keys exactly when the table lists that key. */
  lemma HasPrefixByKey(code: string, key: string, prefixes: seq<string>)
    requires IsKey(key) && Text.StartsWithIgnoreCase(code, key) && !Text.IsBlank(code)
    requires forall k :: 0 <= k < |prefixes| ==> IsKey(prefixes[k])
    ensures HasPrefix(code, prefixes) <==> key in prefixes
  {
    forall k | 0 <= k < |prefixes|
      ensures Text.StartsWithIgnoreCase(code, prefixes[k]) <==> prefixes[k] == key
    {
      Text.FoldedPrefixUnique(code, key, prefixes[k]);
    }
  }

  /** The categories, and so the criteria, of a non-blank code are decided by
      its first three letters alone, read without regard to case. */
  lemma SelectionByKey(code: string, key: string)
    requires IsKey(key) && Text.StartsWithIgnoreCase(code, key) && !Text.IsBlank(code)
    ensures MatchingCategories(code) == KeyCategories(key)
    ensures SubjectTemplates(code) == BaseTemplates + Blocks(KeyCategories(key))
  {
    CategoryByKey(code, key, SoftwareEngineering);
    CategoryByKey(code, key, Database);
    CategoryByKey(code, key, Web);
    CategoryByKey(code, key, Math);
    CategoryByKey(code, key, ComputerScience);
    CategoryByKey(code, key, Design);
    SubjectTemplatesStartWithBase(code);
  }

  lemma CategoryByKey(code: string, key: string, c: Category)
    requires IsKey(key) && Text.StartsWithIgnoreCase(code, key) && !Text.IsBlank(code)
    ensures IfMatches(code, c) == IfListed(key, c)
  {
    PrefixesAreKeys(c);
    HasPrefixByKey(code, key, Prefixes(c));
  }

  /** No three-letter prefix fits a code shorter than three characters. */
  lemma NoCategoryWhenShort(code: string)
    requires |code| < 3
    ensures MatchingCategories(code) == []
  {
    forall c
      ensures !HasPrefix(code, Prefixes(c))
    {
      PrefixesAreKeys(c);
    }
  }

  /** No key is listed in more than two tables. */
  lemma KeyCategoriesAtMostTwo(key: string)
    ensures |KeyCategories(key)| <= 2
  {
    if key in Prefixes(Database) {
      assert key == "DBI";
    } else if key in Prefixes(Web) {
      assert key == "PRJ" || key == "WDU";
    } else if key in Prefixes(ComputerScience) {
      assert key == "CSI" || key == "CSD" || key == "PRF" || key == "PRO";
    }
  }

  /** Every table key starts with a capital letter, so the blank-code guard
      of `HasPrefix` never changes its answer on a table: a code that some key
      starts is not blank, whatever counts as white space. */
  lemma BlankGuardIsRedundant(code: string, c: Category)
    ensures HasPrefix(code, Prefixes(c)) == AnyPrefix(code, Prefixes(c))
  {
    var prefixes := Prefixes(c);
    PrefixesAreKeys(c);
    if AnyPrefix(code, prefixes) {
      var k :| 0 <= k < |prefixes| && Text.StartsWithIgnoreCase(code, prefixes[k]);
      assert 'A' <= prefixes[k][0] <= 'Z';
      LetterCodeNotBlank(code, prefixes[k]);
    }
  }

  /** A code whose first letter is a capital letter up to case is not blank. */
  lemma LetterCodeNotBlank(code: string, key: string)
    requires |key| > 0 && 'A' <= key[0] <= 'Z' && Text.StartsWithIgnoreCase(code, key)
    ensures !Text.IsBlank(code)
  {
    assert Text.SameIgnoringCase(code[0], key[0]);
  }

  /** The criteria list of a code whose first three letters fold to `key`. */
  function KeyTemplates(key: string): seq<Template> {
    BaseTemplates + Blocks(KeyCategories(key))
  }

  /** A code that starts with a key of capital letters, in any case, gets the
      key's criteria list. */
  lemma CodeGetsKeyTemplates(code: string, key: string)
    requires IsKey(key) && 'A' <= key[0] <= 'Z' && Text.StartsWithIgnoreCase(code, key)
    ensures MatchingCategories(code) == KeyCategories(key)
    ensures SubjectTemplates(code) == KeyTemplates(key)
  {
    LetterCodeNotBlank(code, key);
    SelectionByKey(code, key);
  }

  lemma TwoBlocks(c1: Category, c2: Category)
    ensures BaseTemplates + Blocks([c1, c2])
         == BaseTemplates + CategoryTemplates(c1) + CategoryTemplates(c2)
  {
    assert [c1, c2][1..] == [c2];
    assert Blocks([c2]) == CategoryTemplates(c2) + Blocks([]);
  }

  /** DBI is both a Software Engineering and a Database key. */
  lemma DatabaseKeyCriteria()
    ensures IsKey("DBI")
    ensures KeyCategories("DBI") == [SoftwareEngineering, Database]
    ensures KeyTemplates("DBI")
         == [MinimumAttendance, MinimumAverageGrade, NoFailingComponentScores,
             ProjectCompletion, LabWorkSubmission, DatabasePracticalExam, SqlAssignmentCompletion]
  {
    TwoBlocks(SoftwareEngineering, Database);
  }

  /** PRJ is both a Software Engineering and a Web key. */
  lemma ProjectKeyCriteria()
    ensures IsKey("PRJ")
    ensures KeyCategories("PRJ") == [SoftwareEngineering, Web]
    ensures KeyTemplates("PRJ")
         == [MinimumAttendance, MinimumAverageGrade, NoFailingComponentScores,
             ProjectCompletion, LabWorkSubmission, WebApplicationProject, ProjectPresentation]
  {
    TwoBlocks(SoftwareEngineering, Web);
  }

  /** PRF, PRO and CSD are both Software Engineering and Computer Science keys. */
  lemma ProgrammingKeyCriteria(key: string)
    requires key in ["PRF", "PRO", "CSD"]
    ensures IsKey(key) && 'A' <= key[0] <= 'Z'
    ensures KeyCategories(key) == [SoftwareEngineering, ComputerScience]
    ensures KeyTemplates(key)
         == [MinimumAttendance, MinimumAverageGrade, NoFailingComponentScores,
             ProjectCompletion, LabWorkSubmission, ProgrammingAssignments, CodingChallengeParticipation]
  {
    if key == "PRF" {
      assert KeyCategories("PRF") == [SoftwareEngineering, ComputerScience];
    } else if key == "PRO" {
      assert KeyCategories("PRO") == [SoftwareEngineering, ComputerScience];
    } else {
      assert KeyCategories("CSD") == [SoftwareEngineering, ComputerScience];
    }
    TwoBlocks(SoftwareEngineering, ComputerScience);
  }

  // ---------------------------------------------------------------------
  // Mandatory criteria
  // ---------------------------------------------------------------------

  function CountMandatory(ts: seq<Template>): nat {
    if |ts| == 0 then 0
    else (if ts[0].IsMandatory() then 1 else 0) + CountMandatory(ts[1..])
  }

  lemma {:induction false} CountMandatoryAppend(a: seq<Template>, b: seq<Template>)
    ensures CountMandatory(a + b) == CountMandatory(a) + CountMandatory(b)
    decreases |a|
  {
    if |a| == 0 {
      assert a + b == b;
    } else {
      assert (a + b)[1..] == a[1..] + b;
      CountMandatoryAppend(a[1..], b);
    }
  }

  /** Each category's first criterion is mandatory, so a list of categories
      contributes at least one mandatory criterion per category. */
  lemma {:induction false} BlocksMandatory(cats: seq<Category>)
    ensures |cats| <= CountMandatory(Blocks(cats))
  {
    if |cats| > 0 {
      var t := CategoryTemplates(cats[0]);
      assert t[1..] == [t[1]];
      assert CountMandatory(t) >= 1;
      CountMandatoryAppend(t, Blocks(cats[1..]));
      BlocksMandatory(cats[1..]);
    }
  }

  /** A subject has at least its three base criteria plus one per matching
      category as mandatory criteria; at most one per category is optional. */
  lemma MandatoryCriteria(code: string)
    ensures CountMandatory(SubjectTemplates(code)) >= 3 + |MatchingCategories(code)|
    ensures |SubjectTemplates(code)| - CountMandatory(SubjectTemplates(code)) <= |MatchingCategories(code)|
  {
    SubjectTemplatesStartWithBase(code);
    CountMandatoryAppend(BaseTemplates, Blocks(MatchingCategories(code)));
    BlocksMandatory(MatchingCategories(code));
  }

  /** The only optional criteria are the SQL assignment, the coding
      challenges and the studio critiques; every minimum score is non-negative. */
  lemma TemplateFacts(t: Template)
    ensures !t.IsMandatory() ==>
      t.Name() in {"SQL Assignment Completion", "Coding Challenge Participation", "Studio Critique Participation"}
    ensures t.MinScore() >= 0.0
  {
  }

  // ---------------------------------------------------------------------
  // Properties of the seeding loop
  // ---------------------------------------------------------------------

  /** Where subject k's criteria start in the output. */
  function CriteriaOffset(select: string -> seq<Template>, subjects: seq<Subject>, k: nat): nat
    requires k <= |subjects|
  {
    if k == 0 then 0
    else |select(CodeOf(subjects[0]))| + CriteriaOffset(select, subjects[1..], k - 1)
  }

  /** Subject k's criteria sit in `out` at its offset, keyed from there. */
  predicate CriteriaPlaced(select: string -> seq<Template>, subjects: seq<Subject>, out: seq<SubjectCriterion>, nextId: Id, k: nat)
    requires k < |subjects|
  {
    var start, ts := CriteriaOffset(select, subjects, k), select(CodeOf(subjects[k]));
    && start + |ts| <= |out|
    && out[start..start + |ts|] == Instantiate(ts, subjects[k].id, nextId + start)
  }

  /** The output is each subject's criteria list in subject order, with keys
      running on from one subject's block to the next. */
  lemma {:induction false} BuildIsConcatenationOfBlocks(select: string -> seq<Template>, subjects: seq<Subject>, nextId: Id)
    ensures var out := Build(select, subjects, nextId);
      && |out| == CriteriaOffset(select, subjects, |subjects|)
      && forall k :: 0 <= k < |subjects| ==> CriteriaPlaced(select, subjects, out, nextId, k)
  {
    if |subjects| > 0 {
      var block := Instantiate(select(CodeOf(subjects[0])), subjects[0].id, nextId);
      var rest := Build(select, subjects[1..], nextId + |block|);
      var out := block + rest;
      BuildIsConcatenationOfBlocks(select, subjects[1..], nextId + |block|);
      forall k | 0 <= k < |subjects|
        ensures CriteriaPlaced(select, subjects, out, nextId, k)
      {
        if k == 0 {
          Seqs.SliceOfAppend(block, rest, 0, |block|);
        } else {
          PlacedAfter(select, subjects, block, rest, nextId, k);
        }
      }
    }
  }

  lemma PlacedAfter(select: string -> seq<Template>, subjects: seq<Subject>, block: seq<SubjectCriterion>,
                    rest: seq<SubjectCriterion>, nextId: Id, k: nat)
    requires 0 < k < |subjects|
    requires |block| == |select(CodeOf(subjects[0]))|
    requires CriteriaPlaced(select, subjects[1..], rest, nextId + |block|, k - 1)
    ensures CriteriaPlaced(select, subjects, block + rest, nextId, k)
  {
    var tail := subjects[1..];
    var start := CriteriaOffset(select, subjects, k);
    assert start == |block| + CriteriaOffset(select, tail, k - 1);
    assert subjects[k] == tail[k - 1];
    var len := |select(CodeOf(tail[k - 1]))|;
    Seqs.SliceOfAppend(block, rest, start, start + len);
  }

  /** The keys of `cs` run consecutively from `nextId`. */
  predicate KeysFrom(cs: seq<SubjectCriterion>, nextId: Id) {
    forall i :: 0 <= i < |cs| ==> cs[i].id == nextId + i
  }

  /** Every criterion of `cs` belongs to one of the subjects. */
  predicate WithinSubjects(cs: seq<SubjectCriterion>, subjects: seq<Subject>) {
    forall i :: 0 <= i < |cs| ==> exists k :: 0 <= k < |subjects| && cs[i].subjectId == subjects[k].id
  }

  /** Keys run consecutively from `nextId`, and every criterion belongs to
      one of the subjects. */
  lemma {:induction false} BuildKeysAndSubjects(select: string -> seq<Template>, subjects: seq<Subject>, nextId: Id)
    ensures KeysFrom(Build(select, subjects, nextId), nextId)
    ensures WithinSubjects(Build(select, subjects, nextId), subjects)
  {
    if |subjects| > 0 {
      var block := Instantiate(select(CodeOf(subjects[0])), subjects[0].id, nextId);
      var rest := Build(select, subjects[1..], nextId + |block|);
      BuildKeysAndSubjects(select, subjects[1..], nextId + |block|);
      var out: seq<SubjectCriterion> := block + rest;
      forall i | 0 <= i < |out|
        ensures out[i].id == nextId + i
        ensures exists k :: 0 <= k < |subjects| && out[i].subjectId == subjects[k].id
      {
        if i < |block| {
          assert out[i].subjectId == subjects[0].id;
        } else {
          assert out[i] == rest[i - |block|];
          var k :| 0 <= k < |subjects[1..]| && rest[i - |block|].subjectId == subjects[1..][k].id;
          assert subjects[1..][k] == subjects[k + 1];
        }
      }
    }
  }

  /** The criteria of subject `sid`, in output order. */
  function OfSubject(cs: seq<SubjectCriterion>, sid: Id): seq<SubjectCriterion> {
    if |cs| == 0 then []
    else (if cs[0].subjectId == sid then [cs[0]] else []) + OfSubject(cs[1..], sid)
  }

  lemma {:induction false} OfSubjectAppend(a: seq<SubjectCriterion>, b: seq<SubjectCriterion>, sid: Id)
    ensures OfSubject(a + b, sid) == OfSubject(a, sid) + OfSubject(b, sid)
    decreases |a|
  {
    if |a| == 0 {
      assert a + b == b;
    } else {
      var ab := a + b;
      assert ab[0] == a[0];
      assert ab[1..] == a[1..] + b;
      OfSubjectAppend(a[1..], b, sid);
      var head := if a[0].subjectId == sid then [a[0]] else [];
      assert OfSubject(ab, sid) == head + OfSubject(a[1..] + b, sid);
      assert OfSubject(a, sid) == head + OfSubject(a[1..], sid);
    }
  }

  lemma {:induction false} OfSubjectAll(cs: seq<SubjectCriterion>, sid: Id)
    requires forall i :: 0 <= i < |cs| ==> cs[i].subjectId == sid
    ensures OfSubject(cs, sid) == cs
  {
    if |cs| > 0 {
      OfSubjectAll(cs[1..], sid);
    }
  }

  lemma {:induction false} OfSubjectNone(cs: seq<SubjectCriterion>, sid: Id)
    requires forall i :: 0 <= i < |cs| ==> cs[i].subjectId != sid
    ensures OfSubject(cs, sid) == []
  {
    if |cs| > 0 {
      OfSubjectNone(cs[1..], sid);
    }
  }

  /** With distinct subject keys, the subjects after the first build no
      criteria for the first. */
  lemma RestOmitsFirst(select: string -> seq<Template>, subjects: seq<Subject>, next: Id)
    requires DistinctSubjectIds(subjects) && |subjects| > 0
    ensures OfSubject(Build(select, subjects[1..], next), subjects[0].id) == []
  {
    BuildKeysAndSubjects(select, subjects[1..], next);
    var rest := Build(select, subjects[1..], next);
    forall i | 0 <= i < |rest|
      ensures rest[i].subjectId != subjects[0].id
    {
      var j :| 0 <= j < |subjects[1..]| && rest[i].subjectId == subjects[1..][j].id;
      assert subjects[1..][j] == subjects[j + 1];
    }
    OfSubjectNone(rest, subjects[0].id);
  }

  /** With distinct subject keys, the criteria built for subject k are
      exactly the list selected for its code, in order. */
  lemma {:induction false} EachSubjectGetsItsList(select: string -> seq<Template>, subjects: seq<Subject>, nextId: Id, k: nat)
    requires DistinctSubjectIds(subjects) && k < |subjects|
    ensures Templates(OfSubject(Build(select, subjects, nextId), subjects[k].id)) == select(CodeOf(subjects[k]))
  {
    var sid := subjects[k].id;
    var block := Instantiate(select(CodeOf(subjects[0])), subjects[0].id, nextId);
    var next := nextId + |block|;
    var rest := Build(select, subjects[1..], next);
    assert Build(select, subjects, nextId) == block + rest;
    OfSubjectAppend(block, rest, sid);
    if k == 0 {
      OfSubjectAll(block, sid);
      RestOmitsFirst(select, subjects, next);
      assert OfSubject(block, sid) + OfSubject(rest, sid) == block;
    } else {
      assert subjects[1..][k - 1] == subjects[k];
      assert subjects[0].id != sid;
      OfSubjectNone(block, sid);
      EachSubjectGetsItsList(select, subjects[1..], next, k - 1);
      assert rest == Build(select, subjects[1..], next);
      assert OfSubject(block, sid) + OfSubject(rest, sid) == OfSubject(rest, sid);
    }
  }

  /** With distinct subject keys, the criteria seeded for subject k are
      exactly the list its code selects: the base criteria, then the blocks
      of its categories. */
  lemma EachSubjectGetsItsCriteria(subjects: seq<Subject>, nextId: Id, k: nat)
    requires DistinctSubjectIds(subjects) && k < |subjects|
    ensures Templates(OfSubject(BuildCriteria(subjects, nextId), subjects[k].id))
         == BaseTemplates + Blocks(MatchingCategories(CodeOf(subjects[k])))
  {
    EachSubjectGetsItsList(SubjectTemplates, subjects, nextId, k);
    SubjectTemplatesStartWithBase(CodeOf(subjects[k]));
  }

  /** What the seeder adds: nothing when criteria exist or there are no
      subjects; otherwise criteria with fresh keys in creation order, each of
      an input subject, and, when subject keys are distinct, each subject's
      criteria are the base criteria followed by the blocks of its categories. */
  lemma SeedOutcome(criteriaExist: bool, subjects: seq<Subject>, nextId: Id)
    ensures var r := Seed(criteriaExist, subjects, nextId);
      && (criteriaExist || |subjects| == 0 ==> r == [])
      && (!criteriaExist && |subjects| > 0 ==>
            && KeysFrom(r, nextId)
            && WithinSubjects(r, subjects)
            && (DistinctSubjectIds(subjects) ==>
                  forall k :: 0 <= k < |subjects| ==>
                    Templates(OfSubject(r, subjects[k].id))
                    == BaseTemplates + Blocks(MatchingCategories(CodeOf(subjects[k])))))
  {
    BuildKeysAndSubjects(SubjectTemplates, subjects, nextId);
    if DistinctSubjectIds(subjects) {
      forall k | 0 <= k < |subjects|
        ensures Templates(OfSubject(BuildCriteria(subjects, nextId), subjects[k].id))
             == BaseTemplates + Blocks(MatchingCategories(CodeOf(subjects[k])))
      {
        EachSubjectGetsItsCriteria(subjects, nextId, k);
      }
    }
  }
}
