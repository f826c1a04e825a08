/** The results table: its three-way filter, the list of questions offered by
    the question filter, the church-name lookup and the question labels
    (src/components/ResultsTable.tsx). */
module ResultsTable {
  import opened Wrappers
  import opened Seqs
  import opened Strings
  import opened Types

  /** The value of either filter that lets everything through. */
  const ALL := "ALL"

  /** The grade filter: "ALL" or one grade. */
  datatype GradeFilter = AllGrades | OnlyGrade(grade: Grade)

  predicate MatchesGrade(r: EvaluationResult, filterGrade: GradeFilter)
  {
    filterGrade.AllGrades? || r.grade == GradeLabel(filterGrade.grade)
  }

  /** The question filter is a plain string; the string "ALL" disables it. */
  predicate MatchesQuestion(r: EvaluationResult, filterQuestion: string)
  {
    filterQuestion == ALL || r.question == filterQuestion
  }

  /** Case-insensitive search in the bot answer, the reference answer and the
      justification; the empty term matches everything. */
  predicate MatchesSearch(r: EvaluationResult, searchTerm: string)
  {
    var term := Lower(searchTerm);
    searchTerm == "" ||
    Contains(Lower(r.botAnswer), term) ||
    Contains(Lower(r.gptAnswer), term) ||
    Contains(Lower(r.justification), term)
  }

  predicate Keep(r: EvaluationResult, filterGrade: GradeFilter, filterQuestion: string, searchTerm: string)
  {
    MatchesGrade(r, filterGrade) && MatchesQuestion(r, filterQuestion) && MatchesSearch(r, searchTerm)
  }

  /** `filteredResults`. */
  function FilterResults(results: seq<EvaluationResult>, filterGrade: GradeFilter,
                         filterQuestion: string, searchTerm: string): seq<EvaluationResult>
  {
    Filter(results, r => Keep(r, filterGrade, filterQuestion, searchTerm))
  }

  /** The filter keeps results in their original order. */
  lemma FilterResultsIsSubsequence(results: seq<EvaluationResult>, filterGrade: GradeFilter,
                                   filterQuestion: string, searchTerm: string)
    ensures IsSubsequence(FilterResults(results, filterGrade, filterQuestion, searchTerm), results)
    ensures forall r :: multiset(FilterResults(results, filterGrade, filterQuestion, searchTerm))[r] ==
              if Keep(r, filterGrade, filterQuestion, searchTerm) then multiset(results)[r] else 0
  {
    FilterIsSubsequence(results, r => Keep(r, filterGrade, filterQuestion, searchTerm));
    FilterMultiset(results, r => Keep(r, filterGrade, filterQuestion, searchTerm));
  }

  /** A result is shown exactly when its grade, question and search predicates
      all hold. */
  lemma FilterResultsMembers(results: seq<EvaluationResult>, filterGrade: GradeFilter,
                             filterQuestion: string, searchTerm: string, r: EvaluationResult)
    ensures r in FilterResults(results, filterGrade, filterQuestion, searchTerm) <==>
      r in results &&
      (filterGrade.OnlyGrade? ==> r.grade == GradeLabel(filterGrade.grade)) &&
      (filterQuestion != ALL ==> r.question == filterQuestion) &&
      MatchesSearch(r, searchTerm)
  {
    var out := FilterResults(results, filterGrade, filterQuestion, searchTerm);
    if r in out {
      var i :| 0 <= i < |out| && out[i] == r;
    }
    if r in results {
      var i :| 0 <= i < |results| && results[i] == r;
    }
  }

  /** With both filters on "ALL" and no search term, every result is shown, in
      order. */
  lemma FilterResultsIdentity(results: seq<EvaluationResult>)
    ensures FilterResults(results, AllGrades, ALL, "") == results
  {
    FilterIdentity(results, r => Keep(r, AllGrades, ALL, ""));
  }

  /** Filtering the filtered list again changes nothing. */
  lemma FilterResultsIdempotent(results: seq<EvaluationResult>, filterGrade: GradeFilter,
                                filterQuestion: string, searchTerm: string)
    ensures var once := FilterResults(results, filterGrade, filterQuestion, searchTerm);
            FilterResults(once, filterGrade, filterQuestion, searchTerm) == once
  {
    FilterIdempotent(results, r => Keep(r, filterGrade, filterQuestion, searchTerm));
  }

  /** `uniqueQuestions`: the distinct questions (a `Set` keeps first
      occurrences), then sorted. */
  function UniqueQuestions(results: seq<EvaluationResult>): seq<string>
  {
    Sort(DedupeBy(Questions(results), (q: string) => q))
  }

  /** `results.map(r => r.question)`. */
  function Questions(results: seq<EvaluationResult>): seq<string>
  {
    Map(results, (r: EvaluationResult) => r.question)
  }

  /** The question list is strictly ascending and holds exactly the questions
      that occur in the results. */
  lemma UniqueQuestionsSpec(results: seq<EvaluationResult>)
    ensures StrictlyAscending(UniqueQuestions(results))
    ensures forall r :: r in results ==> r.question in UniqueQuestions(results)
    ensures forall q :: q in UniqueQuestions(results) ==> exists r :: r in results && r.question == q
  {
    var qs := Questions(results);
    var id := (q: string) => q;
    var d := DedupeBy(qs, id);
    DedupeDistinct(qs, id, {});
    SortDistinct(d);
    forall r | r in results ensures r.question in UniqueQuestions(results) {
      var i :| 0 <= i < |results| && results[i] == r;
      assert qs[i] == r.question;
      DedupeCoversKeys(qs, id, {}, qs[i]);
    }
    forall q | q in UniqueQuestions(results) ensures exists r :: r in results && r.question == q {
      assert q in d;
      var k :| 0 <= k < |d| && d[k] == q;
      assert q in qs;
      var i :| 0 <= i < |qs| && qs[i] == q;
      assert results[i] in results;
    }
  }

  /** The first church with the given id (`churches.find`). */
  function FindChurch(churches: seq<Church>, churchId: string): Option<Church>
  {
    if churches == [] then None
    else if churches[0].id == churchId then Some(churches[0])
    else FindChurch(churches[1..], churchId)
  }

  /** `getChurchName`: the church's name, or the id when no church has it or
      the name is empty (the `||` fallback). */
  function ChurchName(churches: seq<Church>, churchId: string): string
  {
    match FindChurch(churches, churchId)
    case Some(c) => if c.name != "" then c.name else churchId
    case None => churchId
  }

  /** The name shown is that of the first church with a matching id, unless
      that name is empty. */
  lemma {:induction false} ChurchNameFirstMatch(churches: seq<Church>, churchId: string, i: nat)
    requires i < |churches| && churches[i].id == churchId
    requires forall j :: 0 <= j < i ==> churches[j].id != churchId
    ensures ChurchName(churches, churchId) ==
      if churches[i].name != "" then churches[i].name else churchId
  {
    if i > 0 {
      ChurchNameFirstMatch(churches[1..], churchId, i - 1);
    }
  }

  /** An unknown id is shown as itself. */
  lemma {:induction false} ChurchNameUnknown(churches: seq<Church>, churchId: string)
    requires forall c :: c in churches ==> c.id != churchId
    ensures ChurchName(churches, churchId) == churchId
  {
    if churches != [] {
      assert churches[0] in churches;
      assert forall c :: c in churches[1..] ==> c in churches;
      ChurchNameUnknown(churches[1..], churchId);
    }
  }

  /** The label of a question in the question filter: at most 30 characters
      of it followed by "..." when it is longer. */
  function QuestionLabel(q: string): (shown: string)
    ensures |shown| <= 33
    ensures StartsWith(shown, q[..if |q| < 30 then |q| else 30])
    ensures shown == q <==> |q| <= 30 || q[30..] == "..."
    ensures |q| <= 30 ==> shown == q
    ensures |q| > 30 ==> shown == q[..30] + "..."
  {
    if |q| > 30 then q[..30] + "..." else q
  }
}
