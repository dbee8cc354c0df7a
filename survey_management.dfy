/**
 * The administrator's survey management page: the search box that narrows the loaded list,
 * and the confirmation dialog whose handler deletes a survey together with its responses.
 */
module SurveyManagement {
  import opened Wrappers
  import opened Strings
  import opened Seqs
  import opened Tables

  /** The unit columns joined into each row by `unit:unit_id(name, description)`. */
  datatype UnitInfo = UnitInfo(name: string, description: string)

  /** A loaded row: the survey and, when its unit exists, the joined unit. */
  datatype ListedSurvey = ListedSurvey(survey: Survey, unit: Option<UnitInfo>)

  /** A row matches when its lowercased title, description or unit name contains `needle`. */
  predicate Matches(s: ListedSurvey, needle: string) {
    || Contains(Lower(s.survey.title), needle)
    || Contains(Lower(s.survey.description), needle)
    || (s.unit.Some? && Contains(Lower(s.unit.value.name), needle))
  }

  /**
   * The search effect: a term that is blank after trimming shows every loaded row; otherwise the
   * rows matching the lowercased term, which is not trimmed, in their loaded order.
   */
  function FilterSurveys(surveys: seq<ListedSurvey>, searchTerm: string): (r: seq<ListedSurvey>)
    ensures IsBlank(searchTerm) ==> r == surveys
    ensures !IsBlank(searchTerm) ==> forall s :: s in r <==> s in surveys && Matches(s, Lower(searchTerm))
    ensures !IsBlank(searchTerm) ==> forall s :: s in r && s.unit.None? ==>
      (Contains(Lower(s.survey.title), Lower(searchTerm)) || Contains(Lower(s.survey.description), Lower(searchTerm)))
    ensures IsSubsequence(r, surveys)
  {
    TrimEmptyIffBlank(searchTerm);
    if Trim(searchTerm) == [] then
      SubsequenceOfItself(surveys);
      surveys
    else
      var needle := Lower(searchTerm);
      FilterKeepsOrder((s: ListedSurvey) => Matches(s, needle), surveys);
      Filter((s: ListedSurvey) => Matches(s, needle), surveys)
  }

  /** Filtering keeps each row as many times as it was loaded, or drops it entirely. */
  lemma FilterSurveysCounts(surveys: seq<ListedSurvey>, searchTerm: string)
    requires !IsBlank(searchTerm)
    ensures forall s ::
              multiset(FilterSurveys(surveys, searchTerm))[s] == if Matches(s, Lower(searchTerm)) then multiset(surveys)[s] else 0
  {
    TrimEmptyIffBlank(searchTerm);
    FilterCounts((s: ListedSurvey) => Matches(s, Lower(searchTerm)), surveys);
  }

  /** Spaces around a term are searched for too: "word " does not find a survey titled "word". */
  lemma TrailingSpaceMissesExactTitle(s: ListedSurvey, word: string)
    requires word != [] && !IsSpace(word[0])
    requires s.survey.title == word && |s.survey.description| <= |word| && s.unit.None?
    ensures !IsBlank(word + " ")
    ensures FilterSurveys([s], word + " ") == []
  {
    var term := word + " ";
    assert term[0] == word[0];
    var needle := Lower(term);
    LongerNeedleMissing(Lower(s.survey.title), needle);
    LongerNeedleMissing(Lower(s.survey.description), needle);
    assert !Matches(s, needle);
    assert Filter((x: ListedSurvey) => Matches(x, needle), [s]) == [];
  }

  /** No response refers to a survey that is not in the table. */
  predicate NoOrphans(surveys: seq<Survey>, responses: seq<Response>) {
    forall r :: r in responses ==> HasSurvey(surveys, r.surveyId)
  }

  predicate HasSurvey(surveys: seq<Survey>, id: string) {
    exists s :: s in surveys && s.id == id
  }

  /** `.from('survey_responses').delete().eq('survey_id', id)`: the other responses, in order. */
  function WithoutResponsesTo(responses: seq<Response>, id: string): (r: seq<Response>)
    ensures forall x :: x in r <==> x in responses && x.surveyId != id
    ensures forall x :: multiset(r)[x] == if x.surveyId != id then multiset(responses)[x] else 0
    ensures IsSubsequence(r, responses)
  {
    FilterKeepsOrder((x: Response) => x.surveyId != id, responses);
    FilterCounts((x: Response) => x.surveyId != id, responses);
    Filter((x: Response) => x.surveyId != id, responses)
  }

  /** `.from('surveys').delete().eq('id', id)`: the other surveys, in order. */
  function WithoutSurvey(surveys: seq<Survey>, id: string): (r: seq<Survey>)
    ensures forall x :: x in r <==> x in surveys && x.id != id
    ensures forall x :: multiset(r)[x] == if x.id != id then multiset(surveys)[x] else 0
    ensures IsSubsequence(r, surveys)
  {
    FilterKeepsOrder((x: Survey) => x.id != id, surveys);
    FilterCounts((x: Survey) => x.id != id, surveys);
    Filter((x: Survey) => x.id != id, surveys)
  }

  /** Deleting a survey's responses never orphans anything. */
  lemma DeletingResponsesKeepsParents(surveys: seq<Survey>, responses: seq<Response>, id: string)
    requires NoOrphans(surveys, responses)
    ensures NoOrphans(surveys, WithoutResponsesTo(responses, id))
  {
  }

  /** Deleting the responses first, then the survey, leaves every remaining response its survey. */
  lemma {:induction false} CascadeKeepsParents(surveys: seq<Survey>, responses: seq<Response>, id: string)
    requires NoOrphans(surveys, responses)
    ensures NoOrphans(WithoutSurvey(surveys, id), WithoutResponsesTo(responses, id))
  {
    var kept := WithoutSurvey(surveys, id);
    forall r | r in WithoutResponsesTo(responses, id)
      ensures HasSurvey(kept, r.surveyId)
    {
      var s :| s in surveys && s.id == r.surveyId;
      assert s in kept;
    }
  }

  /** Deleting the survey without first deleting its responses orphans them; the handler's order (responses first) avoids this. */
  lemma SurveyAloneOrphans(s: Survey, r: Response)
    requires r.surveyId == s.id
    ensures NoOrphans([s], [r])
    ensures !NoOrphans(WithoutSurvey([s], s.id), [r])
  {
    assert s in [s];
    assert r in [r];
  }

  /** How a delete attempt ended. */
  datatype DeleteOutcome = NothingSelected | ResponsesNotDeleted | SurveyNotDeleted | Deleted

  /** The alerts the page shows. */
  datatype Notice = DeleteFailed | SurveyDeleted(title: string)

  /** The page's state next to the two tables its delete handler changes. */
  class SurveyManagementPage {
    var surveyTable: seq<Survey>
    var responseTable: seq<Response>
    var surveyToDelete: Option<Survey>
    var showDeleteModal: bool
    var error: Option<Notice>
    var success: Option<Notice>
    var loading: bool

    constructor(surveys: seq<Survey>, responses: seq<Response>)
      ensures surveyTable == surveys && responseTable == responses
      ensures surveyToDelete.None? && !showDeleteModal
      ensures error.None? && success.None? && loading
    {
      surveyTable := surveys;
      responseTable := responses;
      surveyToDelete := None;
      showDeleteModal := false;
      error := None;
      success := None;
      loading := true;
    }

    /** `openDeleteModal`: remembers the row and opens the confirmation dialog. */
    method OpenDeleteModal(s: Survey)
      modifies this`surveyToDelete, this`showDeleteModal
      ensures surveyToDelete == Some(s) && showDeleteModal
    {
      surveyToDelete := Some(s);
      showDeleteModal := true;
    }

    /** `closeDeleteModal`: closes the dialog and forgets the row. */
    method CloseDeleteModal()
      modifies this`surveyToDelete, this`showDeleteModal
      ensures surveyToDelete.None? && !showDeleteModal
    {
      showDeleteModal := false;
      surveyToDelete := None;
    }

    /**
     * `handleDeleteSurvey`: deletes the selected survey's responses, then the survey, stopping at the
     * first request that fails. The two failures are inputs.
     */
    method DeleteSurvey(responsesDeleteFails: bool, surveyDeleteFails: bool) returns (outcome: DeleteOutcome)
      modifies this
      ensures old(surveyToDelete).None? ==> outcome == NothingSelected && unchanged(this)
      ensures old(surveyToDelete).Some? && responsesDeleteFails ==>
        && outcome == ResponsesNotDeleted
        && surveyTable == old(surveyTable) && responseTable == old(responseTable)
        && error == Some(DeleteFailed) && success.None?
        && surveyToDelete == old(surveyToDelete) && showDeleteModal == old(showDeleteModal)
      ensures old(surveyToDelete).Some? && !responsesDeleteFails ==>
        responseTable == WithoutResponsesTo(old(responseTable), old(surveyToDelete).value.id)
      ensures old(surveyToDelete).Some? && !responsesDeleteFails && surveyDeleteFails ==>
        && outcome == SurveyNotDeleted
        && surveyTable == old(surveyTable)
        && error == Some(DeleteFailed) && success.None?
        && surveyToDelete == old(surveyToDelete) && showDeleteModal == old(showDeleteModal)
      ensures old(surveyToDelete).Some? && !responsesDeleteFails && !surveyDeleteFails ==>
        && outcome == Deleted
        && surveyTable == WithoutSurvey(old(surveyTable), old(surveyToDelete).value.id)
        && error.None? && success == Some(SurveyDeleted(old(surveyToDelete).value.title))
        && surveyToDelete.None? && !showDeleteModal
      ensures old(surveyToDelete).Some? ==> !loading
      ensures NoOrphans(old(surveyTable), old(responseTable)) ==> NoOrphans(surveyTable, responseTable)
    {
      if surveyToDelete.None? {
        return NothingSelected;
      }
      var target := surveyToDelete.value;
      loading := true;
      error := None;
      success := None;

      if responsesDeleteFails {
        error := Some(DeleteFailed);
        loading := false;
        return ResponsesNotDeleted;
      }
      ghost var responsesBefore := responseTable;
      responseTable := WithoutResponsesTo(responseTable, target.id);

      if surveyDeleteFails {
        error := Some(DeleteFailed);
        loading := false;
        return SurveyNotDeleted;
      }
      if NoOrphans(surveyTable, responsesBefore) {
        CascadeKeepsParents(surveyTable, responsesBefore, target.id);
      }
      surveyTable := WithoutSurvey(surveyTable, target.id);

      success := Some(SurveyDeleted(target.title));
      showDeleteModal := false;
      surveyToDelete := None;
      loading := false;
      outcome := Deleted;
    }
  }
}
