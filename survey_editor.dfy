/**
 * The question-list editor of the create-survey form and the checks its submit handler
 * runs before inserting the survey. Every editor returns a new question list, as the
 * form's `setQuestions(questions.map(...))` / `filter(...)` / spread calls do.
 */
module SurveyEditor {
  import opened Wrappers
  import opened Strings
  import opened Seqs
  import opened Auth

  /** `'text' | 'radio' | 'checkbox' | 'select'`. */
  datatype QuestionType = Text | Radio | Checkbox | Select

  /** A question; `options` is absent until a choice type or an option is added. */
  datatype Question = Question(id: string, text: string, qtype: QuestionType, options: Option<seq<string>>, required: bool)

  /** The `field`/`value` pair `updateQuestion` receives, one case per key of a question. */
  datatype Edit =
    | SetId(id: string)
    | SetText(text: string)
    | SetType(qtype: QuestionType)
    | SetOptions(options: Option<seq<string>>)
    | SetRequired(required: bool)

  /** Every question of a choice type carries an option list (possibly empty). */
  predicate ChoicesHaveOptions(qs: seq<Question>) {
    forall q :: q in qs && q.qtype != Text ==> q.options.Some?
  }

  /** `q.options || []`. */
  function OptionsOr(q: Question, default: seq<string>): seq<string> {
    if q.options.Some? then q.options.value else default
  }

  /** `addQuestion`: appends an empty, optional text question; `freshId` stands for the random id. */
  function AddQuestion(qs: seq<Question>, freshId: string): (r: seq<Question>)
    ensures |r| == |qs| + 1 && r[..|qs|] == qs
    ensures r[|qs|] == Question(freshId, "", Text, None, false)
    ensures ChoicesHaveOptions(qs) ==> ChoicesHaveOptions(r)
  {
    qs + [Question(freshId, "", Text, None, false)]
  }

  /** `removeQuestion`: `questions.filter(q => q.id !== id)`. */
  function RemoveQuestion(qs: seq<Question>, id: string): (r: seq<Question>)
    ensures forall q :: q in r <==> q in qs && q.id != id
    ensures forall q :: multiset(r)[q] == if q.id != id then multiset(qs)[q] else 0
    ensures IsSubsequence(r, qs)
    ensures ChoicesHaveOptions(qs) ==> ChoicesHaveOptions(r)
  {
    FilterKeepsOrder((q: Question) => q.id != id, qs);
    FilterCounts((q: Question) => q.id != id, qs);
    Filter((q: Question) => q.id != id, qs)
  }

  /** Removing a just-added question restores the list, provided its id was fresh. */
  lemma RemoveUndoesAdd(qs: seq<Question>, freshId: string)
    requires forall q :: q in qs ==> q.id != freshId
    ensures RemoveQuestion(AddQuestion(qs, freshId), freshId) == qs
  {
    var p := (q: Question) => q.id != freshId;
    FilterAppend(p, qs, [Question(freshId, "", Text, None, false)]);
    FilterAll(p, qs);
  }

  /** The object spread `{ ...q, [field]: value }`, with `options: q.options || ['']` when the type becomes a choice. */
  function ApplyEdit(q: Question, e: Edit): (r: Question)
    ensures e.SetType? ==> r.qtype == e.qtype && r.id == q.id && r.text == q.text && r.required == q.required
    ensures e.SetType? && e.qtype != Text && q.options.Some? ==> r.options == q.options
    ensures e.SetType? && e.qtype != Text && q.options.None? ==> r.options == Some([""])
    ensures e.SetType? && e.qtype == Text ==> r.options == q.options
    ensures !e.SetType? ==> r.qtype == q.qtype
    ensures !e.SetId? ==> r.id == q.id
    ensures !e.SetOptions? && !e.SetType? ==> r.options == q.options
    ensures e.SetId? ==> r == q.(id := e.id)
    ensures e.SetText? ==> r == q.(text := e.text)
    ensures e.SetOptions? ==> r == q.(options := e.options)
    ensures e.SetRequired? ==> r == q.(required := e.required)
    ensures (q.qtype != Text ==> q.options.Some?) && e != SetOptions(None) ==> (r.qtype != Text ==> r.options.Some?)
  {
    match e
    case SetId(id) => q.(id := id)
    case SetText(text) => q.(text := text)
    case SetType(t) =>
      if t != Text then q.(qtype := t, options := Some(OptionsOr(q, [""]))) else q.(qtype := t)
    case SetOptions(o) => q.(options := o)
    case SetRequired(b) => q.(required := b)
  }

  /** `updateQuestion(id, field, value)`: edits every question with that id and no other. */
  function UpdateQuestion(qs: seq<Question>, id: string, e: Edit): (r: seq<Question>)
    ensures |r| == |qs|
    ensures forall k :: 0 <= k < |qs| && qs[k].id != id ==> r[k] == qs[k]
    ensures forall k :: 0 <= k < |qs| && qs[k].id == id ==> r[k] == ApplyEdit(qs[k], e)
    ensures !e.SetId? ==> forall k :: 0 <= k < |qs| ==> r[k].id == qs[k].id
    ensures ChoicesHaveOptions(qs) && e != SetOptions(None) ==> ChoicesHaveOptions(r)
  {
    Map((q: Question) => if q.id == id then ApplyEdit(q, e) else q, qs)
  }

  /**
   * Switching a fresh text question to a choice type and back leaves it a text question
   * that still carries the seeded `['']`: switching back to text keeps the option list.
   */
  lemma TypeRoundTripKeepsSeededOption(q: Question, t: QuestionType)
    requires q.qtype == Text && q.options.None? && t != Text
    ensures ApplyEdit(ApplyEdit(q, SetType(t)), SetType(Text)) == q.(options := Some([""]))
  {
  }

  /** `addOption(questionId)`: appends `''` to the options of every question with that id. */
  function AddOption(qs: seq<Question>, questionId: string): (r: seq<Question>)
    ensures |r| == |qs|
    ensures forall k :: 0 <= k < |qs| && qs[k].id != questionId ==> r[k] == qs[k]
    ensures forall k :: 0 <= k < |qs| && qs[k].id == questionId ==>
      r[k] == qs[k].(options := Some(OptionsOr(qs[k], []) + [""]))
    ensures ChoicesHaveOptions(qs) ==> ChoicesHaveOptions(r)
  {
    Map((q: Question) => if q.id == questionId then q.(options := Some(OptionsOr(q, []) + [""])) else q, qs)
  }

  /** `newOptions[optionIndex] = value` on a copy of an in-range option list. */
  function SetAt(opts: seq<string>, i: nat, v: string): seq<string> {
    if i < |opts| then opts[i := v] else opts
  }

  /** `q.options.filter((_, index) => index !== optionIndex)`. */
  function DeleteAt(opts: seq<string>, i: nat): (r: seq<string>)
    ensures i < |opts| ==> |r| == |opts| - 1
    ensures i < |opts| ==> forall k :: 0 <= k < |r| ==> r[k] == if k < i then opts[k] else opts[k + 1]
    ensures i >= |opts| ==> r == opts
  {
    if i < |opts| then opts[..i] + opts[i + 1..] else opts
  }

  /** Every question with this id that has options has one at `i`. */
  predicate OptionInRange(qs: seq<Question>, questionId: string, i: nat) {
    forall q :: q in qs && q.id == questionId && q.options.Some? ==> i < |q.options.value|
  }

  /** `updateOption(questionId, optionIndex, value)`: questions without options are left alone. */
  function UpdateOption(qs: seq<Question>, questionId: string, i: nat, v: string): (r: seq<Question>)
    requires OptionInRange(qs, questionId, i)
    ensures |r| == |qs|
    ensures forall k :: 0 <= k < |qs| && (qs[k].id != questionId || qs[k].options.None?) ==> r[k] == qs[k]
    ensures forall k :: 0 <= k < |qs| && qs[k].id == questionId && qs[k].options.Some? ==>
      r[k].options.Some? && |r[k].options.value| == |qs[k].options.value| &&
      r[k].options.value[i] == v &&
      (forall j :: 0 <= j < |qs[k].options.value| && j != i ==> r[k].options.value[j] == qs[k].options.value[j]) &&
      r[k] == qs[k].(options := r[k].options)
    ensures ChoicesHaveOptions(qs) ==> ChoicesHaveOptions(r)
  {
    Map((q: Question) => if q.id == questionId && q.options.Some? then q.(options := Some(SetAt(q.options.value, i, v))) else q, qs)
  }

  /** Two writes to the same option: the second one wins. */
  lemma UpdateOptionLastWriteWins(qs: seq<Question>, questionId: string, i: nat, v: string, w: string)
    requires OptionInRange(qs, questionId, i)
    ensures OptionInRange(UpdateOption(qs, questionId, i, v), questionId, i)
    ensures UpdateOption(UpdateOption(qs, questionId, i, v), questionId, i, w) == UpdateOption(qs, questionId, i, w)
  {
    var once := UpdateOption(qs, questionId, i, v);
    forall q | q in once && q.id == questionId && q.options.Some? ensures i < |q.options.value| {
      var k :| 0 <= k < |once| && once[k] == q;
    }
    var twice := UpdateOption(once, questionId, i, w);
    var direct := UpdateOption(qs, questionId, i, w);
    forall k | 0 <= k < |qs| ensures twice[k] == direct[k] {
      if qs[k].id == questionId && qs[k].options.Some? {
        assert twice[k].options.value == direct[k].options.value;
      }
    }
  }

  /** `removeOption(questionId, optionIndex)`: questions without options are left alone. */
  function RemoveOption(qs: seq<Question>, questionId: string, i: nat): (r: seq<Question>)
    ensures |r| == |qs|
    ensures forall k :: 0 <= k < |qs| && (qs[k].id != questionId || qs[k].options.None?) ==> r[k] == qs[k]
    ensures forall k :: 0 <= k < |qs| && qs[k].id == questionId && qs[k].options.Some? ==>
      r[k] == qs[k].(options := Some(DeleteAt(qs[k].options.value, i)))
    ensures ChoicesHaveOptions(qs) ==> ChoicesHaveOptions(r)
  {
    Map((q: Question) => if q.id == questionId && q.options.Some? then q.(options := Some(DeleteAt(q.options.value, i))) else q, qs)
  }

  /** Deleting the option just added (at index `n`, the old length) restores the list. */
  lemma RemoveUndoesAddOption(qs: seq<Question>, questionId: string, n: nat)
    requires forall q :: q in qs && q.id == questionId ==> q.options.Some? && |q.options.value| == n
    ensures RemoveOption(AddOption(qs, questionId), questionId, n) == qs
  {
    var added := AddOption(qs, questionId);
    var r := RemoveOption(added, questionId, n);
    forall k | 0 <= k < |qs| ensures r[k] == qs[k] {
      if qs[k].id == questionId {
        assert qs[k] in qs;
        var opts := qs[k].options.value;
        assert added[k] == qs[k].(options := Some(opts + [""]));
        assert (opts + [""])[..n] == opts && (opts + [""])[n + 1..] == [];
        assert DeleteAt(opts + [""], n) == opts;
      }
    }
  }

  /** Why `handleSubmit` stops, in the order it checks. */
  datatype CreateError =
    | Unexpected              // `getUser()` rejected
    | SessionMissing          // 'Kullanıcı oturumu bulunamadı'
    | TitleRequired           // 'Anket başlığı gerekli'
    | UnitRequired            // 'Birim seçimi gerekli'
    | QuestionsRequired       // 'En az bir soru eklemelisiniz'
    | InsertFailed(message: string)
    | NoRowReturned(stored: SurveyInsert)  // the row was stored, but none came back

  /** What `.insert(...).select().single()` on `surveys` resolves to. */
  datatype InsertOutcome = Inserted | InsertError(message: string) | NoData

  /** The row `handleSubmit` inserts into `surveys`. */
  datatype SurveyInsert = SurveyInsert(title: string, description: string, unitId: string, questions: seq<Question>, createdBy: string)

  /** `handleSubmit`: the guard chain, then the insert. */
  function Submit(auth: UserLookup, title: string, description: string, unitId: string,
                  questions: seq<Question>, insert: InsertOutcome): (r: Result<SurveyInsert, CreateError>)
    ensures r.Ok? <==> auth.Authenticated? && !IsBlank(title) && unitId != "" && questions != [] && insert.Inserted?
    ensures auth.LookupThrew? ==> r == Err(Unexpected)
    ensures auth.LookupError? || auth.Anonymous? ==> r == Err(SessionMissing)
    ensures auth.Authenticated? && IsBlank(title) ==> r == Err(TitleRequired)
    ensures auth.Authenticated? && !IsBlank(title) && unitId == "" ==> r == Err(UnitRequired)
    ensures auth.Authenticated? && !IsBlank(title) && unitId != "" && questions == [] ==> r == Err(QuestionsRequired)
    ensures auth.Authenticated? && !IsBlank(title) && unitId != "" && questions != [] && insert.InsertError? ==>
            r == Err(InsertFailed(insert.message))
    ensures auth.Authenticated? && !IsBlank(title) && unitId != "" && questions != [] && insert.NoData? ==>
            r == Err(NoRowReturned(SurveyInsert(Trim(title), Trim(description), unitId, questions, auth.user.id)))
    ensures r.Ok? ==> r.value.title != "" && !IsSpace(r.value.title[0]) && !IsSpace(r.value.title[|r.value.title| - 1])
    ensures r.Ok? ==> r.value == SurveyInsert(Trim(title), Trim(description), unitId, questions, auth.user.id)
  {
    match auth
    case LookupThrew => Err(Unexpected)
    case LookupError => Err(SessionMissing)
    case Anonymous => Err(SessionMissing)
    case Authenticated(user) =>
      var trimmed := Trim(title);
      TrimEmptyIffBlank(title);
      if trimmed == "" then Err(TitleRequired)
      else if unitId == "" then Err(UnitRequired)
      else if |questions| == 0 then Err(QuestionsRequired)
      else match insert
        case InsertError(message) => Err(InsertFailed(message))
        case NoData => Err(NoRowReturned(SurveyInsert(trimmed, Trim(description), unitId, questions, user.id)))
        case Inserted => Ok(SurveyInsert(trimmed, Trim(description), unitId, questions, user.id))
  }
}
