/**
 * QuizService: uploading an article's quiz (replacing whatever it had), uploading many
 * at once, reading a quiz without or with its answers, and grading submitted answers.
 * The service works on the question table and reads the article table.
 */
module Quizzes {
  import opened ErrorCodes
  import opened Articles
  import opened QuizQuestions

  /** A question as shown to a reader: its id and text, never its answer. */
  datatype QuizQuestionDto = QuizQuestionDto(id: int, question: string)

  /** One answer entry: the question id and a flag (the stored answer, or whether a submission was right). */
  datatype QuizResultDto = QuizResultDto(id: int, correctAnswer: bool)

  datatype QuizResponseDto = QuizResponseDto(articleId: int, questions: seq<QuizQuestionDto>)

  datatype QuizGradingResponse = QuizGradingResponse(articleId: int, results: seq<QuizResultDto>)

  /** One submitted answer: the question id and the true/false the user chose. */
  datatype QuizAnswerDto = QuizAnswerDto(id: int, answer: bool)

  datatype QuizGradingRequest = QuizGradingRequest(articleId: int, answers: seq<QuizAnswerDto>)

  /** Article `a` has a stored question with this id. */
  ghost predicate HasQuestion(qs: seq<QuizQuestion>, a: int, id: int)
  {
    exists q :: q in qs && q.articleId == a && q.id == id
  }

  /** The id-to-answer map built from an article's questions (Collectors.toMap on id and correctAnswer). */
  function CorrectAnswers(rows: seq<QuizQuestion>): (m: map<int, bool>)
    requires UniqueIds(rows)
    ensures m.Keys == IdsOf(rows)
    ensures forall q :: q in rows ==> q.id in m && m[q.id] == q.correctAnswer
  {
    SameIdsSameRows(rows);
    map q | q in rows :: q.id := q.correctAnswer
  }

  /** In a table with unique ids, a row is determined by its id. */
  lemma SameIdsSameRows(rows: seq<QuizQuestion>)
    requires UniqueIds(rows)
    ensures forall q, r :: q in rows && r in rows && q.id == r.id ==> q == r
  {
    forall q, r | q in rows && r in rows && q.id == r.id ensures q == r {
      SameIdSameRow(rows, q, r);
    }
  }

  /** gradeAnswer: an id the map does not know is a bad request; otherwise the id and whether the answer is right. */
  function GradeAnswer(answer: QuizAnswerDto, correctAnswers: map<int, bool>): (r: Result<QuizResultDto>)
    ensures r.Err? <==> answer.id !in correctAnswers
    ensures r.Err? ==> r.error == BAD_REQUEST_EXCEPTION
    ensures r.Ok? ==> r.value.id == answer.id && (r.value.correctAnswer <==> correctAnswers[answer.id] == answer.answer)
  {
    if answer.id !in correctAnswers then Err(BAD_REQUEST_EXCEPTION)
    else Ok(QuizResultDto(answer.id, correctAnswers[answer.id] == answer.answer))
  }

  /**
   * The stream that maps gradeAnswer over the submissions: the first unknown id aborts the
   * whole call, otherwise one result per submission in submission order.
   */
  function GradeAll(answers: seq<QuizAnswerDto>, correctAnswers: map<int, bool>): (r: Result<seq<QuizResultDto>>)
    ensures r.Err? <==> exists k :: 0 <= k < |answers| && answers[k].id !in correctAnswers
    ensures r.Err? ==> r.error == BAD_REQUEST_EXCEPTION
    ensures r.Ok? ==> |r.value| == |answers|
    ensures r.Ok? ==> forall k :: 0 <= k < |answers| ==>
      r.value[k].id == answers[k].id
      && (r.value[k].correctAnswer <==> correctAnswers[answers[k].id] == answers[k].answer)
  {
    if answers == [] then Ok([])
    else
      match GradeAnswer(answers[0], correctAnswers)
      case Err(e) => Err(e)
      case Ok(result) =>
        match GradeAll(answers[1..], correctAnswers)
        case Err(e) =>
          assert forall k :: 0 <= k < |answers[1..]| ==> answers[1..][k] == answers[k + 1];
          Err(e)
        case Ok(results) =>
          assert forall k :: 1 <= k < |answers| ==> answers[k] == answers[1..][k - 1];
          Ok([result] + results)
  }

  /** The answer key built from article `a`'s questions knows exactly that article's question ids and their answers. */
  lemma AnswerKey(qs: seq<QuizQuestion>, a: int)
    requires Increasing(qs)
    ensures UniqueIds(OfArticle(qs, a))
    ensures forall id :: id in CorrectAnswers(OfArticle(qs, a)) <==> HasQuestion(qs, a, id)
    ensures forall q :: q in qs && q.articleId == a ==>
      q.id in CorrectAnswers(OfArticle(qs, a)) && CorrectAnswers(OfArticle(qs, a))[q.id] == q.correctAnswer
  {
    var rows := OfArticle(qs, a);
    OfArticleIncreasing(qs, a);
    IncreasingIsUnique(rows);
    OfArticleMembers(qs, a);
    var m := CorrectAnswers(rows);
    forall id | id in m ensures HasQuestion(qs, a, id) {
      var q :| q in rows && q.id == id;
    }
  }

  /** A question table with increasing ids below `nextId` whose every question belongs to a stored article. */
  ghost predicate Consistent(qs: seq<QuizQuestion>, nextId: int, articles: seq<Article>)
  {
    && Increasing(qs)
    && Below(qs, nextId)
    && forall q :: q in qs ==> FindIn(articles, q.articleId).Some?
  }

  /** Advancing the id counter keeps a consistent table consistent. */
  lemma StillConsistent(qs: seq<QuizQuestion>, nextId: int, laterId: int, articles: seq<Article>)
    requires Consistent(qs, nextId, articles) && nextId <= laterId
    ensures Consistent(qs, laterId, articles)
  {
  }

  /** One iteration of the batch loop: the next upload extends the batch applied so far. */
  lemma BulkStep(snapshot: seq<QuizQuestion>, requests: seq<QuizUploadRequest>, i: nat, firstId: int,
                 before: seq<QuizQuestion>, m: int, after: seq<QuizQuestion>, next: int)
    requires i < |requests|
    requires before == ApplyUploads(snapshot, requests[..i], firstId) && m == firstId + TotalQuestions(requests[..i])
    requires after == Replace(before, requests[i].articleId, requests[i].questions, m)
    requires next == m + |requests[i].questions|
    ensures after == ApplyUploads(snapshot, requests[..i + 1], firstId)
    ensures next == firstId + TotalQuestions(requests[..i + 1])
  {
    ApplyUploadsPrefix(snapshot, requests, i, firstId);
    assert UploadedFrom(ApplyUploads(snapshot, requests[..i + 1], firstId), before, requests[i], m);
  }

  /** Each of the first `i` requests names a stored article. */
  ghost predicate AllFound(articles: seq<Article>, requests: seq<QuizUploadRequest>, i: int)
    requires 0 <= i <= |requests|
  {
    forall k :: 0 <= k < i ==> FindIn(articles, requests[k].articleId).Some?
  }

  lemma FoundStep(articles: seq<Article>, requests: seq<QuizUploadRequest>, i: int)
    requires 0 <= i < |requests| && AllFound(articles, requests, i)
    requires FindIn(articles, requests[i].articleId).Some?
    ensures AllFound(articles, requests, i + 1)
  {
  }

  class QuizService {
    const questionRepository: QuizQuestionRepository
    const articleRepository: ArticleRepository

    /** Both tables are well formed and every question belongs to a stored article. */
    ghost predicate Valid()
      reads questionRepository, articleRepository
    {
      && articleRepository.Valid()
      && Consistent(questionRepository.questions, questionRepository.nextId, articleRepository.articles)
    }

    /** The service starts over well-formed tables whose questions all belong to stored articles. */
    constructor (questionRepository: QuizQuestionRepository, articleRepository: ArticleRepository)
      requires articleRepository.Valid()
      requires Consistent(questionRepository.questions, questionRepository.nextId, articleRepository.articles)
      ensures this.questionRepository == questionRepository && this.articleRepository == articleRepository
      ensures Valid()
    {
      this.questionRepository := questionRepository;
      this.articleRepository := articleRepository;
    }

    /**
     * uploadQuiz: the article must exist; its stored questions are deleted, then the
     * uploaded ones are saved under fresh ids.
     */
    method UploadQuiz(request: QuizUploadRequest) returns (r: Outcome)
      requires Valid()
      modifies questionRepository
      ensures Valid()
      ensures FindIn(articleRepository.articles, request.articleId).None? ==>
        r == Fail(NOT_FOUND_EXCEPTION) && unchanged(questionRepository)
      ensures FindIn(articleRepository.articles, request.articleId).Some? ==>
        && r == Pass
        && questionRepository.questions
           == Replace(old(questionRepository.questions), request.articleId, request.questions, old(questionRepository.nextId))
        && questionRepository.nextId == old(questionRepository.nextId) + |request.questions|
      ensures FindIn(articleRepository.articles, request.articleId).Some? ==>
        && Contents(questionRepository.FindByArticleId(request.articleId)) == request.questions
        && (forall q :: q in questionRepository.FindByArticleId(request.articleId) ==> q !in old(questionRepository.questions))
        && forall b :: b != request.articleId ==>
             questionRepository.FindByArticleId(b) == old(questionRepository.FindByArticleId(b))
    {
      var article := articleRepository.FindById(request.articleId);
      if article.None? {
        return Fail(NOT_FOUND_EXCEPTION);
      }
      var a := article.value.id;
      ghost var qs := questionRepository.questions;
      ghost var firstId := questionRepository.nextId;
      ghost var kept := Without(qs, IdsOf(OfArticle(qs, a)));
      var existingQuestions := questionRepository.FindByArticleId(a);
      if existingQuestions != [] {
        questionRepository.DeleteAll(existingQuestions);
      } else {
        assert IdsOf(existingQuestions) == {};
        WithoutNone(qs);
      }
      assert questionRepository.questions == kept;
      var saved := questionRepository.SaveAll(a, request.questions);
      assert questionRepository.questions == Replace(qs, a, request.questions, firstId);
      ReplaceSpec(qs, a, request.questions, firstId);
      ReplaceMembers(qs, a, request.questions, firstId);
      forall b | b != a
        ensures OfArticle(Replace(qs, a, request.questions, firstId), b) == OfArticle(qs, b)
      {
        ReplaceKeepsOthers(qs, a, request.questions, firstId, b);
      }
      r := Pass;
    }

    /**
     * bulkUploadQuiz: the uploads run one after another in list order inside one
     * transaction, so a missing article rolls the question table back to where it started.
     */
    method BulkUploadQuiz(requests: seq<QuizUploadRequest>) returns (r: Outcome)
      requires Valid()
      modifies questionRepository
      ensures Valid()
      ensures r == Pass <==> forall k :: 0 <= k < |requests| ==> FindIn(articleRepository.articles, requests[k].articleId).Some?
      ensures r != Pass ==>
        r == Fail(NOT_FOUND_EXCEPTION) && questionRepository.questions == old(questionRepository.questions)
      ensures r == Pass ==>
        && questionRepository.questions
           == ApplyUploads(old(questionRepository.questions), requests, old(questionRepository.nextId))
        && questionRepository.nextId == old(questionRepository.nextId) + TotalQuestions(requests)
      ensures r == Pass ==> forall a :: LatestUpload(requests, a).Some? ==>
        Contents(questionRepository.FindByArticleId(a)) == LatestUpload(requests, a).value
      ensures r == Pass ==> forall a :: LatestUpload(requests, a).None? ==>
        questionRepository.FindByArticleId(a) == old(questionRepository.FindByArticleId(a))
    {
      var snapshot := questionRepository.questions;
      ghost var firstId := questionRepository.nextId;
      ghost var articles := articleRepository.articles;
      var i := 0;
      while i < |requests|
        invariant 0 <= i <= |requests|
        invariant Valid()
        invariant articleRepository.articles == articles
        invariant Consistent(snapshot, firstId, articles)
        invariant questionRepository.questions == ApplyUploads(snapshot, requests[..i], firstId)
        invariant questionRepository.nextId == firstId + TotalQuestions(requests[..i])
        invariant AllFound(articles, requests, i)
      {
        ghost var before := questionRepository.questions;
        ghost var m := questionRepository.nextId;
        var step := UploadQuiz(requests[i]);
        if step != Pass {
          questionRepository.questions := snapshot;
          StillConsistent(snapshot, firstId, questionRepository.nextId, articles);
          return step;
        }
        FoundStep(articles, requests, i);
        BulkStep(snapshot, requests, i, firstId, before, m, questionRepository.questions, questionRepository.nextId);
        i := i + 1;
      }
      assert requests[..i] == requests;
      forall a | LatestUpload(requests, a).Some?
        ensures Contents(OfArticle(questionRepository.questions, a)) == LatestUpload(requests, a).value
      {
        LastUploadWins(snapshot, requests, firstId, a);
      }
      forall a | LatestUpload(requests, a).None?
        ensures OfArticle(questionRepository.questions, a) == OfArticle(snapshot, a)
      {
        UnnamedArticleKept(snapshot, requests, firstId, a);
      }
      r := Pass;
    }

    /** getQuizByArticleId: the article's questions as (id, text), or NOT_FOUND when it has none. */
    function GetQuizByArticleId(articleId: int): (r: Result<QuizResponseDto>)
      reads questionRepository
      ensures r.Err? <==> forall q :: q in questionRepository.questions ==> q.articleId != articleId
      ensures r.Err? ==> r.error == NOT_FOUND_EXCEPTION
      ensures r.Ok? ==> r.value.articleId == articleId
      ensures r.Ok? ==> forall d :: d in r.value.questions <==>
        exists q :: q in questionRepository.questions && q.articleId == articleId && d == QuizQuestionDto(q.id, q.question)
      ensures r.Ok? ==> var rows := questionRepository.FindByArticleId(articleId);
        |r.value.questions| == |rows|
        && forall k :: 0 <= k < |rows| ==> r.value.questions[k] == QuizQuestionDto(rows[k].id, rows[k].question)
    {
      var rows := questionRepository.FindByArticleId(articleId);
      OfArticleMembers(questionRepository.questions, articleId);
      if rows == [] then Err(NOT_FOUND_EXCEPTION)
      else
        assert rows[0] in rows;
        var dtos := seq(|rows|, k requires 0 <= k < |rows| => QuizQuestionDto(rows[k].id, rows[k].question));
        assert forall q :: q in rows ==> QuizQuestionDto(q.id, q.question) in dtos by {
          forall q | q in rows ensures QuizQuestionDto(q.id, q.question) in dtos {
            var k :| 0 <= k < |rows| && rows[k] == q;
            assert dtos[k] == QuizQuestionDto(q.id, q.question);
          }
        }
        Ok(QuizResponseDto(articleId, dtos))
    }

    /** getQuizAnswers: the article's questions as (id, stored correct answer), or NOT_FOUND when it has none. */
    function GetQuizAnswers(articleId: int): (r: Result<QuizGradingResponse>)
      reads questionRepository
      ensures r.Err? <==> forall q :: q in questionRepository.questions ==> q.articleId != articleId
      ensures r.Err? ==> r.error == NOT_FOUND_EXCEPTION
      ensures r.Ok? ==> r.value.articleId == articleId
      ensures r.Ok? ==> forall d :: d in r.value.results <==>
        exists q :: q in questionRepository.questions && q.articleId == articleId && d == QuizResultDto(q.id, q.correctAnswer)
      ensures r.Ok? ==> var rows := questionRepository.FindByArticleId(articleId);
        |r.value.results| == |rows|
        && forall k :: 0 <= k < |rows| ==> r.value.results[k] == QuizResultDto(rows[k].id, rows[k].correctAnswer)
    {
      var rows := questionRepository.FindByArticleId(articleId);
      OfArticleMembers(questionRepository.questions, articleId);
      if rows == [] then Err(NOT_FOUND_EXCEPTION)
      else
        assert rows[0] in rows;
        var results := seq(|rows|, k requires 0 <= k < |rows| => QuizResultDto(rows[k].id, rows[k].correctAnswer));
        assert forall q :: q in rows ==> QuizResultDto(q.id, q.correctAnswer) in results by {
          forall q | q in rows ensures QuizResultDto(q.id, q.correctAnswer) in results {
            var k :| 0 <= k < |rows| && rows[k] == q;
            assert results[k] == QuizResultDto(q.id, q.correctAnswer);
          }
        }
        Ok(QuizGradingResponse(articleId, results))
    }

    /**
     * gradeQuiz: NOT_FOUND when the article has no questions; BAD_REQUEST when any submitted
     * id is not one of its questions; otherwise one result per submission, in order.
     */
    function GradeQuiz(request: QuizGradingRequest): (r: Result<QuizGradingResponse>)
      reads questionRepository
      requires questionRepository.Valid()
      ensures (forall q :: q in questionRepository.questions ==> q.articleId != request.articleId) ==>
        r == Err(NOT_FOUND_EXCEPTION)
      ensures (exists q :: q in questionRepository.questions && q.articleId == request.articleId) ==>
        && (r.Err? <==>
              exists k :: 0 <= k < |request.answers|
                && !HasQuestion(questionRepository.questions, request.articleId, request.answers[k].id))
        && (r.Err? ==> r.error == BAD_REQUEST_EXCEPTION)
      ensures r.Ok? ==> r.value.articleId == request.articleId && |r.value.results| == |request.answers|
      ensures r.Ok? ==> forall k :: 0 <= k < |request.answers| ==> r.value.results[k].id == request.answers[k].id
      ensures r.Ok? ==> forall k, q ::
        (0 <= k < |request.answers| && q in questionRepository.questions
         && q.articleId == request.articleId && q.id == request.answers[k].id) ==>
          (r.value.results[k].correctAnswer <==> q.correctAnswer == request.answers[k].answer)
    {
      var qs := questionRepository.questions;
      var rows := questionRepository.FindByArticleId(request.articleId);
      OfArticleMembers(qs, request.articleId);
      if rows == [] then Err(NOT_FOUND_EXCEPTION)
      else
        assert rows[0] in rows;
        AnswerKey(qs, request.articleId);
        var correctAnswers := CorrectAnswers(rows);
        match GradeAll(request.answers, correctAnswers)
        case Err(e) => Err(e)
        case Ok(results) => Ok(QuizGradingResponse(request.articleId, results))
    }
  }
}
