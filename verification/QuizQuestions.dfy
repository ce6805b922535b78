/**
 * The quiz-question table (QuizQuestion.java, QuizQuestionRepository.java) and the
 * specification functions that describe what an upload does to it: the article's old
 * questions are deleted by id, then the new ones are appended under fresh ids.
 */
module QuizQuestions {
  import opened ErrorCodes

  /** A stored question; `articleId` is the owning article's surrogate key. */
  datatype QuizQuestion = QuizQuestion(id: int, articleId: int, question: string, correctAnswer: bool)

  /** One uploaded question (QuizQuestionUploadDto): its text and its correct answer. */
  datatype QuizQuestionUpload = QuizQuestionUpload(question: string, correctAnswer: bool)

  /** QuizUploadRequest: the article to attach to and its complete new question list. */
  datatype QuizUploadRequest = QuizUploadRequest(articleId: int, questions: seq<QuizQuestionUpload>)

  /** The id of row `i`. */
  function IdAt(qs: seq<QuizQuestion>, i: int): int
    requires 0 <= i < |qs|
  {
    qs[i].id
  }

  /** Ids strictly increase along the table: the store hands them out in order and never reuses one. */
  ghost predicate Increasing(qs: seq<QuizQuestion>)
  {
    forall i, j :: 0 <= i < j < |qs| ==> IdAt(qs, i) < IdAt(qs, j)
  }

  /** Every id in `qs` was handed out before `nextId`. */
  ghost predicate Below(qs: seq<QuizQuestion>, nextId: int)
  {
    forall q :: q in qs ==> q.id < nextId
  }

  /** No two rows share an id. */
  ghost predicate UniqueIds(qs: seq<QuizQuestion>)
  {
    forall i, j :: 0 <= i < j < |qs| ==> IdAt(qs, i) != IdAt(qs, j)
  }

  function IdsOf(qs: seq<QuizQuestion>): set<int>
  {
    set q | q in qs :: q.id
  }

  /** The two queries the service runs against the table. */
  datatype Criterion =
    | ArticleIs(articleId: int)  // WHERE q.article.id = :articleId
    | IdNotIn(ids: set<int>)     // the rows deleteAll leaves behind

  predicate Keeps(keep: Criterion, q: QuizQuestion)
  {
    match keep
    case ArticleIs(articleId) => q.articleId == articleId
    case IdNotIn(ids) => q.id !in ids
  }

  /** The rows of `qs` that `keep` accepts, in table order. */
  function Filter(qs: seq<QuizQuestion>, keep: Criterion): (rows: seq<QuizQuestion>)
    ensures |rows| <= |qs|
  {
    if |qs| == 0 then []
    else (if Keeps(keep, qs[0]) then [qs[0]] else []) + Filter(qs[1..], keep)
  }

  /** A row survives the filter exactly when it is in the table and `keep` accepts it. */
  lemma {:induction false} FilterMembers(qs: seq<QuizQuestion>, keep: Criterion)
    ensures forall q :: q in Filter(qs, keep) <==> q in qs && Keeps(keep, q)
  {
    if |qs| > 0 {
      FilterMembers(qs[1..], keep);
      assert qs == [qs[0]] + qs[1..];
    }
  }

  /** findByArticleId returns exactly the article's rows. */
  lemma {:induction false} OfArticleMembers(qs: seq<QuizQuestion>, a: int)
    ensures forall q :: q in OfArticle(qs, a) <==> q in qs && q.articleId == a
  {
    if |qs| > 0 {
      OfArticleMembers(qs[1..], a);
      assert qs == [qs[0]] + qs[1..];
    }
  }

  /** deleteAll keeps exactly the rows whose id is not deleted. */
  lemma {:induction false} WithoutMembers(qs: seq<QuizQuestion>, ids: set<int>)
    ensures forall q :: q in Without(qs, ids) <==> q in qs && q.id !in ids
  {
    if |qs| > 0 {
      WithoutMembers(qs[1..], ids);
      assert qs == [qs[0]] + qs[1..];
    }
  }

  /** findByArticleId: the questions owned by one article, in table order. */
  function OfArticle(qs: seq<QuizQuestion>, articleId: int): seq<QuizQuestion>
  {
    Filter(qs, ArticleIs(articleId))
  }

  /** What deleteAll leaves: the rows whose id is not among `ids`. */
  function Without(qs: seq<QuizQuestion>, ids: set<int>): seq<QuizQuestion>
  {
    Filter(qs, IdNotIn(ids))
  }

  /** The rows saveAll creates for `items` under `articleId`, ids counting up from `firstId`. */
  function Numbered(items: seq<QuizQuestionUpload>, articleId: int, firstId: int): (rows: seq<QuizQuestion>)
    ensures |rows| == |items|
    ensures forall k :: 0 <= k < |rows| ==>
      rows[k] == QuizQuestion(firstId + k, articleId, items[k].question, items[k].correctAnswer)
  {
    if |items| == 0 then []
    else [QuizQuestion(firstId, articleId, items[0].question, items[0].correctAnswer)]
         + Numbered(items[1..], articleId, firstId + 1)
  }

  /** The (text, correct answer) pairs of some rows, in order. */
  function Contents(rows: seq<QuizQuestion>): (items: seq<QuizQuestionUpload>)
  {
    seq(|rows|, k requires 0 <= k < |rows| => QuizQuestionUpload(rows[k].question, rows[k].correctAnswer))
  }

  /**
   * The table after uploadQuiz(articleId, items) with the store's next id `firstId`:
   * the article's existing rows deleted by id, then the new rows appended.
   */
  function Replace(qs: seq<QuizQuestion>, articleId: int, items: seq<QuizQuestionUpload>, firstId: int): seq<QuizQuestion>
  {
    Without(qs, IdsOf(OfArticle(qs, articleId))) + Numbered(items, articleId, firstId)
  }

  lemma IncreasingIsUnique(qs: seq<QuizQuestion>)
    requires Increasing(qs)
    ensures UniqueIds(qs)
  {
    forall i, j | 0 <= i < j < |qs| ensures IdAt(qs, i) != IdAt(qs, j) {
    }
  }

  /** Below the first row of a table with increasing ids: every later id exceeds it, and the rest increases too. */
  lemma IncreasingTail(qs: seq<QuizQuestion>)
    requires Increasing(qs) && |qs| > 0
    ensures Increasing(qs[1..])
    ensures forall q :: q in qs[1..] ==> qs[0].id < q.id
  {
    var t := qs[1..];
    forall i, j | 0 <= i < j < |t| ensures IdAt(t, i) < IdAt(t, j) {
      assert IdAt(t, i) == IdAt(qs, i + 1) && IdAt(t, j) == IdAt(qs, j + 1);
    }
    forall q | q in t ensures qs[0].id < q.id {
      var j :| 0 <= j < |t| && t[j] == q;
      assert IdAt(qs, 0) < IdAt(qs, j + 1);
    }
  }

  /** Two rows of a table with unique ids that carry the same id are the same row. */
  lemma SameIdSameRow(qs: seq<QuizQuestion>, q: QuizQuestion, r: QuizQuestion)
    requires UniqueIds(qs) && q in qs && r in qs && q.id == r.id
    ensures q == r
  {
    var i :| 0 <= i < |qs| && qs[i] == q;
    var j :| 0 <= j < |qs| && qs[j] == r;
    assert IdAt(qs, i) == IdAt(qs, j);
  }

  /** Keeping a subsequence of a table keeps ids increasing. */
  lemma {:induction false} FilterIncreasing(qs: seq<QuizQuestion>, keep: Criterion)
    requires Increasing(qs)
    ensures Increasing(Filter(qs, keep))
  {
    if |qs| > 0 {
      var rest := Filter(qs[1..], keep);
      IncreasingTail(qs);
      FilterIncreasing(qs[1..], keep);
      FilterMembers(qs[1..], keep);
      if Keeps(keep, qs[0]) {
        ConsIncreasing(qs[0], rest);
      } else {
        assert Filter(qs, keep) == rest;
      }
    }
  }

  lemma ConsIncreasing(x: QuizQuestion, rest: seq<QuizQuestion>)
    requires Increasing(rest)
    requires forall r :: r in rest ==> x.id < r.id
    ensures Increasing([x] + rest)
  {
    var s := [x] + rest;
    forall i, j | 0 <= i < j < |s| ensures IdAt(s, i) < IdAt(s, j) {
      assert s[j] == rest[j - 1] && rest[j - 1] in rest;
      if i > 0 {
        assert IdAt(s, i) == IdAt(rest, i - 1) && IdAt(s, j) == IdAt(rest, j - 1);
      }
    }
  }

  /** Filtering distributes over concatenation. */
  lemma {:induction false} FilterAppend(s: seq<QuizQuestion>, t: seq<QuizQuestion>, keep: Criterion)
    ensures Filter(s + t, keep) == Filter(s, keep) + Filter(t, keep)
  {
    if |s| > 0 {
      var head := if Keeps(keep, s[0]) then [s[0]] else [];
      assert (s + t)[0] == s[0] && (s + t)[1..] == s[1..] + t;
      assert Filter(s + t, keep) == head + Filter(s[1..] + t, keep);
      assert Filter(s, keep) == head + Filter(s[1..], keep);
      FilterAppend(s[1..], t, keep);
      assert head + (Filter(s[1..], keep) + Filter(t, keep)) == (head + Filter(s[1..], keep)) + Filter(t, keep);
    } else {
      assert s + t == t;
    }
  }

  /**
   * Deletion by id is scoped to one article when the ids deleted are exactly those of that
   * article's rows: every other article keeps its rows, the article keeps none.
   */
  lemma {:induction false} DeleteScoped(qs: seq<QuizQuestion>, ids: set<int>, a: int, b: int)
    requires forall q :: q in qs ==> (q.id in ids <==> q.articleId == a)
    ensures OfArticle(Without(qs, ids), b) == if b == a then [] else OfArticle(qs, b)
  {
    if |qs| > 0 {
      assert forall q :: q in qs[1..] ==> q in qs;
      DeleteScoped(qs[1..], ids, a, b);
      var x := qs[0];
      var w := Without(qs[1..], ids);
      if x.id !in ids {
        assert Without(qs, ids) == [x] + w;
        assert ([x] + w)[0] == x && ([x] + w)[1..] == w;
      } else {
        assert Without(qs, ids) == w;
      }
    }
  }

  /** With unique ids, the ids of an article's rows pick out exactly that article's rows. */
  lemma ArticleIdsSeparate(qs: seq<QuizQuestion>, a: int)
    requires UniqueIds(qs)
    ensures forall q :: q in qs ==> (q.id in IdsOf(OfArticle(qs, a)) <==> q.articleId == a)
  {
    OfArticleMembers(qs, a);
    forall q | q in qs ensures q.id in IdsOf(OfArticle(qs, a)) ==> q.articleId == a {
      if q.id in IdsOf(OfArticle(qs, a)) {
        var r :| r in OfArticle(qs, a) && r.id == q.id;
        SameIdSameRow(qs, q, r);
      }
    }
  }

  /** Fresh rows belong to the article they are saved under and to no other. */
  lemma {:induction false} OfArticleNumbered(items: seq<QuizQuestionUpload>, a: int, firstId: int, b: int)
    ensures OfArticle(Numbered(items, a, firstId), b) == if b == a then Numbered(items, a, firstId) else []
  {
    if |items| > 0 {
      OfArticleNumbered(items[1..], a, firstId + 1, b);
      var rows := Numbered(items, a, firstId);
      assert rows[1..] == Numbered(items[1..], a, firstId + 1);
    }
  }

  lemma ContentsNumbered(items: seq<QuizQuestionUpload>, a: int, firstId: int)
    ensures Contents(Numbered(items, a, firstId)) == items
  {
  }

  lemma {:induction false} NumberedIncreasing(items: seq<QuizQuestionUpload>, a: int, firstId: int)
    ensures Increasing(Numbered(items, a, firstId))
    ensures forall q :: q in Numbered(items, a, firstId) ==> firstId <= q.id < firstId + |items|
  {
    if |items| > 0 {
      var rest := Numbered(items[1..], a, firstId + 1);
      NumberedIncreasing(items[1..], a, firstId + 1);
      ConsIncreasing(QuizQuestion(firstId, a, items[0].question, items[0].correctAnswer), rest);
    }
  }

  lemma {:induction false} AppendIncreasing(s: seq<QuizQuestion>, t: seq<QuizQuestion>, n: int)
    requires Increasing(s) && Increasing(t) && Below(s, n)
    requires forall q :: q in t ==> n <= q.id
    ensures Increasing(s + t)
  {
    if |s| == 0 {
      assert s + t == t;
    } else {
      assert s + t == [s[0]] + (s[1..] + t);
      assert forall q :: q in s[1..] ==> q in s;
      IncreasingTail(s);
      AppendIncreasing(s[1..], t, n);
      assert s[0] in s;
      ConsIncreasing(s[0], s[1..] + t);
    }
  }

  /** An upload keeps the table's ids increasing and below the advanced counter. */
  lemma ReplaceValid(qs: seq<QuizQuestion>, a: int, items: seq<QuizQuestionUpload>, firstId: int)
    requires Increasing(qs) && Below(qs, firstId)
    ensures Increasing(Replace(qs, a, items, firstId))
    ensures Below(Replace(qs, a, items, firstId), firstId + |items|)
  {
    var ids := IdsOf(OfArticle(qs, a));
    FilterIncreasing(qs, IdNotIn(ids));
    WithoutMembers(qs, ids);
    NumberedIncreasing(items, a, firstId);
    AppendIncreasing(Without(qs, ids), Numbered(items, a, firstId), firstId);
  }

  /**
   * What one upload does to the article it names: its questions become exactly the uploaded
   * ones, in order, under fresh ids, none of which the table held before.
   */
  lemma ReplaceSpec(qs: seq<QuizQuestion>, a: int, items: seq<QuizQuestionUpload>, firstId: int)
    requires Increasing(qs) && Below(qs, firstId)
    ensures OfArticle(Replace(qs, a, items, firstId), a) == Numbered(items, a, firstId)
    ensures Contents(OfArticle(Replace(qs, a, items, firstId), a)) == items
    ensures forall q :: q in OfArticle(Replace(qs, a, items, firstId), a) ==> q !in qs
  {
    var ids := IdsOf(OfArticle(qs, a));
    IncreasingIsUnique(qs);
    ArticleIdsSeparate(qs, a);
    FilterAppend(Without(qs, ids), Numbered(items, a, firstId), ArticleIs(a));
    DeleteScoped(qs, ids, a, a);
    OfArticleNumbered(items, a, firstId, a);
    ContentsNumbered(items, a, firstId);
    NumberedIncreasing(items, a, firstId);
  }

  /** Deletion is scoped by article: an upload leaves every other article's questions as they were. */
  lemma ReplaceKeepsOthers(qs: seq<QuizQuestion>, a: int, items: seq<QuizQuestionUpload>, firstId: int, b: int)
    requires Increasing(qs) && b != a
    ensures OfArticle(Replace(qs, a, items, firstId), b) == OfArticle(qs, b)
  {
    var ids := IdsOf(OfArticle(qs, a));
    IncreasingIsUnique(qs);
    ArticleIdsSeparate(qs, a);
    FilterAppend(Without(qs, ids), Numbered(items, a, firstId), ArticleIs(b));
    DeleteScoped(qs, ids, a, b);
    OfArticleNumbered(items, a, firstId, b);
  }

  /** Deleting no ids leaves the table as it is. */
  lemma {:induction false} WithoutNone(qs: seq<QuizQuestion>)
    ensures Without(qs, {}) == qs
  {
    if |qs| > 0 {
      WithoutNone(qs[1..]);
      assert qs == [qs[0]] + qs[1..];
    }
  }

  /** An article's questions, read from a table with increasing ids, have increasing ids too. */
  lemma OfArticleIncreasing(qs: seq<QuizQuestion>, a: int)
    requires Increasing(qs)
    ensures Increasing(OfArticle(qs, a))
  {
    FilterIncreasing(qs, ArticleIs(a));
  }

  /** After an upload every row is an old row or a row of the article uploaded to. */
  lemma ReplaceMembers(qs: seq<QuizQuestion>, a: int, items: seq<QuizQuestionUpload>, firstId: int)
    ensures forall q :: q in Replace(qs, a, items, firstId) ==> q in qs || q.articleId == a
  {
    WithoutMembers(qs, IdsOf(OfArticle(qs, a)));
  }

  /** The number of questions a batch of uploads inserts. */
  function TotalQuestions(requests: seq<QuizUploadRequest>): nat
  {
    if |requests| == 0 then 0
    else TotalQuestions(requests[..|requests| - 1]) + |requests[|requests| - 1].questions|
  }

  /** The table after the uploads of a batch have run one after another, in list order. */
  function ApplyUploads(qs: seq<QuizQuestion>, requests: seq<QuizUploadRequest>, firstId: int): seq<QuizQuestion>
  {
    if |requests| == 0 then qs
    else
      var n := |requests| - 1;
      Replace(ApplyUploads(qs, requests[..n], firstId), requests[n].articleId, requests[n].questions,
              firstId + TotalQuestions(requests[..n]))
  }

  /** The question list of the last request in the batch that names article `a`, if any. */
  function LatestUpload(requests: seq<QuizUploadRequest>, a: int): Option<seq<QuizQuestionUpload>>
  {
    if |requests| == 0 then None
    else if requests[|requests| - 1].articleId == a then Some(requests[|requests| - 1].questions)
    else LatestUpload(requests[..|requests| - 1], a)
  }

  /** `after` is the table one upload of `request` leaves of `before`, its new keys starting at `m`. */
  ghost predicate UploadedFrom(after: seq<QuizQuestion>, before: seq<QuizQuestion>, request: QuizUploadRequest, m: int)
  {
    after == Replace(before, request.articleId, request.questions, m)
  }

  /** The last upload of a batch runs on the table the earlier ones left, with the ids they left. */
  lemma {:induction false} ApplyUploadsLast(qs: seq<QuizQuestion>, requests: seq<QuizUploadRequest>, firstId: int)
    requires |requests| > 0
    ensures var n := |requests| - 1;
      && UploadedFrom(ApplyUploads(qs, requests, firstId), ApplyUploads(qs, requests[..n], firstId), requests[n],
                      firstId + TotalQuestions(requests[..n]))
      && TotalQuestions(requests) == TotalQuestions(requests[..n]) + |requests[n].questions|
  {
  }

  /** The same unfolding, phrased for a loop that has run the first `i` uploads of `requests`. */
  lemma ApplyUploadsPrefix(qs: seq<QuizQuestion>, requests: seq<QuizUploadRequest>, i: nat, firstId: int)
    requires i < |requests|
    ensures UploadedFrom(ApplyUploads(qs, requests[..i + 1], firstId), ApplyUploads(qs, requests[..i], firstId), requests[i],
                         firstId + TotalQuestions(requests[..i]))
    ensures TotalQuestions(requests[..i + 1]) == TotalQuestions(requests[..i]) + |requests[i].questions|
  {
    PrefixOfPrefix(requests, i);
    ApplyUploadsLast(qs, requests[..i + 1], firstId);
  }

  /** Dropping the last element of the first `i + 1` requests leaves the first `i`. */
  lemma PrefixOfPrefix(requests: seq<QuizUploadRequest>, i: nat)
    requires i < |requests|
    ensures requests[..i + 1][..i] == requests[..i] && requests[..i + 1][i] == requests[i]
  {
  }

  /** A table whose ids increase and were all handed out before `nextId`. */
  ghost predicate ValidTable(qs: seq<QuizQuestion>, nextId: int)
  {
    Increasing(qs) && Below(qs, nextId)
  }

  /** One upload applied to a valid table keeps it valid, its new keys starting at `m`. */
  lemma ValidStep(before: seq<QuizQuestion>, request: QuizUploadRequest, m: int, after: seq<QuizQuestion>)
    requires ValidTable(before, m)
    requires UploadedFrom(after, before, request, m)
    ensures ValidTable(after, m + |request.questions|)
  {
    ReplaceValid(before, request.articleId, request.questions, m);
  }

  lemma {:induction false} ApplyUploadsValidTable(qs: seq<QuizQuestion>, requests: seq<QuizUploadRequest>, firstId: int)
    requires ValidTable(qs, firstId)
    ensures ValidTable(ApplyUploads(qs, requests, firstId), firstId + TotalQuestions(requests))
  {
    if |requests| > 0 {
      ApplyUploadsValidTable(qs, requests[..|requests| - 1], firstId);
      ApplyUploadsLast(qs, requests, firstId);
      ValidStep(ApplyUploads(qs, requests[..|requests| - 1], firstId), requests[|requests| - 1],
                firstId + TotalQuestions(requests[..|requests| - 1]), ApplyUploads(qs, requests, firstId));
    }
  }

  /** Uploads keep ids increasing, and every id they hand out is below the next free one. */
  lemma ApplyUploadsValid(qs: seq<QuizQuestion>, requests: seq<QuizUploadRequest>, firstId: int)
    requires Increasing(qs) && Below(qs, firstId)
    ensures Increasing(ApplyUploads(qs, requests, firstId))
    ensures Below(ApplyUploads(qs, requests, firstId), firstId + TotalQuestions(requests))
  {
    ApplyUploadsValidTable(qs, requests, firstId);
  }

  /** The last upload of a batch starts from a valid table, the one the earlier uploads left. */
  ghost predicate LastStep(qs: seq<QuizQuestion>, requests: seq<QuizUploadRequest>, firstId: int)
    requires |requests| > 0
  {
    var earlier := requests[..|requests| - 1];
    && ValidTable(ApplyUploads(qs, earlier, firstId), firstId + TotalQuestions(earlier))
    && UploadedFrom(ApplyUploads(qs, requests, firstId), ApplyUploads(qs, earlier, firstId), requests[|requests| - 1],
                    firstId + TotalQuestions(earlier))
  }

  /** From a valid table, every non-empty batch ends in such a last step. */
  lemma LastStepHolds(qs: seq<QuizQuestion>, requests: seq<QuizUploadRequest>, firstId: int)
    requires ValidTable(qs, firstId) && |requests| > 0
    ensures LastStep(qs, requests, firstId)
  {
    ApplyUploadsLast(qs, requests, firstId);
    ApplyUploadsValidTable(qs, requests[..|requests| - 1], firstId);
  }

  /** The last upload of a batch decides the questions of the article it names. */
  lemma DecidedByLast(qs: seq<QuizQuestion>, requests: seq<QuizUploadRequest>, firstId: int)
    requires Increasing(qs) && Below(qs, firstId) && |requests| > 0
    ensures var last := requests[|requests| - 1];
      Contents(OfArticle(ApplyUploads(qs, requests, firstId), last.articleId)) == last.questions
  {
    LastStepHolds(qs, requests, firstId);
    ReplaceSpec(ApplyUploads(qs, requests[..|requests| - 1], firstId), requests[|requests| - 1].articleId,
                requests[|requests| - 1].questions, firstId + TotalQuestions(requests[..|requests| - 1]));
  }

  /** The last upload of a batch leaves every article it does not name as the earlier uploads left it. */
  lemma KeptByLast(qs: seq<QuizQuestion>, requests: seq<QuizUploadRequest>, firstId: int, a: int)
    requires Increasing(qs) && Below(qs, firstId) && |requests| > 0
    requires requests[|requests| - 1].articleId != a
    ensures OfArticle(ApplyUploads(qs, requests, firstId), a)
         == OfArticle(ApplyUploads(qs, requests[..|requests| - 1], firstId), a)
  {
    LastStepHolds(qs, requests, firstId);
    ReplaceKeepsOthers(ApplyUploads(qs, requests[..|requests| - 1], firstId), requests[|requests| - 1].articleId,
                       requests[|requests| - 1].questions, firstId + TotalQuestions(requests[..|requests| - 1]), a);
  }

  /**
   * Within one batch the last request naming an article decides that article's
   * questions, in the order that request lists them.
   */
  lemma {:induction false} LastUploadWins(qs: seq<QuizQuestion>, requests: seq<QuizUploadRequest>, firstId: int, a: int)
    requires Increasing(qs) && Below(qs, firstId)
    requires LatestUpload(requests, a).Some?
    ensures Contents(OfArticle(ApplyUploads(qs, requests, firstId), a)) == LatestUpload(requests, a).value
  {
    var n := |requests| - 1;
    if requests[n].articleId == a {
      DecidedByLast(qs, requests, firstId);
    } else {
      KeptByLast(qs, requests, firstId, a);
      LastUploadWins(qs, requests[..n], firstId, a);
    }
  }

  /** An article no request of the batch names keeps the questions it had. */
  lemma {:induction false} UnnamedArticleKept(qs: seq<QuizQuestion>, requests: seq<QuizUploadRequest>, firstId: int, a: int)
    requires Increasing(qs) && Below(qs, firstId)
    requires LatestUpload(requests, a).None?
    ensures OfArticle(ApplyUploads(qs, requests, firstId), a) == OfArticle(qs, a)
  {
    if |requests| > 0 {
      KeptByLast(qs, requests, firstId, a);
      UnnamedArticleKept(qs, requests[..|requests| - 1], firstId, a);
    }
  }

  /** The question table, with ids handed out by the store. */
  class QuizQuestionRepository {
    var questions: seq<QuizQuestion>
    var nextId: int

    ghost predicate Valid()
      reads this
    {
      Increasing(questions) && Below(questions, nextId)
    }

    constructor ()
      ensures Valid() && questions == [] && nextId == 1
    {
      questions, nextId := [], 1;
    }

    /** findByArticleId: exactly the article's rows. */
    function FindByArticleId(articleId: int): (r: seq<QuizQuestion>)
      reads this
      ensures forall q :: q in r <==> q in questions && q.articleId == articleId
    {
      OfArticleMembers(questions, articleId);
      OfArticle(questions, articleId)
    }

    /** deleteAll(entities): removes every row whose id is the id of one of `rows`. */
    method DeleteAll(rows: seq<QuizQuestion>)
      requires Valid()
      modifies this
      ensures Valid()
      ensures questions == Without(old(questions), IdsOf(rows)) && nextId == old(nextId)
    {
      FilterIncreasing(questions, IdNotIn(IdsOf(rows)));
      WithoutMembers(questions, IdsOf(rows));
      questions := Without(questions, IdsOf(rows));
    }

    /** saveAll of new entities: appends one row per item under fresh, increasing ids. */
    method SaveAll(articleId: int, items: seq<QuizQuestionUpload>) returns (saved: seq<QuizQuestion>)
      requires Valid()
      modifies this
      ensures Valid()
      ensures saved == Numbered(items, articleId, old(nextId))
      ensures questions == old(questions) + saved && nextId == old(nextId) + |items|
    {
      saved := Numbered(items, articleId, nextId);
      NumberedIncreasing(items, articleId, nextId);
      AppendIncreasing(questions, saved, nextId);
      questions := questions + saved;
      nextId := nextId + |items|;
    }
  }
}
