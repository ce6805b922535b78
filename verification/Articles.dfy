/**
 * The article table and ArticleService: a batch upload that skips articles whose
 * external identifier is already stored, and a listing that copies every row into a DTO.
 */
module Articles {
  import opened ErrorCodes

  /** A stored article: `id` is the store's surrogate key, `articleId` the unique external identifier. */
  datatype Article = Article(
    id: int,
    articleId: string,
    categoryId: string,
    imageUrl: string,
    title: string,
    description: string,
    source: string,
    date: string)

  /** The seven fields a client sends for one article. */
  datatype ArticleUploadRequest = ArticleUploadRequest(
    articleId: string,
    categoryId: string,
    imageUrl: string,
    title: string,
    description: string,
    source: string,
    date: string)

  /** The listing projection of an article (all eight fields). */
  datatype ArticleDto = ArticleDto(
    id: int,
    articleId: string,
    categoryId: string,
    imageUrl: string,
    title: string,
    description: string,
    source: string,
    date: string)

  /** The external identifiers present in a sequence of articles. */
  function ExternalIds(articles: seq<Article>): set<string>
  {
    set a | a in articles :: a.articleId
  }

  /** The external identifiers named by a sequence of requests. */
  function RequestedIds(requests: seq<ArticleUploadRequest>): set<string>
  {
    set r | r in requests :: r.articleId
  }

  /** The surrogate key of row `i`. */
  function KeyAt(articles: seq<Article>, i: int): int
    requires 0 <= i < |articles|
  {
    articles[i].id
  }

  /** Surrogate keys strictly increase along the table, so they are unique. */
  ghost predicate IncreasingIds(articles: seq<Article>)
  {
    forall i, j :: 0 <= i < j < |articles| ==> KeyAt(articles, i) < KeyAt(articles, j)
  }

  /** Appending a row whose key exceeds every stored key keeps keys increasing. */
  lemma AppendIncreasingIds(articles: seq<Article>, row: Article)
    requires IncreasingIds(articles)
    requires forall a :: a in articles ==> a.id < row.id
    ensures IncreasingIds(articles + [row])
  {
    var s := articles + [row];
    forall i, j | 0 <= i < j < |s| ensures KeyAt(s, i) < KeyAt(s, j) {
      if j < |articles| {
        assert KeyAt(s, i) == KeyAt(articles, i) && KeyAt(s, j) == KeyAt(articles, j);
      } else {
        assert s[i] == articles[i] && articles[i] in articles;
      }
    }
  }

  /** No two stored articles share an external identifier (the column is unique). */
  ghost predicate UniqueExternalIds(articles: seq<Article>)
  {
    forall i, j :: 0 <= i < j < |articles| ==> articles[i].articleId != articles[j].articleId
  }

  /** The row that saving `request` creates when the store hands out key `id`. */
  function ToArticle(request: ArticleUploadRequest, id: int): Article
  {
    Article(id, request.articleId, request.categoryId, request.imageUrl,
            request.title, request.description, request.source, request.date)
  }

  /** The rows that saving `requests` one after another creates, keys counting up from `firstId`. */
  function Materialize(requests: seq<ArticleUploadRequest>, firstId: int): (rows: seq<Article>)
    ensures |rows| == |requests|
  {
    if requests == [] then []
    else
      var n := |requests| - 1;
      Materialize(requests[..n], firstId) + [ToArticle(requests[n], firstId + n)]
  }

  /** Row `k` of a saved batch is request `k` under key `firstId + k`. */
  lemma {:induction false} MaterializeRows(requests: seq<ArticleUploadRequest>, firstId: int)
    ensures forall k :: 0 <= k < |requests| ==> Materialize(requests, firstId)[k] == ToArticle(requests[k], firstId + k)
  {
    if requests != [] {
      var n := |requests| - 1;
      MaterializeRows(requests[..n], firstId);
    }
  }

  /**
   * The requests of a batch that uploadArticles saves, in request order, when the store
   * already holds the external ids `existing`: a request is skipped when its id is stored,
   * either before the batch or by an earlier request of the same batch.
   */
  function Accepted(existing: set<string>, requests: seq<ArticleUploadRequest>): seq<ArticleUploadRequest>
  {
    if requests == [] then []
    else
      var n := |requests| - 1;
      var earlier := Accepted(existing, requests[..n]);
      if requests[n].articleId in existing || requests[n].articleId in RequestedIds(earlier) then earlier
      else earlier + [requests[n]]
  }

  /** The identifiers uploadArticles reports for the saved requests, in order. */
  function SavedIds(accepted: seq<ArticleUploadRequest>): (ids: seq<string>)
    ensures |ids| == |accepted|
    ensures forall k :: 0 <= k < |ids| ==> ids[k] == accepted[k].articleId
  {
    if accepted == [] then []
    else SavedIds(accepted[..|accepted| - 1]) + [accepted[|accepted| - 1].articleId]
  }

  /** Unfolds Accepted at its last request. */
  lemma AcceptedLast(existing: set<string>, requests: seq<ArticleUploadRequest>)
    requires requests != []
    ensures var n := |requests| - 1;
      var earlier := Accepted(existing, requests[..n]);
      Accepted(existing, requests)
      == if requests[n].articleId in existing || requests[n].articleId in RequestedIds(earlier) then earlier
         else earlier + [requests[n]]
  {
  }

  /**
   * What a batch saves: only requests of the batch; none whose id was already stored;
   * no id twice; and every id of the batch that was not stored.
   */
  ghost predicate AcceptedFacts(existing: set<string>, requests: seq<ArticleUploadRequest>, acc: seq<ArticleUploadRequest>)
  {
    && |acc| <= |requests|
    && (forall r :: r in acc ==> r in requests && r.articleId !in existing)
    && (forall i, j :: 0 <= i < j < |acc| ==> acc[i].articleId != acc[j].articleId)
    && RequestedIds(acc) == RequestedIds(requests) - existing
  }

  /** One more request keeps the facts, whether it is skipped or saved. */
  lemma AcceptedFactsStep(existing: set<string>, init: seq<ArticleUploadRequest>, r: ArticleUploadRequest,
                          earlier: seq<ArticleUploadRequest>, acc: seq<ArticleUploadRequest>)
    requires AcceptedFacts(existing, init, earlier)
    requires acc == if r.articleId in existing || r.articleId in RequestedIds(earlier) then earlier else earlier + [r]
    ensures AcceptedFacts(existing, init + [r], acc)
  {
    var requests := init + [r];
    assert RequestedIds(requests) == RequestedIds(init) + {r.articleId};
    assert forall q :: q in init ==> q in requests;
    if acc != earlier {
      assert RequestedIds(acc) == RequestedIds(earlier) + {r.articleId};
      forall i, j | 0 <= i < j < |acc| ensures acc[i].articleId != acc[j].articleId {
        if j == |earlier| {
          assert acc[i] == earlier[i] && earlier[i] in earlier;
        } else {
          assert acc[i] == earlier[i] && acc[j] == earlier[j];
        }
      }
    }
  }

  lemma {:induction false} AcceptedFactsHold(existing: set<string>, requests: seq<ArticleUploadRequest>)
    ensures AcceptedFacts(existing, requests, Accepted(existing, requests))
  {
    if requests != [] {
      var n := |requests| - 1;
      var init := requests[..n];
      AcceptedFactsHold(existing, init);
      AcceptedLast(existing, requests);
      assert requests == init + [requests[n]];
      AcceptedFactsStep(existing, init, requests[n], Accepted(existing, init), Accepted(existing, requests));
    }
  }

  /** What the batch saves, stated outright. */
  lemma AcceptedSpec(existing: set<string>, requests: seq<ArticleUploadRequest>)
    ensures var acc := Accepted(existing, requests);
      && |acc| <= |requests|
      && (forall r :: r in acc ==> r in requests && r.articleId !in existing)
      && (forall i, j :: 0 <= i < j < |acc| ==> acc[i].articleId != acc[j].articleId)
      && RequestedIds(acc) == RequestedIds(requests) - existing
  {
    AcceptedFactsHold(existing, requests);
  }

  /** The index of the first request of the batch that carries `id`, or the batch's length when none does. */
  function FirstIndex(requests: seq<ArticleUploadRequest>, id: string): (i: nat)
    ensures i <= |requests|
  {
    if requests == [] then 0
    else
      var n := |requests| - 1;
      var i := FirstIndex(requests[..n], id);
      if i < n then i else if requests[n].articleId == id then n else |requests|
  }

  /** FirstIndex finds the first request carrying the id, and only misses when no request carries it. */
  lemma {:induction false} FirstIndexSpec(requests: seq<ArticleUploadRequest>, id: string)
    ensures var i := FirstIndex(requests, id);
      && (forall j :: 0 <= j < i ==> requests[j].articleId != id)
      && (i < |requests| ==> requests[i].articleId == id)
  {
    if requests != [] {
      var n := |requests| - 1;
      FirstIndexSpec(requests[..n], id);
      assert forall j :: 0 <= j < n ==> requests[j] == requests[..n][j];
    }
  }

  /**
   * Each saved request is the first request of the batch that carries its external id:
   * a later duplicate is never saved in its place.
   */
  lemma {:induction false} AcceptedFirstOccurrence(existing: set<string>, requests: seq<ArticleUploadRequest>)
    ensures var acc := Accepted(existing, requests);
      forall k :: 0 <= k < |acc| ==>
        FirstIndex(requests, acc[k].articleId) < |requests| && requests[FirstIndex(requests, acc[k].articleId)] == acc[k]
  {
    if requests != [] {
      var n := |requests| - 1;
      var init := requests[..n];
      AcceptedFirstOccurrence(existing, init);
      AcceptedLast(existing, requests);
      var earlier := Accepted(existing, init);
      var acc := Accepted(existing, requests);
      forall k | 0 <= k < |acc|
        ensures FirstIndex(requests, acc[k].articleId) < |requests| && requests[FirstIndex(requests, acc[k].articleId)] == acc[k]
      {
        if k < |earlier| {
          assert acc[k] == earlier[k];
          assert requests[FirstIndex(init, earlier[k].articleId)] == init[FirstIndex(init, earlier[k].articleId)];
        } else {
          assert acc[k] == requests[n];
          NewIdIsFirst(existing, requests);
        }
      }
    }
  }

  /** A request accepted at the end of the batch is the first that carries its id. */
  lemma NewIdIsFirst(existing: set<string>, requests: seq<ArticleUploadRequest>)
    requires requests != []
    requires var n := |requests| - 1;
      requests[n].articleId !in RequestedIds(Accepted(existing, requests[..n])) && requests[n].articleId !in existing
    ensures FirstIndex(requests, requests[|requests| - 1].articleId) == |requests| - 1
  {
    var n := |requests| - 1;
    var init := requests[..n];
    var id := requests[n].articleId;
    AcceptedSpec(existing, init);
    FirstIndexSpec(init, id);
  }

  lemma AppendOne(requests: seq<ArticleUploadRequest>, request: ArticleUploadRequest, firstId: int)
    ensures Materialize(requests + [request], firstId)
         == Materialize(requests, firstId) + [ToArticle(request, firstId + |requests|)]
    ensures SavedIds(requests + [request]) == SavedIds(requests) + [request.articleId]
  {
    assert (requests + [request])[..|requests|] == requests;
  }

  /** One iteration of the upload loop: request `i` is saved exactly when its id is not in the table yet. */
  lemma UploadStep(stored: seq<Article>, requests: seq<ArticleUploadRequest>, i: nat, firstId: int)
    requires i < |requests|
    ensures var existing := ExternalIds(stored);
      var earlier := Accepted(existing, requests[..i]);
      Accepted(existing, requests[..i + 1])
      == if requests[i].articleId in ExternalIds(stored + Materialize(earlier, firstId)) then earlier
         else earlier + [requests[i]]
  {
    var existing := ExternalIds(stored);
    var prefix := requests[..i + 1];
    assert prefix[..i] == requests[..i] && prefix[i] == requests[i];
    AcceptedLast(existing, prefix);
    ExternalIdsAppend(stored, Accepted(existing, requests[..i]), firstId);
  }

  /** Saving one more accepted request appends its row, under the next key, and its id. */
  lemma SaveStep(stored: seq<Article>, added: seq<Article>, accepted: seq<ArticleUploadRequest>,
                 request: ArticleUploadRequest, saved: Article, firstId: int)
    requires added == Materialize(accepted, firstId) && saved == ToArticle(request, firstId + |accepted|)
    ensures added + [saved] == Materialize(accepted + [request], firstId)
    ensures (stored + added) + [saved] == stored + (added + [saved])
    ensures SavedIds(accepted + [request]) == SavedIds(accepted) + [request.articleId]
  {
    AppendOne(accepted, request, firstId);
  }

  /**
   * The state of the upload loop after its first `i` requests: the accepted requests so far,
   * the rows they added under keys from `firstId`, the ids reported, and the table and counter.
   */
  ghost predicate UploadProgress(stored: seq<Article>, firstId: int, requests: seq<ArticleUploadRequest>, i: int,
                                 accepted: seq<ArticleUploadRequest>, ids: seq<string>, articles: seq<Article>, nextId: int)
  {
    && 0 <= i <= |requests|
    && accepted == Accepted(ExternalIds(stored), requests[..i])
    && ids == SavedIds(accepted)
    && articles == stored + Materialize(accepted, firstId)
    && nextId == firstId + |accepted|
  }

  /** A request whose id the table already holds is skipped. */
  lemma SkipStep(stored: seq<Article>, firstId: int, requests: seq<ArticleUploadRequest>, i: int,
                 accepted: seq<ArticleUploadRequest>, ids: seq<string>, articles: seq<Article>, nextId: int)
    requires UploadProgress(stored, firstId, requests, i, accepted, ids, articles, nextId) && i < |requests|
    requires requests[i].articleId in ExternalIds(articles)
    ensures UploadProgress(stored, firstId, requests, i + 1, accepted, ids, articles, nextId)
  {
    UploadStep(stored, requests, i, firstId);
  }

  /** A request whose id the table lacks is saved under the next key and reported. */
  lemma SaveStepProgress(stored: seq<Article>, firstId: int, requests: seq<ArticleUploadRequest>, i: int,
                         accepted: seq<ArticleUploadRequest>, ids: seq<string>, articles: seq<Article>, nextId: int,
                         saved: Article)
    requires UploadProgress(stored, firstId, requests, i, accepted, ids, articles, nextId) && i < |requests|
    requires requests[i].articleId !in ExternalIds(articles)
    requires saved == ToArticle(requests[i], nextId)
    ensures UploadProgress(stored, firstId, requests, i + 1, accepted + [requests[i]], ids + [saved.articleId],
                           articles + [saved], nextId + 1)
  {
    UploadStep(stored, requests, i, firstId);
    SaveStep(stored, Materialize(accepted, firstId), accepted, requests[i], saved, firstId);
  }

  /** Saving the accepted requests keeps external identifiers unique in the table. */
  lemma UploadKeepsExternalIdsUnique(stored: seq<Article>, requests: seq<ArticleUploadRequest>, firstId: int)
    requires UniqueExternalIds(stored)
    ensures UniqueExternalIds(stored + Materialize(Accepted(ExternalIds(stored), requests), firstId))
  {
    var acc := Accepted(ExternalIds(stored), requests);
    AcceptedSpec(ExternalIds(stored), requests);
    var rows := stored + Materialize(acc, firstId);
    MaterializeRows(acc, firstId);
    forall i, j | 0 <= i < j < |rows| ensures rows[i].articleId != rows[j].articleId {
      if j >= |stored| {
        assert rows[j].articleId == acc[j - |stored|].articleId;
        if i < |stored| {
          assert stored[i] in stored;
          assert acc[j - |stored|] in acc;
        }
      }
    }
  }

  /** Saving rows adds exactly their external identifiers to those of the table. */
  lemma ExternalIdsAppend(stored: seq<Article>, requests: seq<ArticleUploadRequest>, firstId: int)
    ensures ExternalIds(stored + Materialize(requests, firstId)) == ExternalIds(stored) + RequestedIds(requests)
  {
    var rows := Materialize(requests, firstId);
    MaterializeRows(requests, firstId);
    forall x | x in RequestedIds(requests) ensures x in ExternalIds(stored + rows) {
      var r :| r in requests && r.articleId == x;
      var k :| 0 <= k < |requests| && requests[k] == r;
      assert (stored + rows)[|stored| + k] == rows[k];
    }
    forall x | x in ExternalIds(stored + rows) ensures x in ExternalIds(stored) + RequestedIds(requests) {
      var a :| a in stored + rows && a.articleId == x;
      var k :| 0 <= k < |stored + rows| && (stored + rows)[k] == a;
      if k >= |stored| {
        assert requests[k - |stored|] in requests;
      } else {
        assert stored[k] in stored;
      }
    }
  }

  /** The article table, with surrogate keys handed out by the store. */
  class ArticleRepository {
    var articles: seq<Article>
    var nextId: int

    ghost predicate Valid()
      reads this
    {
      IncreasingIds(articles) && forall a :: a in articles ==> a.id < nextId
    }

    constructor ()
      ensures Valid() && articles == [] && nextId == 1
    {
      articles, nextId := [], 1;
    }

    /** existsByArticleId. */
    predicate ExistsByArticleId(articleId: string)
      reads this
    {
      articleId in ExternalIds(articles)
    }

    /** findById: the row with that surrogate key, if any. */
    function FindById(id: int): (r: Option<Article>)
      reads this
      ensures r.None? ==> forall a :: a in articles ==> a.id != id
      ensures r.Some? ==> r.value in articles && r.value.id == id
    {
      FindInSpec(articles, id);
      FindIn(articles, id)
    }

    /** save of a new entity: the store assigns the next key and appends the row. */
    method Save(request: ArticleUploadRequest) returns (saved: Article)
      requires Valid()
      modifies this
      ensures Valid()
      ensures saved == ToArticle(request, old(nextId))
      ensures articles == old(articles) + [saved] && nextId == old(nextId) + 1
    {
      saved := ToArticle(request, nextId);
      AppendIncreasingIds(articles, saved);
      articles := articles + [saved];
      nextId := nextId + 1;
    }
  }

  /** The first row of `articles` whose surrogate key is `id`. */
  function FindIn(articles: seq<Article>, id: int): Option<Article>
  {
    if articles == [] then None
    else if articles[0].id == id then Some(articles[0])
    else FindIn(articles[1..], id)
  }

  /** The lookup finds a row exactly when one carries the key, and what it finds carries it. */
  lemma {:induction false} FindInSpec(articles: seq<Article>, id: int)
    ensures FindIn(articles, id).None? <==> forall a :: a in articles ==> a.id != id
    ensures FindIn(articles, id).Some? ==> FindIn(articles, id).value in articles && FindIn(articles, id).value.id == id
  {
    if articles != [] && articles[0].id != id {
      FindInSpec(articles[1..], id);
      assert articles == [articles[0]] + articles[1..];
    }
  }

  /** The listing DTO of a stored article. */
  function ToDto(a: Article): ArticleDto
  {
    ArticleDto(a.id, a.articleId, a.categoryId, a.imageUrl, a.title, a.description, a.source, a.date)
  }

  class ArticleService {
    const repository: ArticleRepository

    constructor (repository: ArticleRepository)
      ensures this.repository == repository
    {
      this.repository := repository;
    }

    /**
     * uploadArticles: saves each request whose external id is not stored yet, in order,
     * and returns the external ids it saved.
     */
    method UploadArticles(requests: seq<ArticleUploadRequest>) returns (savedArticleIds: seq<string>)
      requires repository.Valid()
      modifies repository
      ensures repository.Valid()
      ensures var accepted := Accepted(ExternalIds(old(repository.articles)), requests);
        && savedArticleIds == SavedIds(accepted)
        && repository.articles == old(repository.articles) + Materialize(accepted, old(repository.nextId))
        && repository.nextId == old(repository.nextId) + |accepted|
      ensures |savedArticleIds| == |repository.articles| - |old(repository.articles)|
      ensures UniqueExternalIds(old(repository.articles)) ==> UniqueExternalIds(repository.articles)
    {
      ghost var stored := repository.articles;
      ghost var firstId := repository.nextId;
      ghost var accepted: seq<ArticleUploadRequest> := [];
      savedArticleIds := [];
      var i := 0;
      assert requests[..0] == [];
      while i < |requests|
        invariant repository.Valid()
        invariant UploadProgress(stored, firstId, requests, i, accepted, savedArticleIds,
                                 repository.articles, repository.nextId)
      {
        var request := requests[i];
        if repository.ExistsByArticleId(request.articleId) {
          SkipStep(stored, firstId, requests, i, accepted, savedArticleIds, repository.articles, repository.nextId);
          i := i + 1;
          continue;
        }
        ghost var before := repository.articles;
        ghost var m := repository.nextId;
        var saved := repository.Save(request);
        SaveStepProgress(stored, firstId, requests, i, accepted, savedArticleIds, before, m, saved);
        savedArticleIds := savedArticleIds + [saved.articleId];
        accepted := accepted + [request];
        i := i + 1;
      }
      assert requests[..i] == requests;
      if UniqueExternalIds(stored) {
        UploadKeepsExternalIdsUnique(stored, requests, firstId);
      }
    }

    /** getAllArticles: one DTO per stored article, in table order, all fields copied. */
    method GetAllArticles() returns (dtos: seq<ArticleDto>)
      ensures |dtos| == |repository.articles|
      ensures forall k :: 0 <= k < |dtos| ==>
        var a := repository.articles[k];
        dtos[k] == ArticleDto(a.id, a.articleId, a.categoryId, a.imageUrl, a.title, a.description, a.source, a.date)
    {
      var articles := repository.articles;
      dtos := seq(|articles|, k requires 0 <= k < |articles| => ToDto(articles[k]));
    }
  }
}
