# Team2-Server core in Dafny

A Dafny model of the core of the news-quiz backend (a Spring Boot service). It covers:

- **Articles** (`Articles.dfy`): uploading a batch of articles. An article whose external id
  (`articleId`) is already stored is skipped. Stored articles are listed as DTOs.
- **Quiz questions** (`QuizQuestions.dfy`): the question table and the two queries on it.
  `findByArticleId` reads the table, and `deleteAll` is followed by `saveAll`. The effect of
  one upload is `Replace`, and the effect of a batch of uploads is `ApplyUploads`.
- **Quiz service** (`Quizzes.dfy`):
  - `uploadQuiz` replaces one article's questions;
  - `bulkUploadQuiz` runs a batch of uploads in one transaction;
  - reading a quiz;
  - reading its answer key;
  - grading a submission.
- **Users** (`Users.dfy`): sign-up with an email uniqueness check, over a user table.
- **Refresh tokens** (`RefreshTokens.dfy`): the refresh-token table.
  - `saveOrUpdateByUserId` either overwrites a stored entity in place or inserts a new one.
  - `deleteAllByUserId` deletes every row of a user.
  - `findByUserId` looks a user's row up.
- **JWT** (`Jwt.dfy`):
  - creating an access/refresh pair;
  - `validateToken`, which accepts access tokens only;
  - `getAuthenticatedUser`, which resolves the `id` claim against the user table.
- **Authentication filter** (`JwtAuthenticationFilter`, in `JwtFilter.dfy`):
  - extracts the bearer token;
  - validates it, then resolves the user and installs them in the security context;
  - hands the request on;
  - lets permitted requests straight through, using `PermitUrls.dfy`.
- **Error table** (`ErrorCodes.dfy`): every `ErrorCode` constant with its HTTP status, code and
  message. It also defines the `Result`/`Outcome` types that stand for "returns or throws
  `AppException(code)`".

### How the model is built

- **Tables** are classes holding a `seq` of rows and the next surrogate key.
  - The store hands keys out in increasing order.
  - Every repository method states the table's new value in terms of a function on sequences.
  - Lemmas about those functions carry what the service promises: replacement scoped to one
    article, last upload wins, one refresh token per user, unique emails, unique external ids.
- **The JWT library** is a pair of functions, `sign` and `parse`. The predicate `Jwt.Sound`
  states what the application relies on:
  - a signed token is non-empty and holds no space;
  - parsing it gives back its claims until its expiry instant, and nothing after.
- **The clock** is a parameter (`now`, `at`) in milliseconds. JWT dates are truncated to whole
  seconds, as a compact JWS stores them.

### Bulk upload is all-or-nothing

`bulkUploadQuiz` is itself `@Transactional` (QuizService.java:39) and calls `uploadQuiz` on
`this` for each request (QuizService.java:40-43). So every upload runs in the one outer
transaction, and the `AppException` that a missing article raises (QuizService.java:51-52)
rolls all of them back.

`Quizzes.QuizService.BulkUploadQuiz` follows this: it either applies every upload or leaves
the question table as it found it.

## Model

Paths are relative to the repository root. Every path below starts with
`src/main/java/com/example/demo/`.

| member | source | states |
|---|---|---|
| ErrorCodes.Status | src/main/java/com/example/demo/common/error/ErrorCode.java:13-41 | every constant is answered with a 4xx status, except the two server errors, which get 500 (iff) |
| ErrorCodes.Code | src/main/java/com/example/demo/common/error/ErrorCode.java:13-41 | every code has the shape `X-nnn` (five characters, dash second) |
| ErrorCodes.FromCode | src/main/java/com/example/demo/common/error/ErrorCode.java:13-41 | reading a code back gives only a constant carrying that code |
| ErrorCodes.CodeRoundTrip | src/main/java/com/example/demo/common/error/ErrorCode.java:13-41 | the code of each constant reads back as that constant |
| ErrorCodes.CodesDistinct | src/main/java/com/example/demo/common/error/ErrorCode.java:13-41 | no two constants share a code |
| ErrorCodes.ResourceErrors | src/main/java/com/example/demo/common/error/ErrorCode.java:40-41 | NOT_FOUND is 404/N-000 and BAD_REQUEST is 400/N-001 |
| ErrorCodes.TokenErrorsAreUnauthorized | src/main/java/com/example/demo/common/error/ErrorCode.java:16-28 | JWT_AUTH, INVALID_TOKEN_TYPE and MALFORMED_TOKEN are all 401 |
| ErrorCodes.UserErrors | src/main/java/com/example/demo/common/error/ErrorCode.java:35-37 | a duplicate email is 409/U-001, an unknown user 404/U-002 |
| Articles.Materialize | src/main/java/com/example/demo/domain/article/service/ArticleService.java:33-43 | saving n requests creates n rows |
| Articles.MaterializeRows | src/main/java/com/example/demo/domain/article/service/ArticleService.java:33-43 | row k of a saved batch copies request k's seven fields, under key firstId+k |
| Articles.SavedIds | src/main/java/com/example/demo/domain/article/service/ArticleService.java:44 | the reported ids are the saved requests' external ids, in order |
| Articles.AcceptedSpec | src/main/java/com/example/demo/domain/article/service/ArticleService.java:27-31 | saved requests come from the batch, are not stored yet, and are pairwise distinct in articleId; the saved ids are exactly the requested ids minus the stored ones |
| Articles.FirstIndexSpec | src/main/java/com/example/demo/domain/article/service/ArticleService.java:27-31 | FirstIndex finds the first request carrying an id, and misses only when none does |
| Articles.AcceptedFirstOccurrence | src/main/java/com/example/demo/domain/article/service/ArticleService.java:27-31 | a later duplicate in the batch is skipped: each saved request is the first request of the batch with its id |
| Articles.UploadStep | src/main/java/com/example/demo/domain/article/service/ArticleService.java:29-44 | one loop iteration saves the request exactly when its id is absent from the table as it then is |
| Articles.UploadKeepsExternalIdsUnique | src/main/java/com/example/demo/domain/article/entity/Article.java:25-26 | uploading keeps the unique articleId column unique |
| Articles.ExternalIdsAppend | src/main/java/com/example/demo/domain/article/service/ArticleService.java:43 | saving rows adds exactly their external ids to the table's |
| Articles.ArticleRepository.FindById | src/main/java/com/example/demo/domain/article/entity/Article.java:21-23 | findById is None iff no row has the key; otherwise the result is a row with that key |
| Articles.FindInSpec | src/main/java/com/example/demo/domain/quiz/service/QuizService.java:51-52 | the article lookup finds a row iff one carries the key |
| Articles.ArticleRepository.ExistsByArticleId | src/main/java/com/example/demo/domain/article/repository/ArticleRepository.java:11 | definition (no ensures of its own): some stored row carries the external id; UploadStep and AcceptedSpec give its effect on an upload |
| Articles.ArticleRepository.Save | src/main/java/com/example/demo/domain/article/entity/Article.java:21-23 | save appends the row under the next key; keys stay increasing |
| Articles.ArticleService.UploadArticles | src/main/java/com/example/demo/domain/article/service/ArticleService.java:23-48 | result is the accepted ids; the table gains exactly the accepted rows; external ids stay unique |
| Articles.ArticleService.GetAllArticles | src/main/java/com/example/demo/domain/article/service/ArticleService.java:50-57 | one DTO per stored article with all eight fields copied; the order (table order) is the model's choice, since `findAll()` has no Sort |
| QuizQuestions.Filter | src/main/java/com/example/demo/domain/quiz/repository/QuizQuestionRepository.java:13-14 | a query result is no longer than the table |
| QuizQuestions.FilterMembers | src/main/java/com/example/demo/domain/quiz/repository/QuizQuestionRepository.java:13-14 | a row is in a filtered result iff it is in the table and matches |
| QuizQuestions.OfArticleMembers | src/main/java/com/example/demo/domain/quiz/repository/QuizQuestionRepository.java:13-14 | findByArticleId returns exactly the article's rows |
| QuizQuestions.WithoutMembers | src/main/java/com/example/demo/domain/quiz/service/QuizService.java:55-58 | deleteAll keeps exactly the rows whose id was not deleted |
| QuizQuestions.Numbered | src/main/java/com/example/demo/domain/quiz/service/QuizService.java:61-65 | saveAll creates one row per uploaded item: that item's text and answer, the article, and key firstId+k |
| QuizQuestions.IncreasingIsUnique | src/main/java/com/example/demo/domain/quiz/entity/QuizQuestion.java:25-26 | increasing keys are unique keys |
| QuizQuestions.FilterIncreasing | src/main/java/com/example/demo/domain/quiz/repository/QuizQuestionRepository.java:13-14 | query results keep keys increasing |
| QuizQuestions.FilterAppend | src/main/java/com/example/demo/domain/quiz/repository/QuizQuestionRepository.java:13-14 | a query over appended rows is the query over each part, concatenated |
| QuizQuestions.DeleteScoped | src/main/java/com/example/demo/domain/quiz/service/QuizService.java:55-58 | deleting one article's ids empties that article and leaves every other article's rows as they were |
| QuizQuestions.ArticleIdsSeparate | src/main/java/com/example/demo/domain/quiz/service/QuizService.java:55-57 | with unique keys, the keys of an article's rows pick out exactly that article's rows |
| QuizQuestions.OfArticleNumbered | src/main/java/com/example/demo/domain/quiz/service/QuizService.java:61-65 | fresh rows belong to the article they were saved under and to no other |
| QuizQuestions.ContentsNumbered | src/main/java/com/example/demo/domain/quiz/service/QuizService.java:61-65 | the saved rows carry exactly the uploaded (text, answer) pairs, in order |
| QuizQuestions.NumberedIncreasing | src/main/java/com/example/demo/domain/quiz/service/QuizService.java:61-65 | saved keys increase and lie in [firstId, firstId+n) |
| QuizQuestions.ReplaceValid | src/main/java/com/example/demo/domain/quiz/service/QuizService.java:48-66 | an upload keeps keys increasing and below the advanced counter |
| QuizQuestions.ReplaceSpec | src/main/java/com/example/demo/domain/quiz/service/QuizService.java:48-66 | after an upload, the article's questions are exactly the uploaded ones, all new rows |
| QuizQuestions.ReplaceKeepsOthers | src/main/java/com/example/demo/domain/quiz/service/QuizService.java:55-58 | an upload leaves every other article's questions as they were |
| QuizQuestions.WithoutNone | src/main/java/com/example/demo/domain/quiz/service/QuizService.java:56 | skipping deleteAll for an empty list is the same as deleting nothing |
| QuizQuestions.OfArticleIncreasing | src/main/java/com/example/demo/domain/quiz/repository/QuizQuestionRepository.java:13-14 | in the model, an article's questions come back in increasing key order; the query has no ORDER BY, so this order is the model's choice, not a promise of the source |
| QuizQuestions.ReplaceMembers | src/main/java/com/example/demo/domain/quiz/service/QuizService.java:48-66 | after an upload, every row is an old row or a row of the uploaded article |
| QuizQuestions.ApplyUploadsLast | src/main/java/com/example/demo/domain/quiz/service/QuizService.java:42 | the last upload of a batch runs on what the earlier ones left |
| QuizQuestions.ApplyUploadsValidTable | src/main/java/com/example/demo/domain/quiz/service/QuizService.java:39-43 | a batch keeps the table valid, with the counter advanced by the total question count |
| QuizQuestions.ApplyUploadsValid | src/main/java/com/example/demo/domain/quiz/service/QuizService.java:39-43 | a batch keeps keys increasing and below the next free key |
| QuizQuestions.DecidedByLast | src/main/java/com/example/demo/domain/quiz/service/QuizService.java:39-43 | after a batch, the article the last request names holds exactly that request's questions |
| QuizQuestions.KeptByLast | src/main/java/com/example/demo/domain/quiz/service/QuizService.java:39-43 | the last request of a batch leaves every other article as the earlier requests left it |
| QuizQuestions.LastUploadWins | src/main/java/com/example/demo/domain/quiz/service/QuizService.java:39-43 | after a batch, each named article holds the questions of the last request naming it |
| QuizQuestions.UnnamedArticleKept | src/main/java/com/example/demo/domain/quiz/service/QuizService.java:39-43 | an article no request names keeps its questions |
| QuizQuestions.QuizQuestionRepository.FindByArticleId | src/main/java/com/example/demo/domain/quiz/repository/QuizQuestionRepository.java:13-14 | a row is returned iff it is in the table and belongs to the article; the order of the result (table order, see OfArticleIncreasing) is the model's choice |
| QuizQuestions.QuizQuestionRepository.DeleteAll | src/main/java/com/example/demo/domain/quiz/service/QuizService.java:57 | deleteAll removes the rows with the given rows' keys and nothing else |
| QuizQuestions.QuizQuestionRepository.SaveAll | src/main/java/com/example/demo/domain/quiz/service/QuizService.java:61-65 | saveAll appends the numbered rows and advances the counter |
| Quizzes.CorrectAnswers | src/main/java/com/example/demo/domain/quiz/service/QuizService.java:96-100 | the answer map's keys are exactly the rows' keys, each mapped to its row's correct answer |
| Quizzes.SameIdsSameRows | src/main/java/com/example/demo/domain/quiz/service/QuizService.java:96-100 | with unique keys, toMap meets no duplicate key |
| Quizzes.GradeAnswer | src/main/java/com/example/demo/domain/quiz/service/QuizService.java:124-133 | an unknown id is BAD_REQUEST (iff); otherwise the result has the same id and is correct iff the answer equals the stored answer |
| Quizzes.GradeAll | src/main/java/com/example/demo/domain/quiz/service/QuizService.java:103-105 | fails with BAD_REQUEST iff some answer's id is unknown; otherwise one result per answer, in order, each graded as above |
| Quizzes.AnswerKey | src/main/java/com/example/demo/domain/quiz/service/QuizService.java:89-100 | the answer key built from an article's questions knows exactly that article's ids and their answers |
| Quizzes.StillConsistent | src/main/java/com/example/demo/domain/quiz/service/QuizService.java:39-43 | rolling back to the snapshot keeps the table consistent with the advanced counter |
| Quizzes.BulkStep | src/main/java/com/example/demo/domain/quiz/service/QuizService.java:42 | each loop iteration extends the batch applied so far by one upload |
| Quizzes.QuizService.constructor | src/main/java/com/example/demo/domain/quiz/service/QuizService.java:29-34 | the service starts over well-formed tables whose questions all belong to stored articles |
| Quizzes.QuizService.UploadQuiz | src/main/java/com/example/demo/domain/quiz/service/QuizService.java:48-66 | missing article gives NOT_FOUND with nothing changed; otherwise the table becomes Replace(...), the article holds exactly the uploaded questions under new keys, and other articles are unchanged |
| Quizzes.QuizService.BulkUploadQuiz | src/main/java/com/example/demo/domain/quiz/service/QuizService.java:39-43 | succeeds iff every named article exists; on failure, NOT_FOUND with the table rolled back; on success the table is ApplyUploads(...), last upload wins, and unnamed articles are kept |
| Quizzes.QuizService.GetQuizByArticleId | src/main/java/com/example/demo/domain/quiz/service/QuizService.java:71-83 | NOT_FOUND iff the article has no questions; otherwise exactly the (id, text) pairs of its questions, one per question; their order (table order) is the model's choice |
| Quizzes.QuizService.GetQuizAnswers | src/main/java/com/example/demo/domain/quiz/service/QuizService.java:113-122 | NOT_FOUND iff the article has no questions; otherwise exactly the (id, stored answer) pairs of its questions, one per question; their order (table order) is the model's choice |
| Quizzes.QuizService.GradeQuiz | src/main/java/com/example/demo/domain/quiz/service/QuizService.java:88-108 | NOT_FOUND when the article has no questions; otherwise BAD_REQUEST iff some answer names a question not in it; otherwise one result per answer, in order, correct iff it equals the stored answer |
| Users.AppendIncreasingUserIds | src/main/java/com/example/demo/domain/user/service/UserService.java:37 | saving under the next key keeps user keys increasing |
| Users.RegisterKeepsEmailsUnique | src/main/java/com/example/demo/domain/user/service/UserService.java:30-37 | registering an email not yet taken keeps emails unique |
| Users.FindUserSpec | src/main/java/com/example/demo/domain/jwt/JwtTokenProvider.java:104-105 | findById is None iff no user has the key; otherwise it returns a stored user with that key |
| Users.FindUserMember | src/main/java/com/example/demo/domain/jwt/JwtTokenProvider.java:104-105 | the key of a stored user finds exactly that user |
| Users.FindUserStored | src/main/java/com/example/demo/domain/jwt/JwtTokenProvider.java:104-105 | with increasing keys, the key of any stored user finds exactly that user |
| Users.FindAfterInsert | src/main/java/com/example/demo/domain/user/service/UserService.java:37 | after sign-up the new key finds the new user, and every other key finds what it found before |
| Users.UserEntityRepository.FindById | src/main/java/com/example/demo/domain/jwt/JwtTokenProvider.java:104 | findById returns a stored user with that key, or None iff there is none |
| Users.UserEntityRepository.Save | src/main/java/com/example/demo/domain/user/service/UserService.java:37 | save appends the user under the next key |
| Users.UserEntityRepository.ExistsByEmail | src/main/java/com/example/demo/domain/user/repository/UserEntityRepository.java:11 | definition (no ensures of its own): some stored user has the email; characterised by CheckDuplicateEmail and RegisterKeepsEmailsUnique |
| Users.UserService.constructor | src/main/java/com/example/demo/domain/user/service/UserService.java:16-21 | the service starts over a well-formed user table with unique emails |
| Users.UserService.CreateUser | src/main/java/com/example/demo/domain/user/service/UserService.java:26-40 | a taken email gives USER_EMAIL_DUPLICATED with nothing stored; otherwise exactly one user (email, encoded password) is appended and its key returned; emails stay unique |
| Users.UserService.CheckDuplicateEmail | src/main/java/com/example/demo/domain/user/service/UserService.java:43-47 | fails with USER_EMAIL_DUPLICATED iff the email is registered (its ensures is the check itself; RegisterKeepsEmailsUnique states what it protects) |
| RefreshTokens.IndexOfUserSpec | src/main/java/com/example/demo/common/jwt/RefreshTokenRepository.java:12 | the lookup position holds the user's first row, and equals the length iff the user has no row |
| RefreshTokens.FindRowSpec | src/main/java/com/example/demo/common/jwt/RefreshTokenRepository.java:12 | findByUserId is empty iff the user has no row; otherwise it returns a row of that user |
| RefreshTokens.UpsertFinds | src/main/java/com/example/demo/common/jwt/RefreshTokenRepository.java:26-40 | after saveOrUpdate, the user's row carries the new token, under its old key or the next one |
| RefreshTokens.UpsertExisting | src/main/java/com/example/demo/common/jwt/RefreshTokenRepository.java:29-32 | an existing row is updated in place: same row count, keys and owners; only that user's row changes |
| RefreshTokens.UpsertNew | src/main/java/com/example/demo/common/jwt/RefreshTokenRepository.java:33-38 | a user without a row gets exactly one new appended row |
| RefreshTokens.UpsertKeepsOthers | src/main/java/com/example/demo/common/jwt/RefreshTokenRepository.java:26-40 | every other user finds the same row before and after |
| RefreshTokens.UpsertKeepsUnique | src/main/java/com/example/demo/common/jwt/RefreshToken.java:24-25 | saveOrUpdate keeps at most one row per user (the unique userId column) |
| RefreshTokens.UpsertKeysBelow | src/main/java/com/example/demo/common/jwt/RefreshToken.java:20-22 | saveOrUpdate uses the next key only when it inserts |
| RefreshTokens.RemoveUserMembers | src/main/java/com/example/demo/common/jwt/RefreshTokenRepository.java:14-16 | deleteAllByUserId keeps exactly the other users' rows |
| RefreshTokens.RemoveUserFinds | src/main/java/com/example/demo/common/jwt/RefreshTokenRepository.java:14-16 | after the delete the user has no row; other users find what they found before |
| RefreshTokens.RemoveUserKeepsUnique | src/main/java/com/example/demo/common/jwt/RefreshTokenRepository.java:14-16 | the delete keeps at most one row per user |
| RefreshTokens.Rows | src/main/java/com/example/demo/common/jwt/RefreshToken.java:18-39 | the table's value has one row per entity |
| RefreshTokens.RowsAt | src/main/java/com/example/demo/common/jwt/RefreshToken.java:18-39 | row i of the table's value is entity i's current fields |
| RefreshTokens.KeepOthersRows | src/main/java/com/example/demo/common/jwt/RefreshTokenRepository.java:14-16 | the entities kept by the delete have exactly the value RemoveUser gives |
| RefreshTokens.DistinctEntities | src/main/java/com/example/demo/common/jwt/RefreshTokenRepository.java:29-32 | rows of distinct users are distinct objects, so the in-place update touches one row only |
| RefreshTokens.RefreshToken.constructor | src/main/java/com/example/demo/common/jwt/RefreshToken.java:30-34 | the builder sets userId and token and leaves the key unassigned |
| RefreshTokens.RefreshToken.UpdateRefreshToken | src/main/java/com/example/demo/common/jwt/RefreshToken.java:36-38 | only the token field changes |
| RefreshTokens.RefreshTokenRepository.FindByUserId | src/main/java/com/example/demo/common/jwt/RefreshTokenRepository.java:12 | returns a stored entity whose value is the user's row, or None iff the user has none |
| RefreshTokens.RefreshTokenRepository.Persist | src/main/java/com/example/demo/common/jwt/RefreshTokenRepository.java:38 | save of a new entity assigns it the next key and appends it |
| RefreshTokens.RefreshTokenRepository.Overwrite | src/main/java/com/example/demo/common/jwt/RefreshTokenRepository.java:29-32 | updating the user's stored entity in place turns the table's value into Upsert(old value) and keeps one row per user; the entity is the user's row |
| RefreshTokens.RefreshTokenRepository.SaveOrUpdateByUserId | src/main/java/com/example/demo/common/jwt/RefreshTokenRepository.java:26-40 | the table's new value is Upsert(old value); the returned entity is the user's row; the update case allocates nothing, the insert case appends a fresh entity |
| RefreshTokens.RefreshTokenRepository.DeleteAllByUserId | src/main/java/com/example/demo/common/jwt/RefreshTokenRepository.java:14-16 | the table's new value is RemoveUser(old value); one row per user is kept |
| Jwt.AccessClaims | src/main/java/com/example/demo/domain/jwt/JwtTokenProvider.java:41-54 | definition (no ensures of its own): id, type "accessToken", iat and exp of generateAccessToken; characterised by CreateTokenClaims |
| Jwt.RefreshClaims | src/main/java/com/example/demo/domain/jwt/JwtTokenProvider.java:56-69 | definition (no ensures of its own): id, type "refreshToken", iat and exp of generateRefreshToken; characterised by CreateTokenClaims |
| Jwt.CreateToken | src/main/java/com/example/demo/domain/jwt/JwtTokenProvider.java:34-39 | definition (no ensures of its own): the pair signed from AccessClaims and RefreshClaims; characterised by CreateTokenClaims and FreshPairAtIssue |
| Jwt.GetType | src/main/java/com/example/demo/domain/jwt/JwtTokenProvider.java:83-91 | JWT_AUTH iff the library rejects the token; otherwise the type claim, possibly absent |
| Jwt.ValidateToken | src/main/java/com/example/demo/domain/jwt/JwtTokenProvider.java:71-91 | MALFORMED iff the token is missing or empty; a token the library rejects gives JWT_AUTH; a parsed token without a type claim gives INTERNAL_SERVER_ERROR; passes iff it parses with type "accessToken"; INVALID_TOKEN_TYPE iff it parses with another present type |
| Jwt.GetAuthenticatedUser | src/main/java/com/example/demo/domain/jwt/JwtTokenProvider.java:93-106 | rejected token gives JWT_AUTH; a missing id claim gives MALFORMED (iff); an unknown id gives USER_NOT_FOUND (iff); success gives a stored user whose key is the id claim; an id claim some stored user carries always succeeds, and with increasing keys yields exactly that user |
| Jwt.CreateTokenClaims | src/main/java/com/example/demo/domain/jwt/JwtTokenProvider.java:34-69 | both tokens of a pair parse back, until expiry, to the user's id, their type, iat=now and exp=now+lifetime in seconds |
| Jwt.LiveWhenIssued | src/main/java/com/example/demo/domain/jwt/JwtTokenProvider.java:50-51 | with a lifetime of at least a second, truncating exp to seconds still leaves the token live at issue |
| Jwt.AccessTokenValidates | src/main/java/com/example/demo/domain/jwt/JwtTokenProvider.java:41-54 | an unexpired access token passes validateToken |
| Jwt.RefreshTokenRejected | src/main/java/com/example/demo/domain/jwt/JwtTokenProvider.java:75-77 | an unexpired refresh token fails validateToken with INVALID_TOKEN_TYPE |
| Jwt.FreshPairAtIssue | src/main/java/com/example/demo/domain/jwt/JwtTokenProvider.java:34-77 | at issue time the access token validates and the refresh token does not |
| Jwt.ExpiredAccessTokenRejected | src/main/java/com/example/demo/domain/jwt/JwtTokenProvider.java:83-91 | after expiry the access token fails with JWT_AUTH |
| Jwt.CreatedTokenAuthenticates | src/main/java/com/example/demo/domain/jwt/JwtTokenProvider.java:93-106 | either unexpired token of a stored user resolves to that user |
| Jwt.RemovedUserNotFound | src/main/java/com/example/demo/domain/jwt/JwtTokenProvider.java:104-105 | a live token whose user is gone resolves to USER_NOT_FOUND |
| PermitUrls.SplitAtFirstColon | src/main/java/com/example/demo/common/security/PermitUrlMatcher.java:29-33 | one part iff there is no ':'; otherwise the method part has no ':' and method+":"+pattern is the entry |
| PermitUrls.SplitAtFirstColonOf | src/main/java/com/example/demo/common/security/PermitUrlMatcher.java:29 | the split is at the first ':', so further colons stay in the pattern |
| PermitUrls.Upper | src/main/java/com/example/demo/common/security/PermitUrlMatcher.java:35 | upper-casing keeps the length |
| PermitUrls.UpperAt | src/main/java/com/example/demo/common/security/PermitUrlMatcher.java:35 | upper-casing works character by character |
| PermitUrls.EqualsIgnoreCaseIffUpper | src/main/java/com/example/demo/common/security/PermitUrlMatcher.java:35 | equalsIgnoreCase holds iff the upper-cased forms are equal |
| PermitUrls.EntryMatches | src/main/java/com/example/demo/common/security/PermitUrlMatcher.java:27-36 | definition (no ensures of its own): the anyMatch lambda; characterised by NoColonNeverMatches and EntryMatchesOf |
| PermitUrls.NoColonNeverMatches | src/main/java/com/example/demo/common/security/PermitUrlMatcher.java:30-31 | an entry without ':' never matches |
| PermitUrls.EntryMatchesOf | src/main/java/com/example/demo/common/security/PermitUrlMatcher.java:29-35 | "M:P" matches iff M equals the method ignoring case and P matches the URI |
| PermitUrls.Matches | src/main/java/com/example/demo/common/security/PermitUrlMatcher.java:22-37 | definition (no ensures of its own): anyMatch over the permit list; characterised by MatchesIffSomeEntry and EmptyMatchesNothing |
| PermitUrls.FirstMatch | src/main/java/com/example/demo/common/security/PermitUrlMatcher.java:26-27 | the position of the first matching entry is at most the list length |
| PermitUrls.MatchesIffSomeEntry | src/main/java/com/example/demo/common/security/PermitUrlMatcher.java:26-36 | anyMatch holds iff some entry matches; the first match is a witness, and any matching entry suffices |
| PermitUrls.EmptyMatchesNothing | src/main/java/com/example/demo/common/security/PermitUrlMatcher.java:26-27 | an empty permit list lets nothing through |
| JwtFilter.RemoveAll | src/main/java/com/example/demo/common/jwt/JwtAuthenticationFilter.java:57 | replace(BEARER, "") never lengthens the string |
| JwtFilter.RemoveAllNothing | src/main/java/com/example/demo/common/jwt/JwtAuthenticationFilter.java:57 | where the target does not occur, replace changes nothing |
| JwtFilter.RemoveAllShrinks | src/main/java/com/example/demo/common/jwt/JwtAuthenticationFilter.java:57 | where it occurs, at least one whole occurrence is removed |
| JwtFilter.NoSpaceNoBearer | src/main/java/com/example/demo/common/jwt/JwtAuthenticationFilter.java:32 | a string without a space holds no "Bearer " |
| JwtFilter.GetBearerToken | src/main/java/com/example/demo/common/jwt/JwtAuthenticationFilter.java:53-58 | MALFORMED iff the header is missing or lacks the "Bearer " prefix; otherwise a token shorter than the header by at least the prefix |
| JwtFilter.BearerTokenIsRest | src/main/java/com/example/demo/common/jwt/JwtAuthenticationFilter.java:53-58 | "Bearer "+t yields exactly t iff t holds no further "Bearer "; otherwise a shorter token |
| JwtFilter.RemoveAllWholeOccurrences | src/main/java/com/example/demo/common/jwt/JwtAuthenticationFilter.java:57 | replace removes whole occurrences only: the result is a subsequence of the input, shorter by a multiple of the target length |
| JwtFilter.BearerTokenWholeOccurrences | src/main/java/com/example/demo/common/jwt/JwtAuthenticationFilter.java:53-58 | the bearer token is a subsequence of the header after "Bearer ", and the header is longer by a whole number of "Bearer " |
| JwtFilter.Authenticate | src/main/java/com/example/demo/common/jwt/JwtAuthenticationFilter.java:35-45 | definition (no ensures of its own): bearer token, then validateToken, then getAuthenticatedUser, first failure wins; characterised by ValidateBeforeResolve, AccessTokenAuthenticates and RefreshTokenRefused |
| JwtFilter.ValidateBeforeResolve | src/main/java/com/example/demo/common/jwt/JwtAuthenticationFilter.java:38-42 | a bad header or a failed validation decides the outcome whatever the user table holds; success implies validation passed and gives a stored user |
| JwtFilter.AccessTokenAuthenticates | src/main/java/com/example/demo/common/jwt/JwtAuthenticationFilter.java:35-45 | "Bearer "+a live access token of a stored user authenticates that user |
| JwtFilter.RefreshTokenRefused | src/main/java/com/example/demo/common/jwt/JwtAuthenticationFilter.java:35-45 | a live refresh token is refused with INVALID_TOKEN_TYPE |
| JwtFilter.FilterChain.DoFilter | src/main/java/com/example/demo/common/jwt/JwtAuthenticationFilter.java:44 | the request is handed on to the rest of the chain |
| JwtFilter.JwtAuthenticationFilter.ShouldNotFilter | src/main/java/com/example/demo/common/jwt/JwtAuthenticationFilter.java:60-63 | definition (no ensures of its own): the permit list matches the request; characterised by MatchesIffSomeEntry, and DoFilter states its effect |
| JwtFilter.JwtAuthenticationFilter.SetAuthentication | src/main/java/com/example/demo/common/jwt/JwtAuthenticationFilter.java:47-51 | fails iff the user does not resolve, with the context unchanged; otherwise installs the resolved user |
| JwtFilter.JwtAuthenticationFilter.DoFilterInternal | src/main/java/com/example/demo/common/jwt/JwtAuthenticationFilter.java:35-45 | passes iff Authenticate succeeds; a failure leaves the context and chain untouched; success installs the principal, then forwards the request |
| JwtFilter.JwtAuthenticationFilter.DoFilter | src/main/java/com/example/demo/common/jwt/JwtAuthenticationFilter.java:60-63 | a permitted request is forwarded with the context untouched; any other request is filtered as doFilterInternal |

## Left out

- `findByArticleArticleId` and `findByEmail` are declared in the repositories but unused by the core; they are not modelled.
- `UserEntity`, `QuizQuestionUploadDto`, `QuizAnswerDto`, `QuizBulkUploadRequest` and `Token` are modelled only by the fields the core reads and writes (`Users.UserEntity`, `QuizQuestions.QuizQuestionUpload`, `Quizzes.QuizAnswerDto`, the sequence of `QuizQuestions.QuizUploadRequest` a bulk request carries, `Jwt.Token`), not by their full class definitions; `UserEntity` is keyed by a store-assigned id.
- `BaseEntity` (common/base/BaseEntity.java:21-26): the audit timestamps `createdAt` and `updatedAt` that every entity inherits are not modelled; no modelled operation reads them.
- Question keys: `QuizQuestion.of` takes an explicit id, but `uploadQuiz` calls it without one, and the `@Id` column has no generator. The model has the store hand out fresh, increasing keys, as it does for every other table.
- Quizzes.QuizService.UploadQuiz: a null `articleId` (a `Long`) or a null question list in the request is not modelled; the model's requests always carry both. Likewise Quizzes.QuizService.GradeQuiz does not model a null `articleId` or a null answer list in the submission.
- QuizQuestions.QuizQuestionRepository.FindByArticleId: the `findByArticleId` query (QuizQuestionRepository.java:13-14) has no ORDER BY, so the source leaves the order of its result unspecified. The model returns the rows in table order (insertion order, which is increasing key order); only membership is a promise of the source.
- QuizQuestions.OfArticleIncreasing: the increasing key order it states is the model's table order, not an order the query promises.
- Quizzes.QuizService.GetQuizByArticleId: the order of the returned (id, text) pairs follows the unordered query; the model fixes it as table order.
- Quizzes.QuizService.GetQuizAnswers: the order of the returned (id, answer) pairs follows the unordered query; the model fixes it as table order.
- Articles.ArticleService.GetAllArticles: `findAll()` (ArticleService.java:52) is called without a Sort, so the source leaves the order of the DTO list unspecified; the model fixes it as table order.
- Quizzes.GradeAnswer: `correctAnswer.equals(answer.answer())` with a null submitted answer (Boolean) is not modelled; submitted answers are plain booleans.
- Users.UserService.CreateUser: the password encoder is a fixed function `encode`, so BCrypt's random salt is not modelled.
- Jwt.Sound: HMAC-SHA256 signing, Base64url encoding and clock skew are not modelled. `Sound` constrains `parse` only on strings that `sign` produced: they round-trip their claims until expiry and are rejected after it, and they hold no space. On any other string `parse` may return any claims or none, so the library's rejection of tampered or foreign tokens is not modelled.
- Jwt.CreateToken: `new Date()` and `System.currentTimeMillis()` are two clock reads in the source; the model reads the clock once (`now`).
- Jwt.CreateToken: `System.currentTimeMillis() + expiration` is a Java `long` sum (JwtTokenProvider.java:51). The model adds unbounded integers, so an expiration large enough to overflow is not modelled.
- JwtFilter.Authenticate: the source reads the clock once in `validateToken` and again in `getAuthenticatedUser` (JwtAuthenticationFilter.java:41-42); the model parses both times at the one instant `at`. A token that expires between the two reads is not modelled.
- JwtFilter.Authenticate: a header of "Bearer" followed by two spaces leaves the token " ". jjwt throws `IllegalArgumentException` on a blank token, which `SecurityExceptionFilter` (SecurityExceptionFilter.java:42-43) answers with INTERNAL_SERVER_ERROR. The model hands " " to the codec's `parse` and leaves the outcome to it.
- Jwt.GetType: a `type` or `id` claim of the wrong Java type is not modelled. `claims.get("type", String.class)` and `claims.get("id", Long.class)` (JwtTokenProvider.java:90, :100) throw `RequiredTypeException`, a `JwtException`, which the source answers with JWT_AUTH_EXCEPTION; `Jwt.Claims` holds an optional string and an optional integer, so it cannot represent such a claim.
- Jwt.ValidateToken: a parsed token without a `type` claim makes `getType(...).equals` dereference null. The model returns INTERNAL_SERVER_ERROR, which is how the exception filter answers unexpected exceptions.
- PermitUrls.EqualsIgnoreCase: case folding covers ASCII letters only, not the full Unicode rules of `String.equalsIgnoreCase`.
- AntPathMatcher is a function parameter `antMatch`; its pattern language is not modelled.
- `SecurityContextHolder` is thread-local; the model has one `SecurityContext` object per filter.
- The servlet response, the `OncePerRequestFilter` dispatch machinery and `SecurityExceptionFilter` are not modelled. Exceptions become `Err`/`Fail` values carrying the error code the exception filter would send; `JwtException` becomes JWT_AUTH_EXCEPTION.
- RefreshTokens.RefreshTokenRepository.SaveOrUpdateByUserId: the unique constraint on the `refreshToken` column (two users receiving the same token string) is not modelled; only `userId` uniqueness is.
- Transactions are modelled only where they change the outcome (`bulkUploadQuiz` rollback); concurrency and isolation between requests are not modelled.
- Controllers, `AuthService`, `OpenAIService`, cookie handling, CORS, Swagger and configuration classes are outside the modelled core.
- Articles.ArticleService.UploadArticles: the database's unique `articleId` constraint is a model invariant rather than a runtime check. Since the loop skips stored ids, it cannot fire for a single call.
- Articles.ArticleService.UploadArticles: the column constraints of Article.java:25-44 are not modelled: `nullable = false` on `articleId`, `categoryId` and `title`, and the length limits 50 (`categoryId`), 1000 (`imageUrl`), 500 (`title`), 100 (`source`) and 20 (`date`). Nor are null request fields. In the source, a request that breaks one makes `save` throw, and `@Transactional` (ArticleService.java:23) rolls the whole batch back with a 500. The model saves every accepted request and always succeeds.
