/**
 * The `POST /api/generate` handler: authorise the caller, load the caller's
 * post, mark it `generating`, ask the language model for an article, read the
 * reply as JSON (falling back to the raw text), store the article and mark the
 * post `generated`, or roll the status back to `draft` when anything throws.
 *
 * Every collaborator is an input: the identity lookup, the request body, the
 * store, the model call and `JSON.parse` (as total functions) and the outcome
 * of the final update. The handler returns the HTTP response, the writes that
 * reach the store, in order, and the user prompt the model was called with.
 */
module GenerateRoute {

  import opened Optional
  import opened JsText
  import opened Posts

  const TopicLabel := "블로그 주제: "
  const KeywordsLabel := "키워드"
  const CritiqueLabel := "작성자 관점/비평"
  const ReferenceLabel := "참고 자료"
  const SourcesLabel := "출처"

  /** Length of the title taken from the topic when the reply is not JSON. */
  const FallbackTitleLength: nat := 50

  const Fence := "```"
  const JsonFence := "```json"

  const UnauthorizedMessage := "Unauthorized"
  const MissingPostIdMessage := "postId is required"
  const NotFoundMessage := "Post not found"
  const GenericFailureMessage := "Generation failed"

  // ---------------------------------------------------------------------------
  // The user prompt
  // ---------------------------------------------------------------------------

  /** The optional context columns with their labels, in the order the prompt lists them. */
  function Context(post: Post): seq<(string, Option<string>)> {
    [(KeywordsLabel, post.keywords), (CritiqueLabel, post.critique),
     (ReferenceLabel, post.referenceMaterials), (SourcesLabel, post.sources)]
  }

  /** The labelled fields whose value is truthy, in their original order, values unwrapped. */
  function Present(fields: seq<(string, Option<string>)>): (r: seq<(string, string)>)
    ensures |r| <= |fields|
  {
    if |fields| == 0 then []
    else
      var rest := Present(fields[1..]);
      if TruthyOpt(fields[0].1) then [(fields[0].0, fields[0].1.value)] + rest else rest
  }

  /** The line `\n<label>: <value>`. */
  function Line(p: (string, string)): string {
    "\n" + p.0 + ": " + p.1
  }

  /** One line per labelled value, in order. */
  function Lines(ps: seq<(string, string)>): string {
    if |ps| == 0 then "" else Line(ps[0]) + Lines(ps[1..])
  }

  /** The line `\n<label>: <value>` for an optional column when its value is truthy, and nothing otherwise. */
  function LineFor(name: string, v: Option<string>): string {
    if TruthyOpt(v) then Line((name, v.value)) else ""
  }

  /** Appends, field by field, the line of each optional column that is truthy. */
  function AppendPresent(acc: string, fields: seq<(string, Option<string>)>): string
    decreases |fields|
  {
    if |fields| == 0 then acc else AppendPresent(acc + LineFor(fields[0].0, fields[0].1), fields[1..])
  }

  /**
   * The user message sent to the model: the topic line, then one labelled
   * line for each truthy context column, in the fixed order keywords,
   * critique, reference materials, sources. Null and empty columns add nothing.
   */
  function UserPrompt(post: Post): (r: string)
    ensures r == TopicLabel + post.prompt + Lines(Present(Context(post)))
  {
    AppendPresentIsLines(TopicLabel + post.prompt, Context(post));
    AppendPresent(TopicLabel + post.prompt, Context(post))
  }

  /** Appending the truthy fields one at a time renders exactly the filtered list. */
  lemma {:induction false} AppendPresentIsLines(acc: string, fields: seq<(string, Option<string>)>)
    ensures AppendPresent(acc, fields) == acc + Lines(Present(fields))
    decreases |fields|
  {
    if |fields| > 0 {
      var line := LineFor(fields[0].0, fields[0].1);
      AppendPresentIsLines(acc + line, fields[1..]);
      LinesOfPresentCons(fields);
      ConcatAssoc(acc, line, Lines(Present(fields[1..])));
    }
  }

  /** Every value kept by the filter is truthy: null and empty columns never reach the prompt. */
  lemma {:induction false} PresentValuesTruthy(fields: seq<(string, Option<string>)>)
    ensures forall i | 0 <= i < |Present(fields)| :: Truthy(Present(fields)[i].1)
    decreases |fields|
  {
    if |fields| > 0 {
      PresentValuesTruthy(fields[1..]);
      var rest := Present(fields[1..]);
      if TruthyOpt(fields[0].1) {
        assert Present(fields) == [(fields[0].0, fields[0].1.value)] + rest;
      } else {
        assert Present(fields) == rest;
      }
    }
  }

  /** The rendering of the present fields, split at the first field. */
  lemma LinesOfPresentCons(fields: seq<(string, Option<string>)>)
    requires |fields| > 0
    ensures Lines(Present(fields)) == LineFor(fields[0].0, fields[0].1) + Lines(Present(fields[1..]))
  {
    var rest := Present(fields[1..]);
    if TruthyOpt(fields[0].1) {
      var x := (fields[0].0, fields[0].1.value);
      assert Present(fields) == [x] + rest;
      LinesCons(x, rest);
    } else {
      assert Present(fields) == rest;
    }
  }

  /** Rendering a list that starts with `x`. */
  lemma LinesCons(x: (string, string), rest: seq<(string, string)>)
    ensures Lines([x] + rest) == Line(x) + Lines(rest)
  {
    assert ([x] + rest)[1..] == rest;
  }

  /** Regrouping a concatenation, as its own fact so that the inductive step above stays small. */
  lemma ConcatAssoc(a: string, b: string, c: string)
    ensures (a + b) + c == a + (b + c)
  {
  }

  // ---------------------------------------------------------------------------
  // Reading the model's reply
  // ---------------------------------------------------------------------------

  /** Removes every "```json" fence, then every "```" fence (each with one following line feed), then trims. */
  function Clean(raw: string): (r: string)
    ensures IsTrimmed(r)
  {
    Trim(StripAll(StripAll(raw, JsonFence), Fence))
  }

  /** Cleaning a reply without any triple backtick only trims it. */
  lemma CleanWithoutFences(raw: string)
    requires !Contains(raw, Fence)
    ensures Clean(raw) == Trim(raw)
  {
    if Contains(raw, JsonFence) {
      ContainsLonger(raw, Fence, JsonFence);
    }
  }

  /** A reply wrapped in a Markdown code block tagged `json`. */
  function FencedReply(s: string): string {
    JsonFence + "\n" + s + "\n" + Fence
  }

  /**
   * What `JSON.parse` makes of a text, as far as the handler can tell: an
   * object with the three article fields, the value `null` (reading `title`
   * of it throws), or no JSON at all (`JSON.parse` throws).
   */
  datatype Parsed = ArticleJson(article: Article) | NullJson | NotJson

  /** `JSON.parse` applied to the cleaned reply. */
  function ParseReply(parse: string -> Parsed, raw: string): Parsed {
    parse(Clean(raw))
  }

  /**
   * The article stored when the cleaned reply does not parse: the topic cut
   * to its first 50 characters as title, an empty summary, and the raw,
   * uncleaned reply as content.
   */
  function Fallback(topic: string, raw: string): (a: Article)
    ensures a.title <= topic && |a.title| <= FallbackTitleLength
    ensures |topic| <= FallbackTitleLength ==> a.title == topic
    ensures |topic| > FallbackTitleLength ==> |a.title| == FallbackTitleLength
    ensures a.summary == "" && a.content == raw
  {
    Article(Prefix(topic, FallbackTitleLength), "", raw)
  }

  /**
   * The article made from a reply that did not parse to `null`: the parsed
   * object verbatim when parsing succeeded, the fallback otherwise.
   */
  function Interpret(parsed: Parsed, raw: string, topic: string): Article
    requires !parsed.NullJson?
  {
    match parsed
    case ArticleJson(a) => a
    case NotJson => Fallback(topic, raw)
  }

  // ---------------------------------------------------------------------------
  // The handler
  // ---------------------------------------------------------------------------

  /** What identity lookup reports: an error, no session, or a signed-in user. */
  datatype AuthResult = AuthError | NoSession | SignedIn(user: User)

  /** A thrown value: an `Error` instance (with its possibly empty message) or anything else. */
  datatype Thrown = ErrorInstance(message: string) | OtherValue

  /** The model call either returns the reply text or throws. */
  datatype ModelOutcome = Replied(text: string) | Threw(err: Thrown)

  datatype Externals = Externals(
    auth: AuthResult,
    postId: Option<string>,     // the body's `postId`; None when absent
    fetchFails: bool,           // the lookup itself reports an error
    generate: string -> ModelOutcome,
    parse: string -> Parsed,
    saveError: Option<string>)  // the final update's error message, if it fails

  datatype Body = ErrorBody(error: string) | SuccessBody(title: string)

  datatype Response = Response(status: int, body: Body)

  datatype Outcome = Outcome(response: Response, writes: seq<Write>, modelPrompt: Option<string>)

  /** The message of the `TypeError` thrown by reading `title` of `null` in Node's JavaScript engine. */
  const NullTitleMessage := "Cannot read properties of null (reading 'title')"

  /** `err instanceof Error ? err.message : 'Generation failed'`. */
  function ErrorMessage(err: Thrown): string {
    match err
    case ErrorInstance(m) => m
    case OtherValue => GenericFailureMessage
  }

  /** The request gets past authentication, the `postId` check and the ownership lookup. */
  predicate Authorized(store: Store, ext: Externals) {
    && ext.auth.SignedIn?
    && TruthyOpt(ext.postId)
    && !ext.fetchFails
    && FindOwned(store, ext.postId.value, ext.auth.user.id).Some?
  }

  function Handle(store: Store, ext: Externals): (out: Outcome)
    ensures out.response.status in {200, 400, 401, 404, 500}
    // authentication comes first: nothing is read, written or generated
    ensures !ext.auth.SignedIn? ==>
      out == Outcome(Response(401, ErrorBody(UnauthorizedMessage)), [], None)
    // then the body
    ensures ext.auth.SignedIn? && !TruthyOpt(ext.postId) ==>
      out == Outcome(Response(400, ErrorBody(MissingPostIdMessage)), [], None)
    // a row of another owner looks exactly like a missing row
    ensures ext.auth.SignedIn? && TruthyOpt(ext.postId) && !Authorized(store, ext) ==>
      out == Outcome(Response(404, ErrorBody(NotFoundMessage)), [], None)
    // once authorised: the model is called once, with the composed prompt, after the post is marked generating
    ensures Authorized(store, ext) <==> out.modelPrompt.Some?
    ensures Authorized(store, ext) ==>
      && out.modelPrompt == Some(UserPrompt(store[ext.postId.value]))
      && |out.writes| > 0
      && out.writes[0] == Update(ext.postId.value, SetStatus(Generating))
    ensures out.writes != [] ==> Authorized(store, ext) && KeyedBy(out.writes, ext.postId.value)
  {
    if !ext.auth.SignedIn? then
      Outcome(Response(401, ErrorBody(UnauthorizedMessage)), [], None)
    else
      var user := ext.auth.user;
      if !TruthyOpt(ext.postId) then
        Outcome(Response(400, ErrorBody(MissingPostIdMessage)), [], None)
      else
        var postId := ext.postId.value;
        var found := if ext.fetchFails then None else FindOwned(store, postId, user.id);
        if found.None? then
          Outcome(Response(404, ErrorBody(NotFoundMessage)), [], None)
        else
          Proceed(found.value, postId, ext)
  }

  /**
   * The handler once the caller's post is loaded: mark it generating, call the
   * model, store the article or roll back.
   */
  function Proceed(post: Post, postId: string, ext: Externals): (out: Outcome)
    ensures out.modelPrompt == Some(UserPrompt(post))
    ensures |out.writes| > 0 && out.writes[0] == Update(postId, SetStatus(Generating))
    ensures KeyedBy(out.writes, postId)
    ensures out.response.status in {200, 500}
  {
    var prompt := UserPrompt(post);
    Finish(postId, prompt, ext.generate(prompt), post.prompt, ext.parse, ext.saveError)
  }

  /**
   * Everything after the post was marked `generating`. Whatever throws — the
   * model call, or reading `title` of a reply that parsed to `null` — rolls
   * the post back to `draft`; otherwise the article is saved, unless the save
   * itself reports an error.
   */
  function Finish(postId: string, prompt: string, reply: ModelOutcome, topic: string,
                  parse: string -> Parsed, saveError: Option<string>): (out: Outcome)
    ensures out.modelPrompt == Some(prompt)
    ensures |out.writes| > 0 && out.writes[0] == Update(postId, SetStatus(Generating))
    ensures KeyedBy(out.writes, postId)
    ensures out.response.status in {200, 500}
    ensures out.response.status == 200 <==> reply.Replied? && !ParseReply(parse, reply.text).NullJson? && saveError.None?
  {
    var mark := Update(postId, SetStatus(Generating));
    match reply
    case Threw(err) =>
      RollBack(postId, prompt, err)
    case Replied(raw) =>
      var parsed := ParseReply(parse, raw);
      if parsed.NullJson? then
        RollBack(postId, prompt, ErrorInstance(NullTitleMessage))
      else
        var generated := Interpret(parsed, raw, topic);
        match saveError
        case Some(message) =>
          var ws := [mark];
          Outcome(Response(500, ErrorBody(message)), ws, Some(prompt))
        case None =>
          var ws := [mark, Update(postId, SaveArticle(generated))];
          Outcome(Response(200, SuccessBody(generated.title)), ws, Some(prompt))
  }

  /** The `catch` block: the post goes back to `draft` and the thrown value's message is reported with 500. */
  function RollBack(postId: string, prompt: string, err: Thrown): (out: Outcome)
    ensures out.writes == [Update(postId, SetStatus(Generating)), Update(postId, SetStatus(Draft))]
    ensures out.response == Response(500, ErrorBody(ErrorMessage(err)))
    ensures out.modelPrompt == Some(prompt)
  {
    Outcome(Response(500, ErrorBody(ErrorMessage(err))),
            [Update(postId, SetStatus(Generating)), Update(postId, SetStatus(Draft))], Some(prompt))
  }

  /** The store after the handler's writes. */
  function After(store: Store, ext: Externals): Store {
    ApplyAll(store, Handle(store, ext).writes)
  }

  // ---------------------------------------------------------------------------
  // Properties of the prompt and of reply cleaning
  // ---------------------------------------------------------------------------

  /** Exactly the truthy fields make it into the prompt, with their labels, and nothing else does. */
  lemma {:induction false} PresentExactly(fields: seq<(string, Option<string>)>)
    ensures forall i | 0 <= i < |fields| && TruthyOpt(fields[i].1) :: (fields[i].0, fields[i].1.value) in Present(fields)
    ensures forall j | 0 <= j < |Present(fields)| :: (Present(fields)[j].0, Some(Present(fields)[j].1)) in fields
    decreases |fields|
  {
    if |fields| > 0 {
      PresentExactly(fields[1..]);
      var rest := Present(fields[1..]);
      forall i | 0 <= i < |fields| && TruthyOpt(fields[i].1)
        ensures (fields[i].0, fields[i].1.value) in Present(fields)
      {
        if i > 0 { assert fields[i] == fields[1..][i - 1]; }
      }
      forall j | 0 <= j < |Present(fields)|
        ensures (Present(fields)[j].0, Some(Present(fields)[j].1)) in fields
      {
        if TruthyOpt(fields[0].1) {
          if j > 0 { assert Present(fields)[j] == rest[j - 1]; }
        } else {
          assert Present(fields)[j] == rest[j];
        }
        assert forall x | x in fields[1..] :: x in fields;
      }
    }
  }

  /** A post with no truthy context column is prompted with its topic line alone. */
  lemma TopicOnlyPrompt(post: Post)
    requires !TruthyOpt(post.keywords) && !TruthyOpt(post.critique)
    requires !TruthyOpt(post.referenceMaterials) && !TruthyOpt(post.sources)
    ensures UserPrompt(post) == TopicLabel + post.prompt
  {
    PresentExactly(Context(post));
    PresentValuesTruthy(Context(post));
  }

  /** The closing fence, with the line feed before it. */
  const ClosingFence := "\n" + Fence

  lemma ClosingFenceStrips()
    ensures StripAll(ClosingFence, JsonFence) == ClosingFence
    ensures StripAll(ClosingFence, Fence) == "\n"
  {
    assert ClosingFence[1..] == Fence;
    assert !Contains(Fence, JsonFence) by {
      assert Fence[1..][1..][1..] == [];
    }
    assert Fence[|Fence|..] == [];
  }

  /** The first pass removes the opening fence and its line feed and nothing else. */
  lemma FencedFirstPass(s: string)
    requires !Contains(s, Fence)
    ensures StripAll(FencedReply(s), JsonFence) == s + ClosingFence
  {
    var f := FencedReply(s);
    assert f == JsonFence + ("\n" + (s + ClosingFence));
    assert JsonFence <= f;
    assert f[|JsonFence|..] == "\n" + (s + ClosingFence);
    assert ("\n" + (s + ClosingFence))[1..] == s + ClosingFence;
    StripAllAppend(s, ClosingFence, JsonFence);
    ClosingFenceStrips();
  }

  /** The second pass removes the closing fence and keeps the line feed before it. */
  lemma FencedSecondPass(s: string)
    requires !Contains(s, Fence)
    ensures StripAll(s + ClosingFence, Fence) == s + "\n"
  {
    StripAllAppend(s, ClosingFence, Fence);
    ClosingFenceStrips();
  }

  /**
   * A reply that is the JSON text `s` inside a Markdown block tagged `json`
   * cleans to the same text as `s` itself, namely `s` trimmed.
   */
  lemma FencedCleansLikeBare(s: string)
    requires !Contains(s, Fence)
    ensures Clean(FencedReply(s)) == Clean(s) == Trim(s)
  {
    FencedFirstPass(s);
    FencedSecondPass(s);
    CleanWithoutFences(s);
    TrimDropsTrailingWhitespace(s, '\n');
  }

  /** Parsing sees the same text for a fenced reply as for the bare one, so a reply that parses yields the same article. */
  lemma FencedInterpretsLikeBare(parse: string -> Parsed, s: string, topic: string)
    requires !Contains(s, Fence)
    requires parse(Clean(s)).ArticleJson?
    ensures parse(Clean(FencedReply(s))) == parse(Clean(s))
    ensures Interpret(parse(Clean(FencedReply(s))), FencedReply(s), topic) == Interpret(parse(Clean(s)), s, topic)
  {
    FencedCleansLikeBare(s);
  }

  // ---------------------------------------------------------------------------
  // Properties of the handler, stated on the store
  // ---------------------------------------------------------------------------

  /** A caller that is not signed in, sends no `postId`, or does not own the post changes nothing. */
  lemma RejectedRequestChangesNothing(store: Store, ext: Externals)
    requires !Authorized(store, ext)
    ensures Handle(store, ext).writes == []
    ensures After(store, ext) == store
    ensures Handle(store, ext).response.status in {400, 401, 404}
  {
  }

  /** The post of another user gets the same 404 as a missing post, and stays as it was. */
  lemma ForeignPostLooksMissing(store: Store, ext: Externals, owner: string)
    requires ext.auth.SignedIn? && ext.postId.Some? && Truthy(ext.postId.value)
    requires ext.postId.value in store && store[ext.postId.value].userId == owner
    requires owner != ext.auth.user.id
    ensures Handle(store, ext) == Handle(store - {ext.postId.value}, ext)
    ensures Handle(store, ext).response == Response(404, ErrorBody(NotFoundMessage))
    ensures After(store, ext) == store
  {
  }

  /**
   * A reply that is stored: one update writes the three generated columns
   * together with `status = generated`, and the response carries the title.
   * The parsed article is stored verbatim; an unparsable reply is stored as
   * the fallback article.
   */
  lemma SuccessStoresArticle(store: Store, ext: Externals, raw: string)
    requires Authorized(store, ext)
    requires ext.generate(UserPrompt(store[ext.postId.value])) == Replied(raw)
    requires !ParseReply(ext.parse, raw).NullJson?
    requires ext.saveError.None?
    ensures var id := ext.postId.value;
            var a := Interpret(ParseReply(ext.parse, raw), raw, store[id].prompt);
            && Handle(store, ext).response == Response(200, SuccessBody(a.title))
            && Handle(store, ext).writes == [Update(id, SetStatus(Generating)), Update(id, SaveArticle(a))]
            && After(store, ext)[id] == store[id].(title := Some(a.title), summary := Some(a.summary),
                                                  content := Some(a.content), status := Generated)
  {
    var id := ext.postId.value;
    var a := Interpret(ParseReply(ext.parse, raw), raw, store[id].prompt);
    assert Handle(store, ext).writes == [Update(id, SetStatus(Generating)), Update(id, SaveArticle(a))];
    ApplyAllTwo(store, Update(id, SetStatus(Generating)), Update(id, SaveArticle(a)));
  }

  /**
   * A reply that does not parse is still stored: the title is the topic cut
   * to 50 characters, the summary is empty and the content is the reply as
   * received, fences and surrounding whitespace included.
   */
  lemma UnparsableReplyStoredRaw(store: Store, ext: Externals, raw: string)
    requires Authorized(store, ext)
    requires ext.generate(UserPrompt(store[ext.postId.value])) == Replied(raw)
    requires ParseReply(ext.parse, raw).NotJson?
    requires ext.saveError.None?
    ensures var row := After(store, ext)[ext.postId.value];
            var topic := store[ext.postId.value].prompt;
            && row.status == Generated
            && row.title == Some(Prefix(topic, FallbackTitleLength))
            && row.summary == Some("")
            && row.content == Some(raw)
  {
    var id := ext.postId.value;
    var topic := store[id].prompt;
    var a := Interpret(ParseReply(ext.parse, raw), raw, topic);
    assert a == Fallback(topic, raw);
    SuccessStoresArticle(store, ext, raw);
    assert After(store, ext)[id] == store[id].(title := Some(a.title), summary := Some(a.summary),
                                               content := Some(a.content), status := Generated);
  }

  /** A model call that throws rolls the status back to `draft` and reports the thrown message. */
  lemma ModelFailureRollsBack(store: Store, ext: Externals, err: Thrown)
    requires Authorized(store, ext)
    requires ext.generate(UserPrompt(store[ext.postId.value])) == Threw(err)
    ensures var id := ext.postId.value;
            && Handle(store, ext).response == Response(500, ErrorBody(ErrorMessage(err)))
            && Handle(store, ext).writes == [Update(id, SetStatus(Generating)), Update(id, SetStatus(Draft))]
            && After(store, ext)[id] == store[id].(status := Draft)
  {
    var id := ext.postId.value;
    assert Handle(store, ext).writes == [Update(id, SetStatus(Generating)), Update(id, SetStatus(Draft))];
    ApplyAllTwo(store, Update(id, SetStatus(Generating)), Update(id, SetStatus(Draft)));
  }

  /**
   * A reply that parses to `null` gets past `JSON.parse`, but reading its
   * `title` throws a `TypeError`: the post is rolled back to `draft` and the
   * error's message is reported, whatever the final update would have done.
   */
  lemma NullReplyRollsBack(store: Store, ext: Externals, raw: string)
    requires Authorized(store, ext)
    requires ext.generate(UserPrompt(store[ext.postId.value])) == Replied(raw)
    requires ParseReply(ext.parse, raw).NullJson?
    ensures var id := ext.postId.value;
            && Handle(store, ext).response == Response(500, ErrorBody(NullTitleMessage))
            && Handle(store, ext).writes == [Update(id, SetStatus(Generating)), Update(id, SetStatus(Draft))]
            && After(store, ext)[id] == store[id].(status := Draft)
  {
    var id := ext.postId.value;
    assert Handle(store, ext).writes == [Update(id, SetStatus(Generating)), Update(id, SetStatus(Draft))];
    ApplyAllTwo(store, Update(id, SetStatus(Generating)), Update(id, SetStatus(Draft)));
  }

  /** A failed final update is reported with the store's message and NOT rolled back: the post stays `generating`. */
  lemma SaveFailureLeavesGenerating(store: Store, ext: Externals, raw: string)
    requires Authorized(store, ext)
    requires ext.generate(UserPrompt(store[ext.postId.value])) == Replied(raw)
    requires !ParseReply(ext.parse, raw).NullJson?
    requires ext.saveError.Some?
    ensures var id := ext.postId.value;
            && Handle(store, ext).response == Response(500, ErrorBody(ext.saveError.value))
            && After(store, ext)[id] == store[id].(status := Generating)
  {
    var id := ext.postId.value;
    assert Handle(store, ext).writes == [Update(id, SetStatus(Generating))];
    ApplyAllOne(store, Update(id, SetStatus(Generating)));
  }

  /**
   * Whatever the post's status before (a `published` post included), an
   * authorised request leaves it `generated`; back at `draft` when something
   * throws (the model call, or a reply that parsed to `null`); or, when only
   * the final update fails, at `generating`. The submission columns and every
   * other post are untouched.
   */
  lemma StatusAfterAuthorizedRequest(store: Store, ext: Externals)
    requires Authorized(store, ext)
    ensures var id := ext.postId.value;
            var s := After(store, ext)[id].status;
            var reply := ext.generate(UserPrompt(store[id]));
            var nullReply := reply.Replied? && ParseReply(ext.parse, reply.text).NullJson?;
            && After(store, ext).Keys == store.Keys
            && SameSubmission(store[id], After(store, ext)[id])
            && (forall k | k in store && k != id :: After(store, ext)[k] == store[k])
            && (Handle(store, ext).response.status == 200 <==> s == Generated)
            && (reply.Threw? || nullReply <==> s == Draft)
            && (s == Generating <==> reply.Replied? && !nullReply && ext.saveError.Some?)
  {
    var id := ext.postId.value;
    match ext.generate(UserPrompt(store[id]))
    case Threw(err) => ModelFailureRollsBack(store, ext, err);
    case Replied(raw) =>
      if ParseReply(ext.parse, raw).NullJson? {
        NullReplyRollsBack(store, ext, raw);
      } else if ext.saveError.Some? {
        SaveFailureLeavesGenerating(store, ext, raw);
      } else {
        SuccessStoresArticle(store, ext, raw);
      }
  }

  /** Once the reply parses to JSON, the handler's result depends only on the parsed value, not on the reply's text. */
  lemma FinishSeesOnlyParsedJson(postId: string, prompt: string, topic: string, parse: string -> Parsed,
                                 saveError: Option<string>, raw1: string, raw2: string)
    requires ParseReply(parse, raw1) == ParseReply(parse, raw2)
    requires !ParseReply(parse, raw1).NotJson?
    ensures Finish(postId, prompt, Replied(raw1), topic, parse, saveError)
         == Finish(postId, prompt, Replied(raw2), topic, parse, saveError)
  {
  }

  /**
   * A fenced JSON reply is handled exactly like the bare JSON text whenever
   * that text is JSON (an article or `null`): same response, same writes,
   * same prompt.
   */
  lemma FencedReplyHandledLikeBare(store: Store, fenced: Externals, bare: Externals, s: string)
    requires !Contains(s, Fence)
    requires fenced.auth == bare.auth && fenced.postId == bare.postId && fenced.fetchFails == bare.fetchFails
    requires fenced.parse == bare.parse && fenced.saveError == bare.saveError
    requires forall p :: fenced.generate(p) == Replied(FencedReply(s))
    requires forall p :: bare.generate(p) == Replied(s)
    requires !bare.parse(Clean(s)).NotJson?
    ensures Handle(store, fenced) == Handle(store, bare)
  {
    if Authorized(store, bare) {
      var id := bare.postId.value;
      var post := store[id];
      var prompt := UserPrompt(post);
      FencedCleansLikeBare(s);
      FinishSeesOnlyParsedJson(id, prompt, post.prompt, bare.parse, bare.saveError, FencedReply(s), s);
      assert Handle(store, fenced) == Proceed(post, id, fenced)
          == Finish(id, prompt, Replied(FencedReply(s)), post.prompt, bare.parse, bare.saveError);
      assert Handle(store, bare) == Proceed(post, id, bare)
          == Finish(id, prompt, Replied(s), post.prompt, bare.parse, bare.saveError);
    }
  }
}
