/**
 * The three pieces together: what the composer submits becomes a `draft`
 * row through the new-post page, and the generation handler then acts on
 * that row.
 */
module Scenarios {

  import opened Optional
  import opened JsText
  import opened Posts
  import opened GenerateRoute
  import PromptArea
  import NewPostPage

  /** The column value a composer field should end up as: its trimmed text when open and not blank, null otherwise. */
  function Expected(active: map<string, string>, id: string): Option<string> {
    if id in active && !IsBlank(active[id]) then Some(Trim(active[id])) else None
  }

  /** The page's `|| null` over the composer's filtered options yields the expected column value. */
  lemma ColumnOfFilled(active: map<string, string>, id: string)
    ensures NewPostPage.Column(PromptArea.FilledOptions(active), id) == Expected(active, id)
  {
  }

  /**
   * A composer submission turned into a row: the row's prompt is the trimmed
   * topic, and each option column holds the trimmed text of its field when the
   * field is open and not blank, and is null otherwise.
   */
  lemma ComposerOptionsBecomeColumns(c: PromptArea.Composer, user: User)
    requires !IsBlank(c.value)
    ensures var sub := PromptArea.HandleSubmit(c).value;
            var row := NewPostPage.NewRow(user, sub.prompt, sub.options);
            var active := c.activeFields;
            && row.prompt == Trim(c.value) && row.userId == user.id && row.status == Draft
            && row.keywords == Expected(active, "keywords")
            && row.critique == Expected(active, "critique")
            && row.referenceMaterials == Expected(active, "reference_materials")
            && row.sources == Expected(active, "sources")
  {
    var active := c.activeFields;
    ColumnOfFilled(active, "keywords");
    ColumnOfFilled(active, "critique");
    ColumnOfFilled(active, "reference_materials");
    ColumnOfFilled(active, "sources");
  }

  /** The store after the composer's submission is inserted under the fresh id `id`. */
  function Create(store: Store, c: PromptArea.Composer, user: User, id: string): (r: Option<Store>)
    requires !IsBlank(c.value)
    ensures r.Some? <==> id !in store
    ensures r.Some? ==> id in r.value && r.value[id].status == Draft && r.value[id].userId == user.id
                        && r.value[id].prompt == Trim(c.value)
    ensures r.Some? ==> && r.value[id].keywords == Expected(c.activeFields, "keywords")
                        && r.value[id].critique == Expected(c.activeFields, "critique")
                        && r.value[id].referenceMaterials == Expected(c.activeFields, "reference_materials")
                        && r.value[id].sources == Expected(c.activeFields, "sources")
    ensures r.Some? ==> r.value[id].title.None? && r.value[id].summary.None? && r.value[id].content.None?
  {
    ComposerOptionsBecomeColumns(c, user);
    var sub := PromptArea.HandleSubmit(c).value;
    var page := NewPostPage.HandleSubmit(false, user, sub.prompt, sub.options, NewPostPage.Inserted(id));
    Insert(store, id, page.attempted.value)
  }

  /**
   * Submit, then generate with a reply that is stored: the new row ends
   * `generated` with the interpreted article, the response carries its title,
   * and every row that existed before is untouched.
   */
  lemma SubmitThenGenerate(store: Store, c: PromptArea.Composer, user: User, id: string, ext: Externals, raw: string)
    requires !IsBlank(c.value) && id !in store && Truthy(id)
    requires ext.auth == SignedIn(user) && ext.postId == Some(id) && !ext.fetchFails && ext.saveError.None?
    requires forall p :: ext.generate(p) == Replied(raw)
    requires !ParseReply(ext.parse, raw).NullJson?
    ensures var s1 := Create(store, c, user, id).value;
            var a := Interpret(ParseReply(ext.parse, raw), raw, Trim(c.value));
            && Handle(s1, ext).response == Response(200, SuccessBody(a.title))
            && After(s1, ext)[id].status == Generated
            && After(s1, ext)[id].title == Some(a.title)
            && After(s1, ext)[id].summary == Some(a.summary)
            && After(s1, ext)[id].content == Some(a.content)
            && forall k | k in store :: After(s1, ext)[k] == store[k]
  {
    var s1 := Create(store, c, user, id).value;
    assert Authorized(s1, ext);
    SuccessStoresArticle(s1, ext, raw);
    StatusAfterAuthorizedRequest(s1, ext);
  }

  /** Submit, then generate with a model call that throws: the new row is back at `draft` and the message is reported. */
  lemma SubmitThenModelFails(store: Store, c: PromptArea.Composer, user: User, id: string, ext: Externals, message: string)
    requires !IsBlank(c.value) && id !in store && Truthy(id)
    requires ext.auth == SignedIn(user) && ext.postId == Some(id) && !ext.fetchFails
    requires forall p :: ext.generate(p) == Threw(ErrorInstance(message))
    ensures var s1 := Create(store, c, user, id).value;
            && Handle(s1, ext).response == Response(500, ErrorBody(message))
            && After(s1, ext)[id] == s1[id]
  {
    var s1 := Create(store, c, user, id).value;
    assert Authorized(s1, ext);
    ModelFailureRollsBack(s1, ext, ErrorInstance(message));
  }

  /** Another signed-in user asking to generate the new post gets 404 and the store stays as created. */
  lemma OtherUserCannotGenerate(store: Store, c: PromptArea.Composer, owner: User, id: string, ext: Externals)
    requires !IsBlank(c.value) && id !in store && Truthy(id)
    requires ext.auth.SignedIn? && ext.auth.user != owner && ext.postId == Some(id)
    ensures var s1 := Create(store, c, owner, id).value;
            && Handle(s1, ext).response == Response(404, ErrorBody(NotFoundMessage))
            && After(s1, ext) == s1
  {
    var s1 := Create(store, c, owner, id).value;
    assert ext.auth.user.id != owner.id;
    ForeignPostLooksMissing(s1, ext, owner.id);
  }

  /**
   * While the page is submitting, the composer's send button is disabled but
   * Enter still submits; it is the page's own `submitting` flag that keeps a
   * second row from being inserted.
   */
  lemma SubmittingFlagGuardsEnter(c: PromptArea.Composer, user: User, insert: NewPostPage.InsertOutcome)
    requires !IsBlank(c.value)
    ensures !PromptArea.HasValue(c, true)
    ensures PromptArea.KeyDown(c, "Enter", false).Some?
    ensures var sub := PromptArea.KeyDown(c, "Enter", false).value;
            NewPostPage.HandleSubmit(true, user, sub.prompt, sub.options, insert).attempted.None?
  {
  }

  const WinterTrip := "겨울 여행지 추천"

  /** A topic with no option fields, submitted and then generated successfully. */
  lemma WinterTripExample(store: Store, user: User, id: string, ext: Externals, raw: string)
    requires id !in store && Truthy(id)
    requires ext.auth == SignedIn(user) && ext.postId == Some(id) && !ext.fetchFails && ext.saveError.None?
    requires forall p :: ext.generate(p) == Replied(raw)
    requires !ParseReply(ext.parse, raw).NullJson?
    ensures !IsBlank(WinterTrip)
    ensures var c := PromptArea.Composer(WinterTrip, map[], false);
            var s1 := Create(store, c, user, id).value;
            && s1[id].keywords.None? && s1[id].critique.None? && s1[id].referenceMaterials.None? && s1[id].sources.None?
            && Handle(s1, ext).modelPrompt == Some(TopicLabel + WinterTrip)
            && After(s1, ext)[id].status == Generated
  {
    var topic := WinterTrip;
    var c := PromptArea.Composer(topic, map[], false);
    assert !IsWhitespace(topic[0]);
    TrimIsCore(topic, 0, |topic|);
    assert Trim(topic) == topic;
    var s1 := Create(store, c, user, id).value;
    ComposerOptionsBecomeColumns(c, user);
    assert s1[id].keywords.None? && s1[id].critique.None?;
    assert s1[id].referenceMaterials.None? && s1[id].sources.None?;
    assert Authorized(s1, ext);
    TopicOnlyPrompt(s1[id]);
    SubmitThenGenerate(store, c, user, id, ext, raw);
  }
}
