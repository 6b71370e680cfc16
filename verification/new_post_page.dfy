/**
 * The new-post page: it redirects a signed-out visitor to the sign-in page
 * and turns a composer submission into a `posts` row with status `draft`,
 * guarded by a `submitting` flag against a second submission in flight.
 */
module NewPostPage {

  import opened Optional
  import opened JsText
  import opened Posts

  const SignInPath := "/auth"
  const PostPathPrefix := "/dashboard/posts/"

  /** What the identity context reports: still loading, and the user if there is one. */
  datatype AuthState = AuthState(loading: bool, user: Option<User>)

  /** What the page renders: a loading notice, nothing, or the composer. */
  datatype View = LoadingView | EmptyView | ComposerView

  /** Where the page sends the browser on its own: to sign-in once loading is over and there is no user. */
  function Redirect(auth: AuthState): (r: Option<string>)
    ensures r.Some? <==> !auth.loading && auth.user.None?
    ensures r.Some? ==> r.value == SignInPath
  {
    if !auth.loading && auth.user.None? then Some(SignInPath) else None
  }

  /** The composer, and with it the submit handler, exists only for a signed-in user once loading is over. */
  function Render(auth: AuthState): (v: View)
    ensures v == ComposerView <==> !auth.loading && auth.user.Some?
    ensures v == LoadingView <==> auth.loading
  {
    if auth.loading then LoadingView else if auth.user.None? then EmptyView else ComposerView
  }

  /** `options[key] || null`: the option's text when it is present and not empty, null otherwise. */
  function Column(options: map<string, string>, key: string): (v: Option<string>)
    ensures v.Some? <==> key in options && Truthy(options[key])
    ensures v.Some? ==> v.value == options[key]
  {
    if key in options && Truthy(options[key]) then Some(options[key]) else None
  }

  /** The row inserted for a submission: owned by the user, the prompt as given, status `draft`. */
  function NewRow(user: User, prompt: string, options: map<string, string>): (row: PostInsert)
    ensures row.userId == user.id && row.prompt == prompt && row.status == Draft
    ensures row.keywords == Column(options, "keywords")
    ensures row.critique == Column(options, "critique")
    ensures row.referenceMaterials == Column(options, "reference_materials")
    ensures row.sources == Column(options, "sources")
  {
    PostInsert(user.id, prompt, Column(options, "keywords"), Column(options, "critique"),
               Column(options, "reference_materials"), Column(options, "sources"), Draft)
  }

  /** The database's answer to the insert: the new row's id, or an error. */
  datatype InsertOutcome = Inserted(id: string) | InsertFailed(message: string)

  /** The page after a submission: its `submitting` flag, the row it tried to insert, and where it navigates. */
  datatype SubmitResult = SubmitResult(submitting: bool, attempted: Option<PostInsert>, navigateTo: Option<string>)

  /**
   * The submit handler. While a submission is in flight it does nothing.
   * Otherwise it inserts the row; on failure it clears `submitting` so the user
   * can try again, and on success it navigates to the new post and leaves
   * `submitting` set.
   */
  function HandleSubmit(submitting: bool, user: User, prompt: string, options: map<string, string>,
                        insert: InsertOutcome): (r: SubmitResult)
    ensures submitting ==> r == SubmitResult(true, None, None)
    ensures !submitting ==> r.attempted == Some(NewRow(user, prompt, options))
    ensures !submitting && insert.InsertFailed? ==> !r.submitting && r.navigateTo.None?
    ensures !submitting && insert.Inserted? ==> r.submitting && r.navigateTo == Some(PostPathPrefix + insert.id)
  {
    if submitting then
      SubmitResult(true, None, None)
    else
      var row := NewRow(user, prompt, options);
      match insert
      case InsertFailed(_) => SubmitResult(false, Some(row), None)
      case Inserted(id) => SubmitResult(true, Some(row), Some(PostPathPrefix + id))
  }

  /** Once a submission has succeeded, any further submission inserts nothing. */
  lemma NoSecondInsert(user: User, p1: string, o1: map<string, string>, id: string,
                       p2: string, o2: map<string, string>, second: InsertOutcome)
    ensures var first := HandleSubmit(false, user, p1, o1, Inserted(id));
            HandleSubmit(first.submitting, user, p2, o2, second).attempted.None?
  {
  }
}
