/**
 * The `posts` table: one row per blog-generation request, the writes the
 * application makes to it, and the store as a map from primary key to row.
 */
module Posts {

  import opened Optional

  /** Lifecycle of a post. `Published` exists in the schema but no modelled path sets it. */
  datatype Status = Draft | Generating | Generated | Published

  /** The signed-in account, as the identity service reports it. */
  datatype User = User(id: string)

  datatype Post = Post(
    id: string,
    userId: string,
    prompt: string,
    keywords: Option<string>,
    critique: Option<string>,
    referenceMaterials: Option<string>,
    sources: Option<string>,
    title: Option<string>,
    summary: Option<string>,
    content: Option<string>,
    status: Status)

  /** The three generated columns, always produced together. */
  datatype Article = Article(title: string, summary: string, content: string)

  /** A partial-column update. `SaveArticle` writes the three generated columns and `status = generated` in one update. */
  datatype Patch = SetStatus(status: Status) | SaveArticle(article: Article)

  /** An `update(...).eq('id', id)`: it applies to the row with that primary key, if any. */
  datatype Write = Update(id: string, patch: Patch)

  /** The columns a client sends on insert; `id`, the generated columns and timestamps are left to the database. */
  datatype PostInsert = PostInsert(
    userId: string,
    prompt: string,
    keywords: Option<string>,
    critique: Option<string>,
    referenceMaterials: Option<string>,
    sources: Option<string>,
    status: Status)

  type Store = map<string, Post>

  /** The columns fixed at creation: identity, owner and everything the user submitted. */
  predicate SameSubmission(p: Post, q: Post) {
    && p.id == q.id && p.userId == q.userId && p.prompt == q.prompt
    && p.keywords == q.keywords && p.critique == q.critique
    && p.referenceMaterials == q.referenceMaterials && p.sources == q.sources
  }

  /** The generated columns of two rows agree. */
  predicate SameArticle(p: Post, q: Post) {
    p.title == q.title && p.summary == q.summary && p.content == q.content
  }

  function ApplyPatch(p: Post, patch: Patch): (q: Post)
    ensures SameSubmission(p, q)
    ensures patch.SetStatus? ==> q.status == patch.status && SameArticle(p, q)
    ensures patch.SaveArticle? ==>
      && q.status == Generated
      && q.title == Some(patch.article.title)
      && q.summary == Some(patch.article.summary)
      && q.content == Some(patch.article.content)
  {
    match patch
    case SetStatus(s) => p.(status := s)
    case SaveArticle(a) => p.(title := Some(a.title), summary := Some(a.summary), content := Some(a.content), status := Generated)
  }

  /** The ids a sequence of writes is keyed by. */
  function Targets(ws: seq<Write>): set<string> {
    set i | 0 <= i < |ws| :: ws[i].id
  }

  function Apply(store: Store, w: Write): (r: Store)
    ensures r.Keys == store.Keys
    ensures forall k | k in store && k != w.id :: r[k] == store[k]
    ensures w.id in store ==> r[w.id] == ApplyPatch(store[w.id], w.patch)
  {
    if w.id in store then store[w.id := ApplyPatch(store[w.id], w.patch)] else store
  }

  /** The writes applied in order. No write adds or removes a row, moves a row to another owner, or touches a row it is not keyed by. */
  function ApplyAll(store: Store, ws: seq<Write>): (r: Store)
    ensures r.Keys == store.Keys
    ensures forall k | k in store && k !in Targets(ws) :: r[k] == store[k]
    ensures forall k | k in store :: SameSubmission(store[k], r[k])
    decreases |ws|
  {
    if |ws| == 0 then store
    else
      var r := ApplyAll(Apply(store, ws[0]), ws[1..]);
      assert Targets(ws) == {ws[0].id} + Targets(ws[1..]) by {
        forall k | k in Targets(ws) ensures k in {ws[0].id} + Targets(ws[1..]) {
          var i :| 0 <= i < |ws| && ws[i].id == k;
          if i > 0 { assert ws[1..][i - 1].id == k; }
        }
      }
      r
  }

  /** `select('*').eq('id', id).eq('user_id', uid).single()`: a row is found only when it exists AND belongs to `uid`. */
  function FindOwned(store: Store, id: string, uid: string): (r: Option<Post>)
    ensures r.Some? <==> id in store && store[id].userId == uid
    ensures r.Some? ==> r.value == store[id]
  {
    if id in store && store[id].userId == uid then Some(store[id]) else None
  }

  /** Every row is stored under its own primary key. */
  predicate WellKeyed(store: Store) {
    forall k | k in store :: store[k].id == k
  }

  /** The row the database creates from an insert under a fresh key: the generated columns start out null. */
  function RowOf(id: string, ins: PostInsert): (p: Post)
    ensures p.id == id && p.userId == ins.userId && p.prompt == ins.prompt && p.status == ins.status
    ensures p.keywords == ins.keywords && p.critique == ins.critique
    ensures p.referenceMaterials == ins.referenceMaterials && p.sources == ins.sources
    ensures p.title.None? && p.summary.None? && p.content.None?
  {
    Post(id, ins.userId, ins.prompt, ins.keywords, ins.critique, ins.referenceMaterials, ins.sources, None, None, None, ins.status)
  }

  /** An insert under primary key `id`: refused (None) when the key is taken, otherwise exactly one row is added. */
  function Insert(store: Store, id: string, ins: PostInsert): (r: Option<Store>)
    ensures r.Some? <==> id !in store
    ensures r.Some? ==> r.value.Keys == store.Keys + {id} && r.value[id] == RowOf(id, ins)
    ensures r.Some? ==> forall k | k in store :: r.value[k] == store[k]
    ensures r.Some? && WellKeyed(store) ==> WellKeyed(r.value)
  {
    if id in store then None else Some(store[id := RowOf(id, ins)])
  }

  /** Every write of `ws` is keyed by `id`. */
  predicate KeyedBy(ws: seq<Write>, id: string) {
    forall i | 0 <= i < |ws| :: ws[i].id == id
  }

  /** One write applied on its own. */
  lemma ApplyAllOne(store: Store, w: Write)
    ensures ApplyAll(store, [w]) == Apply(store, w)
  {
    assert [w][1..] == [];
  }

  /** Two writes applied in order. */
  lemma ApplyAllTwo(store: Store, w1: Write, w2: Write)
    ensures ApplyAll(store, [w1, w2]) == Apply(Apply(store, w1), w2)
  {
    assert [w1, w2][1..] == [w2];
    ApplyAllOne(Apply(store, w1), w2);
  }
}
