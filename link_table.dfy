/**
 * The link store of `LinksController` as values: the table from id to
 * record plus the id counter, and what each operation does to them.
 * The imperative class in links_controller.dfy is proved against these
 * functions; the lemmas here state what holds across several operations.
 */
module LinkTable {
  import opened Wrappers
  import Decimal

  /**
   * One stored record: its `id`, `titulo` and `url` entries. A field the
   * request body did not carry is stored as `None` (Java's `null`).
   */
  datatype Link = Link(id: int, titulo: Option<string>, url: Option<string>)

  /** `linksDB` and `nextId`. */
  datatype Table = Table(db: map<int, Link>, nextId: int)

  /** What an operation leaves behind and what it hands back to the caller. */
  datatype Response<T> = Response(table: Table, body: T)

  /** The store's invariant: every record's `id` field is its own key. */
  predicate IdsMatchKeys(db: map<int, Link>) {
    forall k :: k in db ==> db[k].id == k
  }

  const GitHub: Link := Link(1, Some("GitHub"), Some("https://github.com"))
  const StackOverflow: Link := Link(2, Some("Stack Overflow"), Some("https://stackoverflow.com"))

  /** The table the constructor leaves: the two seed records, counter 3. */
  function Seeded(): (t: Table)
    ensures t.db.Keys == {1, 2} && |t.db| == 2
    ensures t.db[1].titulo == Some("GitHub") && t.db[1].url == Some("https://github.com")
    ensures t.db[2].titulo == Some("Stack Overflow") && t.db[2].url == Some("https://stackoverflow.com")
    ensures IdsMatchKeys(t.db)
    ensures t.nextId == 3
  {
    Table(map[1 := GitHub, 2 := StackOverflow], 3)
  }

  /** `getLinkById`: the record stored under `id`, or nothing. */
  function Lookup(t: Table, id: int): (r: Option<Link>)
    ensures r.Some? <==> id in t.db
    ensures r.Some? ==> r.value == t.db[id]
    ensures IdsMatchKeys(t.db) && r.Some? ==> r.value.id == id
  {
    if id in t.db then Some(t.db[id]) else None
  }

  /** `createLink`: store a record under the counter's value and advance the counter. */
  function Create(t: Table, titulo: Option<string>, url: Option<string>): (r: Response<Link>)
    ensures r.body.id == t.nextId && r.body.titulo == titulo && r.body.url == url
    ensures r.table.nextId == t.nextId + 1
    ensures r.table.db.Keys == t.db.Keys + {t.nextId}
    ensures r.table.db[t.nextId] == r.body
    ensures forall k :: k in t.db && k != t.nextId ==> r.table.db[k] == t.db[k]
    ensures IdsMatchKeys(t.db) ==> IdsMatchKeys(r.table.db)
  {
    var link := Link(t.nextId, titulo, url);
    Response(Table(t.db[t.nextId := link], t.nextId + 1), link)
  }

  /** `updateLink` (PUT): store a whole new record under `id`, present or not. */
  function Replace(t: Table, id: int, titulo: Option<string>, url: Option<string>): (r: Response<Link>)
    ensures r.body.id == id && r.body.titulo == titulo && r.body.url == url
    ensures r.table.nextId == t.nextId
    ensures r.table.db.Keys == t.db.Keys + {id}
    ensures r.table.db[id] == r.body
    ensures forall k :: k in t.db && k != id ==> r.table.db[k] == t.db[k]
    ensures IdsMatchKeys(t.db) ==> IdsMatchKeys(r.table.db)
  {
    var link := Link(id, titulo, url);
    Response(Table(t.db[id := link], t.nextId), link)
  }

  /** The record `link` with each supplied field overwritten. */
  function Merge(link: Link, titulo: Option<string>, url: Option<string>): (m: Link)
    ensures m.id == link.id
    ensures titulo.Some? ==> m.titulo == titulo
    ensures titulo.None? ==> m.titulo == link.titulo
    ensures url.Some? ==> m.url == url
    ensures url.None? ==> m.url == link.url
  {
    var withTitulo := if titulo.Some? then link.(titulo := titulo) else link;
    if url.Some? then withTitulo.(url := url) else withTitulo
  }

  /**
   * `patchLink` (PATCH): merge the supplied fields into the record under
   * `id`; when there is none, change nothing and answer nothing.
   */
  function PatchUpdate(t: Table, id: int, titulo: Option<string>, url: Option<string>): (r: Response<Option<Link>>)
    ensures r.body.Some? <==> id in t.db
    ensures id !in t.db ==> r.table == t
    ensures id in t.db ==> r.body.value == Merge(t.db[id], titulo, url) && id in r.table.db && r.table.db[id] == r.body.value
    ensures r.table.nextId == t.nextId && r.table.db.Keys == t.db.Keys
    ensures forall k :: k in t.db && k != id ==> r.table.db[k] == t.db[k]
    ensures IdsMatchKeys(t.db) ==> IdsMatchKeys(r.table.db)
  {
    if id in t.db then
      var merged := Merge(t.db[id], titulo, url);
      Response(Table(t.db[id := merged], t.nextId), Some(merged))
    else
      Response(t, None)
  }

  /** The confirmation `deleteLink` returns. */
  function DeleteMessage(id: int): string {
    "Link " + Decimal.IntToString(id) + " removido"
  }

  /** `deleteLink`: drop the key if it is there; confirm in every case. */
  function Remove(t: Table, id: int): (r: Response<string>)
    ensures r.body == DeleteMessage(id)
    ensures r.table.nextId == t.nextId
    ensures r.table.db.Keys == t.db.Keys - {id}
    ensures forall k :: k in r.table.db ==> r.table.db[k] == t.db[k]
    ensures IdsMatchKeys(t.db) ==> IdsMatchKeys(r.table.db)
  {
    Response(Table(t.db - {id}, t.nextId), DeleteMessage(id))
  }

  /** The confirmation names the id it was given: distinct ids, distinct messages. */
  lemma {:induction false} DeleteMessageInjective(a: int, b: int)
    requires DeleteMessage(a) == DeleteMessage(b)
    ensures a == b
  {
    var sa, sb := Decimal.IntToString(a), Decimal.IntToString(b);
    assert |sa| == |sb| by {
      assert |DeleteMessage(a)| == |sa| + 14;
      assert |DeleteMessage(b)| == |sb| + 14;
    }
    assert sa == DeleteMessage(a)[5..5 + |sa|];
    assert sb == DeleteMessage(b)[5..5 + |sb|];
    Decimal.IntToStringInjective(a, b);
  }

  /** The confirmations the controller's tests expect. */
  lemma DeleteMessageExamples()
    ensures DeleteMessage(1) == "Link 1 removido"
    ensures DeleteMessage(999) == "Link 999 removido"
  {
  }

  /** Deleting twice leaves the same table and gives the same message as deleting once. */
  lemma RemoveIdempotent(t: Table, id: int)
    ensures Remove(Remove(t, id).table, id) == Remove(t, id)
  {
  }

  /** Deleting and then looking up finds nothing; other ids are unaffected. */
  lemma LookupAfterRemove(t: Table, id: int, other: int)
    requires other != id
    ensures Lookup(Remove(t, id).table, id) == None
    ensures Lookup(Remove(t, id).table, other) == Lookup(t, other)
  {
  }

  /** PUT then GET gives back the record PUT answered with. */
  lemma LookupAfterReplace(t: Table, id: int, titulo: Option<string>, url: Option<string>)
    ensures Lookup(Replace(t, id, titulo, url).table, id) == Some(Replace(t, id, titulo, url).body)
  {
  }

  /** A request as the HTTP layer hands it to the controller. */
  datatype Request =
    | Get
    | GetById(id: int)
    | Post(titulo: Option<string>, url: Option<string>)
    | Put(id: int, titulo: Option<string>, url: Option<string>)
    | Patch(id: int, titulo: Option<string>, url: Option<string>)
    | Delete(id: int)

  /** The table after one request. */
  function Apply(t: Table, req: Request): (r: Table)
    ensures req.Post? ==> r.nextId == t.nextId + 1
    ensures !req.Post? ==> r.nextId == t.nextId
    ensures IdsMatchKeys(t.db) ==> IdsMatchKeys(r.db)
  {
    match req
    case Get => t
    case GetById(_) => t
    case Post(titulo, url) => Create(t, titulo, url).table
    case Put(id, titulo, url) => Replace(t, id, titulo, url).table
    case Patch(id, titulo, url) => PatchUpdate(t, id, titulo, url).table
    case Delete(id) => Remove(t, id).table
  }

  /** The table after a sequence of requests, served one at a time. */
  function Run(t: Table, reqs: seq<Request>): Table
    decreases |reqs|
  {
    if reqs == [] then t else Run(Apply(t, reqs[0]), reqs[1..])
  }

  /** The ids that the creates among `reqs` hand out, in order. */
  function CreatedIds(t: Table, reqs: seq<Request>): seq<int>
    decreases |reqs|
  {
    if reqs == [] then []
    else (if reqs[0].Post? then [t.nextId] else []) + CreatedIds(Apply(t, reqs[0]), reqs[1..])
  }

  predicate StrictlyIncreasing(s: seq<int>) {
    forall i, j :: 0 <= i < j < |s| ==> s[i] < s[j]
  }

  /** Whatever the requests, the invariant survives and the counter never goes down. */
  lemma {:induction false} RunPreserves(t: Table, reqs: seq<Request>)
    requires IdsMatchKeys(t.db)
    ensures IdsMatchKeys(Run(t, reqs).db)
    ensures Run(t, reqs).nextId >= t.nextId
    decreases |reqs|
  {
    if reqs != [] {
      RunPreserves(Apply(t, reqs[0]), reqs[1..]);
    }
  }

  /**
   * Every create hands out a fresh id: the ids are strictly increasing,
   * at least the starting counter and below the final one.
   */
  lemma {:induction false} CreatedIdsFresh(t: Table, reqs: seq<Request>)
    ensures StrictlyIncreasing(CreatedIds(t, reqs))
    ensures forall i :: 0 <= i < |CreatedIds(t, reqs)| ==>
      t.nextId <= CreatedIds(t, reqs)[i] < Run(t, reqs).nextId
    ensures |CreatedIds(t, reqs)| == Run(t, reqs).nextId - t.nextId
    decreases |reqs|
  {
    if reqs != [] {
      var next := Apply(t, reqs[0]);
      CreatedIdsFresh(next, reqs[1..]);
    }
  }

  lemma {:induction false} RunAppend(t: Table, pre: seq<Request>, post: seq<Request>)
    ensures Run(t, pre + post) == Run(Run(t, pre), post)
    ensures CreatedIds(t, pre + post) == CreatedIds(t, pre) + CreatedIds(Run(t, pre), post)
    decreases |pre|
  {
    if pre != [] {
      assert (pre + post)[0] == pre[0];
      assert (pre + post)[1..] == pre[1..] + post;
      RunAppend(Apply(t, pre[0]), pre[1..], post);
    } else {
      assert pre + post == post;
    }
  }

  /**
   * An id below the counter when it is deleted (a seed id, or one a create
   * handed out) is never handed out by a create afterwards.
   */
  lemma DeletedIdNotReissued(t: Table, pre: seq<Request>, id: int, post: seq<Request>)
    requires id < Run(t, pre).nextId
    ensures id !in CreatedIds(Run(t, pre + [Delete(id)]), post)
  {
    RunAppend(t, pre, [Delete(id)]);
    var afterDelete := Run(t, pre + [Delete(id)]);
    assert afterDelete.nextId == Run(t, pre).nextId;
    CreatedIdsFresh(afterDelete, post);
  }

  /** Deleting seed id 1, as the unit test does, never lets a create reuse it. */
  lemma SeedIdNotReissued(post: seq<Request>)
    ensures 1 !in CreatedIds(Run(Seeded(), [Delete(1)]), post)
  {
    assert Run(Seeded(), []) == Seeded();
    DeletedIdNotReissued(Seeded(), [], 1, post);
  }

  /**
   * The counter only bounds ids that create handed out: PUT may insert at
   * an id the counter has not reached, and a later create then overwrites it.
   */
  lemma CreateOverwritesPutRecord()
    ensures
      var afterPut := Replace(Seeded(), 3, Some("Google"), Some("https://google.com")).table;
      var created := Create(afterPut, None, None);
      3 in afterPut.db && created.body.id == 3 && created.table.db[3] != afterPut.db[3]
  {
  }
}
