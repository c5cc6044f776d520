/**
 * `LinksController`: the in-memory link store as the Java class keeps it,
 * a table `linksDB` updated in place and a counter `nextId`. Each method
 * is proved against the matching function of `LinkTable`.
 */
module Links {
  import opened Wrappers
  import opened LinkTable

  class LinksController {
    var linksDB: map<int, Link>
    var nextId: int

    ghost predicate Valid()
      reads this
    {
      IdsMatchKeys(linksDB)
    }

    /** The store's contents as a value. */
    ghost function State(): Table
      reads this
    {
      Table(linksDB, nextId)
    }

    /** Seeds the two fixed records and sets the counter to 3. */
    constructor ()
      ensures Valid()
      ensures State() == Seeded()
    {
      // the field initialisers run first
      linksDB := map[];
      nextId := 1;
      new;
      linksDB := linksDB[1 := GitHub];
      linksDB := linksDB[2 := StackOverflow];
      nextId := 3;
    }

    /**
     * `getLinks`: a fresh list of the stored records, copied one by one in
     * the table's own (unspecified) order. Each record appears exactly once.
     */
    method GetLinks() returns (links: seq<Link>)
      requires Valid()
      ensures |links| == |linksDB|
      ensures forall i :: 0 <= i < |links| ==> links[i].id in linksDB && linksDB[links[i].id] == links[i]
      ensures forall k :: k in linksDB ==> linksDB[k] in links
      ensures forall i, j :: 0 <= i < j < |links| ==> links[i].id != links[j].id
    {
      links := [];
      var pending := linksDB.Keys;
      while pending != {}
        invariant pending <= linksDB.Keys
        invariant |links| + |pending| == |linksDB|
        invariant forall i :: 0 <= i < |links| ==>
          links[i].id in linksDB && links[i].id !in pending && linksDB[links[i].id] == links[i]
        invariant forall k :: k in linksDB && k !in pending ==> linksDB[k] in links
        invariant forall i, j :: 0 <= i < j < |links| ==> links[i].id != links[j].id
        decreases pending
      {
        EmptyOrHasKey(pending);
        var key :| key in pending;
        links := links + [linksDB[key]];
        pending := pending - {key};
      }
    }

    /** `getLinkById`: the stored record, or nothing when `id` is not a key. */
    method GetLinkById(id: int) returns (link: Option<Link>)
      requires Valid()
      ensures link == Lookup(State(), id)
      ensures link.Some? ==> link.value.id == id
    {
      link := if id in linksDB then Some(linksDB[id]) else None;
    }

    /** `createLink`: the new record takes the counter's value as its id. */
    method CreateLink(titulo: Option<string>, url: Option<string>) returns (novoLink: Link)
      requires Valid()
      modifies this
      ensures Valid()
      ensures State() == Create(old(State()), titulo, url).table
      ensures novoLink == Create(old(State()), titulo, url).body
      ensures novoLink.id == old(nextId) < nextId
    {
      novoLink := Link(nextId, titulo, url);
      linksDB := linksDB[nextId := novoLink];
      nextId := nextId + 1;
    }

    /** `updateLink` (PUT): stores a whole new record under `id`, whether or not one was there. */
    method UpdateLink(id: int, titulo: Option<string>, url: Option<string>) returns (linkAtualizado: Link)
      requires Valid()
      modifies this
      ensures Valid()
      ensures State() == Replace(old(State()), id, titulo, url).table
      ensures linkAtualizado == Replace(old(State()), id, titulo, url).body
      ensures nextId == old(nextId)
    {
      linkAtualizado := Link(id, titulo, url);
      linksDB := linksDB[id := linkAtualizado];
    }

    /**
     * `patchLink` (PATCH): copies the stored record, overwrites each field
     * the request supplies, and stores the copy; nothing happens for an
     * unknown id.
     */
    method PatchLink(id: int, titulo: Option<string>, url: Option<string>) returns (result: Option<Link>)
      requires Valid()
      modifies this
      ensures Valid()
      ensures State() == PatchUpdate(old(State()), id, titulo, url).table
      ensures result == PatchUpdate(old(State()), id, titulo, url).body
      ensures id !in old(linksDB) ==> result == None && linksDB == old(linksDB)
      ensures nextId == old(nextId)
    {
      if id in linksDB {
        var merged := linksDB[id];
        if titulo.Some? {
          merged := merged.(titulo := titulo);
        }
        if url.Some? {
          merged := merged.(url := url);
        }
        linksDB := linksDB[id := merged];
        result := Some(merged);
      } else {
        result := None;
      }
    }

    /** `deleteLink`: removes `id` if present and confirms either way. */
    method DeleteLink(id: int) returns (message: string)
      requires Valid()
      modifies this
      ensures Valid()
      ensures State() == Remove(old(State()), id).table
      ensures message == Remove(old(State()), id).body
      ensures id !in linksDB && nextId == old(nextId)
    {
      linksDB := linksDB - {id};
      message := DeleteMessage(id);
    }
  }

  /** A set of keys is either empty or has a member to pick. */
  lemma EmptyOrHasKey(keys: set<int>)
    ensures keys == {} || exists k :: k in keys
  {
    if forall k :: k !in keys {
      assert keys == {};
    }
  }

  // The controller's unit tests, each on a fresh controller, replayed
  // against the contracts above.

  method ListScenario()
  {
    var c := new LinksController();
    var all := c.GetLinks();
    assert |all| == 2;
  }

  method GetScenario()
  {
    var c := new LinksController();
    var one := c.GetLinkById(1);
    assert one == Some(GitHub);
    var missing := c.GetLinkById(999);
    assert missing == None;
  }

  method CreateScenario()
  {
    var c := new LinksController();
    var google := c.CreateLink(Some("Google"), Some("https://google.com"));
    assert google == Link(3, Some("Google"), Some("https://google.com"));
    var next := c.CreateLink(None, None);
    assert next.id == 4;
  }

  method UpdateScenario()
  {
    var c := new LinksController();
    var put := c.UpdateLink(1, Some("Novo Título"), Some("https://novo.com"));
    assert put == Link(1, Some("Novo Título"), Some("https://novo.com"));
    var one := c.GetLinkById(1);
    assert one == Some(put);
  }

  method PatchScenario()
  {
    var c := new LinksController();
    var patched := c.PatchLink(2, Some("Título Atualizado"), None);
    assert patched == Some(Link(2, Some("Título Atualizado"), Some("https://stackoverflow.com")));
    var notPatched := c.PatchLink(999, Some("Teste"), None);
    assert notPatched == None;
    var missing := c.GetLinkById(999);
    assert missing == None;
  }

  method DeleteScenario()
  {
    var c := new LinksController();
    DeleteMessageExamples();
    var first := c.DeleteLink(1);
    var second := c.DeleteLink(1);
    assert first == second == "Link 1 removido";
    var one := c.GetLinkById(1);
    assert one == None;
    var absent := c.DeleteLink(999);
    assert absent == "Link 999 removido";
  }
}
