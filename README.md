# Useful-links store: a Dafny model

This project models the in-memory link store behind the `/api/links` REST
controller of the "api-links-uteis" service (`LinksController`). The store is
a table from an integer id to a link record (`id`, `titulo`, `url`) plus an id
counter `nextId`. The constructor seeds two records (GitHub and Stack
Overflow) and sets the counter to 3. Six operations read or change the store:
list all, get by id, create (POST), full replace (PUT), field-merging partial
update (PATCH) and delete.

Files:

- `wrappers.dfy`: `Option`, which stands for Java's `null`.
- `decimal.dfy`: the decimal rendering of an `int` that Java's string
  concatenation uses in the delete message. It comes with its inverse and a
  round-trip proof.
- `link_table.dfy`: the store as values. It defines the record and table
  datatypes and one function per operation. It also defines the invariant
  that every record's `id` is its key. Lemmas cover what holds across several
  operations: the counter never decreases, created ids are fresh, an id
  deleted while below the counter (a seed id or one a create handed out) is
  not handed out again, and delete is idempotent.
- `links_controller.dfy`: the class `LinksController` with the mutable fields
  `linksDB` and `nextId`. Each method updates them in place and is proved
  against the matching `LinkTable` function. The scenario methods
  (`ListScenario` … `DeleteScenario`) replay the controller's unit tests, each
  on a fresh controller, against the method contracts. A few extra checks sit
  beside them: a second create gives id 4, deleting twice gives the same
  message, and deleting id 999 confirms "Link 999 removido".

A request body's `titulo`/`url` arrives as two `Option<string>` arguments. A
field the body does not carry is `None`. Create and PUT store that `None` as
given, and PATCH treats it as "keep the old value".

One might expect ids never to be reused and `nextId` to exceed every id in
use. The code does not guarantee this: PUT inserts at any id without a check
(LinksController.java:98), so it can place a record at an id the counter has
not reached yet. A later create then overwrites that record (line 81).
`LinkTable.CreateOverwritesPutRecord` shows this on the seeded table. What the
model proves instead is narrower. Every id below the counter when it is
deleted (the seed ids and every id a create handed out) is never handed out
by a create again. Ids handed out by create strictly increase. Every stored
record keeps its key as its id.

## Model

| member | source | states |
|---|---|---|
| `LinkTable.Seeded` | src/main/java/br/com/fatec/api_links_uteis/controller/LinksController.java:44-49 | the seeded table holds exactly ids 1 and 2 (GitHub, https://github.com; Stack Overflow, https://stackoverflow.com), so listing gives 2 records; each record's id is its key and the counter is 3 |
| `LinkTable.Lookup` | src/main/java/br/com/fatec/api_links_uteis/controller/LinksController.java:63-66 | the lookup finds a record exactly when the id is a key, and that record is the stored one; under the invariant its id is the requested id |
| `LinkTable.Create` | src/main/java/br/com/fatec/api_links_uteis/controller/LinksController.java:72-85 | create stores Link(old counter, titulo, url) under the old counter and returns it; the counter goes up by one; the key set gains only that key; other records are unchanged; the id/key invariant is preserved |
| `LinkTable.Replace` | src/main/java/br/com/fatec/api_links_uteis/controller/LinksController.java:89-100 | PUT stores and returns Link(id, titulo, url) whether or not id was present; absent fields stay absent; other records and the counter are unchanged; the invariant is preserved |
| `LinkTable.Merge` | src/main/java/br/com/fatec/api_links_uteis/controller/LinksController.java:109-111 | each supplied field replaces the old one and each missing field keeps the old value; the id is kept |
| `LinkTable.PatchUpdate` | src/main/java/br/com/fatec/api_links_uteis/controller/LinksController.java:104-118 | PATCH answers a record exactly when the id is a key; for a missing id the table is untouched and no record is created; otherwise the merged record is stored and returned; keys, counter and other records are unchanged; the invariant is preserved |
| `LinkTable.Remove` | src/main/java/br/com/fatec/api_links_uteis/controller/LinksController.java:122-126 | delete removes the key (a no-op when absent), leaves other records and the counter alone, preserves the invariant, and always answers "Link <id> removido" |
| `LinkTable.DeleteMessageInjective` | src/main/java/br/com/fatec/api_links_uteis/controller/LinksController.java:125 | two delete confirmations are equal only for the same id |
| `LinkTable.RemoveIdempotent` | src/main/java/br/com/fatec/api_links_uteis/controller/LinksController.java:122-126 | deleting the same id twice gives the same table and the same message as deleting once |
| `LinkTable.LookupAfterRemove` | src/main/java/br/com/fatec/api_links_uteis/controller/LinksController.java:122-126 | after deleting an id, getting it finds nothing, and getting any other id is unaffected |
| `LinkTable.LookupAfterReplace` | src/main/java/br/com/fatec/api_links_uteis/controller/LinksController.java:89-100 | after a PUT, getting the id returns the record the PUT answered with |
| `LinkTable.Apply` | src/main/java/br/com/fatec/api_links_uteis/controller/LinksController.java:54-126 | a create advances the counter by exactly one; every other request leaves it as it was; every request preserves the id/key invariant |
| `LinkTable.RunPreserves` | src/main/java/br/com/fatec/api_links_uteis/controller/LinksController.java:42-126 | over any sequence of requests the id/key invariant survives and the counter never decreases |
| `LinkTable.CreatedIdsFresh` | src/main/java/br/com/fatec/api_links_uteis/controller/LinksController.java:81-82 | over any sequence of requests the ids handed out by creates strictly increase; each lies between the starting and final counters; there is one per counter step |
| `LinkTable.DeletedIdNotReissued` | src/main/java/br/com/fatec/api_links_uteis/controller/LinksController.java:81-82 | an id below the counter when it is deleted (a seed id or one a create handed out) is never handed out by a create again, whatever requests follow |
| `LinkTable.SeedIdNotReissued` | src/test/java/br/com/fatec/api_links_uteis/controller/LinksControllerTest.java:105-110 | after the seeded id 1 is deleted, no sequence of later requests makes a create hand out id 1 |
| `LinkTable.DeleteMessageExamples` | src/main/java/br/com/fatec/api_links_uteis/controller/LinksController.java:125 | deleting id 1 confirms "Link 1 removido" and deleting id 999 confirms "Link 999 removido" |
| `LinkTable.CreateOverwritesPutRecord` | src/main/java/br/com/fatec/api_links_uteis/controller/LinksController.java:81 | on the seeded table, a PUT at id 3 followed by a create lands the create on id 3 and replaces the PUT's record; the counter does not bound ids that PUT inserted |
| `Decimal.NatToString` | src/main/java/br/com/fatec/api_links_uteis/controller/LinksController.java:125 | the rendering of a non-negative id is a non-empty string of digits with no leading zero; 0 renders as "0" |
| `Decimal.IntToString` | src/main/java/br/com/fatec/api_links_uteis/controller/LinksController.java:125 | the rendering of an id starts with '-' exactly when the id is negative; the rest is digits with no leading zero, so 0 renders as "0" |
| `Decimal.NatToStringRoundTrip` | src/main/java/br/com/fatec/api_links_uteis/controller/LinksController.java:125 | the digits read back give the number rendered |
| `Decimal.IntToStringRoundTrip` | src/main/java/br/com/fatec/api_links_uteis/controller/LinksController.java:125 | parsing the rendering of any int gives back that int |
| `Decimal.IntToStringInjective` | src/main/java/br/com/fatec/api_links_uteis/controller/LinksController.java:125 | different ids render differently |
| `Links.LinksController.constructor` | src/main/java/br/com/fatec/api_links_uteis/controller/LinksController.java:41-49 | the field initialisers run, then the two seed records are put and the counter set to 3; the result is the seeded table and satisfies the invariant |
| `Links.LinksController.GetLinks` | src/main/java/br/com/fatec/api_links_uteis/controller/LinksController.java:54-57 | the list holds as many records as the table has keys; each is the record stored under its own id; every stored record is in it, and no id occurs twice; the order is unspecified |
| `Links.LinksController.GetLinkById` | src/main/java/br/com/fatec/api_links_uteis/controller/LinksController.java:63-66 | the answer is the stored record or nothing, per Lookup, and carries the requested id; the store is not changed |
| `Links.LinksController.CreateLink` | src/main/java/br/com/fatec/api_links_uteis/controller/LinksController.java:72-85 | the new state and the answer are those of Create; the returned id is the old counter, which is now strictly smaller than the counter; the invariant holds |
| `Links.LinksController.UpdateLink` | src/main/java/br/com/fatec/api_links_uteis/controller/LinksController.java:89-100 | the new state and the answer are those of Replace; the counter is unchanged; the invariant holds |
| `Links.LinksController.PatchLink` | src/main/java/br/com/fatec/api_links_uteis/controller/LinksController.java:104-118 | the record is copied, each supplied field is overwritten, and the copy is stored; the new state and the answer are those of PatchUpdate; for a missing id nothing changes and nothing is returned; the invariant holds |
| `Links.LinksController.DeleteLink` | src/main/java/br/com/fatec/api_links_uteis/controller/LinksController.java:122-126 | the new state and the message are those of Remove; the id is no longer a key and the counter is unchanged; the invariant holds |

## Left out

- Spring routing, annotations and JSON conversion are framework I/O. This includes turning a `null` answer into an empty 200 body. The model returns `None`.
- The order of `getLinks` is `java.util.HashMap` iteration order, an implementation detail. `GetLinks` takes the keys in an unspecified order. So the model does not promise that GitHub comes before Stack Overflow in the list.
- The id is stored as a string inside the record (`String.valueOf`). This is a serialisation detail, so the model keeps it as an `int`.
- Java `int` overflow of `nextId++` is not modelled. The counter is an unbounded integer.
- Aliasing is not modelled. The Java records are mutable maps, and create/PUT/PATCH hand the caller the same object they store. The model treats records as values, so a caller mutating a returned record cannot affect the store.
- The seed records are immutable `Map.of` maps in Java. This makes no difference, because PATCH copies a record before writing to it.
- The `HashMap` is unsynchronised. Concurrent requests are not modelled, and every operation runs alone.
- A missing or malformed request body is rejected by the framework before the controller runs, so the model has no case for it.
- `HelloController.hello` only returns the constant "Olá Fatec", so it is not modelled.
