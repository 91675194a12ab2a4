/** The two MongoDB collections the site uses, as in-memory sequences of
    documents, and the collection operations app/main.py performs on them: `insert_one`, `insert_many`,
    `find({"featured": True}).limit(n)` and `delete_one({"_id": id})`.
    The order of a sequence stands for the order an unsorted `find` returns;
    the model takes it to be insertion order. */
module Store {
  import opened Models

  /** A document of "projects": the id the store assigned and the fields of
      the inserted ProjectCreate. */
  datatype ProjectDoc = ProjectDoc(id: ObjectId, body: ProjectCreate)

  /** A document of "contacts". */
  datatype ContactDoc = ContactDoc(id: ObjectId, body: ContactCreate)

  /** Both collections, and the serial of the next id to hand out. */
  datatype Store = Store(projects: seq<ProjectDoc>, contacts: seq<ContactDoc>, nextSerial: nat)

  const EmptyStore: Store := Store([], [], 0)

  predicate ProjectIdsDistinct(docs: seq<ProjectDoc>) {
    forall a, b :: 0 <= a < b < |docs| ==> docs[a].id != docs[b].id
  }

  predicate ContactIdsDistinct(docs: seq<ContactDoc>) {
    forall a, b :: 0 <= a < b < |docs| ==> docs[a].id != docs[b].id
  }

  /** Every id was handed out before and no id occurs twice in a collection. */
  predicate WellFormed(st: Store) {
    && (forall k :: 0 <= k < |st.projects| ==> st.projects[k].id.serial < st.nextSerial)
    && (forall k :: 0 <= k < |st.contacts| ==> st.contacts[k].id.serial < st.nextSerial)
    && ProjectIdsDistinct(st.projects)
    && ContactIdsDistinct(st.contacts)
  }

  /** `insert_one` on "projects": the document goes last, under a fresh id. */
  function InsertProject(st: Store, body: ProjectCreate): (r: (Store, ObjectId))
    ensures r.0.projects == st.projects + [ProjectDoc(r.1, body)]
    ensures r.0.contacts == st.contacts
    ensures WellFormed(st) ==> WellFormed(r.0)
    ensures WellFormed(st) ==> forall k :: 0 <= k < |st.projects| ==> st.projects[k].id != r.1
  {
    var id := ObjectId(st.nextSerial);
    (st.(projects := st.projects + [ProjectDoc(id, body)], nextSerial := st.nextSerial + 1), id)
  }

  /** `insert_one` on "contacts". */
  function InsertContact(st: Store, body: ContactCreate): (r: (Store, ObjectId))
    ensures r.0.contacts == st.contacts + [ContactDoc(r.1, body)]
    ensures r.0.projects == st.projects
    ensures WellFormed(st) ==> WellFormed(r.0)
    ensures WellFormed(st) ==> forall k :: 0 <= k < |st.contacts| ==> st.contacts[k].id != r.1
  {
    var id := ObjectId(st.nextSerial);
    (st.(contacts := st.contacts + [ContactDoc(id, body)], nextSerial := st.nextSerial + 1), id)
  }

  /** `insert_many` on "projects": the documents go last, in order. */
  function InsertManyProjects(st: Store, bodies: seq<ProjectCreate>): (r: Store)
    ensures |r.projects| == |st.projects| + |bodies|
    ensures r.projects[..|st.projects|] == st.projects
    ensures forall k :: 0 <= k < |bodies| ==> r.projects[|st.projects| + k].body == bodies[k]
    ensures r.contacts == st.contacts
    ensures WellFormed(st) ==> WellFormed(r)
    decreases |bodies|
  {
    if bodies == [] then st
    else
      var next := InsertProject(st, bodies[0]).0;
      var r := InsertManyProjects(next, bodies[1..]);
      assert r.projects[..|st.projects|] == next.projects[..|next.projects|][..|st.projects|];
      r
  }

  /** The featured documents, in collection order. */
  function Featured(docs: seq<ProjectDoc>): (r: seq<ProjectDoc>)
    ensures |r| <= |docs|
    ensures forall k :: 0 <= k < |r| ==> r[k].body.featured && r[k] in docs
    ensures forall k :: 0 <= k < |docs| && docs[k].body.featured ==> docs[k] in r
  {
    if docs == [] then []
    else if docs[0].body.featured then [docs[0]] + Featured(docs[1..])
    else Featured(docs[1..])
  }

  /** A cursor over `find({"featured": True})` that stops after `n` results. */
  function TakeFeatured(docs: seq<ProjectDoc>, n: nat): (r: seq<ProjectDoc>)
    ensures |r| <= n
    ensures forall k :: 0 <= k < |r| ==> r[k].body.featured && r[k] in docs
  {
    if docs == [] || n == 0 then []
    else if docs[0].body.featured then [docs[0]] + TakeFeatured(docs[1..], n - 1)
    else TakeFeatured(docs[1..], n)
  }

  /** `find({"featured": True}).limit(limit)`; a limit of 0 means no limit. */
  function FindFeatured(docs: seq<ProjectDoc>, limit: nat): (r: seq<ProjectDoc>)
    ensures limit > 0 ==> |r| <= limit
    ensures forall k :: 0 <= k < |r| ==> r[k].body.featured && r[k] in docs
  {
    if limit == 0 then Featured(docs) else TakeFeatured(docs, limit)
  }

  function Min(a: nat, b: nat): nat {
    if a <= b then a else b
  }

  lemma {:induction false} TakeFeaturedIsPrefix(docs: seq<ProjectDoc>, n: nat)
    ensures n <= |Featured(docs)| ==> TakeFeatured(docs, n) == Featured(docs)[..n]
    ensures n > |Featured(docs)| ==> TakeFeatured(docs, n) == Featured(docs)
  {
    if docs != [] && n != 0 {
      TakeFeaturedIsPrefix(docs[1..], if docs[0].body.featured then n - 1 else n);
    }
  }

  /** The limited query returns the first `limit` featured documents, or
      all of them when there are fewer. */
  lemma FindFeaturedIsPrefix(docs: seq<ProjectDoc>, limit: nat)
    ensures var r := FindFeatured(docs, limit);
      && (limit == 0 ==> r == Featured(docs))
      && (limit > 0 ==> |r| == Min(limit, |Featured(docs)|) && r == Featured(docs)[..|r|])
  {
    TakeFeaturedIsPrefix(docs, limit);
  }

  /** `delete_one({"_id": id})`: removes the first document with that id and
      reports how many were removed. */
  function DeleteOne(docs: seq<ProjectDoc>, id: ObjectId): (r: (seq<ProjectDoc>, nat))
    ensures r.1 <= 1
    ensures r.1 == 1 <==> exists k :: 0 <= k < |docs| && docs[k].id == id
    ensures r.1 == 0 ==> r.0 == docs
    ensures r.1 == 1 ==> |r.0| == |docs| - 1
    ensures forall k :: 0 <= k < |r.0| ==> r.0[k] in docs
  {
    if docs == [] then ([], 0)
    else if docs[0].id == id then (docs[1..], 1)
    else
      var rest := DeleteOne(docs[1..], id);
      assert forall k :: 1 <= k < |docs| ==> docs[1..][k - 1] == docs[k];
      ([docs[0]] + rest.0, rest.1)
  }

  /** The documents whose id differs from `id`, in order. */
  function Without(docs: seq<ProjectDoc>, id: ObjectId): (r: seq<ProjectDoc>)
    ensures forall k :: 0 <= k < |r| ==> r[k].id != id && r[k] in docs
    ensures forall k :: 0 <= k < |docs| && docs[k].id != id ==> docs[k] in r
  {
    if docs == [] then []
    else if docs[0].id == id then Without(docs[1..], id)
    else [docs[0]] + Without(docs[1..], id)
  }

  lemma {:induction false} WithoutAbsent(docs: seq<ProjectDoc>, id: ObjectId)
    requires forall k :: 0 <= k < |docs| ==> docs[k].id != id
    ensures Without(docs, id) == docs
  {
    if docs != [] {
      WithoutAbsent(docs[1..], id);
    }
  }

  /** With distinct ids, deleting one document with `id` leaves exactly
      the documents with other ids, in their order, and ids stay distinct. */
  lemma {:induction false} DeleteOneRemovesId(docs: seq<ProjectDoc>, id: ObjectId)
    requires ProjectIdsDistinct(docs)
    ensures DeleteOne(docs, id).0 == Without(docs, id)
    ensures ProjectIdsDistinct(DeleteOne(docs, id).0)
  {
    if docs != [] {
      assert ProjectIdsDistinct(docs[1..]) by {
        forall a, b | 0 <= a < b < |docs[1..]| ensures docs[1..][a].id != docs[1..][b].id {
          assert docs[1..][a] == docs[a + 1] && docs[1..][b] == docs[b + 1];
        }
      }
      if docs[0].id == id {
        assert forall k :: 0 <= k < |docs[1..]| ==> docs[1..][k].id != id by {
          forall k | 0 <= k < |docs[1..]| ensures docs[1..][k].id != id {
            assert docs[1..][k] == docs[k + 1];
          }
        }
        WithoutAbsent(docs[1..], id);
      } else {
        DeleteOneRemovesId(docs[1..], id);
        var rest := DeleteOne(docs[1..], id).0;
        var r := [docs[0]] + rest;
        forall a, b | 0 <= a < b < |r| ensures r[a].id != r[b].id {
          if a == 0 {
            assert r[b] == rest[b - 1] && rest[b - 1] in docs[1..];
            var j :| 0 <= j < |docs[1..]| && docs[1..][j] == rest[b - 1];
            assert docs[j + 1] == rest[b - 1];
          } else {
            assert r[a] == rest[a - 1] && r[b] == rest[b - 1];
          }
        }
      }
    }
  }

  /** Deleting a document keeps the store well formed. */
  lemma DeletePreservesWellFormed(st: Store, id: ObjectId)
    requires WellFormed(st)
    ensures WellFormed(st.(projects := DeleteOne(st.projects, id).0))
  {
    DeleteOneRemovesId(st.projects, id);
    var rest := DeleteOne(st.projects, id).0;
    forall k | 0 <= k < |rest| ensures rest[k].id.serial < st.nextSerial {
      var j :| 0 <= j < |st.projects| && st.projects[j] == rest[k];
    }
  }
}
