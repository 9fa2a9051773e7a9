/**
 * `getDocumentsByIds` of src/utils/AppUtils.js: read one document per
 * requested id from a collection, all reads together, and keep the records of
 * the documents that exist, in request order. A single failed read turns the
 * whole answer into the empty list.
 *
 * The store is a parameter: `getDoc(collection, id)` says what reading that
 * document gives.
 */
module AppUtils {
  import opened Wrappers
  import opened Values
  import opened Seqs

  /** The outcome of one `getDoc`: an existing document's fields, no such document, or a rejection. */
  datatype Lookup = Found(data: Fields) | Missing | Failed

  /** A snapshot: the requested id, and the stored fields when the document exists. */
  datatype Snapshot = Snapshot(id: string, data: Option<Fields>)

  /** `getDoc(doc(db, collectionName, id))`, with a rejection as `None`. */
  function ReadDoc(collectionName: string, getDoc: (string, string) -> Lookup): string -> Option<Snapshot> {
    (id: string) =>
      match getDoc(collectionName, id)
      case Failed => None
      case Missing => Some(Snapshot(id, None))
      case Found(data) => Some(Snapshot(id, Some(data)))
  }

  /** `.filter(s => s.exists()).map(s => ({ id: s.id, ...s.data() }))`, one snapshot at a time. */
  function ExistingRecord(): Snapshot -> Option<Fields> {
    (snapshot: Snapshot) =>
      if snapshot.data.Some? then Some(WithId(snapshot.id, snapshot.data.value)) else None
  }

  /** Some requested read rejects. */
  predicate AnyFails(collectionName: string, ids: seq<string>, getDoc: (string, string) -> Lookup) {
    exists i :: 0 <= i < |ids| && getDoc(collectionName, ids[i]).Failed?
  }

  function GetDocumentsByIds(collectionName: string, ids: seq<string>, getDoc: (string, string) -> Lookup)
    : (r: seq<Fields>)
    ensures AnyFails(collectionName, ids, getDoc) ==> r == []
    ensures |r| <= |ids|
    ensures ids == [] ==> r == []
  {
    match AllSome(ids, ReadDoc(collectionName, getDoc))
    case None => []
    case Some(snapshots) => FilterMap(snapshots, ExistingRecord())
  }

  // ---------------------------------------------------------------- reference definition

  /** The record for one requested id, read directly from the store, when its document exists. */
  function FoundRecord(collectionName: string, getDoc: (string, string) -> Lookup): string -> Option<Fields> {
    (id: string) =>
      if getDoc(collectionName, id).Found? then Some(WithId(id, getDoc(collectionName, id).data)) else None
  }

  function Exists(collectionName: string, getDoc: (string, string) -> Lookup): string -> bool {
    (id: string) => getDoc(collectionName, id).Found?
  }

  /** The requested ids whose document exists, in request order, repeats included. */
  function FoundIds(collectionName: string, ids: seq<string>, getDoc: (string, string) -> Lookup): (r: seq<string>)
    ensures forall i :: 0 <= i < |r| ==> r[i] in ids && getDoc(collectionName, r[i]).Found?
  {
    var r := Filter(ids, Exists(collectionName, getDoc));
    assert forall i :: 0 <= i < |r| ==> r[i] in r;
    r
  }

  /** A single request that does not fail answers the document's record if it exists, and nothing otherwise. */
  lemma SingleRequest(collectionName: string, id: string, getDoc: (string, string) -> Lookup)
    requires !getDoc(collectionName, id).Failed?
    ensures GetDocumentsByIds(collectionName, [id], getDoc) == FilterMap([id], FoundRecord(collectionName, getDoc))
  {
    var read := ReadDoc(collectionName, getDoc);
    assert [id][1..] == [];
    var snapshots := AllSome([id], read).value;
    assert |snapshots| == 1 && snapshots[0] == read(id).value;
    assert snapshots == [read(id).value];
    assert [read(id).value][1..] == [];
  }

  /**
   * When no read fails, the answer is the record of each requested id whose
   * document exists, in request order.
   */
  lemma {:induction false} AnswerIsFoundRecords(collectionName: string, ids: seq<string>, getDoc: (string, string) -> Lookup)
    requires !AnyFails(collectionName, ids, getDoc)
    ensures GetDocumentsByIds(collectionName, ids, getDoc) == FilterMap(ids, FoundRecord(collectionName, getDoc))
    decreases |ids|
  {
    if ids != [] {
      var x, rest := ids[0], ids[1..];
      assert ids == [x] + rest;
      assert !AnyFails(collectionName, rest, getDoc) by {
        forall i | 0 <= i < |rest|
          ensures !getDoc(collectionName, rest[i]).Failed?
        {
          assert rest[i] == ids[i + 1];
        }
      }
      assert !getDoc(collectionName, x).Failed?;
      AnswerIsFoundRecords(collectionName, rest, getDoc);
      SingleRequest(collectionName, x, getDoc);
      GetDocumentsAppend(collectionName, [x], rest, getDoc);
      FilterMapAppend([x], rest, FoundRecord(collectionName, getDoc));
    }
  }

  /**
   * When no read fails, the answer holds one record per requested id whose
   * document exists, in request order: the stored fields, with `id` the
   * requested id unless a stored field named "id" replaces it.
   */
  lemma RecordsFollowFoundIds(collectionName: string, ids: seq<string>, getDoc: (string, string) -> Lookup)
    requires !AnyFails(collectionName, ids, getDoc)
    ensures var r := GetDocumentsByIds(collectionName, ids, getDoc);
            var found := FoundIds(collectionName, ids, getDoc);
            && |r| == |found|
            && forall i :: 0 <= i < |found| ==> r[i] == WithId(found[i], getDoc(collectionName, found[i]).data)
  {
    AnswerIsFoundRecords(collectionName, ids, getDoc);
    FilterMapIsFilterThenMap(ids, FoundRecord(collectionName, getDoc), Exists(collectionName, getDoc));
  }

  /** Every record's `id` is the requested id, unless the stored fields carry their own "id". */
  lemma RecordIdIsRequestedId(collectionName: string, ids: seq<string>, getDoc: (string, string) -> Lookup, i: int)
    requires !AnyFails(collectionName, ids, getDoc)
    requires 0 <= i < |FoundIds(collectionName, ids, getDoc)|
    ensures |GetDocumentsByIds(collectionName, ids, getDoc)| == |FoundIds(collectionName, ids, getDoc)|
    ensures var id := FoundIds(collectionName, ids, getDoc)[i];
            var data := getDoc(collectionName, id).data;
            && id in ids
            && GetDocumentsByIds(collectionName, ids, getDoc)[i].Keys == data.Keys + {"id"}
            && ("id" !in data ==> GetDocumentsByIds(collectionName, ids, getDoc)[i]["id"] == Str(id))
  {
    RecordsFollowFoundIds(collectionName, ids, getDoc);
    var id := FoundIds(collectionName, ids, getDoc)[i];
    var record := WithId(id, getDoc(collectionName, id).data);
    assert GetDocumentsByIds(collectionName, ids, getDoc)[i] == record;
  }

  /**
   * Requesting two runs of ids is requesting each run and concatenating the
   * answers, unless a read fails, which empties the whole answer.
   */
  lemma GetDocumentsAppend(collectionName: string, a: seq<string>, b: seq<string>, getDoc: (string, string) -> Lookup)
    ensures GetDocumentsByIds(collectionName, a + b, getDoc) ==
            if AnyFails(collectionName, a, getDoc) || AnyFails(collectionName, b, getDoc) then []
            else GetDocumentsByIds(collectionName, a, getDoc) + GetDocumentsByIds(collectionName, b, getDoc)
  {
    var read := ReadDoc(collectionName, getDoc);
    var ab := a + b;
    if AnyFails(collectionName, a, getDoc) {
      var i :| 0 <= i < |a| && getDoc(collectionName, a[i]).Failed?;
      assert ab[i] == a[i];
    } else if AnyFails(collectionName, b, getDoc) {
      var i :| 0 <= i < |b| && getDoc(collectionName, b[i]).Failed?;
      assert ab[|a| + i] == b[i];
    } else {
      AllSomeAppend(a, b, read);
      FilterMapAppend(AllSome(a, read).value, AllSome(b, read).value, ExistingRecord());
    }
  }

  /** A repeated id yields its record twice. */
  lemma RepeatedIdRepeatsRecord(collectionName: string, id: string, getDoc: (string, string) -> Lookup)
    requires getDoc(collectionName, id).Found?
    ensures var once := GetDocumentsByIds(collectionName, [id], getDoc);
            && |once| == 1
            && GetDocumentsByIds(collectionName, [id, id], getDoc) == once + once
  {
    GetDocumentsAppend(collectionName, [id], [id], getDoc);
    assert [id] + [id] == [id, id];
    SingleRequest(collectionName, id, getDoc);
    assert [id][1..] == [];
  }
}
