/**
 * The document hooks: documents and their program assignments, which live in the
 * association table `document_programs` rather than on the document row.
 */
module DocumentHooks {
  import opened Outcomes
  import opened Types
  import opened Store
  import opened Seqs

  // ---------------------------------------------------------------- the association table

  /** The program ids of `docId`'s association rows, in table order. */
  function LinkedProgramIds(links: seq<LinkRow>, docId: string): (ids: seq<string>)
    ensures |ids| <= |links|
    ensures forall i :: 0 <= i < |ids| ==> LinkRow(docId, ids[i]) in links
    ensures (forall l :: l in links ==> l.documentId != docId) ==> ids == []
  {
    if links == [] then []
    else (if links[0].documentId == docId then [links[0].programId] else []) + LinkedProgramIds(links[1..], docId)
  }

  /** One association row per listed program id, in list order. */
  function LinksFor(docId: string, programIds: seq<string>): (r: seq<LinkRow>)
    ensures |r| == |programIds|
    ensures forall i :: 0 <= i < |r| ==> r[i] == LinkRow(docId, programIds[i])
  {
    if programIds == [] then [] else [LinkRow(docId, programIds[0])] + LinksFor(docId, programIds[1..])
  }

  /** `.from("document_programs").delete().eq("document_id", docId)`. */
  function Unlink(links: seq<LinkRow>, docId: string): (r: seq<LinkRow>)
    ensures forall i :: 0 <= i < |r| ==> r[i].documentId != docId
    ensures forall x :: x in r <==> x in links && x.documentId != docId
  {
    if links == [] then []
    else (if links[0].documentId == docId then [] else [links[0]]) + Unlink(links[1..], docId)
  }

  lemma {:induction false} LinkedAppend(a: seq<LinkRow>, b: seq<LinkRow>, d: string)
    ensures LinkedProgramIds(a + b, d) == LinkedProgramIds(a, d) + LinkedProgramIds(b, d)
  {
    if a != [] {
      assert (a + b)[1..] == a[1..] + b;
      LinkedAppend(a[1..], b, d);
    } else {
      assert a + b == b;
    }
  }

  /** The rows made for `d` read back as exactly the listed ids, and as nothing for any other document. */
  lemma {:induction false} LinkedOfLinksFor(d: string, ids: seq<string>, e: string)
    ensures LinkedProgramIds(LinksFor(d, ids), e) == if e == d then ids else []
  {
    if ids != [] {
      var r := LinksFor(d, ids);
      assert r[1..] == LinksFor(d, ids[1..]);
      LinkedOfLinksFor(d, ids[1..], e);
    }
  }

  /** After the delete, `d` has no associations and every other document keeps its own. */
  lemma {:induction false} UnlinkClears(links: seq<LinkRow>, d: string, e: string)
    ensures LinkedProgramIds(Unlink(links, d), e) == if e == d then [] else LinkedProgramIds(links, e)
  {
    if links != [] {
      UnlinkClears(links[1..], d, e);
      var head := if links[0].documentId == d then [] else [links[0]];
      LinkedAppend(head, Unlink(links[1..], d), e);
    }
  }

  /**
   * The association replacement (delete all of the document's rows, then insert one per id):
   * reading the document back gives exactly the new list, the empty list included, and no
   * other document's associations change.
   */
  lemma ReplaceLinksReadsBack(links: seq<LinkRow>, d: string, ids: seq<string>)
    ensures LinkedProgramIds(Unlink(links, d) + LinksFor(d, ids), d) == ids
    ensures forall e :: e != d ==> LinkedProgramIds(Unlink(links, d) + LinksFor(d, ids), e) == LinkedProgramIds(links, e)
  {
    forall e
      ensures LinkedProgramIds(Unlink(links, d) + LinksFor(d, ids), e)
           == (if e == d then [] else LinkedProgramIds(links, e)) + (if e == d then ids else [])
    {
      LinkedAppend(Unlink(links, d), LinksFor(d, ids), e);
      UnlinkClears(links, d, e);
      LinkedOfLinksFor(d, ids, e);
    }
    assert [] + ids == ids;
    forall e | e != d
      ensures LinkedProgramIds(links, e) + [] == LinkedProgramIds(links, e)
    {
    }
  }

  /**
   * The delete's result is never checked: when it fails the new rows are added beside the
   * old ones, and the read-back lists the old assignments followed by the new ones.
   */
  lemma StaleLinksSurviveFailedUnlink(links: seq<LinkRow>, d: string, ids: seq<string>)
    ensures LinkedProgramIds(links + LinksFor(d, ids), d) == LinkedProgramIds(links, d) + ids
  {
    LinkedAppend(links, LinksFor(d, ids), d);
    LinkedOfLinksFor(d, ids, d);
  }

  // ---------------------------------------------------------------- rows and records

  /**
   * transformDocument: the document with its assignments read from the association table.
   * When that read fails (`data` is null) the assignments are [].
   */
  function ToDocument(row: DocumentRow, links: seq<LinkRow>, linkReadFails: bool): Document
  {
    Document(row.id, row.name, row.docType, row.status,
             if linkReadFails then [] else LinkedProgramIds(links, row.id),
             row.lastModified, row.wordCount, row.fileUrl)
  }

  /** The row a create inserts: owner, fields, and `last_modified` set to the clock's `now`. */
  function InsertedRow(id: string, userId: string, now: Instant, d: NewDocument): DocumentRow
  {
    DocumentRow(id, userId, d.name, d.docType, d.status, now, d.wordCount, d.fileUrl)
  }

  /** `updateData`: the columns an update writes. */
  datatype DocumentPatch = DocumentPatch(
    name: Option<string>,
    docType: Option<DocumentType>,
    status: Option<DocumentStatus>,
    lastModified: Option<Instant>,
    wordCount: Option<int>,
    fileUrl: Option<string>)

  /** Copies each defined field; `id` and `assignedProgramIds` are never copied. */
  function UpdateData(u: DocumentUpdate): DocumentPatch
  {
    DocumentPatch(u.name, u.docType, u.status, u.lastModified, u.wordCount, u.fileUrl)
  }

  function Apply(row: DocumentRow, d: DocumentPatch): DocumentRow
  {
    row.(name := if d.name.Some? then d.name.value else row.name,
         docType := if d.docType.Some? then d.docType.value else row.docType,
         status := if d.status.Some? then d.status.value else row.status,
         lastModified := if d.lastModified.Some? then d.lastModified.value else row.lastModified,
         wordCount := if d.wordCount.Some? then d.wordCount else row.wordCount,
         fileUrl := if d.fileUrl.Some? then d.fileUrl else row.fileUrl)
  }

  /** An update writes the defined fields, keeps every other column, and never changes id or owner. */
  lemma UpdateWritesDefinedFields(row: DocumentRow, u: DocumentUpdate)
    ensures Apply(row, UpdateData(u)).id == row.id && Apply(row, UpdateData(u)).userId == row.userId
    ensures u.name.Some? ==> Apply(row, UpdateData(u)).name == u.name.value
    ensures u.name.None? ==> Apply(row, UpdateData(u)).name == row.name
    ensures u.docType.Some? ==> Apply(row, UpdateData(u)).docType == u.docType.value
    ensures u.docType.None? ==> Apply(row, UpdateData(u)).docType == row.docType
    ensures u.status.Some? ==> Apply(row, UpdateData(u)).status == u.status.value
    ensures u.status.None? ==> Apply(row, UpdateData(u)).status == row.status
    ensures u.lastModified.Some? ==> Apply(row, UpdateData(u)).lastModified == u.lastModified.value
    ensures u.lastModified.None? ==> Apply(row, UpdateData(u)).lastModified == row.lastModified
    ensures u.wordCount.Some? ==> Apply(row, UpdateData(u)).wordCount == u.wordCount
    ensures u.wordCount.None? ==> Apply(row, UpdateData(u)).wordCount == row.wordCount
    ensures u.fileUrl.Some? ==> Apply(row, UpdateData(u)).fileUrl == u.fileUrl
    ensures u.fileUrl.None? ==> Apply(row, UpdateData(u)).fileUrl == row.fileUrl
    ensures Apply(Apply(row, UpdateData(u)), UpdateData(u)) == Apply(row, UpdateData(u))
  {
  }

  // ---------------------------------------------------------------- the documents table

  predicate Matches(r: DocumentRow, id: string, user: string) { r.id == id && r.userId == user }

  /** Rows matching `.eq("id", id).eq("user_id", user)`. */
  function MatchCount(docs: seq<DocumentRow>, id: string, user: string): nat
  {
    if docs == [] then 0 else (if Matches(docs[0], id, user) then 1 else 0) + MatchCount(docs[1..], id, user)
  }

  function FindMatch(docs: seq<DocumentRow>, id: string, user: string): (k: nat)
    requires MatchCount(docs, id, user) >= 1
    ensures k < |docs| && Matches(docs[k], id, user)
  {
    if Matches(docs[0], id, user) then 0 else 1 + FindMatch(docs[1..], id, user)
  }

  /** `.update(d).eq("id", id).eq("user_id", user)`. */
  function PatchMatching(docs: seq<DocumentRow>, id: string, user: string, d: DocumentPatch): (r: seq<DocumentRow>)
    ensures |r| == |docs|
    ensures forall i :: 0 <= i < |docs| ==> r[i] == if Matches(docs[i], id, user) then Apply(docs[i], d) else docs[i]
  {
    if docs == [] then []
    else [if Matches(docs[0], id, user) then Apply(docs[0], d) else docs[0]] + PatchMatching(docs[1..], id, user, d)
  }

  /** `.delete().eq("id", id).eq("user_id", user)`: removes the matching rows and no other. */
  function RemoveMatching(docs: seq<DocumentRow>, id: string, user: string): (r: seq<DocumentRow>)
    ensures forall x :: x in r <==> x in docs && !Matches(x, id, user)
  {
    if docs == [] then []
    else (if Matches(docs[0], id, user) then [] else [docs[0]]) + RemoveMatching(docs[1..], id, user)
  }

  /** The rows owned by `user`, in table order. */
  function OwnedBy(docs: seq<DocumentRow>, user: string): (r: seq<DocumentRow>)
    ensures forall x :: x in r <==> x in docs && x.userId == user
  {
    if docs == [] then []
    else (if docs[0].userId == user then [docs[0]] else []) + OwnedBy(docs[1..], user)
  }

  /** The sort key of `.order("last_modified", { ascending: false })`. */
  function NewestFirst(r: DocumentRow): int { -r.lastModified }

  /** `data.map(transformDocument)`: one record per row, in row order. */
  function ToDocuments(rows: seq<DocumentRow>, links: seq<LinkRow>, linkReadFails: bool): (r: seq<Document>)
    ensures |r| == |rows|
    ensures forall i :: 0 <= i < |rows| ==> r[i] == ToDocument(rows[i], links, linkReadFails)
  {
    if rows == [] then [] else [ToDocument(rows[0], links, linkReadFails)] + ToDocuments(rows[1..], links, linkReadFails)
  }

  /** The caller's rows, most recently modified first. */
  function NewestOwned(docs: seq<DocumentRow>, user: string): (rows: seq<DocumentRow>)
    ensures |rows| == |OwnedBy(docs, user)|
    ensures forall x :: x in rows <==> x in docs && x.userId == user
    ensures forall i, j :: 0 <= i < j < |rows| ==> rows[i].lastModified >= rows[j].lastModified
  {
    var owned := OwnedBy(docs, user);
    var rows := SortBy(owned, NewestFirst);
    assert |rows| == |multiset(rows)| == |multiset(owned)| == |owned|;
    assert forall x :: x in rows <==> x in owned by {
      forall x ensures x in rows <==> x in owned {
        assert x in rows <==> x in multiset(rows);
        assert x in owned <==> x in multiset(owned);
      }
    }
    assert forall i, j :: 0 <= i < j < |rows| ==> NewestFirst(rows[i]) <= NewestFirst(rows[j]);
    rows
  }

  /**
   * useDocuments: the user's documents, most recently modified first, each with its
   * assignments. The read of the association table is one call per document; the model
   * lets all of them fail or succeed together.
   */
  function ListDocuments(docs: seq<DocumentRow>, links: seq<LinkRow>, user: Option<string>, readFails: bool, linkReadFails: bool)
    : (r: Result<seq<Document>>)
    ensures user.None? ==> r == Err(NotAuthenticated)
    ensures r.Ok? <==> user.Some? && !readFails
    ensures r.Ok? ==> forall i, j :: 0 <= i < j < |r.value| ==> r.value[i].lastModified >= r.value[j].lastModified
    ensures r.Ok? ==> |r.value| == |OwnedBy(docs, user.value)|
  {
    if user.None? then Err(NotAuthenticated)
    else if readFails then Err(BackendError)
    else Ok(ToDocuments(NewestOwned(docs, user.value), links, linkReadFails))
  }

  /** Every listed document is one of the caller's rows, and each of the caller's rows is listed. */
  lemma ListedAreTheOwnedRows(docs: seq<DocumentRow>, links: seq<LinkRow>, user: string, linkReadFails: bool)
    ensures var r := ListDocuments(docs, links, Some(user), false, linkReadFails);
      && r.Ok?
      && (forall x :: x in docs && x.userId == user ==> ToDocument(x, links, linkReadFails) in r.value)
      && (forall d :: d in r.value ==> exists x :: x in docs && x.userId == user && d == ToDocument(x, links, linkReadFails))
  {
    var rows := NewestOwned(docs, user);
    var out := ToDocuments(rows, links, linkReadFails);
    forall x | x in docs && x.userId == user
      ensures ToDocument(x, links, linkReadFails) in out
    {
      var i :| 0 <= i < |rows| && rows[i] == x;
      assert out[i] == ToDocument(x, links, linkReadFails);
    }
    forall d | d in out
      ensures exists x :: x in docs && x.userId == user && d == ToDocument(x, links, linkReadFails)
    {
      var i :| 0 <= i < |out| && out[i] == d;
      assert rows[i] in rows;
    }
  }

  // ---------------------------------------------------------------- the mutations

  /**
   * useCreateDocument: inserts the document row, then (when the list is non-empty) one
   * association row per listed id in a single insert. A failed document insert writes
   * nothing; a failed association insert throws with the document row already stored.
   */
  method CreateDocument(db: Database, user: Option<string>, newId: string, now: Instant, document: NewDocument,
                        programIds: seq<string>, insertFails: bool, linkInsertFails: bool, linkReadFails: bool)
    returns (result: Result<Document>)
    modifies db
    ensures db.programs == old(db.programs) && db.requirements == old(db.requirements)
    ensures user.None? ==> result == Err(NotAuthenticated)
    ensures result.Ok? <==> user.Some? && !insertFails && (programIds == [] || !linkInsertFails)
    ensures user.None? || insertFails ==>
      db.documents == old(db.documents) && db.documentPrograms == old(db.documentPrograms)
    ensures user.Some? && !insertFails ==>
      db.documents == old(db.documents) + [InsertedRow(newId, user.value, now, document)]
    ensures user.Some? && !insertFails && programIds != [] && linkInsertFails ==>
      db.documentPrograms == old(db.documentPrograms)
    ensures result.Ok? ==>
      && db.documentPrograms == old(db.documentPrograms) + LinksFor(newId, programIds)
      && result.value == ToDocument(InsertedRow(newId, user.value, now, document), db.documentPrograms, linkReadFails)
    ensures result.Ok? && !linkReadFails && LinkedProgramIds(old(db.documentPrograms), newId) == [] ==>
      result.value.assignedProgramIds == programIds
  {
    if user.None? {
      return Err(NotAuthenticated);
    }
    if insertFails {
      return Err(BackendError);
    }
    var docData := InsertedRow(newId, user.value, now, document);
    db.documents := db.documents + [docData];
    if |programIds| > 0 {
      if linkInsertFails {
        return Err(BackendError);
      }
      db.documentPrograms := db.documentPrograms + LinksFor(newId, programIds);
    }
    StaleLinksSurviveFailedUnlink(old(db.documentPrograms), newId, programIds);
    return Ok(ToDocument(docData, db.documentPrograms, linkReadFails));
  }

  /**
   * useUpdateDocument: writes the defined fields of the caller's row with `id` (exactly one
   * must match), then, when `programIds` is given, deletes all of the document's association
   * rows (that delete's result is not checked) and inserts one per listed id. A failed
   * association insert throws after the field update and the delete have happened.
   */
  method UpdateDocument(db: Database, user: Option<string>, id: string, updates: DocumentUpdate,
                        programIds: Option<seq<string>>, writeFails: bool, unlinkFails: bool,
                        linkInsertFails: bool, linkReadFails: bool)
    returns (result: Result<Document>)
    modifies db
    ensures db.programs == old(db.programs) && db.requirements == old(db.requirements)
    ensures user.None? ==> result == Err(NotAuthenticated)
    ensures user.None? || writeFails || MatchCount(old(db.documents), id, user.value) != 1 ==>
      && result.Err?
      && db.documents == old(db.documents) && db.documentPrograms == old(db.documentPrograms)
    ensures user.Some? && !writeFails && MatchCount(old(db.documents), id, user.value) == 1 ==>
      var row := Apply(old(db.documents)[FindMatch(old(db.documents), id, user.value)], UpdateData(updates));
      && db.documents == PatchMatching(old(db.documents), id, user.value, UpdateData(updates))
      && (programIds.None? ==> db.documentPrograms == old(db.documentPrograms) && result.Ok?)
      && (programIds.Some? ==>
            var cleared := if unlinkFails then old(db.documentPrograms) else Unlink(old(db.documentPrograms), id);
            if programIds.value != [] && linkInsertFails
            then result == Err(BackendError) && db.documentPrograms == cleared
            else result.Ok? && db.documentPrograms == cleared + LinksFor(id, programIds.value))
      && (result.Ok? ==> result.value == ToDocument(row, db.documentPrograms, linkReadFails))
    ensures result.Ok? && programIds.Some? && !unlinkFails && !linkReadFails ==>
      result.value.assignedProgramIds == programIds.value
    ensures result.Ok? && programIds.None? && !linkReadFails ==>
      result.value.assignedProgramIds == LinkedProgramIds(old(db.documentPrograms), id)
  {
    if user.None? {
      return Err(NotAuthenticated);
    }
    var updateData := UpdateData(updates);
    if writeFails || MatchCount(db.documents, id, user.value) != 1 {
      return Err(BackendError);
    }
    var k := FindMatch(db.documents, id, user.value);
    db.documents := PatchMatching(db.documents, id, user.value, updateData);
    var data := db.documents[k];
    if programIds.Some? {
      if !unlinkFails {
        db.documentPrograms := Unlink(db.documentPrograms, id);
      }
      if |programIds.value| > 0 {
        if linkInsertFails {
          return Err(BackendError);
        }
        db.documentPrograms := db.documentPrograms + LinksFor(id, programIds.value);
      }
      ReplaceLinksReadsBack(old(db.documentPrograms), id, programIds.value);
    }
    return Ok(ToDocument(data, db.documentPrograms, linkReadFails));
  }

  /**
   * useDeleteDocument: deletes the caller's row with `id`. It deletes no association rows
   * and no stored file.
   */
  method DeleteDocument(db: Database, user: Option<string>, id: string, deleteFails: bool)
    returns (result: Result<()>)
    modifies db
    ensures db.programs == old(db.programs) && db.requirements == old(db.requirements)
    ensures db.documentPrograms == old(db.documentPrograms)
    ensures user.None? ==> result == Err(NotAuthenticated)
    ensures result.Ok? <==> user.Some? && !deleteFails
    ensures result.Err? ==> db.documents == old(db.documents)
    ensures result.Ok? ==> db.documents == RemoveMatching(old(db.documents), id, user.value)
  {
    if user.None? {
      return Err(NotAuthenticated);
    }
    if deleteFails {
      return Err(BackendError);
    }
    db.documents := RemoveMatching(db.documents, id, user.value);
    return Ok(());
  }
}
