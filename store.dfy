/**
 * The hosted relational store as in-memory tables. Each table is a sequence of rows in
 * insertion order; that order stands for the server's `created_at` order and for the order
 * in which a filtered select returns rows.
 */
module Store {
  import opened Outcomes
  import opened Types

  /** A row of `programs`. */
  datatype ProgramRow = ProgramRow(
    id: string,
    userId: string,
    university: string,
    department: string,
    deadline: Instant,
    status: ProgramStatus,
    requirementsCompleted: int,
    requirementsTotal: int,
    fee: Option<real>)

  /** A row of `requirements`; requirements carry no owner column of their own. */
  datatype RequirementRow = RequirementRow(
    id: string,
    programId: string,
    name: string,
    completed: bool,
    notes: Option<string>,
    documentId: Option<string>)

  /** A row of `documents`. */
  datatype DocumentRow = DocumentRow(
    id: string,
    userId: string,
    name: string,
    docType: DocumentType,
    status: DocumentStatus,
    lastModified: Instant,
    wordCount: Option<int>,
    fileUrl: Option<string>)

  /** A row of the association table `document_programs`. */
  datatype LinkRow = LinkRow(documentId: string, programId: string)

  class Database {
    var programs: seq<ProgramRow>
    var requirements: seq<RequirementRow>
    var documents: seq<DocumentRow>
    var documentPrograms: seq<LinkRow>

    constructor ()
      ensures programs == [] && requirements == [] && documents == [] && documentPrograms == []
    {
      programs, requirements, documents, documentPrograms := [], [], [], [];
    }
  }
}
