/**
 * The application's records: programs, their requirements and documents, with the
 * argument shapes the hooks accept (`Omit<...>` for creation, `Partial<...>` for updates).
 */
module Types {
  import opened Outcomes

  datatype ProgramStatus = Researching | Applying | Submitted | Decision

  datatype DocumentType = Sop | Ps | Cv | WritingSample | Custom

  datatype DocumentStatus = Draft | Final

  /** A point in time, as a JavaScript `Date`'s milliseconds since the epoch. */
  type Instant = int

  datatype Program = Program(
    id: string,
    university: string,
    department: string,
    deadline: Instant,
    status: ProgramStatus,
    requirementsCompleted: int,
    requirementsTotal: int,
    fee: Option<real>)

  /** `Omit<Program, "id">`: what a caller passes to create a program. */
  datatype NewProgram = NewProgram(
    university: string,
    department: string,
    deadline: Instant,
    status: ProgramStatus,
    requirementsCompleted: int,
    requirementsTotal: int,
    fee: Option<real>)

  /** `Partial<Program>`: None stands for a field left undefined. */
  datatype ProgramUpdate = ProgramUpdate(
    id: Option<string>,
    university: Option<string>,
    department: Option<string>,
    deadline: Option<Instant>,
    status: Option<ProgramStatus>,
    requirementsCompleted: Option<int>,
    requirementsTotal: Option<int>,
    fee: Option<real>)

  const NoProgramChanges := ProgramUpdate(None, None, None, None, None, None, None, None)

  datatype Requirement = Requirement(
    id: string,
    programId: string,
    name: string,
    completed: bool,
    notes: Option<string>,
    documentId: Option<string>)

  /** `Omit<Requirement, "id">`. */
  datatype NewRequirement = NewRequirement(
    programId: string,
    name: string,
    completed: bool,
    notes: Option<string>,
    documentId: Option<string>)

  /** `Partial<Requirement>`. */
  datatype RequirementUpdate = RequirementUpdate(
    id: Option<string>,
    programId: Option<string>,
    name: Option<string>,
    completed: Option<bool>,
    notes: Option<string>,
    documentId: Option<string>)

  const NoRequirementChanges := RequirementUpdate(None, None, None, None, None, None)

  datatype Document = Document(
    id: string,
    name: string,
    docType: DocumentType,
    status: DocumentStatus,
    assignedProgramIds: seq<string>,
    lastModified: Instant,
    wordCount: Option<int>,
    fileUrl: Option<string>)

  /** `Omit<Document, "id" | "lastModified" | "assignedProgramIds">`: the document part of a create. */
  datatype NewDocument = NewDocument(
    name: string,
    docType: DocumentType,
    status: DocumentStatus,
    wordCount: Option<int>,
    fileUrl: Option<string>)

  /** `Partial<Document>`. */
  datatype DocumentUpdate = DocumentUpdate(
    id: Option<string>,
    name: Option<string>,
    docType: Option<DocumentType>,
    status: Option<DocumentStatus>,
    assignedProgramIds: Option<seq<string>>,
    lastModified: Option<Instant>,
    wordCount: Option<int>,
    fileUrl: Option<string>)

  /** `Omit<Document, "id" | "lastModified">`: what the upload dialog hands to its parent. */
  datatype UploadRequest = UploadRequest(
    name: string,
    docType: DocumentType,
    status: DocumentStatus,
    assignedProgramIds: seq<string>,
    wordCount: Option<int>,
    fileUrl: Option<string>)
}
