/**
 * Entities of the knowledge pipeline. An identifier that the program makes by hashing a
 * text of named parts is kept as the tuple of those parts.
 */
module Knowledge {
  datatype DocumentId = DocumentId(organizationId: string, sourceRef: string)

  /** The version label of a document is the digest of its normalized content. */
  datatype Version = Version(content: string)

  datatype Document = Document(
    documentId: DocumentId, organizationId: string, sourceRef: string, title: string, content: string, version: Version)

  datatype ChunkId = ChunkId(documentId: DocumentId, version: Version, sequence: nat, text: string)

  datatype Chunk = Chunk(
    chunkId: ChunkId, documentId: DocumentId, organizationId: string, version: Version,
    sequence: nat, text: string, start: nat, end: nat)

  datatype JobId = JobId(chunkId: ChunkId, version: Version, model: string, params: string)

  datatype EmbeddingId = EmbeddingId(jobId: JobId, chunkId: ChunkId, model: string)

  datatype EmbeddingRecord = EmbeddingRecord(
    embeddingId: EmbeddingId, chunkId: ChunkId, documentId: DocumentId, organizationId: string,
    version: Version, model: string, vectorDigest: string)

  datatype VersionId = VersionId(documentId: DocumentId, version: Version)

  datatype EventId = EventId(versionId: VersionId)
}
