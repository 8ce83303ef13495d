/**
  The document record (src/models/document.rs): one markdown file's
  content, its SHA-256 content hash and its byte size.
*/
module DocumentModel {

  /** SHA-256 of the content bytes rendered as lower-case hex; the digest
      itself is not modelled, only that it is a function of the content. */
  type Digest = string -> string

  datatype Document = Document(
    filePath: string,
    relativePath: string,
    content: string,
    contentHash: string,
    fileSize: nat,
    lastModified: nat,
    parsedAt: nat,
    normalized: bool)

  /** `Document::new`; `now` is the wall clock read for `parsed_at`. */
  function NewDocument(sha256: Digest, filePath: string, relativePath: string,
                       content: string, lastModified: nat, now: nat): (d: Document)
    ensures d.contentHash == sha256(content)
    ensures d.fileSize == |content|
    ensures !d.normalized
    ensures d.filePath == filePath && d.relativePath == relativePath
    ensures d.content == content && d.lastModified == lastModified && d.parsedAt == now
  {
    Document(filePath, relativePath, content, sha256(content), |content|, lastModified, now, false)
  }

  /** `Document::mark_normalized`, as a value update of the owned document. */
  function MarkNormalized(d: Document): (r: Document)
    ensures r.normalized
    ensures r.(normalized := d.normalized) == d
  {
    d.(normalized := true)
  }

  /** Two documents built from the same content carry the same hash and
      size, whatever their paths and times; marking a document normalized
      keeps them. */
  lemma HashAndSizeFollowContent(sha256: Digest, p1: string, r1: string, p2: string, r2: string,
                                 content: string, m1: nat, m2: nat, t1: nat, t2: nat)
    ensures var d1 := NewDocument(sha256, p1, r1, content, m1, t1);
            var d2 := MarkNormalized(NewDocument(sha256, p2, r2, content, m2, t2));
            d1.contentHash == d2.contentHash && d1.fileSize == d2.fileSize
  {
  }

  /** The size is the byte length: "# Test Content" is 14 bytes. */
  lemma TestContentIsFourteenBytes(sha256: Digest)
    ensures NewDocument(sha256, "/path/to/file.md", "file.md", "# Test Content", 1234567890, 0).fileSize == 14
  {
  }
}
