/** What the Resume backfills share: row ids, converted operations, and the documents at hand. */
module Backfill {
  import opened Basics
  import V1RichText

  type Json = V1RichText.Json
  type ResumeId = string
  type Time = int

  /** A lower-case hexadecimal SHA-256. */
  type Digest = s: string | IsHex(s, 64) witness seq(64, i => '0')

  /** A V2 operation: its id, its kind, and the JSON object that stores it. */
  datatype Converted = Converted(operationId: string, op: string, body: map<string, Json>, lossy: bool)

  /** What the revision backfill hands over: the Resumes that have a current document, and every
      immutable snapshot. */
  datatype Documents = Documents(current: set<ResumeId>, revisions: map<(ResumeId, int), Json>)

  predicate HasRevision(docs: Documents, resume: ResumeId, revision: Option<int>) {
    revision.Some? && (resume, revision.value) in docs.revisions
  }

  predicate Positive(n: Option<int>) { n.Some? && n.value >= 1 }

  /** The operation ids of a list of operations, in its order. */
  function OperationIds(operations: seq<Converted>): seq<string> {
    seq(|operations|, i requires 0 <= i < |operations| => operations[i].operationId)
  }
}
