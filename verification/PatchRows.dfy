/** The patch status rows and their two conditional updates, the only writes the Critic makes. */
module PatchRows {
  import opened Text

  /** `Other` stands for the statuses the Critic does not review (VALIDATED, APPLIED, FAILED). */
  datatype Status = Generated | UnderReview | Approved | Rejected | Other

  type Rows = map<string, Status>

  predicate Open(s: Status) {
    s.Generated? || s.UnderReview?
  }

  predicate Sealed(s: Status) {
    s.Approved? || s.Rejected?
  }

  function Marked(rows: Rows, id: string): Rows {
    if id in rows && Open(rows[id]) then rows[id := UnderReview] else rows
  }

  function Sealing(rows: Rows, id: string, verdict: Status): Rows {
    if id in rows && Open(rows[id]) then rows[id := verdict] else rows
  }

  /** How a database write may end: done, failed without effect, or failed after taking effect. */
  datatype Write = Written | ThrewBefore | ThrewAfter

  class PatchStore {
    var rows: Rows

    constructor (rows: Rows)
      ensures this.rows == rows
    {
      this.rows := rows;
    }

    method GetPatch(id: string) returns (s: Option<Status>)
      ensures s == if id in rows && !rows[id].Other? then Some(rows[id]) else None
    {
      s := if id in rows && !rows[id].Other? then Some(rows[id]) else None;
    }

    method MarkUnderReview(id: string, w: Write) returns (ok: bool)
      modifies this
      ensures ok <==> w.Written?
      ensures rows == if w.ThrewBefore? then old(rows) else Marked(old(rows), id)
      // only a GENERATED or UNDER_REVIEW row is written, and only its status
      ensures rows == if !w.ThrewBefore? && id in old(rows) && old(rows)[id] in {Generated, UnderReview}
                      then old(rows)[id := UnderReview] else old(rows)
    {
      if !w.ThrewBefore? && id in rows && (rows[id].Generated? || rows[id].UnderReview?) {
        rows := rows[id := UnderReview];
      }
      ok := w.Written?;
    }

    method SetVerdict(id: string, verdict: Status, w: Write) returns (ok: bool)
      modifies this
      ensures ok <==> w.Written?
      ensures rows == if w.ThrewBefore? then old(rows) else Sealing(old(rows), id, verdict)
      ensures rows == if !w.ThrewBefore? && id in old(rows) && old(rows)[id] in {Generated, UnderReview}
                      then old(rows)[id := verdict] else old(rows)
    {
      if !w.ThrewBefore? && id in rows && (rows[id].Generated? || rows[id].UnderReview?) {
        rows := rows[id := verdict];
      }
      ok := w.Written?;
    }
  }
}
