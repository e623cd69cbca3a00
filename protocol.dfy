/**
 * The `protocol` table of main.js: the discriminants that tag session
 * descriptions, data-channel messages and control signals. Both peers
 * share this table.
 */
module Protocol {
  import opened Wrappers

  /** The discriminants of the table. */
  datatype Tag = Offer | Answer | Request | Data | Done | ErrReject | Cancel

  /** The string form each discriminant is sent as. */
  function Text(t: Tag): string {
    match t
    case Offer => "offer"
    case Answer => "answer"
    case Request => "req-chunk"
    case Data => "data"
    case Done => "done"
    case ErrReject => "err-reject"
    case Cancel => "cancel"
  }

  /** Reads a discriminant back from its string form. */
  function Parse(s: string): (r: Option<Tag>)
    ensures r.Some? ==> Text(r.value) == s
  {
    if s == "offer" then Some(Offer)
    else if s == "answer" then Some(Answer)
    else if s == "req-chunk" then Some(Request)
    else if s == "data" then Some(Data)
    else if s == "done" then Some(Done)
    else if s == "err-reject" then Some(ErrReject)
    else if s == "cancel" then Some(Cancel)
    else None
  }

  /** Every discriminant is recognised from its own string, so no two share one. */
  lemma ParseText(t: Tag)
    ensures Parse(Text(t)) == Some(t)
  {
    match t
    case Offer =>
    case Answer => assert "answer"[0] != "offer"[0];
    case Request =>
      assert "req-chunk"[0] != "offer"[0] && "req-chunk"[0] != "answer"[0];
    case Data =>
      assert "data"[0] !in {"offer"[0], "answer"[0], "req-chunk"[0]};
    case Done =>
      assert "done"[0] !in {"offer"[0], "answer"[0], "req-chunk"[0]};
      assert "done"[1] != "data"[1];
    case ErrReject =>
      assert "err-reject"[0] !in {"offer"[0], "answer"[0], "req-chunk"[0], "data"[0], "done"[0]};
    case Cancel =>
      assert "cancel"[0] !in {"offer"[0], "answer"[0], "req-chunk"[0], "data"[0], "done"[0], "err-reject"[0]};
  }

  /** The discriminants are pairwise distinct. */
  lemma TextInjective(a: Tag, b: Tag)
    ensures Text(a) == Text(b) ==> a == b
  {
    ParseText(a);
    ParseText(b);
  }
}
