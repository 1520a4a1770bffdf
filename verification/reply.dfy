/**
 * The reply normaliser: turns the completion service's text into the
 * message that is posted, or into "nothing to post".
 */
module ReplyFormat {
  import opened Wrappers
  import opened Text

  /**
   * Absent or empty text gives nothing to post. Otherwise one trailing
   * period is dropped and the text is lower-cased (ASCII). The hyphen
   * replacement the normaliser performs has its result thrown away, so
   * hyphens reach the posted text unchanged.
   */
  function FormatReply(reply: Option<string>): (r: Option<string>)
    ensures r.None? <==> reply.None? || reply.value == ""
    ensures r.Some? ==>
      var s := reply.value;
      && |r.value| == (if s[|s| - 1] == '.' then |s| - 1 else |s|)
      && forall i :: 0 <= i < |r.value| ==> r.value[i] == LowerChar(s[i])
  {
    if reply.None? || reply.value == "" then None
    else
      var s := reply.value;
      if s[|s| - 1] == '.' then Some(Lower(s[..|s| - 1])) else Some(Lower(s))
  }

  /**
   * What survives normalisation: no ASCII capital letter is left, every
   * hyphen of the input is still in place, no hyphen is introduced, and only
   * a final period can be lost.
   */
  lemma FormatReplyKeepsHyphens(reply: string)
    requires reply != ""
    ensures FormatReply(Some(reply)).Some?
    ensures var r := FormatReply(Some(reply)).value;
      && |reply| - 1 <= |r| <= |reply|
      && (forall i :: 0 <= i < |r| ==> !IsUpper(r[i]))
      && (forall i :: 0 <= i < |r| ==> (r[i] == '-' <==> reply[i] == '-'))
      && ('-' in reply[..|r|] <==> '-' in r)
  {
  }

  /**
   * Normalising again changes nothing unless the normalised text itself
   * still ends in a period (input that ended in two periods).
   */
  lemma {:induction false} FormatReplyStable(reply: string)
    requires reply != ""
    requires FormatReply(Some(reply)).value != ""
    requires FormatReply(Some(reply)).value[|FormatReply(Some(reply)).value| - 1] != '.'
    ensures FormatReply(FormatReply(Some(reply))) == FormatReply(Some(reply))
  {
    var r := FormatReply(Some(reply)).value;
    var rr := FormatReply(Some(r)).value;
    forall i | 0 <= i < |r|
      ensures rr[i] == r[i]
    {
      LowerCharIsLower(reply[i]);
    }
    assert rr == r;
  }

  /** The normaliser on sample inputs, and on a lone period. */
  lemma FormatReplyExamples()
    ensures FormatReply(Some("Hello World.")) == Some("hello world")
    ensures FormatReply(Some("OK sure")) == Some("ok sure")
    ensures FormatReply(Some("Well-Known")) == Some("well-known")
    ensures FormatReply(Some(".")) == Some("")
    ensures FormatReply(Some("")) == None && FormatReply(None) == None
  {
    assert "Hello World."[..11] == "Hello World";
    assert Lower("Hello World") == "hello world";
    assert Lower("OK sure") == "ok sure";
    assert Lower("Well-Known") == "well-known";
  }
}
