/**
 * The immutable outcome value returned by the receiver: a success flag and an
 * optional message (`null` in C# is `None` here), rendered as "Success" or as
 * "Error: " followed by the message, or by "Unknown" when there is none.
 */
module ConnectionResults {
  import opened Wrappers

  const SuccessText: string := "Success"
  const ErrorPrefix: string := "Error: "
  const UnknownText: string := "Unknown"

  /** `new ConnectionResult(isSuccess, message = null)`; a datatype, so nothing changes it later. */
  datatype ConnectionResult = ConnectionResult(isSuccess: bool, message: Option<string> := None) {

    /** `ToString()`. */
    function ToString(): (s: string)
      ensures s == SuccessText <==> isSuccess
      ensures !isSuccess ==> |s| >= |ErrorPrefix| && s[..|ErrorPrefix|] == ErrorPrefix
      ensures !isSuccess ==> s[|ErrorPrefix|..] == message.GetOr(UnknownText)
    {
      if isSuccess then SuccessText
      else
        var text := ErrorPrefix + message.GetOr(UnknownText);
        assert text[0] != SuccessText[0];
        text
    }
  }

  /** A success renders the same whatever its message. */
  lemma SuccessIgnoresMessage(a: ConnectionResult, b: ConnectionResult)
    requires a.isSuccess && b.isSuccess
    ensures a.ToString() == b.ToString()
  {
  }

  /**
   * Two failures render the same exactly when their messages agree once a
   * missing message is read as "Unknown"; so a failure with no message and a
   * failure whose message is "Unknown" cannot be told apart by their text.
   */
  lemma FailureRenderings(a: ConnectionResult, b: ConnectionResult)
    requires !a.isSuccess && !b.isSuccess
    ensures a.ToString() == b.ToString() <==> a.message.GetOr(UnknownText) == b.message.GetOr(UnknownText)
  {
    if a.ToString() == b.ToString() {
      calc {
        a.message.GetOr(UnknownText);
        a.ToString()[|ErrorPrefix|..];
        b.ToString()[|ErrorPrefix|..];
        b.message.GetOr(UnknownText);
      }
    }
  }

  /** The message defaults to none, and the renderings the class's tests expect. */
  lemma RenderingExamples()
    ensures ConnectionResult(true).message == None && ConnectionResult(true).ToString() == "Success"
    ensures ConnectionResult(false, Some("Timeout")).ToString() == "Error: Timeout"
    ensures ConnectionResult(false, Some("Connection lost")).ToString() == "Error: Connection lost"
    ensures ConnectionResult(false).ToString() == "Error: Unknown"
  {
  }
}
