/**
 * Hiding the model's reasoning segment (main.py lines 124-126 when a reply is
 * stored, lines 317-319 when it is displayed).  The reply of a reasoning model
 * may carry its intermediate reasoning between `<think>` and `</think>`; when
 * the "Show Thinking Process" toggle is off and the reply mentions `<think>`,
 * only the text after the last `</think>` is kept, trimmed of whitespace.
 */
module Thinking {
  import opened PyStr

  const StartMarker: string := "<think>"
  const EndMarker: string := "</think>"

  /** `k` is the position of the last occurrence of `sub` in `s`. */
  ghost predicate LastOccurrence(s: string, sub: string, k: int) {
    OccursAt(s, sub, k) && forall j :: k < j ==> !OccursAt(s, sub, j)
  }

  /** Lines 125-126 (and 318-319): with the toggle off and `<think>` in the reply, keep what follows the last `</think>`, trimmed; otherwise keep the reply. */
  function HideThinking(showThinking: bool, response: string): string
  {
    if !showThinking && Contains(response, StartMarker) then
      Strip(LastPiece(response, EndMarker))
    else
      response
  }

  /** With the toggle on, or without `<think>`, the reply is kept as it is; otherwise no `</think>` is left in it. */
  lemma HideThinkingSpec(showThinking: bool, response: string)
    ensures showThinking || !Contains(response, StartMarker) ==> HideThinking(showThinking, response) == response
    ensures !showThinking && Contains(response, StartMarker) ==> !Contains(HideThinking(showThinking, response), EndMarker)
  {
    if !showThinking && Contains(response, StartMarker) {
      LastPieceSpec(response, EndMarker);
      StripKeepsAbsence(LastPiece(response, EndMarker), EndMarker);
    }
  }

  /** No occurrence of `</think>` can start inside another one: its first character, `<`, appears nowhere else in it. */
  lemma EndMarkerDoesNotOverlap(s: string, p: int, j: int)
    requires OccursAt(s, EndMarker, p) && p < j < p + |EndMarker|
    ensures !OccursAt(s, EndMarker, j)
  {
    assert s[p..p + |EndMarker|][j - p] == s[j];
    if j + |EndMarker| <= |s| {
      assert s[j..j + |EndMarker|][0] == s[j];
    }
  }

  /**
   * With the toggle off, a reply that mentions `<think>` is reduced to the
   * trimmed text after the LAST `</think>`, or merely trimmed when it has no
   * `</think>` at all.
   */
  lemma HiddenReplyIsTextAfterLastEndMarker(response: string)
    requires Contains(response, StartMarker)
    ensures !Contains(response, EndMarker) ==> HideThinking(false, response) == Strip(response)
    ensures Contains(response, EndMarker) ==>
              exists k {:trigger LastOccurrence(response, EndMarker, k)} ::
                LastOccurrence(response, EndMarker, k)
                && HideThinking(false, response) == Strip(response[k + |EndMarker|..])
  {
    var t := LastPiece(response, EndMarker);
    LastPieceSpec(response, EndMarker);
    if Contains(response, EndMarker) {
      var n := |EndMarker|;
      var k := |response| - |t| - n;
      assert response[k + n..] == t;
      forall j | k < j
        ensures !OccursAt(response, EndMarker, j)
      {
        if j < k + n {
          EndMarkerDoesNotOverlap(response, k, j);
        } else if OccursAt(response, EndMarker, j) {
          assert response[k + n..][j - k - n..j - k] == response[j..j + n];
          assert OccursAt(t, EndMarker, j - k - n);
        }
      }
      assert LastOccurrence(response, EndMarker, k);
    }
  }

  /**
   * A reply stored with the toggle off is displayed exactly as stored, whatever
   * the toggle says at display time: the second strip at lines 318-319 finds
   * nothing left to remove.
   */
  lemma StoredReplyDisplaysUnchanged(showThinking: bool, response: string)
    ensures HideThinking(showThinking, HideThinking(false, response)) == HideThinking(false, response)
  {
    var r := HideThinking(false, response);
    if Contains(response, StartMarker) && !showThinking && Contains(r, StartMarker) {
      var t := LastPiece(response, EndMarker);
      assert r == Strip(t);
      HideThinkingSpec(false, response);
      LastPieceSpec(r, EndMarker);
      StripIdempotent(t);
    }
  }
}
