/**
 * The customer's position in the waiting list: the index of their code among the waiting
 * tickets as the store returns them (oldest first).
 */
module QueuePosition {
  import opened JsArray

  /** The result of the waiting-list query: it failed, returned no data, or returned the
      codes of the waiting tickets in order. */
  datatype WaitingQuery = PositionQueryFailed | NoWaitingData | WaitingCodes(codes: seq<string>)

  /** obtenerPosicionEnFila: the index of the first waiting entry with this code, -1 when no
      entry has it, and 0 when the query fails or returns no data. */
  function PositionInQueue(q: WaitingQuery, code: string): (p: int)
    ensures q.WaitingCodes? ==> -1 <= p < |q.codes|
    ensures q.WaitingCodes? ==> (p == -1 <==> code !in q.codes)
    ensures q.WaitingCodes? && p >= 0 ==> q.codes[p] == code && code !in q.codes[..p]
    ensures !q.WaitingCodes? ==> p == 0
  {
    if q.WaitingCodes? then FindIndex(q.codes, code) else 0
  }

  /** With codes that are unique in the list, the position is the number of entries ahead. */
  lemma PositionCountsAhead(codes: seq<string>, i: int)
    requires 0 <= i < |codes|
    requires forall j, k :: 0 <= j < k < |codes| ==> codes[j] != codes[k]
    ensures PositionInQueue(WaitingCodes(codes), codes[i]) == i
  {
    var p := PositionInQueue(WaitingCodes(codes), codes[i]);
    assert p >= 0 && codes[p] == codes[i];
    assert codes[i] !in codes[..p];
  }

  /** A failed query is reported as position 0, exactly what the customer at the head of the
      queue sees: the two cannot be told apart. */
  lemma FailureLooksLikeHead(code: string, behind: seq<string>)
    ensures PositionInQueue(PositionQueryFailed, code) == 0
    ensures PositionInQueue(NoWaitingData, code) == 0
    ensures PositionInQueue(WaitingCodes([code] + behind), code) == 0
  {
  }

  /** Waiting list A01, A03, A02: A03 is at position 1 and a code not waiting is at -1. */
  lemma PositionExample()
    ensures PositionInQueue(WaitingCodes(["A01", "A03", "A02"]), "A03") == 1
    ensures PositionInQueue(WaitingCodes(["A01", "A03", "A02"]), "A04") == -1
  {
    PositionCountsAhead(["A01", "A03", "A02"], 1);
  }
}
