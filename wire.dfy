/**
 * The values the client exchanges with the speech-recognition service, as it
 * sees them after JSON decoding. A key that the decoded reply may lack is an
 * Option: the client reads it with a plain subscript, so an absent key raises
 * KeyError, which the model reports as MissingKey(key).
 */
module Wire {
  import opened Wrappers

  /** One entry of an utterance's `words` list. */
  datatype Word = Word(text: Option<string>, startTime: Option<int>, endTime: Option<int>)

  /** One entry of the `utterances` list. */
  datatype Utterance = Utterance(words: Option<seq<Word>>)

  /** The `resp` object of a status-query reply. */
  datatype QueryResp = QueryResp(code: Option<int>, utterances: Option<seq<Utterance>>)

  /** A decoded status-query reply: `{resp: {code, utterances}}`. */
  datatype QueryReply = QueryReply(resp: Option<QueryResp>)

  /** The `resp` object of a submission reply. */
  datatype SubmitResp = SubmitResp(id: Option<string>)

  /** A decoded submission reply: `{resp: {id}}`. */
  datatype SubmitReply = SubmitReply(resp: Option<SubmitResp>)

  /** The terminal output unit: one recognised word with its offsets, passed through unchanged. */
  datatype WordRecord = WordRecord(text: string, startTime: int, endTime: int)

  /** Every way a call can abort. */
  datatype AsrError =
    | MissingUploadCredentials   // ValueError: no GitHub token or repository
    | MissingKey(key: string)    // KeyError on a decoded reply
    | TaskFailed(code: int)      // the service reported a failure code
    | TimedOut                   // still pending after the deadline
}
