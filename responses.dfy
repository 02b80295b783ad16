/** The reply objects the command handlers return to the caller of `executeCommand`. */
module Responses {
  import opened Wrappers

  /** `{ message, type?, skipSpeech? }`: `kind` is the `type` field when present, and an absent
      `skipSpeech` is `false`. */
  datatype Response = Response(message: string, kind: Option<string>, skipSpeech: bool)
}
