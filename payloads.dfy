/**
 * The payload the language-model tries store per M-gram (`m_gram_payload`). The
 * log-probability and back-off weights are floats in the source; here they are
 * integers that are only stored and copied.
 */
module Payloads {
  datatype Payload = Payload(prob: int, backOff: int)
}
