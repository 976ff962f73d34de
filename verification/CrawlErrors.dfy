/** The crawler's error values and the rule that decides whether a failed crawl is retried. */
module CrawlErrors {

  /** A categorised failure: a message for people and a type for the retry rule. */
  datatype CrawlError = CrawlError(msg: string, errorType: string) {

    /** Extends the message and keeps the type. */
    function WithDetails(details: string): CrawlError {
      CrawlError(msg + ": " + details, errorType)
    }
  }

  const NETWORK_MISMATCH_TYPE := "network_mismatch"
  const IDENTIFY_TIMEOUT_TYPE := "identify_timeout"
  const TIMEOUT_TYPE := "timeout"
  const PROTOCOL_NOT_SUPPORTED_TYPE := "protocol_not_supported"

  const TOO_SOON := CrawlError("too soon", "too_soon")
  const ENR_FORK_DIGEST := CrawlError("wrong enr fork digest", NETWORK_MISMATCH_TYPE)
  const STATUS_FORK_DIGEST := CrawlError("wrong fork digest in status message", NETWORK_MISMATCH_TYPE)
  const FAILED_STATUS := CrawlError("failed to request status", TIMEOUT_TYPE)
  const FAILED_METADATA := CrawlError("failed to request metadata", TIMEOUT_TYPE)
  const IDENTIFY_TIMEOUT := CrawlError("identify protocol timeout", IDENTIFY_TIMEOUT_TYPE)

  /** An error built from a bare message: the type is the message itself. */
  function NewCrawlError(msg: string): CrawlError {
    CrawlError(msg, msg)
  }

  /** What the retry rule can be handed: no error, a crawl error, a context error or anything else. */
  datatype AnyError =
    | NoError
    | Crawl(crawl: CrawlError)
    | ContextCanceled
    | DeadlineExceeded
    | Other(text: string)

  predicate IsRetryableError(err: AnyError) {
    match err
    case NoError => false
    case Crawl(e) => e.errorType != NETWORK_MISMATCH_TYPE && e.errorType != PROTOCOL_NOT_SUPPORTED_TYPE
    case ContextCanceled => false
    case DeadlineExceeded => false
    case Other(_) => true
  }

  /** Everything is retried but the absence of an error, the end of a context and errors of two types. */
  lemma RetriedExactly(err: AnyError)
    ensures IsRetryableError(err) <==>
            || err.Other?
            || (err.Crawl? && err.crawl.errorType !in {"network_mismatch", "protocol_not_supported"})
  {
  }

  predicate IsRetryable(err: CrawlError) {
    IsRetryableError(Crawl(err))
  }

  /** The three ways in which the check of a node's ENR against our fork can fail. */
  datatype NetworkCheckError =
    | LoadFailed(cause: string)
    | UnmarshalFailed(cause: string)
    | WrongDigest(details: string)
  {
    function Text(): string {
      match this
      case LoadFailed(cause) => "failed to load enr fork entry: " + cause
      case UnmarshalFailed(cause) => "failed to unmarshal enr fork entry: " + cause
      case WrongDigest(details) => ENR_FORK_DIGEST.WithDetails(details).msg
    }
  }

  /**
   * At dial time the check's error is rebuilt from its text, so its type is lost: every such
   * failure is retried, although a wrong fork digest keeps a type that is never retried.
   */
  lemma DialTimeMismatchIsRetried(err: NetworkCheckError, details: string)
    ensures IsRetryable(NewCrawlError(err.Text()))
    ensures !IsRetryable(ENR_FORK_DIGEST.WithDetails(details))
    ensures !IsRetryable(STATUS_FORK_DIGEST.WithDetails(details))
  {
    var text := err.Text();
    assert text[0] == 'f' || text[0] == 'w';
    assert NETWORK_MISMATCH_TYPE[0] == 'n' && PROTOCOL_NOT_SUPPORTED_TYPE[0] == 'p';
  }
}
