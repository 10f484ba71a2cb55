/** What one exchange over HAProxy's admin socket gives the client. */
module Socket {
  import opened Wrappers

  /**
   * Either the dial fails, or the client reads lines until the end of the
   * reply; the scanner may stop early with a read error.
   */
  datatype Reply = DialFailed(reason: string) | Response(lines: seq<string>, readError: Option<string>)
}
