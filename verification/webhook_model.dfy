/**
 The two records the webhook service stores. Dates are JavaScript `Date`
 values, which the code only ever compares, adds to and subtracts through
 their millisecond count (`getTime()`, or `<` on the dates themselves), so they
 are modelled as integer milliseconds since the epoch.
 */
module WebhookModel {

  datatype Option<T> = None | Some(value: T)

  /** One capture endpoint; `linkId` is the short code that keys the store. */
  datatype WebhookLink = WebhookLink(
    id: string,
    linkId: string,
    createdAt: int,
    expiresAt: int,
    isActive: bool)

  /**
   A request body as the body parsers left it (a JSON value, a form object or a
   raw buffer). The engine never looks inside it, so it is kept opaque.
   */
  datatype Body = Body(content: seq<int>)

  /** One captured delivery to a link. */
  datatype WebhookRequest = WebhookRequest(
    id: string,
    linkId: string,
    httpMethod: string,
    headers: map<string, string>,
    body: Body,
    query: map<string, string>,
    timestamp: int,
    ipAddress: Option<string>)

  /**
   The expiry test every path of the code uses: strictly past `expiresAt`.
   A link whose `expiresAt` equals the current time is still live.
   */
  predicate IsExpired(link: WebhookLink, now: int) {
    link.expiresAt < now
  }

  /** Sort key of the link listing. */
  function CreatedAtOf(link: WebhookLink): int {
    link.createdAt
  }

  /** Sort key of the request listing. */
  function TimestampOf(request: WebhookRequest): int {
    request.timestamp
  }
}
