/**
 * The errors the heat-pump client reports. Each one names the entity it is
 * about (the path segment, the item, the raw token) so that a caller can tell
 * which stage failed.
 */
module Errors {

  datatype ClientError =
      /** The incoming frames ran out before a text reply arrived
          ("No response received for login message"). */
    | NoResponse
      /** The receiver reported an error; it is propagated unchanged. */
    | ReceiveFailed(reason: string)
      /** The login reply could not be deserialised into a navigation tree. */
    | NavigationNotParsed(reply: string)
      /** A segment of a menu path matched no child ("Item <segment> does not exist"). */
    | ItemDoesNotExist(segment: string)
      /** No entry on the page matched the item's pattern ("No match for item <item>"). */
    | NoMatchForItem(item: string)
      /** The captured value token is not a decimal number. */
    | ValueNotParsed(token: string)
}
