/**
 * The WHATWG URL parser is a foreign library: it is a parameter of the model.
 * A parser maps a string to the parsed URL's hostname and origin, or to
 * `None` where `new URL(...)` throws.
 */
module Urls {
  import opened Wrappers

  datatype Url = Url(hostname: string, origin: string)

  /** `new URL(s)`: `None` when the constructor throws. */
  type Parser = string -> Option<Url>

  /** `new URL(href, base).href`: `None` when the constructor throws. */
  type Resolver = (string, string) -> Option<string>
}
