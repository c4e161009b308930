/** Small value types shared by the modules of the model: an optional value,
    the outcome of an operation that may raise, and the URL-library functions
    that the scraper calls but that are not part of this model. */
module Common {

  datatype Option<T> = None | Some(value: T)

  /** The exceptions that the modelled code lets escape.  `ValueError` is what
      `bytes.fromhex` and `int()` raise on malformed text; `TransportError`
      stands for every failure of an HTTP fetch. */
  datatype Error = ValueError | TransportError

  datatype Result<T> = Ok(value: T) | Raised(error: Error)

  /** `urllib.parse` as seen by the scraper, kept uninterpreted:
      `pathOf(url)` is `urlparse(url).path`,
      `replacePath(url, p)` is `urlparse(url)._replace(path=p).geturl()`,
      `join(base, ref)` is `urljoin(base, ref)`. */
  datatype UrlLib = UrlLib(
    pathOf: string -> string,
    replacePath: (string, string) -> string,
    join: (string, string) -> string)
}
