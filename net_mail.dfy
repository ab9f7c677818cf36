/**
 * The parts of Go's `net/mail` package that the core touches: the parsed
 * address, the message header and its `Get` and `Date` accessors. Parsing
 * itself (of addresses and of dates) is foreign and enters the model as a
 * function-typed parameter.
 */
module NetMail {
  import opened Wrappers

  /** mail.Address: a display name and the bare `local@domain` address. */
  datatype Address = Address(name: string, address: string)

  /** time.Time, as an instant on a single integer time line. */
  type Timestamp = int

  /** mail.Header: canonical header key to the values in header order. */
  type Header = map<string, seq<string>>

  /** mail.Message as the core sees it: a header block and a body. */
  datatype Message = Message(header: Header, body: string)

  /** Header.Get: the first value stored under `key`, or "" when there is none. */
  function HeaderGet(h: Header, key: string): string {
    if key in h && |h[key]| > 0 then h[key][0] else ""
  }

  /**
   * Header.Date: an absent or empty "Date" header is an error; otherwise the
   * value goes to the date parser, whose behaviour is foreign.
   */
  function HeaderDate(h: Header, parseDate: string -> Option<Timestamp>): Option<Timestamp> {
    var v := HeaderGet(h, "Date");
    if v == "" then None else parseDate(v)
  }
}
