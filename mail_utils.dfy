/**
 * The address and domain helpers of package mail_utils: recovering an
 * address from a raw "From" header value, cutting it at its last "@", and
 * cutting a domain into labels.
 */
module MailUtils {
  import opened Wrappers
  import opened GoStrings
  import opened NetMail

  /** EmailAddress: the text before the last "@" and the text after it. */
  datatype EmailAddress = EmailAddress(username: string, domain: string)

  /** The errors GetEmailAddress can return. */
  datatype Error =
    | Unparsable(input: string)           // mail.ParseAddress rejected `input`
    | InvalidEmailAddress(address: Address) // the parsed address has no "@"

  /** The substring whose presence enables the encoding fallback. */
  const EncodingTag := "windows-1252"

  /** The substring the encoding fallback deletes (note: no hyphen). */
  const EncodingMarker := "?windows1252"

  /**
   * ParseEmailAddress: cut the address at its LAST "@". The username may
   * itself hold "@"; the domain never does; glued back together with "@"
   * they give the address exactly. No "@" at all is an error.
   */
  function ParseEmailAddress(a: Address): (r: Result<EmailAddress, Error>)
    ensures r.Success? <==> '@' in a.address
    ensures r.Success? ==> r.value.username + "@" + r.value.domain == a.address
    ensures r.Success? ==> '@' !in r.value.domain
    ensures r.Failure? ==> r.error == InvalidEmailAddress(a)
  {
    var at := LastIndex(a.address, '@');
    if at >= 0 then
      assert a.address == a.address[..at] + "@" + a.address[at + 1..];
      Success(EmailAddress(a.address[..at], a.address[at + 1..]))
    else
      Failure(InvalidEmailAddress(a))
  }

  /**
   * ParseDomains: the labels of a domain, split at ".". It never fails
   * (Go's error result is always nil): there is at least one label, one more
   * than there are dots, none holds a dot, and joined with "." they give the
   * domain back.
   */
  function ParseDomains(domain: string): (labels: seq<string>)
    ensures |labels| >= 1
    ensures |labels| == Count(domain, '.') + 1
    ensures forall i :: 0 <= i < |labels| ==> '.' !in labels[i]
    ensures Join(labels, ".") == domain
  {
    JoinSplit(domain, '.');
    Split(domain, '.')
  }

  /** One call of mail.ParseAddress, its error naming the text it rejected. */
  function Attempt(parseAddress: string -> Option<Address>, s: string): Result<Address, Error> {
    match parseAddress(s)
    case Some(a) => Success(a)
    case None => Failure(Unparsable(s))
  }

  /** The quote fallback's condition: an odd number of '"' and a leading '"'. */
  predicate UnbalancedLeadingQuote(s: string) {
    // Count(s, '"') <= |s|, so an odd count makes s[0] exist: the guard
    // only reads s[0] when the count is odd, as Go's && short-circuits.
    Count(s, '"') % 2 == 1 && s[0] == '"'
  }

  /** The texts handed to mail.ParseAddress, in order, and what the last call gave. */
  datatype Recovery = Recovery(tried: seq<string>, address: Result<Address, Error>)

  /** Lines 18-31 of GetEmailAddress: the first parse and the single fallback. */
  function RecoverAddress(parseAddress: string -> Option<Address>, raw: string): Recovery
  {
    match Attempt(parseAddress, raw)
    case Success(a) => Recovery([raw], Success(a))
    case Failure(e) =>
      if UnbalancedLeadingQuote(raw) then
        Recovery([raw, raw[1..]], Attempt(parseAddress, raw[1..]))
      else if Contains(raw, EncodingTag) then
        var stripped := ReplaceAll(raw, EncodingMarker, "");
        Recovery([raw, stripped], Attempt(parseAddress, stripped))
      else
        Recovery([raw], Failure(e))
  }

  /** GetEmailAddress: recover a mail.Address, then cut it with ParseEmailAddress. */
  function GetEmailAddress(parseAddress: string -> Option<Address>, raw: string): Result<EmailAddress, Error>
  {
    match RecoverAddress(parseAddress, raw).address
    case Success(a) => ParseEmailAddress(a)
    case Failure(e) => Failure(e)
  }

  /**
   * The attempts of RecoverAddress: the raw text first; only if that fails,
   * at most one retry, stripping the leading quote when the quotes are
   * unbalanced, or ELSE deleting every encoding marker when the text holds
   * the encoding tag. The outcome is that of the last call.
   */
  lemma RecoverAddressAttempts(parseAddress: string -> Option<Address>, raw: string)
    ensures var r := RecoverAddress(parseAddress, raw);
            && (1 <= |r.tried| <= 2 && r.tried[0] == raw)
            && (r.address == Attempt(parseAddress, r.tried[|r.tried| - 1]))
            && (|r.tried| == 2 <==> parseAddress(raw).None? && (UnbalancedLeadingQuote(raw) || Contains(raw, EncodingTag)))
            && (|r.tried| == 2 && UnbalancedLeadingQuote(raw) ==> r.tried[1] == raw[1..])
            && (|r.tried| == 2 && !UnbalancedLeadingQuote(raw) ==> r.tried[1] == ReplaceAll(raw, EncodingMarker, ""))
  {
  }

  /**
   * GetEmailAddress succeeds exactly when an address was recovered and it
   * holds an "@"; the pair it returns is then ParseEmailAddress of that
   * address, whichever attempt recovered it, and its domain never holds "@".
   */
  lemma GetEmailAddressSucceeds(parseAddress: string -> Option<Address>, raw: string)
    ensures var r := GetEmailAddress(parseAddress, raw);
            var rec := RecoverAddress(parseAddress, raw);
            && (r.Success? ==> rec.address.Success? && r == ParseEmailAddress(rec.address.value))
            && (r.Success? ==> '@' !in r.value.domain)
            && (r.Success? <==>
                  exists a :: RecoverAddress(parseAddress, raw).address == Success(a) && '@' in a.address)
  {
  }

  /**
   * Where an error of GetEmailAddress comes from: either the last text tried
   * was rejected by mail.ParseAddress, and the error names that text, or an
   * address was recovered but has no "@", and ParseEmailAddress's error is
   * passed on unchanged.
   */
  lemma GetEmailAddressErrors(parseAddress: string -> Option<Address>, raw: string)
    requires GetEmailAddress(parseAddress, raw).Failure?
    ensures var rec := RecoverAddress(parseAddress, raw);
            var last := rec.tried[|rec.tried| - 1];
            var err := GetEmailAddress(parseAddress, raw).error;
            || (err == Unparsable(last) && parseAddress(last).None?)
            || (rec.address.Success? && '@' !in rec.address.value.address &&
                err == InvalidEmailAddress(rec.address.value))
  {
  }

  /** Re-parsing an address glued back from its username and domain gives the same pair. */
  lemma RecombinedRoundTrip(name: string, username: string, domain: string)
    requires '@' !in domain
    ensures ParseEmailAddress(Address(name, username + "@" + domain)) == Success(EmailAddress(username, domain))
  {
    var s := username + "@" + domain;
    LastIndexOfCut(username, domain, '@');
    assert s[..|username|] == username && s[|username| + 1..] == domain;
  }

  /** Whatever ParseEmailAddress returns survives being glued back and re-parsed. */
  lemma ParseEmailAddressStable(a: Address, name: string)
    requires ParseEmailAddress(a).Success?
    ensures var e := ParseEmailAddress(a).value;
            ParseEmailAddress(Address(name, e.username + "@" + e.domain)) == Success(e)
  {
    var e := ParseEmailAddress(a).value;
    RecombinedRoundTrip(name, e.username, e.domain);
  }

  /** The cut is at the last "@": a username may hold "@" (as in "a@b@example.com"). */
  lemma LastAtWins()
    ensures ParseEmailAddress(Address("", "a@b@example.com")) == Success(EmailAddress("a@b", "example.com"))
  {
    assert "a@b@example.com" == "a@b" + "@" + "example.com";
    RecombinedRoundTrip("", "a@b", "example.com");
  }

  /** The test case do_not_reply@itunes.com. */
  lemma ITunesAddress()
    ensures ParseEmailAddress(Address("iTunes Store", "do_not_reply@itunes.com"))
            == Success(EmailAddress("do_not_reply", "itunes.com"))
  {
    assert "do_not_reply@itunes.com" == "do_not_reply" + "@" + "itunes.com";
    RecombinedRoundTrip("iTunes Store", "do_not_reply", "itunes.com");
  }

  /** The test case "fake": no "@", so no value and an error. */
  lemma FakeAddressRejected()
    ensures ParseEmailAddress(Address("", "fake")) == Failure(InvalidEmailAddress(Address("", "fake")))
  {
  }

  /** An address with nothing after its last "@" yields an empty domain, not an error. */
  lemma EmptyDomainAccepted()
    ensures ParseEmailAddress(Address("", "user@")) == Success(EmailAddress("user", ""))
  {
    assert "user@" == "user" + "@" + "";
    RecombinedRoundTrip("", "user", "");
  }

  /** Joining labels free of "." and splitting again gives the labels back. */
  lemma ParseDomainsOfJoin(labels: seq<string>)
    requires |labels| >= 1
    requires forall i :: 0 <= i < |labels| ==> '.' !in labels[i]
    ensures ParseDomains(Join(labels, ".")) == labels
  {
    SplitJoin(labels, '.');
  }

  /** The test case s.apple.com. */
  lemma AppleDomains()
    ensures ParseDomains("s.apple.com") == ["s", "apple", "com"]
  {
    assert Join(["s", "apple", "com"], ".") == "s.apple.com";
    ParseDomainsOfJoin(["s", "apple", "com"]);
  }

  /** A domain has at least two labels exactly when it contains a dot. */
  lemma TwoLabelsIffDot(domain: string)
    ensures |ParseDomains(domain)| >= 2 <==> '.' in domain
  {
  }

  /** A successful first parse decides the result: no fallback is tried. */
  lemma FirstParseWins(parseAddress: string -> Option<Address>, raw: string, a: Address)
    requires parseAddress(raw) == Some(a)
    ensures RecoverAddress(parseAddress, raw).tried == [raw]
    ensures GetEmailAddress(parseAddress, raw) == ParseEmailAddress(a)
  {
  }

  /** After a failed first parse, a successful quote-stripping retry decides the result. */
  lemma QuoteRetryWins(parseAddress: string -> Option<Address>, raw: string, a: Address)
    requires parseAddress(raw).None? && UnbalancedLeadingQuote(raw)
    requires parseAddress(raw[1..]) == Some(a)
    ensures RecoverAddress(parseAddress, raw).tried == [raw, raw[1..]]
    ensures GetEmailAddress(parseAddress, raw) == ParseEmailAddress(a)
  {
  }

  /**
   * After a failed first parse, with balanced quotes or no leading quote, a
   * successful marker-deleting retry decides the result.
   */
  lemma EncodingRetryWins(parseAddress: string -> Option<Address>, raw: string, a: Address)
    requires parseAddress(raw).None? && !UnbalancedLeadingQuote(raw) && Contains(raw, EncodingTag)
    requires parseAddress(ReplaceAll(raw, EncodingMarker, "")) == Some(a)
    ensures RecoverAddress(parseAddress, raw).tried == [raw, ReplaceAll(raw, EncodingMarker, "")]
    ensures GetEmailAddress(parseAddress, raw) == ParseEmailAddress(a)
  {
  }

  /**
   * The encoding fallback retries the identical text unless the marker is
   * present; the parser being a function, that retry fails again.
   */
  lemma EncodingRetryNeedsMarker(parseAddress: string -> Option<Address>, raw: string)
    requires parseAddress(raw).None? && !UnbalancedLeadingQuote(raw) && Contains(raw, EncodingTag)
    requires !Contains(raw, EncodingMarker)
    ensures GetEmailAddress(parseAddress, raw) == Failure(Unparsable(raw))
  {
  }

  /** When the marker is present, the encoding fallback does retry on a different, shorter text. */
  lemma EncodingRetryShortens(parseAddress: string -> Option<Address>, raw: string)
    requires parseAddress(raw).None? && !UnbalancedLeadingQuote(raw) && Contains(raw, EncodingTag)
    requires Contains(raw, EncodingMarker)
    ensures var r := RecoverAddress(parseAddress, raw);
            |r.tried| == 2 && |r.tried[1]| < |raw|
  {
    DeleteAllShortens(raw, EncodingMarker);
  }

  /** If the parser rejects the empty text, GetEmailAddress fails on it with no retry. */
  lemma EmptyRawFails(parseAddress: string -> Option<Address>)
    requires parseAddress("").None?
    ensures RecoverAddress(parseAddress, "").tried == [""]
    ensures GetEmailAddress(parseAddress, "") == Failure(Unparsable(""))
  {
    assert !Contains("", EncodingTag);
  }
}
