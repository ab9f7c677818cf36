# elasticsearch-gmail-go, modelled in Dafny

This project models the sequential core of a tool that loads an mbox mailbox
export into an Elasticsearch index. It has two parts.

- **The reader (`readMbox`).** It pulls message slots from the mbox stream
  and cuts them into batches of a configured size B. Each non-empty batch is
  sent to the workers, and a global `processed` counter grows by the batch's
  length.
- **The worker (`bulkIndex`).** For each message of a batch it recovers the
  sender address (`GetEmailAddress`, which calls `ParseEmailAddress`), splits
  the domain into labels (`ParseDomains`), and parses the date. It then
  builds an `Email` record and hands it to the bulk indexer.

Files and modules (one module per file):

- `wrappers.dfy` (`Wrappers`): `Option` and `Result`; `None` is Go's nil.
- `go_strings.dfy` (`GoStrings`): the Go `strings` functions the helpers
  call: `Count`, `LastIndex`, `Contains`, `Replace(…, -1)`, `Join`, `Split`.
- `net_mail.dfy` (`NetMail`): `mail.Address`, the message header, and
  `Header.Get` and `Header.Date`.
- `mail_utils.dfy` (`MailUtils`): `EmailAddress`, `ParseEmailAddress`,
  `ParseDomains`, `GetEmailAddress`.
- `mbox_reader.dfy` (`MboxReader`): the stream of slots and `readMbox`.
- `bulk_index.dfy` (`BulkIndex`): the `Email` record, the per-message loop
  body, the loop over one batch, and one worker's loop over the batches it
  receives.

Modelling choices:

- **Foreign parsers are parameters.** `mail.ParseAddress` has type
  `string -> Option<Address>`. Date parsing has type
  `string -> Option<Timestamp>`. Each is an arbitrary function, so every
  property holds for every parser.
- **The stream is a `seq<Slot>`.** It reads as end of file at and past its
  end. A slot is `EndOfFile`, `ReadError` or `Read(message)`. A failed read
  becomes a nil message that is still appended to the batch.
- **`processed` is threaded through.** The global counter is an input
  (`processed0`) and an output of `ReadMbox`.
- **The channel is a sequence.** The batches the reader sends are returned as
  the sequence `sent`.
- **The sink is a sequence.** The records a worker hands to `indexer.Add` are
  the output sequence `added`. What `Add` answers is a nondeterministic choice
  on each call. The source only logs a refusal; the model counts those log
  lines as `rejected`, so `added` and the way the loop ends are the same
  whatever `Add` answers.
- **Panics are outcomes.** Two crashes in the source are explicit results. A
  nil message from a failed read is dereferenced at main.go:175. A domain
  with fewer than two labels is sliced out of range at main.go:200.

In several places the code does something other than one might expect, and
the model follows the code:

- **A failure ends the batch.** A sender or date that cannot be parsed runs
  `break`, which drops the rest of the batch, where one might expect only
  that message to be skipped.
- **`processed` counts failed slots too.** It adds the length of every sent
  batch, nil entries included, not only the messages read successfully.
- **The error is from the last attempt.** When every parse of the sender
  fails, the error returned comes from the last text tried, not from the
  original text.
- **The Domain may be empty.** `ParseEmailAddress` accepts `"user@"` and
  returns an empty Domain (`EmptyDomainAccepted`).
- **A single-label domain crashes.** It panics in the slice at main.go:200.
  It does not fall back to an empty second-level domain.
- **The encoding fallback strips a different text than it tests for.** It
  runs when the text holds `"windows-1252"`, then deletes `"?windows1252"`,
  which has no hyphen. If that marker is absent, the retry parses the same
  text again and fails again (`EncodingRetryNeedsMarker`).

## Model

| member | source | states |
|---|---|---|
| GoStrings.Count | mail_utils/mail_utils.go:20 | the count of a character never exceeds the length, and is zero exactly when the character is absent (so an odd quote count implies a first character exists) |
| GoStrings.LastIndex | mail_utils/mail_utils.go:48 | the result is -1 exactly when the character is absent; otherwise it is a position holding the character with none after it |
| GoStrings.ReplaceAll | mail_utils/mail_utils.go:24 | replacing a pattern that does not occur leaves the text unchanged |
| GoStrings.DeleteAllShortens | mail_utils/mail_utils.go:24 | deleting every occurrence of a pattern never lengthens the text, and shortens it exactly when the pattern occurs |
| GoStrings.Split | mail_utils/mail_utils.go:62 | splitting at a character gives one more piece than there are occurrences, and no piece contains the character |
| GoStrings.Join | main.go:194-200 | no ensures: `strings.Join`; see GoStrings.JoinSplit, GoStrings.SplitJoin and BulkIndex.SecondLevelDomain |
| GoStrings.Contains | mail_utils/mail_utils.go:22 | no ensures: `strings.Contains`; see MailUtils.RecoverAddressAttempts and MailUtils.EncodingRetryShortens |
| GoStrings.JoinSplit | mail_utils/mail_utils.go:62 | joining the pieces of a split with the separator gives the text back |
| GoStrings.SplitJoin | mail_utils/mail_utils.go:62 | splitting the join of separator-free pieces gives the pieces back |
| MailUtils.ParseEmailAddress | mail_utils/mail_utils.go:47-55 | succeeds exactly when the address has an "@"; username + "@" + domain is the address; the domain has no "@"; otherwise the error carries the address |
| MailUtils.RecombinedRoundTrip | mail_utils/mail_utils.go:48-51 | username + "@" + domain, for a domain without "@", parses back to exactly that username and domain |
| MailUtils.ParseEmailAddressStable | mail_utils/mail_utils.go:48-51 | a parsed pair glued back with "@" re-parses to the same pair |
| MailUtils.LastAtWins | mail_utils/mail_utils.go:48-50 | "a@b@example.com" parses to username "a@b" and domain "example.com" (the cut is at the last "@") |
| MailUtils.ITunesAddress | mail_utils/mail_utils_test.go:27-37 | "do_not_reply@itunes.com" parses to {do_not_reply, itunes.com} |
| MailUtils.FakeAddressRejected | mail_utils/mail_utils_test.go:39-44 | "fake" has no "@" and yields an error and no value |
| MailUtils.EmptyDomainAccepted | mail_utils/mail_utils.go:48-51 | "user@" parses to username "user" and an empty domain |
| MailUtils.ParseDomains | mail_utils/mail_utils.go:61-64 | never fails; at least one label; labels = dots + 1; no label holds "."; joining the labels with "." gives the domain back |
| MailUtils.ParseDomainsOfJoin | mail_utils/mail_utils.go:62 | joining dot-free labels with "." and splitting again gives the labels back |
| MailUtils.AppleDomains | mail_utils/mail_utils_test.go:46-52 | "s.apple.com" splits into ["s", "apple", "com"] |
| MailUtils.TwoLabelsIffDot | mail_utils/mail_utils.go:62 | a domain has at least two labels exactly when it contains "." |
| MailUtils.Attempt | mail_utils/mail_utils.go:18-24 | no ensures: one `mail.ParseAddress` call, whose error names the text it rejected; see MailUtils.GetEmailAddressErrors |
| MailUtils.UnbalancedLeadingQuote | mail_utils/mail_utils.go:20 | no ensures: an odd number of '"' and a leading '"', reading the first character only when the count is odd, as the `&&` short-circuits; see MailUtils.EmptyRawFails |
| MailUtils.RecoverAddress | mail_utils/mail_utils.go:18-31 | no ensures; see MailUtils.RecoverAddressAttempts |
| MailUtils.GetEmailAddress | mail_utils/mail_utils.go:16-41 | no ensures; see MailUtils.GetEmailAddressSucceeds, MailUtils.GetEmailAddressErrors, MailUtils.FirstParseWins, MailUtils.QuoteRetryWins and MailUtils.EncodingRetryWins |
| MailUtils.RecoverAddressAttempts | mail_utils/mail_utils.go:18-31 | one or two parse calls, the first on the raw text; a second only if the first fails and the text has unbalanced quotes with a leading quote or holds "windows-1252"; the quote retry (on raw[1:]) takes precedence over the marker-deleting retry; the outcome is that of the last call |
| MailUtils.GetEmailAddressSucceeds | mail_utils/mail_utils.go:16-41 | succeeds exactly when an address was recovered and it holds "@"; a success is ParseEmailAddress of the recovered address, whichever attempt recovered it; the domain never holds "@" |
| MailUtils.GetEmailAddressErrors | mail_utils/mail_utils.go:27-37 | an error either names the last text the parser rejected, or is ParseEmailAddress's error for a recovered address without "@" |
| MailUtils.FirstParseWins | mail_utils/mail_utils.go:18-40 | when the first parse succeeds no fallback is tried and the result is ParseEmailAddress of that address |
| MailUtils.QuoteRetryWins | mail_utils/mail_utils.go:18-40 | when the first parse fails, the quotes are unbalanced with a leading quote and the parse of raw[1:] succeeds, exactly those two texts are tried and the result is ParseEmailAddress of the retried address |
| MailUtils.EncodingRetryWins | mail_utils/mail_utils.go:18-40 | when the first parse fails, the quote fallback does not apply, the text holds "windows-1252" and the parse of the marker-free text succeeds, exactly those two texts are tried and the result is ParseEmailAddress of the retried address |
| MailUtils.EncodingRetryNeedsMarker | mail_utils/mail_utils.go:22-24 | without "?windows1252" in the text, the encoding fallback re-parses the same text and fails again with the same error |
| MailUtils.EncodingRetryShortens | mail_utils/mail_utils.go:22-24 | with "?windows1252" present, the encoding fallback retries on a strictly shorter text |
| MailUtils.EmptyRawFails | mail_utils/mail_utils.go:20-30 | an empty text that does not parse is returned as an error after one attempt, without reading str[0] |
| NetMail.HeaderGet | main.go:175-198 | no ensures: the first value stored under the key, or "" when there is none, as `Header.Get` gives it; see BulkIndex.RecordFields |
| NetMail.HeaderDate | main.go:187-191 | no ensures: an absent or empty Date header is an error, any other value goes to the date parser; see BulkIndex.StepCases |
| MboxReader.FirstEof | main.go:143-149 | every slot before the returned position is a message slot and the slot at it is end of file |
| MboxReader.Messages | main.go:150-156 | one entry per slot before the first end of file, in order, nil for a failed read (not dropped) |
| MboxReader.AsMessage | main.go:152-156 | no ensures: a failed read appends nil; see MboxReader.Messages |
| MboxReader.ReadBatch | main.go:140-157 | reads exactly B slots, or stops just after the end of file when fewer than B remain; the batch is the messages read, in order; with B = 0 it reads nothing and never reports the end, so the outer loop cannot finish |
| MboxReader.ReadMbox | main.go:132-165 | the batches sent are the messages cut into batches of B; processed grows by the number of message slots; reading stops right after the first end of file |
| MboxReader.Batches | main.go:139-163 | no ensures; see MboxReader.BatchesFlatten, MboxReader.BatchesShape and MboxReader.BatchCount |
| MboxReader.BatchesFlatten | main.go:139-163 | concatenating the batches in send order gives exactly the input sequence |
| MboxReader.BatchesShape | main.go:139-163 | (count-1)·B < M ≤ count·B; every batch holds 1..B entries; all but the last hold exactly B; the last holds the remainder |
| MboxReader.BatchCount | main.go:139-163 | the number of batches is ⌈M/B⌉ |
| MboxReader.MessagesIgnoreTail | main.go:143-149 | what lies after the first end of file does not change what is read |
| MboxReader.ReaderOutput | main.go:139-163 | what readMbox sends: ⌈M/B⌉ non-empty batches of at most B, all but the last exactly B, concatenating to the slot messages in stream order with failed reads as nil |
| BulkIndex.SecondLevelDomain | main.go:200 | the last two labels joined by "." hold at least one dot, and exactly one when the labels are dot-free |
| BulkIndex.AppleSecondLevelDomain | main.go:200 | the second-level domain of "s.apple.com" is "apple.com" |
| BulkIndex.SecondLevelDomainSuffix | main.go:182-200 | for a domain with a dot, the second-level domain is the domain itself or a suffix after a dot, and holds exactly one dot |
| BulkIndex.BuildRecord | main.go:175-215 | no ensures; see BulkIndex.StepCases and BulkIndex.RecordFields |
| BulkIndex.StepCases | main.go:175-200 | a nil message panics; a message whose sender cannot be recovered breaks the batch; otherwise a date that cannot be parsed breaks it; otherwise it panics in the slice exactly when the sender domain has no "." |
| BulkIndex.RecordFields | main.go:193-201 | From is username + "@" + domain and re-parses to the same pair; Domain is the parsed domain and holds "."; SecondLevelDomain is its last two labels; ReturnPath, DeliveredTo, MessageId, To and the date are copied from the headers |
| BulkIndex.Collect | main.go:174-191 | no ensures; see BulkIndex.CollectPrefix |
| BulkIndex.ProcessBatch | main.go:174-191 | no ensures; see BulkIndex.ProcessBatchPrefix and BulkIndex.FailureEndsBatch |
| BulkIndex.CollectPrefix | main.go:174-191 | over the steps of a batch, the records kept are those of the leading record-building steps, and the first other step, a break or a panic, decides how the batch ends |
| BulkIndex.ProcessBatchPrefix | main.go:174-191 | the records come from a prefix of the batch, one per message, in order; the batch ends early exactly at the first message without a record, which gives the reason |
| BulkIndex.FailureEndsBatch | main.go:177-191 | no message after the first failing one in a batch gets a record |
| BulkIndex.IndexBatch | main.go:174-216 | the records handed to indexer.Add and the way the loop ends are those of the batch specification, whatever Add answers; refusals number at most the records |
| BulkIndex.RunBatches | main.go:172-217 | no ensures; see BulkIndex.RunBatchesStep, BulkIndex.RecordsBound and BulkIndex.AllRecordsWhenAllParse |
| BulkIndex.RunBatchesStep | main.go:172-217 | a break ends only its batch and the worker goes on with the next batch; a panic ends the worker |
| BulkIndex.Worker | main.go:172-217 | over the received batches, the records handed on and the panic, if any, are those of the worker specification |
| BulkIndex.CompletedIffYields | main.go:174-191 | a batch runs to its end exactly when every one of its messages yields a record |
| BulkIndex.RecordsBound | main.go:172-216 | a worker never hands on more records than the message slots it receives |
| BulkIndex.AllRecordsWhenAllParse | main.go:172-216 | one worker hands on exactly one record per message slot and does not panic, exactly when every message yields a record |

## Left out

- Goroutines, the unbuffered channel, `sync.WaitGroup` and `close` (main.go:264-284): concurrency. The reader's output is a sequence of batches. One worker is a loop over the batches it receives. How batches are spread over several workers is not modelled.
- `DeleteIndex`, `CreateIndex`, the `IndexRequest` struct, `esutil.NewBulkIndexer`, `indexer.Stats` and `indexer.Close` (main.go:38-130, 170, 218-219): index management and the network client.
- Configuration, flags and `main` (main.go:222-262): B is passed in as a number. This B is what `config.Int(BatchSize, 10)` gives; the capacity hint `config.Int(BatchSize)` at main.go:140 changes nothing.
- `mbox.NewReader`, `NextMessage` and `mail.ReadMessage`: they are the input sequence of slots. A `ReadError` slot is a failed `mail.ReadMessage`, whose nil message is appended (main.go:152-156). A failed `NextMessage` other than end of file returns a nil reader, and `mail.ReadMessage` would panic on it at main.go:152 instead of appending nil; that crash is not modelled, and the model treats such a slot like a failed `ReadMessage`.
- `mail.ParseAddress`, the date parser inside `Header.Date`, and `json.Marshal`: foreign. The two parsers are function parameters. A marshalling error only logs and `Add` is still called; the source then hands `Add` an empty body (`byts` is nil), while the model hands on the `Email` value itself, since it does not model when `json.Marshal` fails.
- `Header.Get` key canonicalisation: the model looks headers up under their canonical names ("Message-Id", "From", "Return-Path", "Delivered-To", "To", "Date").
- `time.Time` is an integer instant.
- zerolog logging throughout: side effects with no behaviour.
- BulkIndex.IndexBatch: the source only logs a refusal from `indexer.Add`; the model counts those log lines in `rejected`. Each refusal is a free choice, so the count is only bounded by the number of records: `Add`'s behaviour is foreign.
- The `strings.Split(str, "=?")` at mail_utils/mail_utils.go:23 discards its result and has no effect, so it is not modelled.
- main_test.go and the tests `TestMailParseAddress` and `TestErroredMailParseAddress`: they exercise a local file or only `net/mail`.
