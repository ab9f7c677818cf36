/**
 * The body of bulkIndex: each worker turns the messages of a batch into
 * index records and hands them to the bulk indexer, stopping the rest of the
 * batch at the first message whose sender or date cannot be parsed.
 */
module BulkIndex {
  import opened Wrappers
  import opened GoStrings
  import opened NetMail
  import opened MailUtils
  import opened MboxReader

  /** The Email record handed to the bulk indexer. */
  datatype Email = Email(
    from: string,
    returnPath: string,
    deliveredTo: string,
    messageId: string,
    to: string,
    domain: string,
    secondLevelDomain: string,
    dateTs: Timestamp)

  /** The foreign parsers the worker depends on: mail.ParseAddress and mail.ParseDate. */
  datatype Parsers = Parsers(
    parseAddress: string -> Option<Address>,
    parseDate: string -> Option<Timestamp>)

  /** Why a message ends its batch without a record (a `break`). */
  datatype Skip = BadAddress(error: Error) | BadDate

  /** Why a message makes the worker panic, which ends the whole process. */
  datatype Crash =
    | NilMessage       // a failed read left nil in the batch; main.go:175 dereferences it
    | SliceOutOfRange  // fewer than two domain labels; main.go:200 slices [len-2:len]

  /** What the loop body does with one message. */
  datatype Step = Record(email: Email) | Break(reason: Skip) | Panic(crash: Crash)

  /** The last two labels joined by ".", as main.go:200 computes it. */
  function SecondLevelDomain(labels: seq<string>): (sld: string)
    requires |labels| >= 2
    ensures Count(sld, '.') >= 1
    ensures (forall i :: 0 <= i < |labels| ==> '.' !in labels[i]) ==> Count(sld, '.') == 1
  {
    var last2 := labels[|labels| - 2..];
    assert Join(last2, ".") == last2[0] + "." + last2[1];
    CountAppend(last2[0], ".", '.');
    CountAppend(last2[0] + ".", last2[1], '.');
    Join(last2, ".")
  }

  /** The loop body of main.go:174-216 for one message. */
  function BuildRecord(p: Parsers, m: Option<Message>): Step {
    match m
    case None => Panic(NilMessage)
    case Some(msg) =>
      var h := msg.header;
      var messageId := HeaderGet(h, "Message-Id");
      match GetEmailAddress(p.parseAddress, HeaderGet(h, "From"))
      case Failure(e) => Break(BadAddress(e))
      case Success(from) =>
        var domainParts := ParseDomains(from.domain);
        match HeaderDate(h, p.parseDate)
        case None => Break(BadDate)
        case Some(date) =>
          if |domainParts| < 2 then Panic(SliceOutOfRange)
          else Record(Email(
            Join([from.username, from.domain], "@"),
            HeaderGet(h, "Return-Path"),
            HeaderGet(h, "Delivered-To"),
            messageId,
            HeaderGet(h, "To"),
            from.domain,
            SecondLevelDomain(domainParts),
            date))
  }

  /** How the loop over one batch ended. */
  datatype BatchEnd = Completed | Stopped(reason: Skip) | Crashed(crash: Crash)

  /** The records one batch yields, in order, and how the loop over it ended. */
  datatype BatchResult = BatchResult(records: seq<Email>, end: BatchEnd)

  /** The steps of a batch, one per message. */
  function Steps(p: Parsers, batch: seq<Option<Message>>): (steps: seq<Step>)
    ensures |steps| == |batch|
    ensures forall i :: 0 <= i < |batch| ==> steps[i] == BuildRecord(p, batch[i])
  {
    seq(|batch|, i requires 0 <= i < |batch| => BuildRecord(p, batch[i]))
  }

  /** Records until the first step that breaks or panics. */
  function Collect(steps: seq<Step>): BatchResult {
    if steps == [] then BatchResult([], Completed)
    else
      match steps[0]
      case Record(e) =>
        var rest := Collect(steps[1..]);
        BatchResult([e] + rest.records, rest.end)
      case Break(r) => BatchResult([], Stopped(r))
      case Panic(c) => BatchResult([], Crashed(c))
  }

  /** The loop over one batch: records until the first message that breaks or panics. */
  function ProcessBatch(p: Parsers, batch: seq<Option<Message>>): BatchResult {
    Collect(Steps(p, batch))
  }

  /**
   * The inner loop of bulkIndex over one batch (main.go:174-216): every
   * record built is handed to indexer.Add (`added`, in order) and the loop
   * ends at the first message that breaks or panics. What Add answers is
   * outside the model (any answer, call by call). The source only logs a
   * refusal; `rejected` counts those log lines, so the records handed on are
   * the same whatever Add answers.
   */
  method IndexBatch(p: Parsers, batch: seq<Option<Message>>)
    returns (added: seq<Email>, rejected: nat, end: BatchEnd)
    ensures added == ProcessBatch(p, batch).records
    ensures end == ProcessBatch(p, batch).end
    ensures rejected <= |added|
  {
    added, rejected, end := [], 0, Completed;
    ghost var steps := Steps(p, batch);
    var i := 0;
    while i < |batch|
      invariant 0 <= i <= |batch|
      invariant Collect(steps).records == added + Collect(steps[i..]).records
      invariant Collect(steps).end == Collect(steps[i..]).end
      invariant rejected <= |added|
    {
      var step := BuildRecord(p, batch[i]);
      CollectAt(steps, i);
      match step
      case Break(reason) =>
        end := Stopped(reason);
        return;
      case Panic(crash) =>
        end := Crashed(crash);
        return;
      case Record(email) =>
        added := added + [email];
        var addFailed: bool := *;  // the error indexer.Add returns, if any
        if addFailed {
          rejected := rejected + 1;
        }
        i := i + 1;
    }
    assert steps[i..] == [];
  }

  /** One step of Collect, taken at position i. */
  lemma CollectAt(steps: seq<Step>, i: nat)
    requires i < |steps|
    ensures Collect(steps[i..]) ==
              match steps[i]
              case Record(e) => BatchResult([e] + Collect(steps[i + 1..]).records, Collect(steps[i + 1..]).end)
              case Break(r) => BatchResult([], Stopped(r))
              case Panic(c) => BatchResult([], Crashed(c))
  {
    assert steps[i..][0] == steps[i] && steps[i..][1..] == steps[i + 1..];
  }

  /**
   * The records of a batch come from a prefix of it, one per message, in
   * order; the loop ends early exactly at the first message that does not
   * yield a record, and that message tells how it ended.
   */
  lemma ProcessBatchPrefix(p: Parsers, batch: seq<Option<Message>>)
    ensures var r := ProcessBatch(p, batch);
            && |r.records| <= |batch|
            && (forall i :: 0 <= i < |r.records| ==> BuildRecord(p, batch[i]) == Record(r.records[i]))
            && (r.end.Completed? <==> |r.records| == |batch|)
            && (r.end.Stopped? ==> |r.records| < |batch| && BuildRecord(p, batch[|r.records|]) == Break(r.end.reason))
            && (r.end.Crashed? ==> |r.records| < |batch| && BuildRecord(p, batch[|r.records|]) == Panic(r.end.crash))
  {
    CollectPrefix(Steps(p, batch));
  }

  /** Collect keeps the records of the leading Record steps and stops at the first other step. */
  lemma {:induction false} CollectPrefix(steps: seq<Step>)
    ensures var r := Collect(steps);
            && |r.records| <= |steps|
            && (forall i :: 0 <= i < |r.records| ==> steps[i] == Record(r.records[i]))
            && (r.end.Completed? <==> |r.records| == |steps|)
            && (r.end.Stopped? ==> |r.records| < |steps| && steps[|r.records|] == Break(r.end.reason))
            && (r.end.Crashed? ==> |r.records| < |steps| && steps[|r.records|] == Panic(r.end.crash))
  {
    if steps != [] && steps[0].Record? {
      CollectPrefix(steps[1..]);
    }
  }

  /** No message after the first failing one in a batch gets a record, whatever it holds. */
  lemma FailureEndsBatch(p: Parsers, batch: seq<Option<Message>>, k: nat)
    requires k < |batch| && !BuildRecord(p, batch[k]).Record?
    ensures |ProcessBatch(p, batch).records| <= k
    ensures !ProcessBatch(p, batch).end.Completed?
  {
    ProcessBatchPrefix(p, batch);
  }

  /**
   * The fields of a record: From is the parsed username and domain glued
   * with "@" and parses back to the same pair, Domain is the parsed domain
   * and holds a dot, SecondLevelDomain is its last two labels, and the other
   * header fields and the date are copied from the message unchanged.
   */
  lemma RecordFields(p: Parsers, msg: Message)
    requires BuildRecord(p, Some(msg)).Record?
    ensures var e := BuildRecord(p, Some(msg)).email;
            var h := msg.header;
            && GetEmailAddress(p.parseAddress, HeaderGet(h, "From")).Success?
            && var from := GetEmailAddress(p.parseAddress, HeaderGet(h, "From")).value;
            && e.from == from.username + "@" + from.domain
            && e.domain == from.domain
            && ParseEmailAddress(Address("", e.from)) == Success(from)
            && '.' in e.domain
            && e.secondLevelDomain == SecondLevelDomain(ParseDomains(e.domain))
            && e.returnPath == HeaderGet(h, "Return-Path")
            && e.deliveredTo == HeaderGet(h, "Delivered-To")
            && e.messageId == HeaderGet(h, "Message-Id")
            && e.to == HeaderGet(h, "To")
            && HeaderDate(h, p.parseDate) == Some(e.dateTs)
  {
    var from := GetEmailAddress(p.parseAddress, HeaderGet(msg.header, "From")).value;
    assert Join([from.username, from.domain], "@") == from.username + "@" + from.domain;
    RecombinedRoundTrip("", from.username, from.domain);
    TwoLabelsIffDot(from.domain);
  }

  /** The second-level domain is a suffix of the domain with exactly one dot in it. */
  lemma SecondLevelDomainSuffix(domain: string)
    requires '.' in domain
    ensures |ParseDomains(domain)| >= 2
    ensures var sld := SecondLevelDomain(ParseDomains(domain));
            Count(sld, '.') == 1 &&
            (sld == domain || exists prefix :: domain == prefix + "." + sld)
  {
    var labels := ParseDomains(domain);
    TwoLabelsIffDot(domain);
    var n := |labels|;
    var sld := SecondLevelDomain(labels);
    if n > 2 {
      JoinAt(labels, ".", n - 2);
      assert domain == Join(labels[..n - 2], ".") + "." + sld;
    } else {
      assert labels[n - 2..] == labels;
    }
  }

  /** The documented case: the second-level domain of "s.apple.com" is "apple.com". */
  lemma AppleSecondLevelDomain()
    ensures SecondLevelDomain(ParseDomains("s.apple.com")) == "apple.com"
  {
    AppleDomains();
    var l := ParseDomains("s.apple.com");
    assert l[|l| - 2..] == ["apple", "com"];
    assert Join(["apple", "com"], ".") == "apple" + "." + "com";
  }

  /**
   * How one message's step is decided: a nil message panics, a bad sender or
   * a bad date breaks the batch, and a dot-less sender domain panics.
   */
  lemma StepCases(p: Parsers, m: Option<Message>)
    ensures BuildRecord(p, m) == Panic(NilMessage) <==> m.None?
    ensures m.Some? ==>
              (BuildRecord(p, m).Break? && BuildRecord(p, m).reason.BadAddress? <==>
                 GetEmailAddress(p.parseAddress, HeaderGet(m.value.header, "From")).Failure?)
    ensures m.Some? && GetEmailAddress(p.parseAddress, HeaderGet(m.value.header, "From")).Success? ==>
              (BuildRecord(p, m) == Break(BadDate) <==> HeaderDate(m.value.header, p.parseDate).None?)
    ensures m.Some? && BuildRecord(p, m) == Panic(SliceOutOfRange) ==>
              '.' !in GetEmailAddress(p.parseAddress, HeaderGet(m.value.header, "From")).value.domain
    ensures m.Some? && GetEmailAddress(p.parseAddress, HeaderGet(m.value.header, "From")).Success? &&
            HeaderDate(m.value.header, p.parseDate).Some? ==>
              (BuildRecord(p, m) == Panic(SliceOutOfRange) <==>
                 '.' !in GetEmailAddress(p.parseAddress, HeaderGet(m.value.header, "From")).value.domain)
  {
    if m.Some? {
      var r := GetEmailAddress(p.parseAddress, HeaderGet(m.value.header, "From"));
      if r.Success? { TwoLabelsIffDot(r.value.domain); }
    }
  }

  /** The records one worker hands to the indexer over several batches, and whether it panicked. */
  datatype WorkerResult = WorkerResult(records: seq<Email>, crash: Option<Crash>)

  /**
   * The `range ch` loop of one worker: each batch in turn; a `break` ends
   * only its batch, a panic ends everything.
   */
  function RunBatches(p: Parsers, batches: seq<seq<Option<Message>>>): WorkerResult {
    if batches == [] then WorkerResult([], None)
    else
      var r := ProcessBatch(p, batches[0]);
      if r.end.Crashed? then WorkerResult(r.records, Some(r.end.crash))
      else
        var rest := RunBatches(p, batches[1..]);
        WorkerResult(r.records + rest.records, rest.crash)
  }

  /** One turn of the `range ch` loop. */
  lemma RunBatchesStep(p: Parsers, batches: seq<seq<Option<Message>>>, k: nat)
    requires k < |batches|
    ensures var r := ProcessBatch(p, batches[k]);
            var run := RunBatches(p, batches[k..]);
            && (r.end.Crashed? ==> run == WorkerResult(r.records, Some(r.end.crash)))
            && (!r.end.Crashed? ==> run == WorkerResult(r.records + RunBatches(p, batches[k + 1..]).records,
                                                        RunBatches(p, batches[k + 1..]).crash))
  {
    assert batches[k..][0] == batches[k] && batches[k..][1..] == batches[k + 1..];
  }

  /** bulkIndex for one worker (main.go:172-217) over the batches it receives. */
  method Worker(p: Parsers, batches: seq<seq<Option<Message>>>)
    returns (added: seq<Email>, rejected: nat, crash: Option<Crash>)
    ensures added == RunBatches(p, batches).records
    ensures crash == RunBatches(p, batches).crash
    ensures rejected <= |added|
  {
    added, rejected, crash := [], 0, None;
    var k := 0;
    while k < |batches|
      invariant 0 <= k <= |batches|
      invariant RunBatches(p, batches).records == added + RunBatches(p, batches[k..]).records
      invariant RunBatches(p, batches).crash == RunBatches(p, batches[k..]).crash
      invariant rejected <= |added|
    {
      RunBatchesStep(p, batches, k);
      var more, refused, end := IndexBatch(p, batches[k]);
      added, rejected := added + more, rejected + refused;
      if end.Crashed? {
        crash := Some(end.crash);
        return;
      }
      k := k + 1;
    }
    assert batches[k..] == [];
  }

  /** Every message of the batch yields a record. */
  predicate BatchYields(p: Parsers, batch: seq<Option<Message>>) {
    forall j :: 0 <= j < |batch| ==> BuildRecord(p, batch[j]).Record?
  }

  /** Every message of every batch yields a record. */
  predicate AllYield(p: Parsers, batches: seq<seq<Option<Message>>>) {
    forall i :: 0 <= i < |batches| ==> BatchYields(p, batches[i])
  }

  /** A batch is completed exactly when each of its messages yields a record. */
  lemma CompletedIffYields(p: Parsers, batch: seq<Option<Message>>)
    ensures ProcessBatch(p, batch).end.Completed? <==> BatchYields(p, batch)
  {
    ProcessBatchPrefix(p, batch);
    var r := ProcessBatch(p, batch);
    if !r.end.Completed? {
      assert !BuildRecord(p, batch[|r.records|]).Record?;
    }
  }

  /** A worker never indexes more records than the message slots it receives. */
  lemma {:induction false} RecordsBound(p: Parsers, batches: seq<seq<Option<Message>>>)
    ensures |RunBatches(p, batches).records| <= |Flatten(batches)|
  {
    if batches != [] {
      ProcessBatchPrefix(p, batches[0]);
      RecordsBound(p, batches[1..]);
    }
  }

  /**
   * A single worker fed everything the reader sends indexes one record per
   * message slot of the stream, without a panic, exactly when every message
   * yields a record.
   */
  lemma {:induction false} AllRecordsWhenAllParse(p: Parsers, batches: seq<seq<Option<Message>>>)
    ensures |RunBatches(p, batches).records| == |Flatten(batches)| && RunBatches(p, batches).crash == None
            <==> AllYield(p, batches)
  {
    if batches != [] {
      var r := ProcessBatch(p, batches[0]);
      ProcessBatchPrefix(p, batches[0]);
      CompletedIffYields(p, batches[0]);
      RecordsBound(p, batches[1..]);
      AllRecordsWhenAllParse(p, batches[1..]);
      assert AllYield(p, batches) <==> BatchYields(p, batches[0]) && AllYield(p, batches[1..]) by {
        assert forall i :: 1 <= i < |batches| ==> batches[1..][i - 1] == batches[i];
      }
    }
  }
}
