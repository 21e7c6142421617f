/**
 * The fetch engine of utils/request_manager.py: one retry loop per URL that
 * stops at the first response or after the fifth transport failure, a
 * failure counter that every failed attempt bumps, and a batch that yields
 * one result record per URL, in the order of the URLs.
 *
 * The network is an input: for every URL a `Network` says what each attempt
 * (numbered from 0) would return.
 */
module Requests {
  import opened PyValues
  import opened Constants

  /** What one GET attempt produces: a response, or a transport-level exception. */
  datatype Outcome =
    | Success(status: int, contentLength: Option<string>, totalBytes: nat, bodyLength: nat)
    | Failure(message: string)

  /** The outcome of attempt `j` the URL would see, for every `j`. */
  type Network = nat -> Outcome

  /** The six keys of every record `_fetch` returns. */
  const RecordKeys: set<string> :=
    {"url", "status_code", "content_length", "stream_reader", "body_length", "error"}

  /**
   * The stored `content_length`: the header text when the header is there
   * and non-empty, otherwise the default 0.
   */
  function ContentLengthValue(header: Option<string>): (v: Value)
    ensures v == Int(ContentLengthDefault) <==> header.None? || header.value == ""
    ensures v != Int(ContentLengthDefault) ==> header.Some? && v == Str(header.value)
  {
    if header.Some? && header.value != "" then Str(header.value) else Int(ContentLengthDefault)
  }

  /** The fields written into the record when an attempt gets a response. */
  function SuccessFields(o: Outcome): Dict
    requires o.Success?
  {
    map[
      "status_code" := Int(o.status),
      "content_length" := ContentLengthValue(o.contentLength),
      "stream_reader" := Int(o.totalBytes),
      "body_length" := Int(o.bodyLength),
      "error" := Str("")
    ]
  }

  /** The error text of an exhausted record: the exception's text, or a fallback when that is empty. */
  function ErrorText(message: string): (t: string)
    ensures t != ""
    ensures message != "" ==> t == message
  {
    if message == "" then "Something Went Wrong" else message
  }

  /** The fields written into the record after the last allowed attempt failed. */
  function ExhaustedFields(message: string): Dict {
    map[
      "status_code" := Int(StatusCodeDefault),
      "content_length" := Int(ContentLengthDefault),
      "stream_reader" := Int(StreamReaderDefault),
      "body_length" := Int(BodyLengthDefault),
      "error" := Str(ErrorText(message))
    ]
  }

  /** The number of failures at the head of the first `bound` attempts. */
  function LeadingFailures(net: Network, bound: nat): (k: nat)
    ensures k <= bound
    ensures forall j :: 0 <= j < k ==> net(j).Failure?
    ensures k < bound ==> net(k).Success?
  {
    if bound == 0 then 0
    else
      var k := LeadingFailures(net, bound - 1);
      if k == bound - 1 && net(bound - 1).Failure? then bound else k
  }

  /** The failed attempts the retry loop makes for one URL. */
  function FailedAttempts(net: Network): (k: nat)
    ensures k <= LimitOfAttemptsToRetry
  {
    LeadingFailures(net, LimitOfAttemptsToRetry)
  }

  /** The attempts the retry loop makes for one URL: up to the first response, at most the limit. */
  function Attempts(net: Network): (n: nat)
    ensures 1 <= n <= LimitOfAttemptsToRetry
  {
    var k := FailedAttempts(net);
    if k < LimitOfAttemptsToRetry then k + 1 else LimitOfAttemptsToRetry
  }

  /** The record `_fetch` returns for `url`: the first response's fields, or the defaults and the last error. */
  function FetchRecord(url: string, net: Network): Dict {
    var k := FailedAttempts(net);
    map["url" := Str(url)]
      + if k < LimitOfAttemptsToRetry then SuccessFields(net(k))
        else ExhaustedFields(net(LimitOfAttemptsToRetry - 1).message)
  }

  /** The failure counter's growth over a batch: the failed attempts of every URL. */
  function TotalFailures(nets: seq<Network>): nat {
    if nets == [] then 0 else TotalFailures(nets[..|nets| - 1]) + FailedAttempts(nets[|nets| - 1])
  }

  /** A network whose every attempt gives `o`. */
  function Always(o: Outcome): Network {
    _ => o
  }

  /**
   * The exception a batch raises when the manager's session was already
   * closed by an earlier batch: a `RuntimeError` the retry loop does not catch.
   */
  datatype BatchError = SessionClosed

  class RequestManager {
    /** The targets, each as `str(URL(u))` renders it. */
    const urls: seq<string>
    const timeout: int
    /** `_failed_requests_num`: failed attempts over all URLs so far. */
    var failedRequestsNum: int
    /** Whether the one session of the manager has been closed, as leaving `async with` does. */
    var sessionClosed: bool

    /** `parse` stands for `str(URL(u))`, the URL library's normalisation. */
    constructor (rawUrls: seq<string>, parse: string -> string, timeout: int := TimeoutDefault)
      ensures urls == seq(|rawUrls|, i requires 0 <= i < |rawUrls| => parse(rawUrls[i]))
      ensures this.timeout == timeout
      ensures failedRequestsNum == 0
      ensures !sessionClosed
    {
      urls := seq(|rawUrls|, i requires 0 <= i < |rawUrls| => parse(rawUrls[i]));
      this.timeout := timeout;
      failedRequestsNum := 0;
      sessionClosed := false;
    }

    /** The `failed_requests_num` setter: it adds its argument rather than storing it. */
    method SetFailedRequestsNum(num: int)
      modifies this
      ensures failedRequestsNum == old(failedRequestsNum) + num
      ensures sessionClosed == old(sessionClosed)
    {
      failedRequestsNum := failedRequestsNum + num;
    }

    /**
     * `_fetch`: attempts `url` until a response arrives or the budget of
     * attempts runs out. `attempts` counts the calls made to the network.
     */
    method Fetch(url: string, net: Network) returns (result: Dict, ghost attempts: nat)
      modifies this
      ensures result == FetchRecord(url, net)
      ensures attempts == Attempts(net)
      ensures failedRequestsNum == old(failedRequestsNum) + FailedAttempts(net)
      ensures sessionClosed == old(sessionClosed)
    {
      result := map["url" := Str(url)];
      var leftOfAttemptsToRetry: int := LimitOfAttemptsToRetry;
      attempts := 0;
      while leftOfAttemptsToRetry != 0
        invariant 0 <= leftOfAttemptsToRetry <= LimitOfAttemptsToRetry
        invariant attempts == LimitOfAttemptsToRetry - leftOfAttemptsToRetry
        invariant forall j :: 0 <= j < attempts ==> net(j).Failure?
        invariant failedRequestsNum == old(failedRequestsNum) + attempts
        invariant sessionClosed == old(sessionClosed)
        invariant leftOfAttemptsToRetry != 0 ==> result == map["url" := Str(url)]
        invariant leftOfAttemptsToRetry == 0 ==>
          result == map["url" := Str(url)] + ExhaustedFields(net(LimitOfAttemptsToRetry - 1).message)
      {
        var outcome := net(LimitOfAttemptsToRetry - leftOfAttemptsToRetry);
        attempts := attempts + 1;
        match outcome {
          case Success(_, _, _, _) =>
            result := result + SuccessFields(outcome);
            break;
          case Failure(message) =>
            leftOfAttemptsToRetry := leftOfAttemptsToRetry - RequestsRetriesNumToRemove;
            SetFailedRequestsNum(RequestsRetriesNumToRemove);
            if leftOfAttemptsToRetry == 0 {
              result := result + ExhaustedFields(message);
            } else {
              continue;
            }
        }
      }
    }

    /**
     * `make_requests`: one record per URL, record `i` for URL `i`, and the
     * session closed afterwards. On a session an earlier batch closed, the
     * first GET raises and the batch fails without counting a failure; with
     * no URLs nothing is fetched and the batch is empty.
     */
    method MakeRequests(nets: seq<Network>) returns (results: Result<seq<Dict>, BatchError>)
      requires |nets| == |urls|
      modifies this
      ensures sessionClosed
      ensures old(sessionClosed) && |urls| > 0 ==>
        results == Result.Failure(SessionClosed) && failedRequestsNum == old(failedRequestsNum)
      ensures !old(sessionClosed) || |urls| == 0 ==>
        && results.Success?
        && |results.value| == |urls|
        && (forall i :: 0 <= i < |urls| ==> results.value[i] == FetchRecord(urls[i], nets[i]))
        && failedRequestsNum == old(failedRequestsNum) + TotalFailures(nets)
    {
      if sessionClosed && |urls| > 0 {
        return Result.Failure(SessionClosed);
      }
      var records := FetchAll(nets);
      sessionClosed := true;
      results := Result.Success(records);
    }

    /** The fetches of one batch, URL by URL, in the order of the URLs. */
    method FetchAll(nets: seq<Network>) returns (records: seq<Dict>)
      requires |nets| == |urls|
      modifies this
      ensures |records| == |urls|
      ensures forall i :: 0 <= i < |urls| ==> records[i] == FetchRecord(urls[i], nets[i])
      ensures failedRequestsNum == old(failedRequestsNum) + TotalFailures(nets)
      ensures sessionClosed == old(sessionClosed)
    {
      records := [];
      for i := 0 to |urls|
        invariant |records| == i
        invariant forall j :: 0 <= j < i ==> records[j] == FetchRecord(urls[j], nets[j])
        invariant failedRequestsNum == old(failedRequestsNum) + TotalFailures(nets[..i])
        invariant sessionClosed == old(sessionClosed)
      {
        ghost var attempts;
        var record;
        record, attempts := Fetch(urls[i], nets[i]);
        assert nets[..i + 1][..i] == nets[..i];
        records := records + [record];
      }
      assert nets[..|urls|] == nets;
    }
  }

  /**
   * `create_make_requests`: builds a manager for the URLs and runs the batch;
   * `failed` is the failure count it reports afterwards.
   */
  method CreateMakeRequests(rawUrls: seq<string>, parse: string -> string, nets: seq<Network>,
                            timeout: int := TimeoutDefault)
    returns (results: seq<Dict>, failed: int)
    requires |nets| == |rawUrls|
    ensures |results| == |rawUrls|
    ensures forall i :: 0 <= i < |rawUrls| ==> results[i] == FetchRecord(parse(rawUrls[i]), nets[i])
    ensures failed == TotalFailures(nets)
  {
    var manager := new RequestManager(rawUrls, parse, timeout);
    var batch := manager.MakeRequests(nets);
    results := batch.value;
    failed := manager.failedRequestsNum;
  }

  /** A manager serves one batch: a second batch over a non-empty URL list raises. */
  method SecondBatchRaises(rawUrls: seq<string>, parse: string -> string, nets: seq<Network>)
    returns (first: Result<seq<Dict>, BatchError>, second: Result<seq<Dict>, BatchError>)
    requires |nets| == |rawUrls| > 0
    ensures first.Success? && |first.value| == |rawUrls|
    ensures second == Result.Failure(SessionClosed)
  {
    var manager := new RequestManager(rawUrls, parse);
    first := manager.MakeRequests(nets);
    second := manager.MakeRequests(nets);
  }

  // ---------------------------------------------------------------------
  // Properties of the retry loop and of the batch
  // ---------------------------------------------------------------------

  /**
   * With exactly `k` failures before the first response, the loop makes
   * min(k + 1, 5) attempts, of which min(k, 5) fail.
   */
  lemma AttemptsAfterLeadingFailures(net: Network, k: nat)
    requires forall j :: 0 <= j < k ==> net(j).Failure?
    requires net(k).Success?
    ensures Attempts(net) == if k < LimitOfAttemptsToRetry then k + 1 else LimitOfAttemptsToRetry
    ensures FailedAttempts(net) == if k < LimitOfAttemptsToRetry then k else LimitOfAttemptsToRetry
  {
    var f := FailedAttempts(net);
    if f < k {
      assert net(f).Failure?;
    }
  }

  /** Every record has the six keys and keeps the URL it was seeded with. */
  lemma RecordShape(url: string, net: Network)
    ensures FetchRecord(url, net).Keys == RecordKeys
    ensures FetchRecord(url, net)["url"] == Str(url)
  {
  }

  /** A response after `k < 5` failures fills the record from that response, with an empty error. */
  lemma SuccessRecord(url: string, net: Network, k: nat)
    requires k < LimitOfAttemptsToRetry
    requires forall j :: 0 <= j < k ==> net(j).Failure?
    requires net(k).Success?
    ensures var r := FetchRecord(url, net);
      && r["url"] == Str(url)
      && r["status_code"] == Int(net(k).status)
      && r["content_length"] == (if net(k).contentLength.Some? && net(k).contentLength.value != ""
                                 then Str(net(k).contentLength.value) else Int(ContentLengthDefault))
      && r["stream_reader"] == Int(net(k).totalBytes)
      && r["body_length"] == Int(net(k).bodyLength)
      && r["error"] == Str("")
  {
    AttemptsAfterLeadingFailures(net, k);
  }

  /** Failed attempts before a response leave no trace: the record is the one a first-try response gives. */
  lemma RetriesLeaveNoTrace(url: string, net: Network, k: nat)
    requires k < LimitOfAttemptsToRetry
    requires forall j :: 0 <= j < k ==> net(j).Failure?
    requires net(k).Success?
    ensures FetchRecord(url, net) == FetchRecord(url, Always(net(k)))
    ensures Attempts(Always(net(k))) == 1
  {
    AttemptsAfterLeadingFailures(net, k);
    AttemptsAfterLeadingFailures(Always(net(k)), 0);
  }

  /**
   * Five failures exhaust the budget: five attempts, status 0, every size 0,
   * and an error text that is never empty.
   */
  lemma ExhaustedRecord(url: string, net: Network)
    requires forall j :: 0 <= j < LimitOfAttemptsToRetry ==> net(j).Failure?
    ensures Attempts(net) == LimitOfAttemptsToRetry
    ensures FailedAttempts(net) == LimitOfAttemptsToRetry
    ensures var r := FetchRecord(url, net);
      && r["url"] == Str(url)
      && r["status_code"] == Int(0)
      && r["content_length"] == Int(0)
      && r["stream_reader"] == Int(0)
      && r["body_length"] == Int(0)
      && r["error"] == Str(ErrorText(net(LimitOfAttemptsToRetry - 1).message))
      && r["error"].text != ""
      && (net(LimitOfAttemptsToRetry - 1).message == "" ==> r["error"] == Str("Something Went Wrong"))
  {
  }

  /** The failure counter grows by at most 5 per URL over a batch. */
  lemma {:induction false} TotalFailuresBound(nets: seq<Network>)
    ensures TotalFailures(nets) <= LimitOfAttemptsToRetry * |nets|
  {
    if nets != [] {
      TotalFailuresBound(nets[..|nets| - 1]);
    }
  }

  /** The batch's failure count is the sum of the URLs' failure counts, whatever the split. */
  lemma {:induction false} TotalFailuresAppend(a: seq<Network>, b: seq<Network>)
    ensures TotalFailures(a + b) == TotalFailures(a) + TotalFailures(b)
  {
    if b != [] {
      assert (a + b)[..|a + b| - 1] == a + b[..|b| - 1];
      TotalFailuresAppend(a, b[..|b| - 1]);
    } else {
      assert a + b == a;
    }
  }
}
