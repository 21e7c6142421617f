/**
 * Rendering of the batch's records (requests_maker.py): `format_bytes`,
 * which shows a byte count in B, KB or MB, and the fold of
 * `write_results_to_file` that turns the list of records into the one
 * object written out. The file itself is not modelled.
 *
 * `format_bytes` divides by 1024 or 1048576 and prints two decimals. Both
 * divisors are powers of two, so the quotient is exact in binary floating
 * point and Python's correctly rounded `.2f` rounds it to the nearest
 * hundredth, a tie going to the even hundredth. The model computes that
 * hundredth with integers.
 */
module ResultWriter {
  import opened PyValues
  import Requests
  import Constants

  const Kilo: nat := 1024
  const Mega: nat := 1024 * 1024

  // ---------------------------------------------------------------------
  // Two-decimal rendering in integers
  // ---------------------------------------------------------------------

  function Abs(x: int): nat {
    if x < 0 then -x else x
  }

  /** `c` is the integer nearest to `num / den`; at a tie it is the even one. */
  ghost predicate NearestHalfEven(num: int, den: int, c: int)
    requires den > 0
  {
    2 * Abs(c * den - num) <= den && (2 * Abs(c * den - num) == den ==> c % 2 == 0)
  }

  /** `num / den` rounded to an integer, half to even. */
  function RoundHalfEven(num: nat, den: nat): (c: nat)
    requires den > 0
    ensures NearestHalfEven(num, den, c)
  {
    var q := num / den;
    var r := num % den;
    RoundingOffsets(num, den);
    if 2 * r < den then q
    else if 2 * r > den then q + 1
    else if q % 2 == 0 then q
    else q + 1
  }

  /** How far the two candidates, the quotient and the next integer, are from `num / den`, scaled by `den`. */
  lemma RoundingOffsets(num: nat, den: nat)
    requires den > 0
    ensures (num / den) * den - num == -(num % den)
    ensures (num / den + 1) * den - num == den - num % den
  {
    assert num == (num / den) * den + num % den;
    assert (num / den + 1) * den == (num / den) * den + den;
  }

  lemma MulBounds(t: int, den: int)
    requires den > 0
    ensures t >= 1 ==> t * den >= den
    ensures t >= 2 ==> t * den >= 2 * den
    ensures t <= -1 ==> t * den <= -den
    ensures t <= -2 ==> t * den <= -2 * den
  {
    if t >= 1 {
      assert t * den == (t - 1) * den + den;
    }
    if t >= 2 {
      assert t * den == (t - 2) * den + 2 * den;
    }
    if t <= -1 {
      assert t * den == (t + 1) * den - den;
    }
    if t <= -2 {
      assert t * den == (t + 2) * den - 2 * den;
    }
  }

  /** At most one integer is nearest with ties to even, so the rounding is determined. */
  lemma NearestHalfEvenUnique(num: int, den: int, c1: int, c2: int)
    requires den > 0
    requires NearestHalfEven(num, den, c1) && NearestHalfEven(num, den, c2)
    ensures c1 == c2
  {
    assert (c1 * den - num) - (c2 * den - num) == (c1 - c2) * den;
    MulBounds(c1 - c2, den);
  }

  /** A count of hundredths written as `%d.%02d`. */
  function CentiString(c: nat): (s: string)
    ensures |s| >= 4
  {
    NatToDecimal(c / 100) + "." + [DigitChar(c / 10 % 10), DigitChar(c % 10)]
  }

  /** The hundredths a `<digits>.<two digits>` numeral denotes. */
  function ParseCenti(s: string): int {
    if |s| < 3 then 0 else DecimalValue(s[..|s| - 3]) * 100 + DecimalValue(s[|s| - 2..])
  }

  /** `CentiString` writes exactly two decimals after the point, and reading them back gives `c`. */
  lemma CentiRoundTrip(c: nat)
    ensures var s := CentiString(c);
      && s[|s| - 3] == '.'
      && (forall i :: 0 <= i < |s| && i != |s| - 3 ==> IsDigit(s[i]))
      && (|s| > 4 ==> s[0] != '0')
      && ParseCenti(s) == c
  {
    var s := CentiString(c);
    var whole := NatToDecimal(c / 100);
    assert s[..|s| - 3] == whole;
    assert forall i :: 0 <= i < |whole| ==> s[i] == whole[i];
    var frac := s[|s| - 2..];
    assert frac == [DigitChar(c / 10 % 10), DigitChar(c % 10)];
    TwoDigitsValue(c / 10 % 10, c % 10);
    CentiSplit(c);
    DecimalRoundTrip(c / 100);
  }

  /** Two digits read as a number. */
  lemma TwoDigitsValue(d1: nat, d0: nat)
    requires d1 < 10 && d0 < 10
    ensures DecimalValue([DigitChar(d1), DigitChar(d0)]) == d1 * 10 + d0
  {
    var t := [DigitChar(d1), DigitChar(d0)];
    assert t[..1] == [DigitChar(d1)];
    assert [DigitChar(d1)][..0] == [];
    assert DecimalValue([DigitChar(d1)]) == d1;
    assert DecimalValue(t) == DecimalValue(t[..1]) * 10 + d0;
  }

  /** A count of hundredths splits into its whole part and its two decimal digits. */
  lemma CentiSplit(c: nat)
    ensures (c / 100) * 100 + (c / 10 % 10) * 10 + c % 10 == c
  {
    assert c == (c / 10) * 10 + c % 10;
    assert c / 10 == (c / 100) * 10 + c / 10 % 10;
  }

  // ---------------------------------------------------------------------
  // format_bytes
  // ---------------------------------------------------------------------

  /** The unit a rendering ends with: " KB" or " MB" when it ends so, " B" otherwise. */
  function Unit(s: string): string {
    if |s| >= 3 && s[|s| - 3..] in {" KB", " MB"} then s[|s| - 3..] else " B"
  }

  /** A number followed by its unit. */
  function WithUnit(number: string, unit: string): (s: string)
    requires |number| >= 1 && unit in {" B", " KB", " MB"}
    ensures s == number + unit
    ensures Unit(s) == unit
  {
    var s := number + unit;
    assert s[|s| - |unit|..] == unit;
    assert unit == " B" ==> s[|s| - 3..][1] == ' ';
    s
  }

  /**
   * `format_bytes`: None is "0 B"; the MB threshold is tested before the KB
   * one. Every result is a number followed by one of the three units.
   */
  function FormatBytes(numBytes: Option<int>): (s: string)
    ensures Unit(s) == (if numBytes.None? || numBytes.value < Kilo then " B"
                        else if numBytes.value < Mega then " KB" else " MB")
  {
    match numBytes
    case None => "0 B"
    case Some(n) =>
      if n >= Mega then WithUnit(CentiString(RoundHalfEven(100 * n, Mega)), " MB")
      else if n >= Kilo then WithUnit(CentiString(RoundHalfEven(100 * n, Kilo)), " KB")
      else WithUnit(IntToDecimal(n), " B")
  }

  /** Below 1024 the count is printed as it is, in bytes; a non-negative count as plain digits. */
  lemma FormatBytesPlain(n: int)
    requires n < Kilo
    ensures var s := FormatBytes(Some(n));
      && |s| >= 3
      && s[|s| - 2..] == " B"
      && SignedDecimalValue(s[..|s| - 2]) == n
      && (n >= 0 ==> (forall i :: 0 <= i < |s| - 2 ==> IsDigit(s[i])) && (|s| > 3 ==> s[0] != '0'))
      && (n < 0 ==> s[0] == '-' && |s| >= 4 && (forall i :: 1 <= i < |s| - 2 ==> IsDigit(s[i])) && (|s| > 4 ==> s[1] != '0'))
  {
    var s := FormatBytes(Some(n));
    var numeral := IntToDecimal(n);
    assert s[..|s| - 2] == numeral;
    assert forall i :: 0 <= i < |numeral| ==> s[i] == numeral[i];
    if n < 0 {
      var digits := NatToDecimal(-n);
      assert numeral == "-" + digits;
      assert forall i :: 1 <= i < |numeral| ==> numeral[i] == digits[i - 1];
    }
    IntToDecimalRoundTrip(n);
  }

  /** From 1024 below 1048576: hundredths of n / 1024, rounded half to even, then " KB". */
  lemma FormatBytesKilo(n: int)
    requires Kilo <= n < Mega
    ensures var s := FormatBytes(Some(n));
      && |s| >= 7
      && s[|s| - 3..] == " KB"
      && s[|s| - 6] == '.'
      && (forall i :: 0 <= i < |s| - 3 && i != |s| - 6 ==> IsDigit(s[i]))
      && (|s| > 7 ==> s[0] != '0')
      && NearestHalfEven(100 * n, Kilo, ParseCenti(s[..|s| - 3]))
  {
    var c := RoundHalfEven(100 * n, Kilo);
    var s := FormatBytes(Some(n));
    var shown := CentiString(c);
    assert s[..|s| - 3] == shown;
    assert forall i :: 0 <= i < |shown| ==> s[i] == shown[i];
    CentiRoundTrip(c);
  }

  /** From 1048576 on: hundredths of n / 1048576, rounded half to even, then " MB". */
  lemma FormatBytesMega(n: int)
    requires n >= Mega
    ensures var s := FormatBytes(Some(n));
      && |s| >= 7
      && s[|s| - 3..] == " MB"
      && s[|s| - 6] == '.'
      && (forall i :: 0 <= i < |s| - 3 && i != |s| - 6 ==> IsDigit(s[i]))
      && (|s| > 7 ==> s[0] != '0')
      && NearestHalfEven(100 * n, Mega, ParseCenti(s[..|s| - 3]))
  {
    var c := RoundHalfEven(100 * n, Mega);
    var s := FormatBytes(Some(n));
    var shown := CentiString(c);
    assert s[..|s| - 3] == shown;
    assert forall i :: 0 <= i < |shown| ==> s[i] == shown[i];
    CentiRoundTrip(c);
  }

  /** Sample renderings. */
  lemma FormatBytesSmallExamples()
    ensures FormatBytes(None) == "0 B"
    ensures FormatBytes(Some(0)) == "0 B"
    ensures FormatBytes(Some(512)) == "512 B"
    ensures FormatBytes(Some(1023)) == "1023 B"
  {
  }

  lemma FormatBytesKiloExamples()
    ensures FormatBytes(Some(1024)) == "1.00 KB"
    ensures FormatBytes(Some(2048)) == "2.00 KB"
  {
  }

  /** 1152 / 1024 = 1.125 is a tie and goes to the even hundredth. */
  lemma FormatBytesTieExample()
    ensures FormatBytes(Some(1152)) == "1.12 KB"
  {
  }

  /** The largest KB count rounds up to 1024.00. */
  lemma FormatBytesKiloTopExample()
    ensures FormatBytes(Some(1048575)) == "1024.00 KB"
  {
  }

  lemma FormatBytesMegaExamples()
    ensures FormatBytes(Some(1048576)) == "1.00 MB"
    ensures FormatBytes(Some(5 * 1024 * 1024)) == "5.00 MB"
  {
  }

  // ---------------------------------------------------------------------
  // write_results_to_file, without the file
  // ---------------------------------------------------------------------

  /**
   * The exception `format_bytes` raises when it is given a string (a
   * content-length header value): Python refuses `str >= int`.
   */
  datatype RenderError = UnorderableTypes

  /** `format_bytes(v)` on a value taken from a record. */
  function FormatValue(v: Value): (r: Result<string, RenderError>)
    ensures r.Failure? <==> v.Str?
  {
    match v
    case Null => Success(FormatBytes(None))
    case Int(n) => Success(FormatBytes(Some(n)))
    case Str(_) => Failure(UnorderableTypes)
  }

  /** A record with a URL is written out; the others are skipped. */
  predicate HasUrl(r: Dict) {
    Truthy(Get(r, "url"))
  }

  /** The entry for one record: the error branch when its error is truthy, the size branch otherwise. */
  function BuildEntry(r: Dict): (e: Result<Dict, RenderError>)
    ensures e.Success? ==> "url" in e.value && e.value["url"] == Get(r, "url")
    ensures e.Success? ==> ("error" in e.value <==> Truthy(Get(r, "error")))
    ensures e.Failure? ==> !Truthy(Get(r, "error"))
  {
    if Truthy(Get(r, "error")) then
      Success(map["url" := Get(r, "url"), "status_code" := Get(r, "status_code"), "error" := Get(r, "error")])
    else
      var contentLength := FormatValue(Get(r, "content_length"));
      var streamReader := FormatValue(Get(r, "stream_reader"));
      var bodyLength := FormatValue(Get(r, "body_length"));
      if contentLength.Failure? || streamReader.Failure? || bodyLength.Failure? then Failure(UnorderableTypes)
      else
        Success(map[
          "url" := Get(r, "url"),
          "status_code" := Str(PyStr(Get(r, "status_code"))),
          "content_length" := Str(contentLength.value),
          "stream_reader" := Str(streamReader.value),
          "body_length" := Str(bodyLength.value)
        ])
  }

  /** The object written to the file: a flat dictionary, or (with `format_json`) one keyed by URL. */
  datatype Output = Flat(entry: Dict) | ByUrl(entries: map<Value, Dict>)

  /** What is written when no record has a URL. */
  const EmptyOutput: Output := Flat(map["error" := Str("Empty")])

  /**
   * One iteration of the loop: skip a record without a URL, otherwise
   * overwrite the accumulator with that record's entry alone, whatever the
   * accumulator held.
   */
  function Step(acc: Output, r: Dict, formatJson: bool): (o: Result<Output, RenderError>)
    ensures !HasUrl(r) ==> o == Success(acc)
    ensures HasUrl(r) && o.Success? ==> if formatJson then o.value.ByUrl? && o.value.entries.Keys == {Get(r, "url")}
                                         else o.value.Flat?
  {
    if !HasUrl(r) then Success(acc)
    else match BuildEntry(r)
      case Failure(e) => Failure(e)
      case Success(entry) =>
        Success(if formatJson then ByUrl(map[Get(r, "url") := entry]) else Flat(entry))
  }

  /**
   * The accumulator after the loop has gone over `results`, or the exception
   * it stopped at. Without `format_json` it is a flat dictionary; with it,
   * a map from a single URL, unless no record had one.
   */
  function FinalResults(results: seq<Dict>, formatJson: bool): (o: Result<Output, RenderError>)
    ensures o.Success? && !formatJson ==> o.value.Flat?
    ensures o.Success? && o.value.ByUrl? ==> |o.value.entries| == 1
  {
    if results == [] then Success(EmptyOutput)
    else match FinalResults(results[..|results| - 1], formatJson)
      case Failure(e) => Failure(e)
      case Success(acc) => Step(acc, results[|results| - 1], formatJson)
  }

  /** The loop of `write_results_to_file`: the object it would dump, or the exception it raises. */
  method WriteResults(results: seq<Dict>, formatJson: bool) returns (out: Result<Output, RenderError>)
    ensures out == FinalResults(results, formatJson)
  {
    var finalResults := EmptyOutput;
    for i := 0 to |results|
      invariant FinalResults(results[..i], formatJson) == Success(finalResults)
    {
      assert results[..i + 1][..i] == results[..i];
      var result := results[i];
      var url := Get(result, "url");
      if !Truthy(url) {
        continue;
      }
      var baseEntry := BuildEntry(result);
      if baseEntry.Failure? {
        FailureSticks(results, i + 1, formatJson);
        return Failure(baseEntry.error);
      }
      if formatJson {
        finalResults := ByUrl(map[url := baseEntry.value]);
      } else {
        finalResults := Flat(baseEntry.value);
      }
    }
    assert results[..|results|] == results;
    out := Success(finalResults);
  }

  /** Once the loop has raised, the later records change nothing. */
  lemma {:induction false} FailureSticks(results: seq<Dict>, i: nat, formatJson: bool)
    requires i <= |results|
    requires FinalResults(results[..i], formatJson).Failure?
    ensures FinalResults(results, formatJson) == FinalResults(results[..i], formatJson)
  {
    if i == |results| {
      assert results[..i] == results;
    } else {
      var init := results[..|results| - 1];
      assert init[..i] == results[..i];
      FailureSticks(init, i, formatJson);
    }
  }

  /** With no record carrying a URL the output is exactly {"error": "Empty"}. */
  lemma {:induction false} NoUrlGivesEmpty(results: seq<Dict>, formatJson: bool)
    requires forall i :: 0 <= i < |results| ==> !HasUrl(results[i])
    ensures FinalResults(results, formatJson) == Success(Flat(map["error" := Str("Empty")]))
  {
    if results != [] {
      NoUrlGivesEmpty(results[..|results| - 1], formatJson);
    }
  }

  /** The loop raises exactly when some record with a URL has an entry that cannot be built. */
  lemma {:induction false} FailsIffUnformattable(results: seq<Dict>, formatJson: bool)
    ensures FinalResults(results, formatJson).Failure?
        <==> exists i :: 0 <= i < |results| && HasUrl(results[i]) && BuildEntry(results[i]).Failure?
  {
    if results != [] {
      var init := results[..|results| - 1];
      FailsIffUnformattable(init, formatJson);
      LastStepFails(results, formatJson);
      UnformattableSplit(results, init);
    }
  }

  /** A record the loop would raise at. */
  predicate Unformattable(r: Dict) {
    HasUrl(r) && BuildEntry(r).Failure?
  }

  /** One more record makes the loop raise exactly when it had raised already or raises at that record. */
  lemma LastStepFails(results: seq<Dict>, formatJson: bool)
    requires results != []
    ensures FinalResults(results, formatJson).Failure?
        <==> FinalResults(results[..|results| - 1], formatJson).Failure? || Unformattable(results[|results| - 1])
  {
  }

  /** Some record is unformattable exactly when one before the last is or the last one is. */
  lemma UnformattableSplit(results: seq<Dict>, init: seq<Dict>)
    requires results != [] && init == results[..|results| - 1]
    ensures (exists i :: 0 <= i < |results| && Unformattable(results[i]))
        <==> (exists i :: 0 <= i < |init| && Unformattable(init[i])) || Unformattable(results[|results| - 1])
  {
    if exists i :: 0 <= i < |init| && Unformattable(init[i]) {
      var i :| 0 <= i < |init| && Unformattable(init[i]);
      assert results[i] == init[i];
    }
    if exists i :: 0 <= i < |results| && Unformattable(results[i]) {
      var i :| 0 <= i < |results| && Unformattable(results[i]);
      if i < |init| {
        assert init[i] == results[i];
      }
    }
  }

  /**
   * Last entry wins: when no entry fails, the output is built from the last
   * record that has a URL alone, as a one-key map from its URL under
   * `format_json` and as the entry itself otherwise.
   */
  lemma {:induction false} LastUrlWins(results: seq<Dict>, formatJson: bool, i: nat)
    requires i < |results| && HasUrl(results[i])
    requires forall j :: i < j < |results| ==> !HasUrl(results[j])
    requires forall j :: 0 <= j < |results| && HasUrl(results[j]) ==> BuildEntry(results[j]).Success?
    ensures var entry := BuildEntry(results[i]).value;
      if formatJson then FinalResults(results, formatJson) == Success(ByUrl(map[Get(results[i], "url") := entry]))
      else FinalResults(results, formatJson) == Success(Flat(entry))
  {
    var init := results[..|results| - 1];
    FailsIffUnformattable(init, formatJson);
    if i < |init| {
      LastUrlWins(init, formatJson, i);
    }
  }

  /** Records are compared by what the loop keeps of them: only the last one with a URL matters. */
  lemma OnlyLastUrlMatters(a: seq<Dict>, b: seq<Dict>, r: Dict, formatJson: bool)
    requires HasUrl(r)
    requires forall j :: 0 <= j < |a| && HasUrl(a[j]) ==> BuildEntry(a[j]).Success?
    requires forall j :: 0 <= j < |b| && HasUrl(b[j]) ==> BuildEntry(b[j]).Success?
    ensures FinalResults(a + [r], formatJson) == FinalResults(b + [r], formatJson)
  {
    assert (a + [r])[..|a|] == a;
    assert (b + [r])[..|b|] == b;
    FailsIffUnformattable(a, formatJson);
    FailsIffUnformattable(b, formatJson);
  }

  /** A truthy error gives an entry of exactly the URL, the status code as stored, and the error. */
  lemma ErrorEntry(r: Dict)
    requires Truthy(Get(r, "error"))
    ensures BuildEntry(r).Success?
    ensures var e := BuildEntry(r).value;
      && e.Keys == {"url", "status_code", "error"}
      && e["url"] == Get(r, "url") && e["status_code"] == Get(r, "status_code") && e["error"] == Get(r, "error")
  {
  }

  /**
   * Otherwise the entry holds the URL, `str` of the status code and the three
   * sizes through `format_bytes`; a size stored as a string raises instead.
   */
  lemma SizeEntry(r: Dict)
    requires !Truthy(Get(r, "error"))
    ensures BuildEntry(r).Success?
        <==> !Get(r, "content_length").Str? && !Get(r, "stream_reader").Str? && !Get(r, "body_length").Str?
    ensures BuildEntry(r).Success? ==> var e := BuildEntry(r).value;
      && e.Keys == {"url", "status_code", "content_length", "stream_reader", "body_length"}
      && e["url"] == Get(r, "url")
      && e["status_code"] == Str(PyStr(Get(r, "status_code")))
      && e["content_length"] == Str(FormatValue(Get(r, "content_length")).value)
      && e["stream_reader"] == Str(FormatValue(Get(r, "stream_reader")).value)
      && e["body_length"] == Str(FormatValue(Get(r, "body_length")).value)
  {
  }

  // ---------------------------------------------------------------------
  // Records of the fetch engine, rendered
  // ---------------------------------------------------------------------

  /** An exhausted record is written as its URL, the integer status 0 and its error text. */
  lemma ExhaustedRecordEntry(url: string, net: Requests.Network)
    requires url != ""
    requires forall j :: 0 <= j < Constants.LimitOfAttemptsToRetry ==> net(j).Failure?
    ensures HasUrl(Requests.FetchRecord(url, net))
    ensures BuildEntry(Requests.FetchRecord(url, net))
        == Success(map["url" := Str(url), "status_code" := Int(0),
                       "error" := Str(Requests.ErrorText(net(Constants.LimitOfAttemptsToRetry - 1).message))])
  {
    Requests.ExhaustedRecord(url, net);
  }

  /**
   * A response without a content-length header is written with its status
   * as text, "0 B" for the content length and the two byte counts formatted.
   */
  lemma ResponseRecordEntry(url: string, net: Requests.Network, k: nat)
    requires url != ""
    requires k < Constants.LimitOfAttemptsToRetry
    requires forall j :: 0 <= j < k ==> net(j).Failure?
    requires net(k).Success?
    requires net(k).contentLength.None? || net(k).contentLength.value == ""
    ensures BuildEntry(Requests.FetchRecord(url, net))
        == Success(map[
             "url" := Str(url),
             "status_code" := Str(IntToDecimal(net(k).status)),
             "content_length" := Str("0 B"),
             "stream_reader" := Str(FormatBytes(Some(net(k).totalBytes))),
             "body_length" := Str(FormatBytes(Some(net(k).bodyLength)))
           ])
  {
    var o := net(k);
    Requests.RecordShape(url, net);
    Requests.SuccessRecord(url, net, k);
    ResponseEntry(Requests.FetchRecord(url, net), url, o.status, Int(0), o.totalBytes, o.bodyLength);
    FormatBytesSmallExamples();
  }

  /** The entry of a record whose values are known, read through `dict.get`. */
  lemma ResponseEntry(r: Dict, url: string, status: int, contentLength: Value, totalBytes: nat, bodyLength: nat)
    requires r.Keys == Requests.RecordKeys
    requires r["url"] == Str(url) && r["status_code"] == Int(status) && r["content_length"] == contentLength
    requires r["stream_reader"] == Int(totalBytes) && r["body_length"] == Int(bodyLength) && r["error"] == Str("")
    requires !contentLength.Str?
    ensures BuildEntry(r)
        == Success(map[
             "url" := Str(url),
             "status_code" := Str(IntToDecimal(status)),
             "content_length" := Str(FormatValue(contentLength).value),
             "stream_reader" := Str(FormatBytes(Some(totalBytes))),
             "body_length" := Str(FormatBytes(Some(bodyLength)))
           ])
  {
    assert Get(r, "error") == Str("");
    assert Get(r, "url") == Str(url) && Get(r, "status_code") == Int(status);
    assert Get(r, "content_length") == contentLength;
    assert Get(r, "stream_reader") == Int(totalBytes) && Get(r, "body_length") == Int(bodyLength);
  }

  /**
   * A response that carried a non-empty content-length header is stored
   * with the header's text, and rendering it raises.
   */
  lemma HeaderRecordRaises(url: string, net: Requests.Network, k: nat)
    requires k < Constants.LimitOfAttemptsToRetry
    requires forall j :: 0 <= j < k ==> net(j).Failure?
    requires net(k).Success?
    requires net(k).contentLength.Some? && net(k).contentLength.value != ""
    ensures BuildEntry(Requests.FetchRecord(url, net)) == Failure(UnorderableTypes)
  {
    Requests.SuccessRecord(url, net, k);
  }

  /** No attempt the loop can make receives a non-empty content-length header. */
  ghost predicate NoLengthHeader(net: Requests.Network) {
    forall j :: 0 <= j < Constants.LimitOfAttemptsToRetry && net(j).Success? ==>
      net(j).contentLength.None? || net(j).contentLength.value == ""
  }

  /** Without a content-length header every record of the fetch engine renders. */
  lemma RecordRenders(url: string, net: Requests.Network)
    requires NoLengthHeader(net)
    ensures BuildEntry(Requests.FetchRecord(url, net)).Success?
  {
    var k := Requests.FailedAttempts(net);
    if k < Constants.LimitOfAttemptsToRetry {
      Requests.SuccessRecord(url, net, k);
    } else {
      Requests.ExhaustedRecord(url, net);
    }
  }

  /** Every record of a batch with non-empty URLs and no length header has a URL and renders. */
  lemma BatchRecordsRender(urls: seq<string>, nets: seq<Requests.Network>, records: seq<Dict>)
    requires |urls| == |nets| == |records|
    requires forall i :: 0 <= i < |urls| ==> urls[i] != ""
    requires forall i :: 0 <= i < |nets| ==> NoLengthHeader(nets[i])
    requires forall i :: 0 <= i < |records| ==> records[i] == Requests.FetchRecord(urls[i], nets[i])
    ensures forall i :: 0 <= i < |records| ==> HasUrl(records[i]) && BuildEntry(records[i]).Success?
  {
    forall j | 0 <= j < |records|
      ensures HasUrl(records[j]) && BuildEntry(records[j]).Success?
    {
      Requests.RecordShape(urls[j], nets[j]);
      RecordRenders(urls[j], nets[j]);
    }
  }

  /**
   * Rendering a whole batch keeps only the last URL's record: with every URL
   * non-empty and no content-length header received, the output is the
   * entry of the last URL.
   */
  lemma BatchKeepsLastUrl(urls: seq<string>, nets: seq<Requests.Network>, formatJson: bool)
    requires |urls| == |nets| > 0
    requires forall i :: 0 <= i < |urls| ==> urls[i] != ""
    requires forall i :: 0 <= i < |nets| ==> NoLengthHeader(nets[i])
    ensures forall i :: 0 <= i < |urls| ==> BuildEntry(Requests.FetchRecord(urls[i], nets[i])).Success?
    ensures var records := seq(|urls|, i requires 0 <= i < |urls| => Requests.FetchRecord(urls[i], nets[i]));
      var last := |urls| - 1;
      var entry := BuildEntry(records[last]).value;
      FinalResults(records, formatJson)
        == Success(if formatJson then ByUrl(map[Str(urls[last]) := entry]) else Flat(entry))
  {
    var records := seq(|urls|, i requires 0 <= i < |urls| => Requests.FetchRecord(urls[i], nets[i]));
    BatchRecordsRender(urls, nets, records);
    var last := |urls| - 1;
    assert records[last] == Requests.FetchRecord(urls[last], nets[last]);
    Requests.RecordShape(urls[last], nets[last]);
    assert Get(records[last], "url") == Str(urls[last]);
    LastUrlWins(records, formatJson, last);
  }
}
