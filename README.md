# urls_list_scanner: retry engine and result rendering, in Dafny

This project models the core of `urls_list_scanner`, a tool that fetches a list of URLs, makes a record of status and byte sizes for each URL, and writes the records out as one JSON object. As written, that object holds only the entry of the last URL. Two pieces of logic sit around the network calls, and both are modelled here.

- **The fetch engine** (`Requests`, from `utils/request_manager.py`). `RequestManager` gives each URL a retry loop. The loop starts with a budget of 5 attempts. Each transport failure costs one attempt and adds 1 to the manager's failure counter. The loop stops at the first response. After the fifth failure it writes a default record: status 0, sizes 0, and the last exception's text, or `Something Went Wrong` when that text is empty. A batch yields one record per URL, in URL order.
- **Result rendering** (`ResultWriter`, from `requests_maker.py`). `format_bytes` shows a byte count as `B`, `KB` or `MB`. The loop of `write_results_to_file` turns the list of records into the object it dumps.

The network and the URL library are inputs:

- A `Network` says, for each attempt number, whether the attempt gets a response (`Success(status, content-length header?, total bytes, body length)`) or fails (`Failure(message)`).
- The constructor takes the URL library's `str(URL(u))` as a function parameter.

Records are Python dictionaries (`map<string, Value>`, where a value is None, an int or a str). So `dict.get`, truthiness and the six keys of a record are stated as they are in the source.

`RequestManager` is a class:

- `failedRequestsNum` is a field.
- `SetFailedRequestsNum` is the adding setter.
- `Fetch` is the `while` loop over the attempt budget.
- `MakeRequests` runs `FetchAll`, a loop that appends one record per URL. Afterwards it closes the manager's session, so a manager serves one batch (`sessionClosed`).

Each method is proved against the specification functions `FetchRecord`, `Attempts`, `FailedAttempts` and `TotalFailures`. Lemmas prove what the source promises about those functions. `ghost attempts` in `Fetch` counts the calls made to the network.

`format_bytes` is computed in integers. Both divisors (1024 and 1048576) are powers of two, so `n / 1024` is exact in binary floating point. Python's correctly rounded `.2f` then yields the hundredth nearest to the quotient, with ties going to the even hundredth. For example, 1152 gives `1.12 KB`. `RoundHalfEven` computes that hundredth. `NearestHalfEven` is an independent characterisation of it, and at most one integer satisfies it.

In these places the model follows the code as written:

- An exhausted record's `status_code` is the integer 0, not the string "0". The error branch of `write_results_to_file` copies it unchanged.
- A record made from a response also carries the key `error` with the empty string. Every record has the same six keys.
- `asyncio.gather` returns the records in input order, and the model does the same.
- `write_results_to_file` overwrites its accumulator on every iteration. The written object therefore holds only the last URL's entry (`LastUrlWins`, `BatchKeepsLastUrl`). This legacy behaviour is modelled as written.
- When a response carries a non-empty `content-length` header, `_fetch` stores the header's text (a `str`). `format_bytes` then compares that string with an int, and Python raises `TypeError`. The model has `write_results_to_file` return `Failure(UnorderableTypes)` in that case (`FormatValue`, `HeaderRecordRaises`, `FailsIffUnformattable`), so the crash is modelled rather than hidden.

Files:

- `py_values.dfy`: Python values, `dict.get`, truthiness, and `str()` on ints with its round trip.
- `constants.dfy`: the constants of `utils/contants.py`.
- `request_manager.dfy`: the fetch engine.
- `requests_maker.dfy`: the rendering.

## Model

| member | source | states |
|---|---|---|
| `Requests.ContentLengthValue` | utils/request_manager.py:66-67 | the stored content length is 0 exactly when the header is missing or empty, and otherwise the header's text |
| `Requests.ErrorText` | utils/request_manager.py:86 | the error text of an exhausted record is never empty, and it is the exception's text whenever that text is non-empty |
| `Requests.LeadingFailures` | utils/request_manager.py:61-89 | the count it returns is at most the bound; every attempt before it failed; if it is below the bound, the attempt at it got a response |
| `Requests.FailedAttempts` | utils/request_manager.py:78-80 | one URL never has more than 5 failed attempts |
| `Requests.Attempts` | utils/request_manager.py:60-94 | the loop makes at least 1 and at most `LIMIT_OF_ATTEMPTS_TO_RETRY` = 5 attempts |
| `Requests.RequestManager.constructor` | utils/request_manager.py:40-46 | the URLs are the parsed inputs in order, the timeout (default 60) is kept, the failure counter starts at 0, and the session is open |
| `Requests.RequestManager.SetFailedRequestsNum` | utils/request_manager.py:129-131 | the setter adds its argument to the counter instead of storing it, and leaves the session as it was |
| `Requests.FetchRecord` | utils/request_manager.py:56-95 | the record `_fetch` returns; what it holds is stated by `RecordShape` (the six keys and the URL), `SuccessRecord` (the first response's fields, an empty error), `ExhaustedRecord` (the defaults and the last error) and `RetriesLeaveNoTrace` |
| `Requests.RequestManager.Fetch` | utils/request_manager.py:56-95 | the returned record is `FetchRecord(url, net)`; the network is called `Attempts(net)` times; the counter grows by exactly the number of failed attempts; the session is left as it was |
| `Requests.RequestManager.MakeRequests` | utils/request_manager.py:97-103 | on an open session, one record per URL, with record i the record of URL i, and the counter grows by the failures summed over the URLs, so it never decreases; the session is closed afterwards; on a closed session with URLs to fetch the batch raises and counts nothing |
| `Requests.RequestManager.FetchAll` | utils/request_manager.py:97-103 | the fetches of a batch: record i is the record of URL i, the counter grows by the failures summed over the URLs, and the session is left as it was |
| `Requests.SecondBatchRaises` | utils/request_manager.py:97-103 | a manager serves one batch: its first batch returns one record per URL, and a second one over the same non-empty URL list raises |
| `Requests.CreateMakeRequests` | utils/request_manager.py:48-54 | a fresh manager returns one record per input URL, in order, and reports the batch's total failed attempts |
| `Requests.AttemptsAfterLeadingFailures` | utils/request_manager.py:60-94 | with exactly k failures before the first response, the loop makes min(k+1, 5) attempts, of which min(k, 5) fail |
| `Requests.RecordShape` | utils/request_manager.py:59-87 | every record has exactly the keys url, status_code, content_length, stream_reader, body_length and error, and its url is the input URL |
| `Requests.SuccessRecord` | utils/request_manager.py:63-71 | a response after fewer than 5 failures fills the record: the status, the header or 0, the total bytes, the bytes read, and an empty error |
| `Requests.RetriesLeaveNoTrace` | utils/request_manager.py:78-89 | failed attempts before a response leave no trace: the record equals the one a first-try response gives, which takes a single attempt |
| `Requests.ExhaustedRecord` | utils/request_manager.py:80-87 | five failures mean five attempts, status 0, all three sizes 0, and a non-empty error: the fifth exception's text, or "Something Went Wrong" |
| `Requests.TotalFailuresBound` | utils/request_manager.py:79 | over a batch the failure counter grows by at most 5 per URL |
| `Requests.TotalFailuresAppend` | utils/request_manager.py:97-103 | the batch's failure count is additive over any split of the URL list |
| `PyValues.NatToDecimal` | requests_maker.py:30 | `str(n)` of a non-negative int is a non-empty string of digits with no leading zero |
| `PyValues.IntToDecimal` | requests_maker.py:51 | `str(i)` starts with a minus sign exactly when i is negative; the rest is a non-empty string of digits with no leading zero |
| `PyValues.DecimalRoundTrip` | requests_maker.py:30 | reading back the numeral of n gives n |
| `PyValues.IntToDecimalRoundTrip` | requests_maker.py:51 | reading back `str(i)` of any int, sign included, gives i |
| `ResultWriter.RoundHalfEven` | requests_maker.py:26-28 | the hundredths shown are the nearest integer to the exact quotient, with ties going to the even one |
| `ResultWriter.NearestHalfEvenUnique` | requests_maker.py:26-28 | only one integer is nearest with ties to even, so the two-decimal rendering is determined |
| `ResultWriter.CentiRoundTrip` | requests_maker.py:26-28 | a count of hundredths is written as digits with no leading zero, a point and exactly two more digits, and reading it back gives the count |
| `ResultWriter.FormatBytes` | requests_maker.py:22-30 | the unit is " MB" from 1048576 on, " KB" from 1024 below that, and " B" for None and smaller counts; the number before it is stated by `FormatBytesPlain`, `FormatBytesKilo` and `FormatBytesMega` |
| `ResultWriter.FormatBytesPlain` | requests_maker.py:29-30 | below 1024 the result is the count's decimal numeral followed by " B": digits without a leading zero, after a minus sign for a negative count, that read back as the count |
| `ResultWriter.FormatBytesKilo` | requests_maker.py:27-28 | from 1024 up to below 1048576 the result is n/1024 to two decimals, rounded half to even, followed by " KB"; every character before the unit except the point is a digit, with no leading zero |
| `ResultWriter.FormatBytesMega` | requests_maker.py:25-26 | from 1048576 on (tested first) the result is n/1048576 to two decimals, rounded half to even, followed by " MB"; every character before the unit except the point is a digit, with no leading zero |
| `ResultWriter.FormatBytesSmallExamples` | requests_maker.py:22-30 | None, 0, 512 and 1023 render as "0 B", "0 B", "512 B" and "1023 B" |
| `ResultWriter.FormatBytesKiloExamples` | requests_maker.py:27-28 | 1024 and 2048 render as "1.00 KB" and "2.00 KB" |
| `ResultWriter.FormatBytesTieExample` | requests_maker.py:27-28 | 1152 (1.125 KB, a tie) renders as "1.12 KB" |
| `ResultWriter.FormatBytesKiloTopExample` | requests_maker.py:27-28 | 1048575 is still in the KB branch and renders as "1024.00 KB" |
| `ResultWriter.FormatBytesMegaExamples` | requests_maker.py:25-26 | 1048576 and 5·1048576 render as "1.00 MB" and "5.00 MB" |
| `ResultWriter.FormatValue` | requests_maker.py:22-25 | `format_bytes` on a stored value raises exactly when the value is a string |
| `ResultWriter.BuildEntry` | requests_maker.py:42-55 | a built entry keeps the record's URL and has an `error` key exactly when the record's error is truthy; only the size branch can raise; the entries themselves are stated by `ErrorEntry` and `SizeEntry` |
| `ResultWriter.Step` | requests_maker.py:37-61 | a record without a URL leaves the accumulator unchanged; a record with one replaces it by a flat entry, or with `format_json` by a map whose only key is that URL |
| `ResultWriter.FinalResults` | requests_maker.py:33-61 | the object after the loop is flat without `format_json` and holds at most one URL with it; `LastUrlWins`, `FailsIffUnformattable` and `NoUrlGivesEmpty` state which object it is |
| `ResultWriter.WriteResults` | requests_maker.py:33-61 | the loop returns the accumulator `FinalResults` gives, or the exception it raises |
| `ResultWriter.FailureSticks` | requests_maker.py:37-55 | after the loop raises, later records change nothing |
| `ResultWriter.NoUrlGivesEmpty` | requests_maker.py:34-40 | when no record has a URL, the output is exactly {"error": "Empty"} |
| `ResultWriter.FailsIffUnformattable` | requests_maker.py:37-55 | the loop raises if and only if some record with a URL has an entry that cannot be built |
| `ResultWriter.LastStepFails` | requests_maker.py:37-55 | one more record makes the loop raise exactly when it had raised already or the new record has a URL and its entry cannot be built |
| `ResultWriter.LastUrlWins` | requests_maker.py:56-61 | if no entry fails, the output is the last URL-bearing record's entry alone: a one-key map from its URL with `format_json`, the entry itself without |
| `ResultWriter.OnlyLastUrlMatters` | requests_maker.py:56-61 | records before the last one with a URL do not affect the output, unless one of them raises |
| `ResultWriter.ErrorEntry` | requests_maker.py:42-47 | a truthy error gives an entry of exactly url, the unchanged status_code, and error |
| `ResultWriter.SizeEntry` | requests_maker.py:48-55 | otherwise the entry is url, `str(status_code)` and the three sizes through `format_bytes`; it is built if and only if no size is a string |
| `ResultWriter.ResponseEntry` | requests_maker.py:48-55 | a record with an empty error and no string size is written as its URL, `str(status_code)` and the three sizes through `format_bytes` |
| `ResultWriter.ExhaustedRecordEntry` | requests_maker.py:42-47 | an exhausted record is written as its URL, the integer status 0 and its error text |
| `ResultWriter.ResponseRecordEntry` | requests_maker.py:48-55 | a response without a content-length header is written with its status as text, "0 B", and the two byte counts formatted |
| `ResultWriter.HeaderRecordRaises` | requests_maker.py:25 | a response with a non-empty content-length header makes rendering raise, because the header is stored as text |
| `ResultWriter.RecordRenders` | requests_maker.py:42-55 | every record of the fetch engine renders when no content-length header was received |
| `ResultWriter.BatchRecordsRender` | requests_maker.py:37-55 | every record of a batch with non-empty URLs and no length header has a URL and renders |
| `ResultWriter.BatchKeepsLastUrl` | requests_maker.py:37-61 | rendering a whole batch with non-empty URLs and no length header writes only the last URL's entry |

## Left out

- HTTP transport (aiohttp's `ClientSession`, `TCPConnector(ssl=False)`, `ClientTimeout`, the user-agent header, `response.read()`): network I/O. It is replaced by the `Network` input. The five caught exception classes are one `Failure(message)` case. Exceptions outside those five propagate out of the batch in the source and are not modelled.
- URL parsing (yarl's `URL(u)`): a foreign library. `str(URL(u))` is the constructor's `parse` parameter, and a parse error raised by `URL(u)` is not modelled.
- Concurrency: the `BoundedSemaphore(51)` and the `gather` fan-out are replaced by a sequential loop over the URLs. `SimultaneousConcurrentTasks` is kept as a constant only. In the source one URL holds the semaphore for its whole retry loop, not per attempt. The in-flight bound is not stated. The failure counter is updated between `await` points on one event loop, so the sequential sum is what the source computes.
- `timeout`: stored by the constructor. Its effect is that of the network input.
- Logging: every `logging` call, including the attempt-number message.
- Command line and files (`cli`, `define_config_from_cmd`, `main`, reading the URL file, `open` and `json.dump`): argument parsing and file I/O. `WriteResults` returns the object that would be dumped.
- `FormatBytes`: the integer model equals Python's output only while `n / 1024` (or `n / 1048576`) is exact as a float, which holds for every count below 2^53. Larger counts are first rounded by the float division in the source, and the model does not capture that.
- Values other than None, int and str (bools, floats) in the result dictionaries are not modelled. Python would treat them differently in `format_bytes` and `str`.
- Key order: Dafny maps have no order, while Python dictionaries keep insertion order and `json.dump` writes the keys in that order. The model does not give the order of the keys in a record, in an entry or in the output.
- `utils/contants.py`: only its constants are copied. The `ASYNCIO_GATHER_TYPE` alias carries no behaviour.
