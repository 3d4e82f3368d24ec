# osstatus: a Dafny model of the result formatter and its string building

`osstatus.py` is an LLDB command that looks up the meaning of Apple status
codes with a remote service and prints the records it returns. This project
models the parts of that file that build text:

- `createResults`, the formatter. It finds the width of the name column (the
  longest name), then, in input order, emits one header line per record
  (the padded name, a space and the framework, then the header file in
  parentheses, each segment styled by `cstr`). When verbose and the
  description is not empty, it follows the header with the wrapped
  description (module `Formatter`).
- `cstr`, `isXcode` and `ustr`: terminal styling, the check for a GUI-hosted
  session, and turning null into the empty string (module `Terminal`).
- In `fetchResults`, the request URL, and the message raised when the request
  fails (module `Fetcher`). This includes Python's `str` of an integer
  (module `Decimal`).

`createResults` works by updating variables: a running maximum, then a list
that grows by appends. So it is a method with two loops. `LongestNameLength`
is the first loop, and `AppendRecord` is the body of the second. The method
is proved equal to the function `Format`, and the lemmas about `Format` state
what the output looks like. `textwrap.fill` is a parameter `wrap` of
function type. Every result holds whatever `wrap` does. The `TERM` variable
is a parameter of `IsXcode`. The formatter takes the resulting flag `xcode`
(colours off when true).

Two behaviours of the code worth knowing. The model keeps both:
- A lookup client would be expected to URL-encode the search term, and this
  code does not. `Fetcher.UnencodedTermsCollide` shows that two different
  queries can give the same URL.
- The name is padded on the right (`'{: <w}'` left-justifies), so the names
  line up on their left edge.

In `cstr`, the branch that picks the foreground-only reset compares the
escape code, not the colour name, with `'yellow'`. No escape code equals that
text, so the suffix is always the full reset. `Terminal.Cstr` states this.

## Model

| member | source | states |
|---|---|---|
| Terminal.Cstr | osstatus.py:24-48 | with colours off the message comes back unchanged for any colour name; with colours on, a name missing from the table is an error naming that colour; otherwise the result is the colour's escape code, the message, then always the full reset `ESC[0m` (the `'yellow'` comparison never holds) |
| Terminal.CstrUnwraps | osstatus.py:48 | a styled message holds the original message intact between the escape code and the reset |
| Terminal.DefaultColorFails | osstatus.py:24-47 | the default colour `'black'` is not in the table: cstr without a colour fails when colours are on and returns the message when they are off |
| Terminal.IsXcode | osstatus.py:51-55 | true exactly when `TERM` is unset or equals `"unknown"` |
| Terminal.Ustr | osstatus.py:58-59 | null becomes `""` and a present string is kept; the result is empty exactly for null or an empty string |
| Decimal.NatToString | osstatus.py:74 | `str` of a natural number is a non-empty string of digits, beginning with `0` only for zero, and one character long exactly for numbers below ten, so zero is `"0"` |
| Decimal.IntToString | osstatus.py:84 | `str` of an int starts with `-` exactly for negative numbers and is otherwise made of digits, with no leading zero: it starts with `0` only for zero, a `-` is never followed by `0`, and it has a single digit exactly for numbers between -9 and 9, so zero is `"0"` |
| Decimal.IntToStringRoundTrip | osstatus.py:74 | reading back the decimal rendering of any integer gives that integer |
| Decimal.IntToStringAlphabet | osstatus.py:74 | the rendering of an integer contains only digits and `-` |
| Fetcher.CodeText | osstatus.py:74 | `str(code)`: a numeric code is its canonical decimal rendering and reads back as the number, a text code is kept as typed |
| Fetcher.PlatformSuffix | osstatus.py:63 | the suffix is empty exactly when no platform is given |
| Fetcher.RequestUrl | osstatus.py:63-74 | the URL starts with the fixed proxy base; without a platform the rest is exactly `str(code)`; with one, `&platform=` and the platform follow `str(code)` |
| Fetcher.RequestUrlRoundTrip | osstatus.py:63-74 | for a search term without `&`, splitting the query at the first `&` gives back the term and the platform, present or absent |
| Fetcher.NumberUrlRoundTrip | osstatus.py:63-74 | for a numeric code the term and the platform are always recovered from the URL |
| Fetcher.UnencodedTermsCollide | osstatus.py:63-74 | because nothing is encoded, the term `t + "&platform=" + p` without a platform and the term `t` with platform `p` give the same URL |
| Fetcher.FailureMessage | osstatus.py:80-84 | a message is raised exactly when the URLError has a reason or a code; otherwise the except clause falls through and nothing is raised |
| Fetcher.ConnectMessageClassified | osstatus.py:82 | the "Unable to connect" message gives back exactly the reason it was built from |
| Fetcher.StatusMessageClassified | osstatus.py:84 | the "HTTP status code" message gives back exactly the status code it was built from |
| Fetcher.FailureMessageClassified | osstatus.py:80-84 | a raised message is the "Unable to connect" message carrying the reason whenever a reason exists, and otherwise the "HTTP status code" message, from which the status code reads back exactly |
| Fetcher.Attributes | osstatus.py:80-84 | under urllib2 from Python 2.7.3 every failure has `reason`, and it has `code` exactly when it is an HTTP error response |
| Fetcher.StatusNeverReported | osstatus.py:80-84 | as written, every urllib2 failure raises a message, and it is always the "Unable to connect" one: no failure is reported by its status code |
| Fetcher.InternalServerErrorMisreported | osstatus.py:80-84 | an HTTP 500 with the status message "Internal Server Error" raises "Unable to connect to server: Internal Server Error" |
| Fetcher.FailureMessageCodeFirst | osstatus.py:80-84 | the handler with the `code` test before the `reason` test raises a message exactly when the error has either attribute |
| Fetcher.CodeFirstNamesCause | osstatus.py:80-84 | with the `code` test first, an HTTP error response is reported by its exact status code and any other failure by its reason |
| Formatter.LongestName | osstatus.py:90-93 | the column width is at least every name's length and equals the length of some name; 0 for no records |
| Formatter.LongestNameLength | osstatus.py:90-93 | the first loop's running maximum ends equal to LongestName |
| Formatter.PadRight | osstatus.py:102 | the padded name is as long as the larger of the name and the width, starts with the name, and is followed only by spaces |
| Formatter.PaintIsCstr | osstatus.py:102-103 | for every colour in the table, cstr succeeds, so the formatter's three cstr calls never fail |
| Formatter.HeaderLineText | osstatus.py:97-104 | with colours off the header line is padded name + `" "` + framework + `"("` + header file + `")"`, with null fields as `""`; with colours on, the same segments each between its escape code and a reset |
| Formatter.RecordLines | osstatus.py:104-106 | a record gives two lines when verbose and its description is non-empty, one otherwise; the first is its header line, the second its wrapped description |
| Formatter.AppendRecord | osstatus.py:96-106 | one pass of the second loop appends exactly that record's block to the lines |
| Formatter.CreateResults | osstatus.py:89-107 | createResults returns Format of its input |
| Formatter.LineCount | osstatus.py:96-106 | the output has one line per record plus one per description shown: between n and 2n lines, exactly n when not verbose |
| Formatter.RecordPlacement | osstatus.py:96-106 | record k's header line is at position k plus the number of descriptions shown before it, and its description, when shown, is the very next line |
| Formatter.TerseLines | osstatus.py:96-105 | without verbose, line i is the header line of record i: one line per record, in input order |
| Formatter.FormatEmpty | osstatus.py:89-107 | no records give no lines, verbose or not |
| Formatter.FrameworkColumnAligned | osstatus.py:90-104 | with colours off, every header line starts with its name followed only by spaces up to the column width, then one space, then framework and header file: the framework column lines up across records |
| Formatter.TerseExample | osstatus.py:96-105 | the record err/CoreFoo/CoreFoo.h with an empty description gives exactly `["err CoreFoo(CoreFoo.h)"]` |
| Formatter.VerboseExample | osstatus.py:96-106 | with verbose and the description "Something failed.", the output is that header line, then the description wrapped with a four-space indent on every line |

## Left out

- The HTTP request itself is not modelled: the `User-Agent` header, `urlopen(...).read()` and the debug `print(url)` (osstatus.py:75-79). It is network I/O.
- `json.loads` (osstatus.py:86) is not modelled. It is library decoding, and the formatter takes the decoded records as its input.
- A record without one of the four keys makes `result["name"]` and the other lookups raise `KeyError`. This is not modelled: a `Record` always has the four fields, each possibly null.
- `textwrap.fill` (osstatus.py:106) is library word wrapping. It is the parameter `wrap`, and nothing is assumed about it.
- The UTF-8 encoding in `ustr` (osstatus.py:59) is not modelled. Strings are sequences, so the length used for padding is the sequence length, which the source measures in encoded bytes.
- Fetcher.FailureMessage: which attributes the error has is an input (`UrlError`), not derived from the library. urllib2 is not part of this model. `Fetcher.Attributes` states its behaviour from Python 2.7.3 on: every failure has `reason`, and an HTTP error also has `code`. So under urllib2 the `code` branch and the fall-through are never reached (see Findings).
- Fetcher.FailureMessage: when a URLError has neither `reason` nor `code`, `fetchResults` returns `None`. The model stops at "no message is raised". It does not model the later `TypeError` in `createResults` when it iterates over `None`.
- The reason of a URLError: `str(e.reason)` turns an arbitrary object into text. The model takes the reason already rendered as a string.
- `search`, `lldbsearch`, `__lldb_init_module` and `terminalSearch` (osstatus.py:110-155) are not modelled. They are argument parsing, debugger command registration and console printing.
- `os.environ` is not read. The value of `TERM` is a parameter of `IsXcode`.

## Findings

| source | as written | input that shows it | evidently intended | confidence | as-written member | corrected member |
|---|---|---|---|---|---|---|
| osstatus.py:80-84 | the handler tests `hasattr(e, 'reason')` before `hasattr(e, 'code')`, and urllib2's HTTPError has a `reason` property from Python 2.7.3 on | an HTTP 500 response with status message "Internal Server Error" raises "Unable to connect to server: Internal Server Error" | an HTTP error response is reported as "Server returned HTTP status code: 500" | medium, not executed; depends on the urllib2 version, which is not part of this model | Fetcher.StatusNeverReported, Fetcher.InternalServerErrorMisreported | Fetcher.FailureMessageCodeFirst, Fetcher.CodeFirstNamesCause |
