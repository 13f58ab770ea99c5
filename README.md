# Bulk media download handler: a Dafny model

The application is a small Flask web service. Its one piece of logic is the
bulk-download handler `download_reels` in `app.py`. A form field `urls` holds
a comma-separated list of media URLs. The handler turns it into a list of
URLs, answers with an error when the list is empty, and otherwise hands every
URL in turn to a yt-dlp downloader. Each URL gets one entry in the answer:
`"success"`, or `"failed"` with the text of the exception the downloader
raised. A failed download never stops the loop.

The model has two modules.

- `UrlList` (`UrlList.dfy`) is the parsing of the field, written as pure
  functions: Python's `str.split(",")`, `str.strip()` (with Python's full set
  of whitespace characters) and `",".join`, and the comprehension built from
  them (`ParseUrls`: split, strip every piece, drop the empty ones). The
  lemmas prove four things. Joining the pieces of a split gives the field
  back, and splitting the join of a non-empty list of comma-free strings
  gives the list back.
  Every parsed URL is non-empty, has no surrounding whitespace and holds no
  comma. The parsed URLs are exactly the
  non-blank pieces of the field, stripped, in their original order. Joining
  a parsed list and parsing it again gives the same list.
- `Batch` (`Batch.dfy`) is the handler, written as imperative code. The
  downloader is a class `Downloader`. It holds an outcome oracle (what
  downloading a URL does: it returns, or it raises with some message) and a
  log of the URLs it has been asked to download. `DownloadAll` is the
  result-accumulating loop. `DownloadReels` is the whole handler. Both are
  proved against the specification function `Results`, and the lemmas about
  `Results` give its meaning: one entry per URL, in order, and each entry's
  status is fixed by that URL's own outcome alone.

URLs are downloaded one after the other. The per-URL statuses are
`"success"` and `"failed"`, and the answer's status is `"done"` or `"error"`.

## Model

| member | source | states |
|---|---|---|
| `UrlList.IsSpace` | app.py:16 | the characters `strip()` removes: exactly those for which Python's `str.isspace()` holds; `TrimStart`, `TrimEnd` and `StripBounds` state what `strip()` does with them |
| `UrlList.TrimStart` | app.py:16 | the leading half of `strip()`: the result is a suffix of the input that does not start with whitespace, and every character dropped is whitespace |
| `UrlList.TrimEnd` | app.py:16 | the trailing half of `strip()`: the result is a prefix of the input that does not end with whitespace, and every character dropped is whitespace |
| `UrlList.Strip` | app.py:16 | `strip()` returns a string with no leading or trailing whitespace, and it is empty exactly when the input is all whitespace |
| `UrlList.StripBounds` | app.py:16 | `strip()` returns the infix `s[i..j]`, and everything before `i` and from `j` on is whitespace |
| `UrlList.StripNoop` | app.py:16 | a string with no surrounding whitespace is returned unchanged by `strip()` |
| `UrlList.StripCommaFree` | app.py:16 | stripping a piece without a comma gives a string without a comma |
| `UrlList.Split` | app.py:16 | `split(",")` returns at least one piece (`[""]` for the empty field), and no piece contains a comma |
| `UrlList.SplitCount` | app.py:16 | `split(",")` returns one more piece than the input has commas |
| `UrlList.SplitJoin` | app.py:16 | joining the pieces of a split with "," gives back the input |
| `UrlList.JoinSplit` | app.py:16 | splitting the ","-join of a non-empty list of comma-free strings gives the list back, so the split is the only such list whose join is the input |
| `UrlList.SplitCommaFree` | app.py:16 | a string without a comma splits into itself alone |
| `UrlList.SplitFirstPiece` | app.py:16 | a comma-free piece followed by a comma is split off as the first piece, and the rest is split on its own |
| `UrlList.StripAll` | app.py:16 | the `url.strip()` of the comprehension, applied to every piece; `ParseSpec` states that each parsed URL is such a stripped piece |
| `UrlList.DropEmpty` | app.py:16 | the `if url.strip()` filter: the non-empty pieces in order; `KeptPicks`, `KeptComplete`, `DropEmptyAppend`, `DropEmptySnoc` and `DropEmptyClean` state this |
| `UrlList.ParseUrls` | app.py:16 | the comprehension itself; its contract is carried by `ParseSpec` (exactly the stripped non-blank pieces, in order), `ParseUrlsClean` (every URL non-empty, stripped and comma-free) and `ParseRoundTrip` (re-parsing the join gives the same list) |
| `UrlList.ParseUrlsClean` | app.py:16 | every parsed URL is non-empty, has no leading or trailing whitespace and contains no comma |
| `UrlList.DropEmptyAppend` | app.py:16 | the blank filter distributes over concatenation |
| `UrlList.DropEmptySnoc` | app.py:16 | one more piece at the end is kept at the end of the result when it is non-empty, and adds nothing otherwise |
| `UrlList.Kept` | app.py:16 | the kept positions lie inside the list and hold non-empty pieces |
| `UrlList.KeptIncreasing` | app.py:16 | the kept positions are strictly increasing |
| `UrlList.KeptPicks` | app.py:16 | the filter returns as many pieces as there are kept positions, and its k-th piece is the one at the k-th kept position |
| `UrlList.KeptComplete` | app.py:16 | every non-empty piece has its position kept |
| `UrlList.ParseSpec` | app.py:16 | the parsed URLs are exactly the stripped non-blank comma-separated pieces, in their original relative order, and their number is the number of such pieces |
| `UrlList.DropEmptyClean` | app.py:16 | a list of non-empty strings passes the blank filter unchanged |
| `UrlList.ParseJoin` | app.py:16 | joining any list of clean URLs (non-empty, stripped, comma-free) with "," and parsing it gives the list back |
| `UrlList.ParseRoundTrip` | app.py:16 | joining a parsed list with "," and parsing it again yields the same list |
| `Batch.Downloader.Download` | app.py:33 | one download returns the oracle's outcome for the URL and appends the URL to the log of calls |
| `Batch.Report` | app.py:34-36 | the entry appended for one URL: "success" when the download returned, "failed" with the exception's text when it raised; `ResultsAt` states this for every entry |
| `Batch.Results` | app.py:29-36 | the results list has one entry per URL |
| `Batch.ResultsSnoc` | app.py:31-36 | handling one more URL appends exactly its entry and leaves the earlier entries unchanged |
| `Batch.ResultsAt` | app.py:31-36 | the i-th entry carries the i-th URL; its status is "success" exactly when that URL's download returned, and otherwise it is "failed" with the exception's text |
| `Batch.ResultsIndependent` | app.py:31-36 | the i-th entry depends only on the i-th URL's outcome, so a failure on another URL cannot change or suppress it |
| `Batch.DownloadAll` | app.py:29-36 | the loop produces exactly `Results(urls, outcome)` and calls the downloader once per URL, in list order |
| `Batch.DownloadReels` | app.py:14-38 | with no URL after parsing the answer is status "error" with "No URLs provided." and the downloader is never called; otherwise the answer is "done" with `Results` of the parsed URLs, and each parsed URL is downloaded exactly once, in order |

## Left out

- The Flask application, the routes, `render_template`, `jsonify` and
  `app.run` (app.py:1, 5, 9-11, 13, 40-41) are web plumbing. The answer is the
  datatype `Response` instead of a JSON body, and the form is a
  `map<string, string>`.
- `os.makedirs` of the download folder and the `cookies.txt` existence check
  (app.py:7, 20) are filesystem I/O. They only feed the downloader's options,
  which the oracle already abstracts.
- The yt-dlp options dictionary (app.py:22-27) and what the downloader does
  with a URL (app.py:33) belong to an external library. They are replaced by
  the oracle `Downloader.outcome`. It is fixed when the downloader is made and
  depends on the URL only, so the model does not capture a download whose
  result depends on earlier downloads (rate limits, files already present).
- The handler is given its downloader instead of opening a `YoutubeDL`
  context itself (app.py:30). Exceptions raised while opening or closing that
  context, and exceptions outside `Exception` (such as
  `KeyboardInterrupt`) escape the handler in the source. The model has no such
  path.
- The exception text `str(e)` is the oracle's message. Its form is not
  modelled.
- Python strings may hold lone surrogate code points. Dafny `char` values are
  Unicode scalar values, so such strings are outside the model.
