/**
  The bulk-download request handler `download_reels` (app.py:14-38): it parses
  the `urls` form field, answers with an error when no URL is left, and
  otherwise asks the downloader for every URL in turn, recording for each
  one either a success or the text of the exception the downloader raised.
  An exception never stops the loop.

  The downloader itself (yt-dlp) is not modelled: what a download of a URL
  does is an oracle `outcome` fixed when the downloader is made.
*/
module Batch {
  import opened UrlList

  /** What one download of a URL does: it returns normally, or it raises an
      exception whose text (`str(e)`) is `message`. */
  datatype Outcome = Downloaded | Raised(message: string)

  /** The `status` of one entry of the response: "success", or "failed"
      together with its `error` text. */
  datatype Status = Success | Failed(error: string)

  /** One element of the response's `results` list. */
  datatype Entry = Entry(url: string, status: Status)

  /** The JSON body of the response: status "error" with a message, or
      status "done" with one entry per URL. */
  datatype Response = Error(message: string) | Done(results: seq<Entry>)

  /** The message sent back when the field holds no URL. */
  const NoUrlsMessage: string := "No URLs provided."

  /** The downloader the handler opens. `outcome` says what downloading each
      URL does; `calls` is the log of the URLs it has been asked for, in order. */
  class Downloader {
    const outcome: string -> Outcome
    var calls: seq<string>

    constructor (outcome: string -> Outcome)
      ensures this.outcome == outcome && calls == []
    {
      this.outcome := outcome;
      calls := [];
    }

    /** Download one URL: the call is logged and its outcome is the oracle's. */
    method Download(url: string) returns (o: Outcome)
      modifies this
      ensures o == outcome(url)
      ensures calls == old(calls) + [url]
    {
      calls := calls + [url];
      o := outcome(url);
    }
  }

  /** The entry recorded for `url` when its download had outcome `o`. */
  function Report(url: string, o: Outcome): Entry
  {
    match o
    case Downloaded => Entry(url, Success)
    case Raised(msg) => Entry(url, Failed(msg))
  }

  /** The `results` list for `urls` when downloads behave as `outcome`:
      one entry per URL, in order. */
  function Results(urls: seq<string>, outcome: string -> Outcome): (r: seq<Entry>)
    ensures |r| == |urls|
  {
    if urls == [] then [] else [Report(urls[0], outcome(urls[0]))] + Results(urls[1..], outcome)
  }

  /** Handling one more URL appends exactly its entry and leaves the earlier
      entries as they were. */
  lemma {:induction false} ResultsSnoc(urls: seq<string>, u: string, outcome: string -> Outcome)
    ensures Results(urls + [u], outcome) == Results(urls, outcome) + [Report(u, outcome(u))]
  {
    if urls != [] {
      assert (urls + [u])[1..] == urls[1..] + [u];
      ResultsSnoc(urls[1..], u, outcome);
    }
  }

  /** The i-th entry is about the i-th URL, is "success" exactly when that
      URL's download returned, and otherwise carries the exception's text. */
  lemma {:induction false} ResultsAt(urls: seq<string>, outcome: string -> Outcome, i: nat)
    requires i < |urls|
    ensures Results(urls, outcome)[i].url == urls[i]
    ensures Results(urls, outcome)[i].status == Success <==> outcome(urls[i]) == Downloaded
    ensures outcome(urls[i]).Raised? ==>
              Results(urls, outcome)[i].status == Failed(outcome(urls[i]).message)
  {
    if i > 0 {
      ResultsAt(urls[1..], outcome, i - 1);
    }
  }

  /** The i-th entry depends on the i-th URL's outcome only: changing how any
      other URL's download behaves (making it fail, say) leaves it as it is. */
  lemma ResultsIndependent(urls: seq<string>, o1: string -> Outcome, o2: string -> Outcome, i: nat)
    requires i < |urls|
    requires o1(urls[i]) == o2(urls[i])
    ensures Results(urls, o1)[i] == Results(urls, o2)[i]
  {
    ResultsAt(urls, o1, i);
    ResultsAt(urls, o2, i);
  }

  /** The loop of the handler (app.py:29-36): every URL is downloaded once,
      in order, and gets one entry; an exception is caught and recorded, and
      the loop goes on with the next URL. */
  method DownloadAll(urls: seq<string>, ydl: Downloader) returns (results: seq<Entry>)
    modifies ydl
    ensures results == Results(urls, ydl.outcome)
    ensures ydl.calls == old(ydl.calls) + urls
  {
    results := [];
    for i := 0 to |urls|
      invariant results == Results(urls[..i], ydl.outcome)
      invariant ydl.calls == old(ydl.calls) + urls[..i]
    {
      var o := ydl.Download(urls[i]);
      match o {
        case Downloaded =>
          results := results + [Entry(urls[i], Success)];
        case Raised(msg) =>
          results := results + [Entry(urls[i], Failed(msg))];
      }
      assert urls[..i + 1] == urls[..i] + [urls[i]];
      ResultsSnoc(urls[..i], urls[i], ydl.outcome);
    }
    assert urls[..|urls|] == urls;
  }

  /** The handler (app.py:14-38). `form` is the submitted form (a missing
      `urls` field reads as ""); `ydl` is the downloader. With no URL after
      parsing it answers "No URLs provided." and downloads nothing; otherwise
      it downloads every parsed URL once, in order, and answers "done" with
      their entries. */
  method DownloadReels(form: map<string, string>, ydl: Downloader) returns (resp: Response)
    modifies ydl
    ensures var urls := ParseUrls(if "urls" in form then form["urls"] else "");
            if urls == [] then
              resp == Error(NoUrlsMessage) && ydl.calls == old(ydl.calls)
            else
              resp == Done(Results(urls, ydl.outcome)) && ydl.calls == old(ydl.calls) + urls
  {
    var input := if "urls" in form then form["urls"] else "";
    var urls := ParseUrls(input);
    if urls == [] {
      return Error(NoUrlsMessage);
    }
    var results := DownloadAll(urls, ydl);
    return Done(results);
  }
}
