/** The upload zone: its three state cells (`preview`, `file`, `error`),
    the drop, preview-load and Clear handlers, and `handleAnalyze`, which
    submits the file, shapes the outcome into a result record or an error
    message, and calls the page's handlers in order. The POST itself, the
    1500 ms wait and `Date.now()` are not modelled: the analysis service's
    answer is an abstract outcome and the two timestamps are parameters. */
module Upload {
  import opened Wrappers
  import opened Analysis
  import Decimal
  import Uri
  import Page

  /** A dropped file; only its identity matters here. */
  datatype File = File(name: string)

  /** The JSON body of a successful `process_image` answer, reduced to the
      fields the zone reads (`formations`, `teamA_formation`,
      `teamB_formation`); a missing or `null` field is `None`. */
  datatype ProcessJson = ProcessJson(formations: Option<Formations>, teamAFormation: Option<string>, teamBFormation: Option<string>)

  /** What the submission comes to: a non-ok status with the body text, an
      ok answer with its JSON, or a thrown value (an `Error` with its
      message, or a non-`Error` value). */
  datatype ProcessOutcome = NotOk(status: nat, body: string) | Ok(json: ProcessJson) | Thrown(message: Option<string>)

  /** The analysis service's tunnel endpoint,
      `https://unitinerant-shavonda-prosaically.ngrok-free.dev` (written in
      pieces only so that the verifier can look inside it). */
  const BaseUrl := "https://" + "unitinerant-shavonda-" + "prosaically.ngrok-free.dev"

  /** The message shown for a thrown value that is not an `Error`. */
  const GenericFailure := "Analysis failed"

  const UploadFailedPrefix := "Upload failed with status "

  /** The message of the `Error` thrown on a non-ok answer. */
  function UploadFailedMessage(status: nat, body: string): (m: string)
    ensures |m| > |UploadFailedPrefix| + |body|
    ensures m[..|UploadFailedPrefix|] == UploadFailedPrefix
    ensures m[|m| - |body|..] == body
  {
    UploadFailedPrefix + Decimal.FromNat(status) + ": " + body
  }

  /** The error cell after an analysis: cleared on success, otherwise the
      thrown error's message or the generic text. */
  function ErrorAfter(outcome: ProcessOutcome): (e: Option<string>)
    ensures e.None? <==> outcome.Ok?
    ensures outcome.NotOk? ==> e == Some(UploadFailedMessage(outcome.status, outcome.body))
    ensures outcome.Thrown? && outcome.message.None? ==> e == Some(GenericFailure)
    ensures outcome.Thrown? && outcome.message.Some? ==> e == outcome.message
  {
    match outcome
    case NotOk(status, body) => Some(UploadFailedMessage(status, body))
    case Ok(_) => None
    case Thrown(message) => Some(message.GetOr(GenericFailure))
  }

  /** The Team A result image, with its cache-busting timestamp. */
  function TeamAUrl(t: nat): (u: string)
    ensures |u| > |BaseUrl| + |Decimal.FromNat(t)| && u[..|BaseUrl|] == BaseUrl
    ensures u[|u| - |Decimal.FromNat(t)|..] == Decimal.FromNat(t)
  {
    BaseUrl + "/image/teamA_boxes_lines.jpg" + "?t=" + Decimal.FromNat(t)
  }

  /** The Team B result image, with its cache-busting timestamp. */
  function TeamBUrl(t: nat): (u: string)
    ensures |u| > |BaseUrl| + |Decimal.FromNat(t)| && u[..|BaseUrl|] == BaseUrl
    ensures u[|u| - |Decimal.FromNat(t)|..] == Decimal.FromNat(t)
  {
    BaseUrl + "/image/teamB_boxes_lines.jpg" + "?t=" + Decimal.FromNat(t)
  }

  /** `data.formations || { team1: data.teamA_formation, team2: data.teamB_formation }`. */
  function FormationsOf(json: ProcessJson): (f: Formations)
    ensures json.formations.Some? ==> f == json.formations.value
    ensures json.formations.None? ==> f.team1 == json.teamAFormation && f.team2 == json.teamBFormation
  {
    match json.formations
    case Some(f) => f
    case None => Formations(json.teamAFormation, json.teamBFormation)
  }

  /** The record handed to `onAnalysisComplete`; `t1` and `t2` are the two
      `Date.now()` readings. */
  function ResultData(json: ProcessJson, t1: nat, t2: nat): (d: AnalysisData)
    ensures d.formations.Some?
  {
    AnalysisData(TeamAUrl(t1), TeamBUrl(t2), Some(FormationsOf(json)))
  }

  // ---- what the shaped values promise ----

  /** A status and a body can be read back from the message: different
      answers never give the same text. */
  lemma UploadFailedMessageInjective(s1: nat, b1: string, s2: nat, b2: string)
    requires UploadFailedMessage(s1, b1) == UploadFailedMessage(s2, b2)
    ensures s1 == s2 && b1 == b2
  {
    var d1, d2 := Decimal.FromNat(s1), Decimal.FromNat(s2);
    MessageTail(s1, b1);
    MessageTail(s2, b2);
    SplitAtColon(d1, " " + b1, d2, " " + b2);
    Decimal.FromNatInjective(s1, s2);
    assert b1 == (" " + b1)[1..] == (" " + b2)[1..] == b2;
  }

  /** After the fixed prefix, the message is the status digits, a colon and
      the spaced body. */
  lemma MessageTail(status: nat, body: string)
    ensures UploadFailedMessage(status, body)[|UploadFailedPrefix|..] == Decimal.FromNat(status) + ":" + (" " + body)
  {
    var r := Decimal.FromNat(status) + ":" + (" " + body);
    assert UploadFailedMessage(status, body) == UploadFailedPrefix + r;
  }

  /** A run of digits and the text after the colon that ends it can be
      read back from their concatenation. */
  lemma SplitAtColon(d1: string, r1: string, d2: string, r2: string)
    requires Decimal.AllDigits(d1) && Decimal.AllDigits(d2)
    requires d1 + ":" + r1 == d2 + ":" + r2
    ensures d1 == d2 && r1 == r2
  {
    var t := d1 + ":" + r1;
    ColonAfterDigits(d1, r1);
    ColonAfterDigits(d2, r2);
    assert d1 == t[..|d1|];
    assert d2 == t[..|d2|];
    assert r1 == t[|d1| + 1..];
  }

  /** The first colon after a run of digits is the one that ends it. */
  lemma ColonAfterDigits(d: string, rest: string)
    requires Decimal.AllDigits(d)
    ensures Uri.IndexOf(d + ":" + rest, ':') == |d|
  {
    var t := d + ":" + rest;
    assert t[|d|] == ':';
    forall j | 0 <= j < |d| ensures t[j] != ':' {
      assert t[j] == d[j];
    }
    Uri.IndexOfIs(t, ':', |d|);
  }

  /** An answer of status 500 with body "server error" is reported with its
      status in the message. */
  lemma ServerErrorMessage()
    ensures UploadFailedMessage(500, "server error") == "Upload failed with status 500: server error"
  {
    assert Decimal.FromNat(5) == "5";
    assert Decimal.FromNat(50) == "50";
    assert Decimal.FromNat(500) == "500";
  }

  /** The two result URLs never coincide, whatever the timestamps. */
  lemma TeamUrlsDistinct(t1: nat, t2: nat)
    ensures TeamAUrl(t1) != TeamBUrl(t2)
  {
    var k := |BaseUrl| + 11;
    assert TeamAUrl(t1)[k] == 'A';
    assert TeamBUrl(t2)[k] == 'B';
  }

  /** The cache-busting parameter of the Team A URL reads back as the
      timestamp it was built from. */
  lemma TeamAUrlTimestamp(t: nat)
    ensures Uri.SearchParam(TeamAUrl(t), "t") == Some(Decimal.FromNat(t))
    ensures Decimal.ToNat(Decimal.FromNat(t)) == t
  {
    PathsArePlain();
    TimestampParam(BaseUrl + "/image/teamA_boxes_lines.jpg", t);
  }

  /** The cache-busting parameter of the Team B URL reads back as the
      timestamp it was built from. */
  lemma TeamBUrlTimestamp(t: nat)
    ensures Uri.SearchParam(TeamBUrl(t), "t") == Some(Decimal.FromNat(t))
    ensures Decimal.ToNat(Decimal.FromNat(t)) == t
  {
    PathsArePlain();
    TimestampParam(BaseUrl + "/image/teamB_boxes_lines.jpg", t);
  }

  /** The Team A URL addresses the Team A image: everything before its
      query is the service's `/image/teamA_boxes_lines.jpg`. */
  lemma TeamAUrlPath(t: nat)
    ensures var u := TeamAUrl(t);
      u[..Uri.IndexOf(u, '?')] == BaseUrl + "/image/teamA_boxes_lines.jpg"
  {
    var path := BaseUrl + "/image/teamA_boxes_lines.jpg";
    PathsArePlain();
    QueryAfterPath(path, Decimal.FromNat(t));
  }

  /** The Team B URL addresses the Team B image. */
  lemma TeamBUrlPath(t: nat)
    ensures var u := TeamBUrl(t);
      u[..Uri.IndexOf(u, '?')] == BaseUrl + "/image/teamB_boxes_lines.jpg"
  {
    var path := BaseUrl + "/image/teamB_boxes_lines.jpg";
    PathsArePlain();
    QueryAfterPath(path, Decimal.FromNat(t));
  }

  /** In a path without `?` followed by the timestamp query, the first `?`
      is the one that starts the query. */
  lemma QueryAfterPath(path: string, digits: string)
    requires '?' !in path
    ensures var u := path + "?t=" + digits;
      u[..Uri.IndexOf(u, '?')] == path
  {
    var u := path + "?t=" + digits;
    assert u[|path|] == '?';
    forall j | 0 <= j < |path| ensures u[j] != '?' {
      assert u[j] == path[j];
    }
    Uri.IndexOfIs(u, '?', |path|);
    assert u[..|path|] == path;
  }

  lemma BaseUrlIsPlain()
    ensures '?' !in BaseUrl && '#' !in BaseUrl
  {
    assert '?' !in "https://" && '#' !in "https://";
    assert '?' !in "unitinerant-shavonda-" && '#' !in "unitinerant-shavonda-";
    assert '?' !in "prosaically.ngrok-free.dev" && '#' !in "prosaically.ngrok-free.dev";
  }

  /** The two image paths hold no `?` and no `#`. */
  lemma PathsArePlain()
    ensures '?' !in BaseUrl + "/image/teamA_boxes_lines.jpg" && '#' !in BaseUrl + "/image/teamA_boxes_lines.jpg"
    ensures '?' !in BaseUrl + "/image/teamB_boxes_lines.jpg" && '#' !in BaseUrl + "/image/teamB_boxes_lines.jpg"
  {
    BaseUrlIsPlain();
    var a, b := "/image/teamA_boxes_lines.jpg", "/image/teamB_boxes_lines.jpg";
    assert '?' !in a && '#' !in a;
    assert '?' !in b && '#' !in b;
  }

  lemma TimestampParam(path: string, t: nat)
    requires '?' !in path && '#' !in path
    ensures Uri.SearchParam(path + "?t=" + Decimal.FromNat(t), "t") == Some(Decimal.FromNat(t))
    ensures Decimal.ToNat(Decimal.FromNat(t)) == t
  {
    var digits := Decimal.FromNat(t);
    NameIsUnreserved();
    DigitsUnreserved(digits);
    Uri.SearchParamRoundTrip(path, "t", digits);
    TimestampUrlShape(path, digits);
    Decimal.ToNatFromNat(t);
  }

  /** The parameter name `t` needs no escaping. */
  lemma NameIsUnreserved()
    ensures forall i :: 0 <= i < |"t"| ==> Uri.Unreserved("t"[i])
  {
  }

  /** Decimal digits pass through `encodeURIComponent` unchanged. */
  lemma DigitsUnreserved(digits: string)
    requires Decimal.AllDigits(digits)
    ensures Uri.EncodeURIComponent(digits) == digits
  {
    Uri.EncodeUnreserved(digits);
  }

  /** Regrouping the timestamp URL, kept apart from the round-trip proof so
      that its context stays small. */
  lemma TimestampUrlShape(path: string, digits: string)
    ensures path + "?" + "t" + "=" + digits == path + "?t=" + digits
  {
  }

  // ---- the component ----

  /** The three state cells, as a value. */
  datatype ZoneState = ZoneState(preview: Option<string>, file: Option<File>, error: Option<string>)

  const Empty := ZoneState(None, None, None)

  class UploadZone {
    var preview: Option<string>
    var file: Option<File>
    var error: Option<string>

    function State(): ZoneState
      reads this
    {
      ZoneState(preview, file, error)
    }

    /** Three `useState(null)` cells. */
    constructor ()
      ensures State() == Empty
    {
      preview, file, error := None, None, None;
    }

    /** `onDrop`: only the first accepted file is used; the preview is left
        to the reader's load event. An empty list changes nothing. */
    method OnDrop(acceptedFiles: seq<File>)
      modifies this
      ensures acceptedFiles == [] ==> State() == old(State())
      ensures acceptedFiles != [] ==> file == Some(acceptedFiles[0]) && error == None && preview == old(preview)
    {
      if acceptedFiles != [] {
        var uploadedFile := acceptedFiles[0];
        file := Some(uploadedFile);
        error := None;
      }
    }

    /** The file reader's load event, delivering the data URL. Nothing ties
        it to the file that is current when it fires. */
    method OnPreviewLoaded(result: string)
      modifies this
      ensures preview == Some(result) && file == old(file) && error == old(error)
    {
      preview := Some(result);
    }

    /** The Clear button. Its outcome does not depend on the state before,
        so clearing twice is clearing once. */
    method Clear()
      modifies this
      ensures State() == Empty
    {
      preview := None;
      file := None;
      error := None;
    }

    /** `handleAnalyze` for one submission whose outcome is `outcome`, with
        the page's handlers as the callbacks. Without a file nothing
        happens; otherwise the error is cleared and `onAnalysisStart` runs
        before the outcome is looked at, and then exactly one of
        `onAnalysisComplete` and `onAnalysisError` runs. */
    method HandleAnalyze(home: Page.Home, outcome: ProcessOutcome, t1: nat, t2: nat)
      requires home.Valid()
      modifies this, home
      ensures home.Valid()
      ensures old(file).None? ==>
        State() == old(State()) && home.State() == old(home.State()) && home.history == old(home.history)
      ensures old(file).Some? ==>
        preview == old(preview) && file == old(file) && error == ErrorAfter(outcome)
      ensures old(file).Some? && outcome.Ok? ==>
        home.history == old(home.history) + [Page.Start, Page.Complete(ResultData(outcome.json, t1, t2))]
      ensures old(file).Some? && !outcome.Ok? ==>
        home.history == old(home.history) + [Page.Start, Page.Error]
    {
      if file.None? {
        return;
      }
      error := None;
      home.HandleAnalysisStart();
      match outcome {
        case NotOk(status, body) =>
          error := Some(UploadFailedMessage(status, body));
          home.HandleAnalysisError();
        case Ok(json) =>
          home.HandleAnalysisComplete(ResultData(json, t1, t2));
        case Thrown(message) =>
          error := Some(message.GetOr(GenericFailure));
          home.HandleAnalysisError();
      }
    }
  }
}
