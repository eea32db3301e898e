/** The results view: the relay URL of each result image
    (`getProxiedImageUrl`), the `<img>` source, the local image substituted
    when loading fails, the download target of each image and the formation
    cards. The download itself (blob, object URL, anchor click) is I/O and
    is left out. */
module AnalysisResults {
  import opened Wrappers
  import opened Analysis
  import Uri
  import ProxyImage
  import Upload

  const RelayPath := "/api/proxy-image"
  const Placeholder := "/placeholder.svg"

  /** `getProxiedImageUrl`: the relay path with the remote URL as its one,
      encoded, `url` parameter. */
  function ProxiedImageUrl(url: string): (r: string)
    ensures |r| > |url|
  {
    RelayPath + "?url=" + Uri.EncodeURIComponent(url)
  }

  datatype Team = TeamA | TeamB

  /** The remote URL of a team's image in the result record. */
  function RemoteImage(data: AnalysisData, team: Team): string {
    match team
    case TeamA => data.detectionImage
    case TeamB => data.formationImage
  }

  /** JavaScript's `a || b` on two strings. */
  function OrElse(a: string, b: string): string {
    if a != "" then a else b
  }

  /** The `src` of a team's `<img>`: always the relay URL, never the remote
      URL itself and never the placeholder, since the relay URL is not
      empty. */
  function ImageSrc(data: AnalysisData, team: Team): (src: string)
    ensures src == ProxiedImageUrl(RemoteImage(data, team))
    ensures src != RemoteImage(data, team) && src != Placeholder
  {
    OrElse(ProxiedImageUrl(RemoteImage(data, team)), Placeholder)
  }

  /** The local image the `onError` handler puts in place. */
  function FallbackSrc(team: Team): string {
    match team
    case TeamA => "/team-detection.jpg"
    case TeamB => "/team-formation.jpg"
  }

  function DownloadName(team: Team): string {
    match team
    case TeamA => "teamA_boxes_lines.jpg"
    case TeamB => "teamB_boxes_lines.jpg"
  }

  /** What a Download button fetches and under which file name it saves it. */
  datatype Download = Download(request: ProxyImage.Request, filename: string)

  function DownloadOf(data: AnalysisData, team: Team): Download {
    Download(ProxyImage.Request(RemoteImage(data, team), [ProxyImage.SkipBrowserWarning]), DownloadName(team))
  }

  /** Shown and downloaded image of each team: the view goes through the
      relay, the download goes to the remote host directly, and the two
      teams' file names and fallbacks differ. */
  lemma FigureTargets(data: AnalysisData, team: Team)
    ensures DownloadOf(data, team).request.url == RemoteImage(data, team) != ImageSrc(data, team)
    ensures DownloadOf(data, TeamA).filename != DownloadOf(data, TeamB).filename
    ensures FallbackSrc(TeamA) != FallbackSrc(TeamB)
    ensures FallbackSrc(team) != ImageSrc(data, team)
  {
    assert DownloadName(TeamA)[4] == 'A' && DownloadName(TeamB)[4] == 'B';
    assert FallbackSrc(TeamA)[6] == 'd' && FallbackSrc(TeamB)[6] == 'f';
    var src := ImageSrc(data, team);
    assert src[..|RelayPath|] == RelayPath;
    assert FallbackSrc(team)[1] == 't' && src[1] == 'a';
  }

  /** The relay's `searchParams.get("url")` recovers exactly the remote URL
      from a relay URL resolved against any origin. */
  lemma RelayRoundTrip(origin: string, url: string)
    requires '?' !in origin && '#' !in origin
    ensures Uri.SearchParam(origin + ProxiedImageUrl(url), "url") == Some(url)
  {
    var enc := Uri.EncodeURIComponent(url);
    var base := origin + RelayPath;
    assert '?' !in base && '#' !in base by {
      assert '?' !in RelayPath && '#' !in RelayPath;
    }
    UrlIsUnreserved();
    Uri.SearchParamRoundTrip(base, "url", url);
    RelayUrlShape(origin, enc);
  }

  /** The parameter name `url` needs no escaping. */
  lemma UrlIsUnreserved()
    ensures forall i :: 0 <= i < |"url"| ==> Uri.Unreserved("url"[i])
  {
  }

  /** Regrouping the relay URL, kept apart from the round-trip proof so
      that its context stays small. */
  lemma RelayUrlShape(origin: string, enc: string)
    ensures origin + RelayPath + "?" + "url" + "=" + enc == origin + (RelayPath + "?url=" + enc)
  {
  }

  /** Loading a team's image makes the relay fetch exactly the remote URL,
      with the skip-warning header, and serve its bytes when the fetch
      succeeds; only an empty remote URL makes it answer 400. */
  lemma RelayServesRemoteImage(origin: string, data: AnalysisData, team: Team, upstream: ProxyImage.Upstream)
    requires '?' !in origin && '#' !in origin
    ensures var x := ProxyImage.Get(origin + ImageSrc(data, team), upstream);
      && (x.fetched.None? <==> RemoteImage(data, team) == "")
      && (RemoteImage(data, team) != "" ==>
            x.fetched == Some(ProxyImage.Request(RemoteImage(data, team), [ProxyImage.SkipBrowserWarning])))
      && (x.response.status == 200 <==> RemoteImage(data, team) != "" && ProxyImage.Delivered(upstream))
  {
    RelayRoundTrip(origin, RemoteImage(data, team));
  }

  /** The result record built by the upload zone is always displayable:
      both relays fetch the two result URLs, and the formations card is
      shown. */
  lemma UploadedResultsDisplay(json: Upload.ProcessJson, t1: nat, t2: nat, origin: string, upstream: ProxyImage.Upstream)
    requires '?' !in origin && '#' !in origin
    ensures var data := Upload.ResultData(json, t1, t2);
      && ProxyImage.Get(origin + ImageSrc(data, TeamA), upstream).fetched
           == Some(ProxyImage.Request(Upload.TeamAUrl(t1), [ProxyImage.SkipBrowserWarning]))
      && ProxyImage.Get(origin + ImageSrc(data, TeamB), upstream).fetched
           == Some(ProxyImage.Request(Upload.TeamBUrl(t2), [ProxyImage.SkipBrowserWarning]))
      && FormationCards(data.formations).Some?
  {
    var data := Upload.ResultData(json, t1, t2);
    RelayServesRemoteImage(origin, data, TeamA, upstream);
    RelayServesRemoteImage(origin, data, TeamB, upstream);
  }

  /** One "Detected Formations" entry. */
  datatype Card = Card(heading: string, formation: string)

  /** A formation is shown only when it is a non-empty string. */
  predicate Truthy(text: Option<string>) {
    text.Some? && text.value != ""
  }

  /** The formations card (absent when the record has no formations) and
      the Team A and Team B entries in it. */
  function FormationCards(formations: Option<Formations>): (cards: Option<seq<Card>>)
    ensures cards.None? <==> formations.None?
    ensures cards.Some? ==> forall c :: c in cards.value ==>
      || (c.heading == "Team A" && formations.value.team1 == Some(c.formation) && c.formation != "")
      || (c.heading == "Team B" && formations.value.team2 == Some(c.formation) && c.formation != "")
    ensures cards.Some? && Truthy(formations.value.team1) ==> Card("Team A", formations.value.team1.value) in cards.value
    ensures cards.Some? && Truthy(formations.value.team2) ==> Card("Team B", formations.value.team2.value) in cards.value
  {
    match formations
    case None => None
    case Some(f) =>
      Some((if Truthy(f.team1) then [Card("Team A", f.team1.value)] else [])
         + (if Truthy(f.team2) then [Card("Team B", f.team2.value)] else []))
  }
}
