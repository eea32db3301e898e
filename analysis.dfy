/** The result record that the upload zone hands to the page and the page
    hands to the results view (`AnalysisData` in app/page.tsx). */
module Analysis {
  import opened Wrappers

  /** The formation labels of the two teams; either may be absent. */
  datatype Formations = Formations(team1: Option<string>, team2: Option<string>)

  /** The two remote result-image URLs and the optional formation labels. */
  datatype AnalysisData = AnalysisData(detectionImage: string, formationImage: string, formations: Option<Formations>)
}
