/**
 The pure part of `main` (IMPPAT.py lines 182-217): the safe folder and
 report name come from the sanitised plant name, the search itself is given
 the name as typed, and a report is written only when records were found.
 */
module Pipeline {
  import opened Wrappers
  import opened Pages
  import opened Urls
  import opened PlantName
  import opened PlantSearch
  import opened Workbook

  datatype Outcome =
    | NoData(folder: string)
    | Saved(folder: string, reportFile: string, sheet: seq<SheetRow>)

  /** One run for the plant name typed at the prompt. */
  function RunQuery(plantName: string, web: Web): (r: Outcome)
    ensures r.folder == SafePlantName(plantName)
    // corollary of the clause above and the contract of SafePlantName
    ensures AllSafe(r.folder) && (r.folder == [] || r.folder[|r.folder| - 1] != ' ')
    ensures r.Saved? <==> SearchPlant(plantName, web) != []
    ensures r.Saved? ==> r.reportFile == r.folder + ".xlsx"
    ensures r.Saved? ==> r.sheet == Report(SearchPlant(plantName, web))
    // corollary of the clause above and the contract of Report
    ensures r.Saved? ==> |r.sheet| == |SearchPlant(plantName, web)| + 5
  {
    var safeName := SafePlantName(plantName);
    var info := SearchPlant(plantName, web);
    if info != [] then Saved(safeName, safeName + ".xlsx", Report(info))
    else NoData(safeName)
  }

  /** In a written report the red rows are exactly the linked ones, and each
      link leads to the compound's detail page. */
  lemma ReportLinksMissingStructures(plantName: string, web: Web, k: nat)
    requires RunQuery(plantName, web).Saved?
    requires 2 <= k <= |SearchPlant(plantName, web)| + 1
    ensures var row := At(RunQuery(plantName, web).sheet, k);
            && row.DataRow?
            && (row.fill == NotFoundFill <==> row.link.Hyperlink?)
            && (row.link.Hyperlink? ==> row.link == Hyperlink(LinkLabel, DetailPageUrl(row.identifier)))
            && (row.link.Plain? ==> row.link.text == "")
  {
    var info := SearchPlant(plantName, web);
    var c := info[k - 2];
    assert WellFormed(c);
    assert Shows(At(Report(info), k), k - 1, c);
  }

  /** A listing whose N rows all have a CID and a downloadable structure gives
      N green rows and the summary Downloaded = N, Missing = 0, Total = N. */
  lemma AllDownloadedReport(plantName: string, web: Web)
    requires web.listing(PlantPageUrl(plantName)).status == HttpOk
    requires web.listing(PlantPageUrl(plantName)).table.Some?
    requires var table := web.listing(PlantPageUrl(plantName)).table.value;
             && |table| > 1
             && forall k :: 1 <= k < |table| ==> |table[k]| > 3 && AssembleRow(table[k], web).Some?
    requires forall url :: web.structure(url) == HttpOk
    ensures var n := |web.listing(PlantPageUrl(plantName)).table.value| - 1;
            var r := RunQuery(plantName, web);
            && r.Saved?
            && |r.sheet| == n + 5
            && (forall k :: 2 <= k <= n + 1 ==> At(r.sheet, k).DataRow? && At(r.sheet, k).fill == DownloadedFill)
            && At(r.sheet, n + 3) == SummaryRow(DownloadedLabel, n)
            && At(r.sheet, n + 4) == SummaryRow(MissingLabel, 0)
            && At(r.sheet, n + 5) == SummaryRow(TotalLabel, n)
  {
    var info := SearchPlant(plantName, web);
    SearchPlantKeepsAll(plantName, web);
    AllStructuresDownloaded(plantName, web);
    AllDownloadedSheet(info);
    assert RunQuery(plantName, web).sheet == Report(info);
  }
}
