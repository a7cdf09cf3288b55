/**
 `save_to_excel` (IMPPAT.py lines 129-180): number the records, write them
 under a header row, colour the Structure column, turn non-empty Hyperlink
 cells into "Link" hyperlinks and add a summary block. The sheet is a
 sequence of rows; `At(sheet, k)` is spreadsheet row `k`, counted from 1.
 */
module Workbook {
  import opened PlantSearch

  /** The two fills of the Structure column. */
  datatype Fill = DownloadedFill | NotFoundFill {
    function Rgb(): string {
      match this
      case DownloadedFill => "92D050"
      case NotFoundFill => "FF3300"
    }
  }

  /** A Hyperlink-column cell: plain text, or a hyperlink with a caption and a target. */
  datatype LinkCell = Plain(text: string) | Hyperlink(caption: string, target: string)

  datatype SheetRow =
    | HeaderRow(titles: seq<string>)
    | DataRow(slNo: nat, identifier: string, name: string, cid: string, smiles: string,
              structure: string, fill: Fill, link: LinkCell)
    | BlankRow
    | SummaryRow(caption: string, count: nat)

  const ColumnTitles := ["Sl No", "Phytochemical Identifier", "Phytochemical Name", "CID",
                         "Canonical SMILES", "Structure", "Hyperlink"]
  const DownloadedLabel := "No of compounds downloaded:"
  const MissingLabel := "No of missing compounds:"
  const TotalLabel := "Total no of compounds:"
  const LinkLabel := "Link"

  /** Spreadsheet row `k` of a sheet. */
  function At(sheet: seq<SheetRow>, k: nat): SheetRow
    requires 1 <= k <= |sheet|
  {
    sheet[k - 1]
  }

  /** The colour of a Structure cell. */
  function FillFor(structure: string): (f: Fill)
    ensures f == DownloadedFill <==> structure == Downloaded
    ensures f.Rgb() == "92D050" <==> structure == Downloaded
  {
    if structure == Downloaded then DownloadedFill else NotFoundFill
  }

  /** A Hyperlink cell after post-processing: a non-empty value becomes a link to itself. */
  function LinkFor(value: string): (c: LinkCell)
    ensures c.Hyperlink? <==> value != ""
    ensures c.Hyperlink? ==> c.caption == LinkLabel && c.target == value
    ensures c.Plain? ==> c.text == ""
  {
    if value != "" then Hyperlink(LinkLabel, value) else Plain(value)
  }

  function DataRowFor(slNo: nat, row: CompoundRow): SheetRow {
    DataRow(slNo, row.identifier, row.name, row.cid, row.smiles, row.structure,
            FillFor(row.structure), LinkFor(row.hyperlink))
  }

  /** `sheetRow` presents record `c` under serial number `slNo` as the
      finished report should. */
  predicate Shows(sheetRow: SheetRow, slNo: nat, c: CompoundRow) {
    && sheetRow.DataRow?
    && sheetRow.slNo == slNo
    && sheetRow.identifier == c.identifier
    && sheetRow.name == c.name
    && sheetRow.cid == c.cid
    && sheetRow.smiles == c.smiles
    && sheetRow.structure == c.structure
    && (sheetRow.fill == DownloadedFill <==> c.structure == Downloaded)
    && (c.hyperlink != "" ==> sheetRow.link == Hyperlink(LinkLabel, c.hyperlink))
    && (c.hyperlink == "" ==> sheetRow.link == Plain(""))
  }

  /** The number of records whose Structure value is exactly "Downloaded". */
  function CountDownloaded(data: seq<CompoundRow>): (count: nat)
    ensures count <= |data|
  {
    if |data| == 0 then 0
    else CountDownloaded(data[..|data| - 1]) + (if data[|data| - 1].structure == Downloaded then 1 else 0)
  }

  /** The number of records whose Structure value is anything else. */
  function CountMissing(data: seq<CompoundRow>): (count: nat)
    ensures count <= |data|
  {
    if |data| == 0 then 0
    else CountMissing(data[..|data| - 1]) + (if data[|data| - 1].structure == Downloaded then 0 else 1)
  }

  /** Every record is counted once, as downloaded or as missing. */
  lemma {:induction false} CountsPartition(data: seq<CompoundRow>)
    ensures CountDownloaded(data) + CountMissing(data) == |data|
  {
    if |data| > 0 {
      CountsPartition(data[..|data| - 1]);
    }
  }

  /** The positions of the downloaded records. */
  ghost function DownloadedPositions(data: seq<CompoundRow>): set<int> {
    set i | 0 <= i < |data| && data[i].structure == Downloaded
  }

  /** The positions of the records counted as missing. */
  ghost function MissingPositions(data: seq<CompoundRow>): set<int> {
    set i | 0 <= i < |data| && data[i].structure != Downloaded
  }

  /** The missing count is the number of positions whose status is anything
      but "Downloaded". */
  lemma {:induction false} CountMissingIsCardinality(data: seq<CompoundRow>)
    ensures CountMissing(data) == |MissingPositions(data)|
  {
    if |data| > 0 {
      var n := |data| - 1;
      var front := data[..n];
      CountMissingIsCardinality(front);
      assert forall i :: 0 <= i < n ==> front[i] == data[i];
      var before := MissingPositions(front);
      var last: set<int> := if data[n].structure != Downloaded then {n} else {};
      assert MissingPositions(data) == before + last;
      assert n !in before;
    }
  }

  /** The downloaded count is the number of downloaded positions. */
  lemma {:induction false} CountDownloadedIsCardinality(data: seq<CompoundRow>)
    ensures CountDownloaded(data) == |DownloadedPositions(data)|
  {
    if |data| > 0 {
      var n := |data| - 1;
      var front := data[..n];
      CountDownloadedIsCardinality(front);
      assert forall i :: 0 <= i < n ==> front[i] == data[i];
      var before := DownloadedPositions(front);
      var last: set<int> := if data[n].structure == Downloaded then {n} else {};
      assert DownloadedPositions(data) == before + last;
      assert n !in before;
    }
  }

  /** The colouring loop over the Structure column (lines 146-157). */
  method TallyStructures(data: seq<CompoundRow>) returns (downloaded: nat, missing: nat)
    ensures downloaded == CountDownloaded(data)
    ensures missing == CountMissing(data)
    ensures downloaded + missing == |data|
  {
    downloaded, missing := 0, 0;
    for i := 0 to |data|
      invariant downloaded == CountDownloaded(data[..i])
      invariant missing == CountMissing(data[..i])
      invariant downloaded + missing == i
    {
      assert data[..i + 1][..i] == data[..i];
      if data[i].structure == Downloaded {
        downloaded := downloaded + 1;
      } else {
        missing := missing + 1;
      }
    }
    assert data[..|data|] == data;
  }

  /** `ws.max_row` once the header and `n` records are written. */
  function LastRow(n: nat): nat {
    n + 1
  }

  /** `summary_row = ws.max_row + 2`: one row is left empty between the last
      record (row n + 1) and the summary. */
  function SummaryStart(n: nat): (row: nat)
    ensures row == n + 3
  {
    LastRow(n) + 2
  }

  /** The finished worksheet. */
  function Report(data: seq<CompoundRow>): (sheet: seq<SheetRow>)
    ensures |sheet| == |data| + 5
    ensures At(sheet, 1) == HeaderRow(ColumnTitles)
    ensures forall i :: 0 <= i < |data| ==> Shows(At(sheet, i + 2), i + 1, data[i])
    ensures At(sheet, |data| + 2) == BlankRow
    ensures At(sheet, |data| + 3) == SummaryRow(DownloadedLabel, CountDownloaded(data))
    ensures At(sheet, |data| + 4) == SummaryRow(MissingLabel, |data| - CountDownloaded(data))
    ensures At(sheet, |data| + 5) == SummaryRow(TotalLabel, |data|)
  {
    var written := [HeaderRow(ColumnTitles)]
      + seq(|data|, i requires 0 <= i < |data| => DataRowFor(i + 1, data[i]));
    var downloaded := CountDownloaded(data);
    var missing := CountMissing(data);
    CountsPartition(data);
    var padded := written + seq(SummaryStart(|data|) - 1 - |written|, _ => BlankRow);
    padded + [SummaryRow(DownloadedLabel, downloaded),
              SummaryRow(MissingLabel, missing),
              SummaryRow(TotalLabel, downloaded + missing)]
  }

  /** If every record is downloaded, all of them are counted as downloaded. */
  lemma {:induction false} AllDownloadedCounted(data: seq<CompoundRow>)
    requires forall j :: 0 <= j < |data| ==> data[j].structure == Downloaded
    ensures CountDownloaded(data) == |data|
  {
    if |data| > 0 {
      AllDownloadedCounted(data[..|data| - 1]);
    }
  }

  /** A report of downloaded records only is all green, with nothing missing. */
  lemma AllDownloadedSheet(data: seq<CompoundRow>)
    requires forall j :: 0 <= j < |data| ==> data[j].structure == Downloaded
    ensures var sheet := Report(data);
            && (forall k :: 2 <= k <= |data| + 1 ==> At(sheet, k).DataRow? && At(sheet, k).fill == DownloadedFill)
            && At(sheet, |data| + 3) == SummaryRow(DownloadedLabel, |data|)
            && At(sheet, |data| + 4) == SummaryRow(MissingLabel, 0)
            && At(sheet, |data| + 5) == SummaryRow(TotalLabel, |data|)
  {
    AllDownloadedCounted(data);
    var sheet := Report(data);
    forall k | 2 <= k <= |data| + 1
      ensures At(sheet, k).DataRow? && At(sheet, k).fill == DownloadedFill
    {
      assert Shows(At(sheet, k), k - 1, data[k - 2]);
    }
  }
}
