/**
 `search_plant` and the per-compound lookups it drives (IMPPAT.py lines
 45-127): the listing table is filtered row by row, and every row with a
 CID becomes one compound record.
 */
module PlantSearch {
  import opened Wrappers
  import opened Text
  import opened Urls
  import opened Pages
  import opened CidText
  import opened Filtering

  const NotAvailable := "N/A"
  const Downloaded := "Downloaded"
  const NotFound := "Not found"

  /** One entry of `plant_info`:
      `[identifier, phytochemical_name, cid, smiles, structure_status, hyperlink]`. */
  datatype CompoundRow = CompoundRow(
    identifier: string,
    name: string,
    cid: string,
    smiles: string,
    structure: string,
    hyperlink: string)

  /** `get_smiles_from_pubchem` once PubChem has answered. */
  function SmilesOf(response: Response): (r: string)
    ensures response.status != HttpOk ==> r == NotAvailable
    ensures response.status == HttpOk ==> NoEdgeSpace(r) && exists i :: StrippedAt(response.body, r, i)
  {
    if response.status != HttpOk then NotAvailable else Strip(response.body)
  }

  /** `download_structure`'s verdict given the status of the MOL download. */
  function StructureStatus(code: int): (r: string)
    ensures r == Downloaded <==> code == HttpOk
    ensures r == NotFound <==> code != HttpOk
  {
    if code == HttpOk then Downloaded else NotFound
  }

  /** The detail page is linked only for compounds whose structure is missing. */
  function HyperlinkFor(identifier: string, status: string): (r: string)
    ensures status == NotFound ==> r == DetailPageUrl(identifier)
    ensures r == "" <==> status != NotFound
  {
    if status == NotFound then DetailPageUrl(identifier) else ""
  }

  /** What every record `search_plant` appends satisfies. */
  predicate WellFormed(row: CompoundRow) {
    && NoEdgeSpace(row.identifier)
    && NoEdgeSpace(row.name)
    && |row.cid| > 0
    && AllDigits(row.cid)
    && (row.structure == Downloaded || row.structure == NotFound)
    && (row.hyperlink == DetailPageUrl(row.identifier) <==> row.structure == NotFound)
    && (row.hyperlink == "" <==> row.structure == Downloaded)
  }

  /** The body of the loop in `search_plant` for one row of cells. */
  function AssembleRow(cells: seq<string>, web: Web): (r: Option<CompoundRow>)
    requires |cells| > 3
    ensures var id := Strip(cells[2]);
            var cid := ExtractCid(web.detail(DetailPageUrl(id)));
            && (r.Some? <==> cid.Some?)
            && (r.Some? ==>
                  && WellFormed(r.value)
                  && r.value.identifier == id
                  && r.value.name == Strip(cells[3])
                  && Some(r.value.cid) == cid
                  && r.value.smiles == SmilesOf(web.pubchem(SmilesUrl(r.value.cid)))
                  // corollary of the clause above and the contract of SmilesOf
                  && (web.pubchem(SmilesUrl(r.value.cid)).status != HttpOk ==> r.value.smiles == NotAvailable)
                  && (r.value.structure == Downloaded <==> web.structure(StructureUrl(id)) == HttpOk))
  {
    var identifier := Strip(cells[2]);
    var name := Strip(cells[3]);
    match ExtractCid(web.detail(DetailPageUrl(identifier)))
    case None => None
    case Some(cid) =>
      var smiles := SmilesOf(web.pubchem(SmilesUrl(cid)));
      var status := StructureStatus(web.structure(StructureUrl(identifier)));
      Some(CompoundRow(identifier, name, cid, smiles, status, HyperlinkFor(identifier, status)))
  }

  /** A row becomes a record when it has more than three cells and a CID. */
  function RowRecord(cells: seq<string>, web: Web): (r: Option<CompoundRow>)
    ensures r.Some? ==> |cells| > 3 && r == AssembleRow(cells, web) && WellFormed(r.value)
    ensures |cells| > 3 && AssembleRow(cells, web).Some? ==> r.Some?
  {
    if |cells| > 3 then AssembleRow(cells, web) else None
  }

  /** The lookup the loop applies to each row. */
  function RowLookup(web: Web): seq<string> -> Option<CompoundRow> {
    cells => RowRecord(cells, web)
  }

  /** `plant_info` after the loop has run over `body`, appending in order. */
  function RowsOf(body: seq<seq<string>>, web: Web): (r: seq<CompoundRow>)
    ensures |r| <= |body|
    ensures forall j :: 0 <= j < |r| ==> WellFormed(r[j])
  {
    var r := FilterMap(body, RowLookup(web));
    FilterMapKept(body, RowLookup(web));
    r
  }

  /** `table.find_all('tr')[1:]`. */
  function DropHeader(table: seq<seq<string>>): (r: seq<seq<string>>)
    ensures |table| == 0 ==> r == []
    ensures |table| > 0 ==> |r| == |table| - 1
    ensures forall k :: 0 <= k < |r| ==> r[k] == table[k + 1]
  {
    if |table| == 0 then [] else table[1..]
  }

  /** `search_plant`: the compound records of a plant's listing page. */
  function SearchPlant(plantName: string, web: Web): (r: seq<CompoundRow>)
    ensures var page := web.listing(PlantPageUrl(plantName));
            && (page.status != HttpOk || page.table.None? ==> r == [])
            && (page.status == HttpOk && page.table.Some? ==> r == [] || |r| < |page.table.value|)
    ensures forall j :: 0 <= j < |r| ==> WellFormed(r[j])
  {
    var page := web.listing(PlantPageUrl(plantName));
    if page.status != HttpOk then []
    else
      match page.table
      case None => []
      case Some(table) => RowsOf(DropHeader(table), web)
  }

  /** The records are the rows after the header that have more than three
      cells and a CID, in table order. */
  lemma SearchPlantSelects(plantName: string, web: Web)
    requires web.listing(PlantPageUrl(plantName)).status == HttpOk
    requires web.listing(PlantPageUrl(plantName)).table.Some?
    ensures var table := web.listing(PlantPageUrl(plantName)).table.value;
            var ks := KeptIndices(DropHeader(table), RowLookup(web));
            var r := SearchPlant(plantName, web);
            && |r| == |ks|
            && (forall j :: 0 <= j < |r| ==>
                  && 1 <= ks[j] + 1 < |table|
                  && |table[ks[j] + 1]| > 3
                  && Some(r[j]) == AssembleRow(table[ks[j] + 1], web))
            && (forall j, j' :: 0 <= j < j' < |r| ==> ks[j] < ks[j'])
            && (forall k :: 1 <= k < |table| && |table[k]| > 3 && AssembleRow(table[k], web).Some? ==> k - 1 in ks)
  {
    var table := web.listing(PlantPageUrl(plantName)).table.value;
    var body := DropHeader(table);
    FilterMapKept(body, RowLookup(web));
    assert forall k :: 0 <= k < |body| ==> body[k] == table[k + 1];
  }

  /** A listing of N rows after the header, each with more than three cells
      and a CID, gives exactly N records in document order. */
  lemma SearchPlantKeepsAll(plantName: string, web: Web)
    requires web.listing(PlantPageUrl(plantName)).status == HttpOk
    requires web.listing(PlantPageUrl(plantName)).table.Some?
    requires var table := web.listing(PlantPageUrl(plantName)).table.value;
             && |table| > 0
             && forall k :: 1 <= k < |table| ==> |table[k]| > 3 && AssembleRow(table[k], web).Some?
    ensures var table := web.listing(PlantPageUrl(plantName)).table.value;
            var r := SearchPlant(plantName, web);
            && |r| == |table| - 1
            && forall j :: 0 <= j < |r| ==> Some(r[j]) == AssembleRow(table[j + 1], web)
  {
    var table := web.listing(PlantPageUrl(plantName)).table.value;
    var body := DropHeader(table);
    var f := RowLookup(web);
    forall k | 0 <= k < |body|
      ensures f(body[k]) == AssembleRow(table[k + 1], web) && f(body[k]).Some?
    {
      assert body[k] == table[k + 1];
    }
    FilterMapAllKept(body, f);
  }

  /** With every download succeeding, every record found says "Downloaded",
      whatever the listing holds. */
  lemma AllStructuresDownloaded(plantName: string, web: Web)
    requires forall url :: web.structure(url) == HttpOk
    ensures forall j :: 0 <= j < |SearchPlant(plantName, web)| ==> SearchPlant(plantName, web)[j].structure == Downloaded
  {
    var page := web.listing(PlantPageUrl(plantName));
    if page.status == HttpOk && page.table.Some? {
      SearchPlantSelects(plantName, web);
      var info := SearchPlant(plantName, web);
      var table := page.table.value;
      var ks := KeptIndices(DropHeader(table), RowLookup(web));
      forall j | 0 <= j < |info|
        ensures info[j].structure == Downloaded
      {
        var cells := table[ks[j] + 1];
        assert Some(info[j]) == AssembleRow(cells, web);
        assert web.structure(StructureUrl(info[j].identifier)) == HttpOk;
      }
    }
  }
}
