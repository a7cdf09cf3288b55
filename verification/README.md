# IMPPAT scraper: the pure core, in Dafny

IMPPAT.py collects, for a medicinal plant, the phytochemicals listed on the
IMPPAT website, looks up each compound's PubChem CID and canonical SMILES,
downloads its 3D structure, and writes everything to a spreadsheet with a
summary block. This project models the deterministic logic inside that
scraper and proves what it computes. The fetching itself is not modelled.

- `Text` holds Python's `strip` and `rstrip` and the character classes, restricted to ASCII.
- `PlantName` holds the safe folder and file name made from the typed plant name.
- `Urls` holds the addresses requested, including the `%20` encoding of spaces in the listing address.
- `Pages` holds what the network returns, as plain values. A web is a set of total functions from address to response.
- `CidText` holds the `CID:(\d+)` search as a hand-written scanner, and `extract_cid` on a fetched detail page.
- `Filtering` holds the loop shape "append the result for every row whose lookup succeeds", with its order proofs.
- `PlantSearch` holds `search_plant`, `get_smiles_from_pubchem` and `download_structure`.
- `Workbook` holds `save_to_excel`. The sheet is a sequence of rows, and `At(sheet, k)` is spreadsheet row `k`.
- `Pipeline` holds the part of `main` that decides folder name, report name and whether a report is written.

Two facts about IMPPAT.py shape the model:

- The listing page is requested with the plant name as typed, not the sanitised name (line 210). Only spaces are encoded (line 84).
- The finished sheet holds n + 5 rows: the header, n records, one blank row and three summary rows. The blank row is there because `summary_row = ws.max_row + 2` (line 171) skips row n + 2.

## Model

| member | source | states |
|---|---|---|
| Text.SkipSpaces | IMPPAT.py:107-108 | the scan from a position passes only whitespace and stops at a non-space character or the end of the text |
| Text.TrimSpaces | IMPPAT.py:195 | the backward scan passes only whitespace and stops just after a non-space character or at its lower bound |
| Text.SkipSpacesAt | IMPPAT.py:107-108 | the forward scan stops exactly at the first non-space position, so its contract determines it |
| Text.TrimSpacesAt | IMPPAT.py:195 | the backward scan stops exactly after the last non-space position, so its contract determines it |
| Text.RStrip | IMPPAT.py:195 | `rstrip()` returns a prefix of its input whose removed tail is all whitespace and which does not itself end in whitespace |
| Text.Strip | IMPPAT.py:107-108 | `strip()` returns a slice of its input with only whitespace on either side and none at its own edges |
| Text.StripUnique | IMPPAT.py:107-108 | the `Strip` contract determines the result: any slice with whitespace around it and none at its edges is `Strip`'s answer |
| Text.StripIdempotent | IMPPAT.py:107-108 | stripping twice gives the same as stripping once |
| PlantName.SafeSpaceIsBlank | IMPPAT.py:195 | the only kept character that counts as whitespace is the space |
| PlantName.KeepSafe | IMPPAT.py:195 | the filter keeps only letters, digits, spaces and underscores, never lengthens, and leaves an all-safe name unchanged |
| PlantName.KeepSafeMembers | IMPPAT.py:195 | a character appears in the filtered name exactly when it appears in the input and is safe |
| PlantName.KeepSafeAppend | IMPPAT.py:195 | filtering a concatenation is concatenating the filtered parts, so order is kept |
| PlantName.SafePlantName | IMPPAT.py:195 | the safe name has only safe characters, never ends in a space, is a prefix of the filtered input (so leading spaces stay), and what it drops is spaces only |
| PlantName.SafePlantNameIdempotent | IMPPAT.py:195 | sanitising a safe name changes nothing |
| PlantName.SafePlantNameExample | IMPPAT.py:195 | " A_b! " becomes " A_b": the leading space stays, punctuation and the trailing space go |
| Urls.EncodeSpaces | IMPPAT.py:84 | the encoded name contains no space, and a name without spaces is unchanged |
| Urls.EncodeSpacesLength | IMPPAT.py:84 | the encoded length is the input length plus two per space |
| Urls.EncodeSpacesAppend | IMPPAT.py:84 | encoding works character by character: encoding a concatenation concatenates the encodings |
| Urls.DecodeEncodeSpaces | IMPPAT.py:84 | for a name without `%`, reading every `%20` back as a space recovers the name, so no information is lost |
| Urls.PercentNameNotRecovered | IMPPAT.py:84 | a name containing a literal `%20` is not recovered, so the `%` restriction above is needed |
| Urls.PercentAndSpaceCollide | IMPPAT.py:84 | the encoding is not injective: the different names `a%20b` and `a b` encode alike and so request the same listing page |
| Urls.PlantPageUrl | IMPPAT.py:84 | the listing address is the listing prefix followed by the space-encoded plant name, so it contains no space and grows by two characters per space |
| Urls.DetailPageUrl | IMPPAT.py:13 | the detail-page address is the detail-page prefix followed by the identifier and nothing else, so it is never empty |
| Urls.DetailPageUrlInjective | IMPPAT.py:122 | distinct identifiers give distinct detail-page addresses |
| Urls.SmilesUrl | IMPPAT.py:47 | the PubChem request is the compound prefix, then the CID, then `/property/CanonicalSMILES/TXT` |
| Urls.SmilesUrlInjective | IMPPAT.py:47 | distinct CIDs give distinct PubChem requests |
| Urls.StructureUrl | IMPPAT.py:66 | the MOL address is the MOL folder, then the identifier, then `_3D.mol` |
| Urls.StructureUrlInjective | IMPPAT.py:66 | distinct identifiers give distinct MOL addresses |
| CidText.DigitRunEnd | IMPPAT.py:36 | the greedy `\d+` run from a position covers only digits and stops at a non-digit or the end of the text |
| CidText.FirstCidFrom | IMPPAT.py:36 | the scan finds no position exactly when no `CID:` followed by a digit starts at or after the start, and otherwise finds the first one |
| CidText.FindCid | IMPPAT.py:36-38 | the result is None exactly when no `CID:` is followed by a digit; otherwise it is the nonempty, maximal digit run after the leftmost such `CID:` |
| CidText.CidGroupUnique | IMPPAT.py:36-38 | the captured digit run of a match is determined by the text |
| CidText.FindCidComplete | IMPPAT.py:36-38 | any leftmost match with its maximal digit run is what the search returns, so the contract of `FindCid` is an if-and-only-if |
| CidText.FindCidExample | IMPPAT.py:36-40 | the link text "CID:12345" yields "12345" |
| CidText.NonSpaceInside | IMPPAT.py:35 | a non-space character of a text lies inside the part that `strip()` keeps |
| CidText.CidAtUnstripped | IMPPAT.py:35-36 | a match in the stripped text is a match in the original text |
| CidText.CidGroupStripped | IMPPAT.py:35-36 | a match in the original text, with its digit run, lies inside the stripped text |
| CidText.NoCidStripped | IMPPAT.py:35-36 | a text without a match has a stripped text without a match |
| CidText.LeftmostCidStripped | IMPPAT.py:35-36 | the leftmost match of a text is, shifted, the leftmost match of its stripped text |
| CidText.FindCidIgnoresStrip | IMPPAT.py:35-36 | stripping the link text before the search never changes the CID found |
| CidText.ExtractCid | IMPPAT.py:22-43 | a non-200 page or a missing label/link gives None; a CID found is nonempty and all digits |
| CidText.ExtractCidSearchesLinkText | IMPPAT.py:30-40 | on a 200 page with an identifier link, the CID is the first `CID:<digits>` match in the link text itself |
| PlantSearch.SmilesOf | IMPPAT.py:57-62 | a non-200 PubChem answer gives "N/A"; a 200 answer gives the body with only whitespace removed around it and none left at its edges |
| PlantSearch.StructureStatus | IMPPAT.py:72-80 | the status is "Downloaded" exactly when the download returned 200, and "Not found" otherwise |
| PlantSearch.HyperlinkFor | IMPPAT.py:122 | the hyperlink is the compound's detail page when the status is "Not found", and it is empty exactly when the status is anything else |
| PlantSearch.AssembleRow | IMPPAT.py:107-125 | a row yields a record exactly when its CID lookup succeeds; the record is `[identifier, name, cid, smiles, status, hyperlink]` from the stripped cells 2 and 3, whose SMILES is what the PubChem answer for that CID gives ("N/A" on a failed call), and its hyperlink is the detail page exactly when the status is "Not found" and empty exactly when it is "Downloaded" |
| PlantSearch.RowRecord | IMPPAT.py:106-125 | a row with at most three cells never yields a record; a longer one yields the assembled record, which is well formed |
| PlantSearch.RowsOf | IMPPAT.py:104-125 | the loop appends at most one record per row, and every appended record is well formed |
| PlantSearch.DropHeader | IMPPAT.py:104 | `[1:]` drops exactly the first row and keeps the rest in order; an empty table stays empty |
| PlantSearch.SearchPlant | IMPPAT.py:82-127 | a non-200 listing or a page without a table gives no records; otherwise there are fewer records than table rows; every record is well formed |
| PlantSearch.SearchPlantSelects | IMPPAT.py:104-125 | the records are exactly the rows after the header that have more than three cells and a CID, taken in table order |
| PlantSearch.SearchPlantKeepsAll | IMPPAT.py:104-125 | a listing of N rows after the header, all with more than three cells and a CID, gives exactly N records in document order |
| PlantSearch.AllStructuresDownloaded | IMPPAT.py:72-125 | for any listing, if every download succeeds, every record found says "Downloaded" |
| Filtering.FilterMap | IMPPAT.py:104-125 | the append loop produces at most one output per input |
| Filtering.KeptIndices | IMPPAT.py:104-125 | the kept positions are in range, strictly increasing, and include every position whose lookup succeeds |
| Filtering.FilterMapKept | IMPPAT.py:104-125 | the loop's output is the lookups at the kept positions, in order |
| Filtering.FilterMapAllKept | IMPPAT.py:104-125 | when every lookup succeeds, nothing is dropped or reordered |
| Workbook.CountDownloaded | IMPPAT.py:150-154 | the downloaded count never exceeds the number of records |
| Workbook.CountsPartition | IMPPAT.py:146-168 | downloaded plus missing equals the number of records |
| Workbook.CountMissing | IMPPAT.py:155-157 | the missing count never exceeds the number of records |
| Workbook.CountMissingIsCardinality | IMPPAT.py:155-157 | the missing count is the number of records whose status is anything but "Downloaded" |
| Workbook.CountDownloadedIsCardinality | IMPPAT.py:150-154 | the downloaded count is the number of records whose status is exactly "Downloaded" |
| Workbook.TallyStructures | IMPPAT.py:146-157 | the colouring loop counts the "Downloaded" records and the rest, and the two counts add up to the number of records |
| Workbook.FillFor | IMPPAT.py:140-156 | a Structure cell gets the green fill "92D050" exactly when its value is "Downloaded", and the red fill otherwise |
| Workbook.LinkFor | IMPPAT.py:159-164 | a non-empty Hyperlink cell becomes a "Link" caption targeting its old value; an empty one stays empty |
| Workbook.SummaryStart | IMPPAT.py:171 | the summary block starts at row n + 3, two rows below the last record in row n + 1 |
| Workbook.Report | IMPPAT.py:129-177 | the sheet has a header in row 1 and record i in row i+1 with serial number i. A cell is green exactly when its status is "Downloaded", and a non-empty hyperlink becomes a "Link" to itself. Row n+2 is blank; rows n+3, n+4, n+5 hold the downloaded, missing and total counts, with total = n |
| Workbook.AllDownloadedCounted | IMPPAT.py:150-154 | if every record is downloaded, all of them are counted as downloaded |
| Workbook.AllDownloadedSheet | IMPPAT.py:146-177 | a report of downloaded records only is all green, with summary Downloaded = n, Missing = 0, Total = n |
| Pipeline.RunQuery | IMPPAT.py:192-217 | the folder is the sanitised plant name, so it is safe and has no trailing space; a report is written exactly when records were found, named after the folder with ".xlsx", and its sheet is the report of exactly those records, with n + 5 rows |
| Pipeline.ReportLinksMissingStructures | IMPPAT.py:122 | in a written report, a data row is red exactly when it carries a link, and that link is "Link" to the compound's detail page; other link cells are empty |
| Pipeline.AllDownloadedReport | IMPPAT.py:104-177 | a listing of N rows with CIDs and downloadable structures gives a report with N green rows and the summary Downloaded = N, Missing = 0, Total = N |

## Left out

- HTTP requests and the 2-second delays (IMPPAT.py lines 16-19, 51-54, 69, 87-90) are not modelled. Each response is a parameter: a status code and a body, looked up by address in `Web`.
- HTML parsing with BeautifulSoup is replaced by the values it would return. The listing page is an optional table of `td` cell texts per `tr` row. The detail page is the optional text of the first link after the "External chemical identifiers:" label. A page whose `table` tag is present but empty gives no records either way.
- The MOL file write (lines 74-75), the spreadsheet file write and reload, cell styles, folder creation and path joining are filesystem I/O and are not modelled.
- In the program, a failed request (lines 16, 51, 69, 87) or a failed file or folder operation (lines 74, 135, 180, 199, 203) raises an exception that ends the whole run. The model has no such failures: every request gets a response and every write completes. Fills are an enum whose colour codes are kept; the "Hyperlink" cell style is not kept.
- The interactive prompts and the directory-validation loop (lines 184-190), and all printed messages (among them lines 23, 39, 42, 48, 58, 76, 79, 94, 109 and 215-217), are console I/O. The model begins with the typed plant name.
- Text.IsAlnum: reads `str.isalnum` as ASCII letters and digits only. Python also accepts non-ASCII letters and digits.
- PlantName.KeepSafe: drops every non-ASCII character, where Python would keep non-ASCII letters and digits, because `IsAlnum` is ASCII-only.
- CidText.FindCid: `\d` is read as the ASCII digits. Python's `re` also matches other Unicode decimal digits.
- Text.Strip: strips only the ASCII characters Python treats as whitespace. Python also strips non-ASCII whitespace such as U+00A0.
- `if cid:` (line 115) is modelled as "a CID was found". This is the same thing, because a found CID is never empty (`CidText.ExtractCid`).
- pandas writes an empty Hyperlink value as an empty cell. The model keeps it as the empty text; either way the link rewrite at line 162 leaves it alone.
