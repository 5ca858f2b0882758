# Czech 2017 election results scraper — a Dafny model

This model covers `main.py`, a scraper of the 2017 Czech parliamentary election results
published under `https://www.volby.cz/pls/ps2017nss/`. For one territorial unit it
reads the listing page of municipalities and follows each municipality's link to its
results page. A results page whose URL contains `ps33` belongs to a municipality of
several polling districts. That page's district links (`xokrsek=`) are followed in turn,
and the district statistics are summed. Any other page is one polling district and is
read directly. The result is one data row per municipality, with a party column for
every party seen so far.

Modules, one per layer of the program:

- `Text` (`text.dfy`) covers `str.strip`, `str.isdigit`, and the number normalisation
  `text.strip().replace("\xa0", "").replace(" ", "")` followed by `int()`. It also
  covers `in` on strings.
- `Html` (`html.dfy`) is the parsed page as the scraper sees it. A page is tables of
  rows of `td` cells: each cell's text, the tokens of its `headers` attribute, and the
  links inside it. The page also keeps its list of links. This module also holds
  `find_td_by_partial_header`.
- `Tallies` (`tally.dfy`) is the vote dictionary. It is a Python `dict`, so it keeps its
  keys in insertion order, which later fixes the column order. It supports
  `votes[p] = n` and `votes.get(p, 0)`, plus the merge loop of the composite branch.
- `Fields` (`fields.dfy`) holds the two-strategy statistic lookup
  (`extract_safe_stat`, `extract_stat_by_label`) and the vote-row scan of a
  single-district page.
- `Aggregator` (`aggregator.dfy`) is `scrape_detailed_data`. The pages it fetches are a
  finite tree (`Fetched`). `Valid` ties the tree to what the program would fetch:
  - a composite page has one child per district link, in link order, each fetched from
    the resolved link;
  - a single-district page has statistics that `int()` accepts.

  The spec function `Aggregate` gives the returned statistics. The methods run the
  source's loops and are proved equal to it. The lemmas prove that a composite's totals
  are the sums over its districts, and that its parties are the union of theirs.
- `TableBuilder` (`table.dfy`) is `extract_data`. The spec function `Build` folds over
  the listing rows, and the methods `ExtractData`, `AddTable` and `DiscoverParties` are
  the source's nested loops. The lemmas cover:
  - the party-column list (append-only, distinct, no `""` or `"-"`, first-seen order);
  - row widths;
  - what each cell holds;
  - the header.

Each data row is built against the column list as it stands at that moment. A row written
before a party first turns up therefore has no cell for that party and is shorter than
the header. The model keeps this behaviour. `PaddedComplete` shows that each such missing
cell stands for a count of zero.

## Model

| member | source | states |
|---|---|---|
| Text.LeadingSpacesRun | main.py:48 | `strip()` removes a maximal run of whitespace at the start of the text |
| Text.TrailingSpacesRun | main.py:48 | `strip()` removes a maximal run of whitespace at the end of the text |
| Text.Trim | main.py:48 | the definition of `strip()`: drop the leading whitespace run, then the trailing one; characterised by `LeadingSpacesRun`, `TrailingSpacesRun` and `TrimSlice` |
| Text.TrimSlice | main.py:48-49 | a stripped cell is a contiguous slice of the text, everything cut before and after that slice is whitespace, the slice has no whitespace at either end, and it is empty exactly when the text is all whitespace |
| Text.TrimUnpadded | main.py:119 | text without whitespace at either end is left unchanged by `strip()` |
| Text.RemoveCharDrops | main.py:120 | `replace(c, "")` removes every `c` and keeps every other character |
| Text.RemoveCharAppend | main.py:120 | `replace(c, "")` works piecewise over a concatenation |
| Text.NumberTextHasNoSeparator | main.py:71 | after normalisation, no non-breaking space and no space is left in the text |
| Text.DigitsValueAppend | main.py:122 | the value of a concatenation of digit strings is the first value shifted by the second one's length, plus the second value |
| Text.SeparatorRemoved | main.py:120 | one thousands separator (space or non-breaking space) between two digit groups is removed, leaving the groups joined |
| Text.ThousandsSeparator | main.py:82 | digits, a thousands separator, then digits parse as the joined digit string |
| Text.NumberValue | main.py:71 | the definition of `int(text.strip().replace("\xa0", "").replace(" ", ""))` on a digit string; characterised by `NumberTextHasNoSeparator`, `DigitsValueAppend` and `ThousandsSeparator` |
| Text.ThousandsExample | main.py:71 | `"1 234"` and `"1\xa0234"` both read as 1234 |
| Text.DashIsNotANumber | main.py:121 | the placeholder `"-"` is never a vote count |
| Text.Contains | main.py:90 | the definition of `p in s` on strings; characterised by `ContainsIsOccurrence` |
| Text.ContainsIsOccurrence | main.py:90 | `p in s` holds exactly when `p` occurs in `s` at some index |
| Html.AllRowsMembers | main.py:68 | the page's rows are exactly the rows of its tables |
| Html.AllCellsMembers | main.py:76 | the page's cells are exactly the cells of its rows |
| Html.FindTdByPartialHeader | main.py:75-76 | the definition of `find_td_by_partial_header`: the first cell in document order whose `headers` carry the key; characterised by `FirstHeaderCellFinds` |
| Html.FirstHeaderCellFinds | main.py:76 | the header search finds nothing exactly when no cell matches the key, and otherwise finds the first match in document order |
| Html.LinksContaining | main.py:91 | the definition of the district-link filter; characterised by `LinksContainingSingle`, `LinksContainingAppend` and `LinksContainingFilters` |
| Html.LinksContainingFilters | main.py:91 | the district-link filter is never longer than the link list, and the links it keeps are exactly the listed links that contain the marker |
| Html.LinksContainingSingle | main.py:91 | a single link is kept exactly when it contains the marker |
| Html.LinksContainingAppend | main.py:91 | filtering two link lists end to end gives their filtered lists end to end; with the single-link case this fixes the result completely, so links keep their page order and a link listed twice is kept twice |
| Tallies.PutSets | main.py:122 | storing a count sets that party, leaves every other party unchanged, and appends the party to the key order only when it is new |
| Tallies.AddCountsKeys | main.py:106-107 | part-way through the merge loop, the tally holds the old parties, in their old order, plus the keys merged so far |
| Tallies.AddCountsGet | main.py:106-107 | part-way through the merge loop, each party's count is its old count plus its merged counts |
| Tallies.AddCountsOrder | main.py:106-107 | part-way through the merge loop, the keys are the old keys followed by the merged keys that were new, in the order the loop met them |
| Tallies.Merge | main.py:106-107 | the definition of the `for party, count in votes.items()` merge; characterised by `MergeAddsCounts` and `MergeKeyOrder` |
| Tallies.MergeInto | main.py:106-107 | the merge loop computes `Merge` |
| Tallies.MergeAddsCounts | main.py:106-107 | after a merge, the keys are the union of both key sets, old keys keep their order, and every count is the sum of both, with a missing key counting as 0 |
| Tallies.MergeKeyOrder | main.py:106-107 | after a merge, the keys are the old keys followed by the keys of `votes` that the total lacked, in `votes` order |
| Tallies.TwoDistrictExample | main.py:95-107 | merging `{"Party A": 40}` and then `{"Party A": 30, "Party C": 10}` into an empty total gives 70 for Party A, 10 for Party C, and no other party |
| Fields.StatByLabel | main.py:67-72 | the definition of `extract_stat_by_label`; characterised by `StatByLabelFirstMatch` |
| Fields.StatByLabelFirstMatch | main.py:67-72 | the fallback returns the number in the second cell of the first row whose first cell contains the label, or 0 when no row matches |
| Fields.ExtractStatByLabel | main.py:67-72 | the loop with its early return computes `StatByLabel` |
| Fields.SafeStat | main.py:79-83 | the definition of `extract_safe_stat`; characterised by `SafeStatStrategies` |
| Fields.SafeStatStrategies | main.py:79-83 | the result is the number in the first header-matched cell when that cell's text is not blank; otherwise it is the label fallback's result, and 0 when nothing matches |
| Fields.ExtractSafeStat | main.py:79-83 | the lookup computes `SafeStat` |
| Fields.IsVoteRow | main.py:118-121 | the definition of a vote row: at least 3 cells, a non-blank trimmed name in the 2nd and an all-digit 3rd; characterised by `NamedPartiesAreVoteRows` and `LeafVotesParties` |
| Fields.LeafVotes | main.py:115-122 | the definition of the vote scan over a single-district page; characterised by `LeafVotesValid`, `LeafVotesKeys`, `LeafVotesParties`, `LeafVotesOrder` and `LeafVotesLastRowWins` |
| Fields.NamedPartiesAreVoteRows | main.py:116-122 | the named parties are exactly the names of the vote rows |
| Fields.LeafVotesParties | main.py:116-122 | the tally has a party exactly when some row has at least 3 cells, that party's non-blank trimmed name in the 2nd cell, and an all-digit 3rd cell; `""` is never a key |
| Fields.LeafVotesValid | main.py:115-122 | the vote scan yields a well-formed tally with each party listed once |
| Fields.LeafVotesOrder | main.py:116-122 | the tally's keys are the vote-row party names in row order with every repeat dropped, so each party stands where its first vote row is; this is the order `for party in votes` visits them in |
| Fields.LeafVotesKeys | main.py:116-122 | the tally's keys are exactly the parties named by vote rows |
| Fields.LeafVotesLastRowWins | main.py:122 | a party's count comes from the last vote row with that name |
| Fields.LastRowWinsAt | main.py:116-122 | the count stored for a row's party is that row's count when no later vote row names the same party |
| Aggregator.IsComposite | main.py:90 | the definition of the `ps33` test that selects the composite branch; used by `CompositeIsSumOfDistricts` and `LeafReadDirectly` |
| Aggregator.ResolveDistrictUrl | main.py:97-101 | the definition of district-link resolution: a link starting with `http` is kept, any other is prefixed with the site address; characterised by `ResolveDistrictUrlAbsolute` |
| Aggregator.ResolveDistrictUrlAbsolute | main.py:97-101 | every resolved district URL starts with `http` and ends with its link, a link is kept as it is exactly when it already starts with `http`, and resolving twice changes nothing |
| Aggregator.Aggregate | main.py:86-124 | the definition of what `scrape_detailed_data` returns: sums over the districts of a `ps33` page, the page's own statistics otherwise; characterised by `AggregateValid`, `CompositeIsSumOfDistricts`, `CompositePartiesOfDistricts` and `LeafReadDirectly` |
| Aggregator.AggregateValid | main.py:86-124 | every tally the scraper returns is well formed |
| Aggregator.AddValid | main.py:103-107 | one step of the composite loop keeps the tally well formed |
| Aggregator.AddValue | main.py:103-107 | one step of the composite loop adds the district's value to every total and to every party count |
| Aggregator.AddParties | main.py:106-107 | one step of the composite loop makes the parties the union of the old parties and the district's |
| Aggregator.SumsValid | main.py:92-108 | the summed tally is well formed |
| Aggregator.SumsColumn | main.py:92-108 | each summed column (registered, envelopes, valid, any party) is the sum of that column over the districts, in order |
| Aggregator.SumsParties | main.py:95-107 | the summed tally's parties are the union of the districts' parties |
| Aggregator.PartiesOfAny | main.py:95-107 | a party is in the union exactly when some district has it |
| Aggregator.DistrictsValid | main.py:96-102 | the statistics of every district page have well-formed tallies |
| Aggregator.CompositeIsSumOfDistricts | main.py:90-108 | for a `ps33` page, there is one district result per link, in link order, and every total and party count is the sum over the districts |
| Aggregator.CompositePartiesOfDistricts | main.py:95-107 | for a `ps33` page, a party appears in the merged votes exactly when some district page has it |
| Aggregator.LeafStatsRead | main.py:111-124 | on a single-district page, the parties are exactly those named by vote rows, in the order of their first vote row, each with the count of its last vote row; each of the three statistics is the number in its header cell whenever that cell's text is not blank |
| Aggregator.LeafReadDirectly | main.py:86-124 | a page whose URL lacks `ps33` has no district pages, and what `scrape_detailed_data` returns for it has the parties, party order, counts and header-cell statistics that `LeafStatsRead` gives |
| Aggregator.ScrapeDetailedData | main.py:86-124 | the recursive scraper returns `Aggregate` of the fetched page |
| Aggregator.ScrapeDistricts | main.py:90-108 | the composite loop over the district links returns the sums over the district pages |
| Aggregator.AddDistrict | main.py:96-107 | one iteration of the composite loop extends the totals by the next district |
| Aggregator.DistrictStep | main.py:102-107 | the next district is well formed, and the totals after it are the totals before it plus its statistics |
| Aggregator.ScrapeSingleDistrict | main.py:111-124 | the single-district branch returns the three looked-up statistics and the scanned tally |
| TableBuilder.ListingRowsMembers | main.py:43-44 | the rows visited are exactly the rows after the second of each table |
| TableBuilder.ListingRowsStep | main.py:43-44 | the rows visited over the first n+1 tables are those over the first n followed by table n's rows after the second, so the tables are visited one after another in page order |
| TableBuilder.IsListed | main.py:46-51 | the definition of the row filter: at least 3 cells and an all-digit trimmed code; used by `Build` and characterised through `BuildData` |
| TableBuilder.LinkOf | main.py:52 | the definition of `columns[-1].find("a")`: the first link of the last cell, if any; used by `NoLinkRow` and `BuildData` |
| TableBuilder.DetailUrl | main.py:54-55 | the definition of the municipality URL: the site address followed by the link; characterised by `DetailUrlAlwaysPrefixed` |
| TableBuilder.DetailUrlAlwaysPrefixed | main.py:55 | a municipality URL always starts with the site address followed by exactly the link, and unlike a district URL it is prefixed even when the link is already absolute |
| TableBuilder.RowStatsValid | main.py:52-61 | a municipality's tally is well formed, whether or not the row has a link |
| TableBuilder.Discover | main.py:57-59 | the definition of the party-column discovery loop; characterised by `DiscoverKeeps`, `DiscoverFirstSeen` and `DiscoverConcat` |
| TableBuilder.DiscoverKeeps | main.py:57-59 | the column list grows only at its end, and only by names it lacked. Afterwards it holds exactly its old names plus the parties seen that are neither `""` nor `"-"`, and it stays free of duplicates and of those two names |
| TableBuilder.DiscoverFirstSeen | main.py:57-59 | the appended names stand in the order in which they first turn up |
| TableBuilder.DiscoverConcat | main.py:57-59 | discovering over two tallies one after the other equals discovering over their keys end to end |
| TableBuilder.DiscoverParties | main.py:57-59 | the loop `for party in votes` computes `Discover` |
| TableBuilder.RowVotes | main.py:62 | the definition of `[votes.get(party, 0) for party in all_party_names]`; characterised through `BuildData` and `PaddedComplete` |
| TableBuilder.Build | main.py:43-63 | the definition of the row loop's result over the listing rows; characterised by `BuildData`, `BuildWidths`, `BuildGrows`, `BuildNames` and `FirstSeenOrder` |
| TableBuilder.ExtractTable | main.py:35-64 | the definition of `extract_data`'s outcome: `NoTables` for a page without tables, otherwise `Build` over its listing rows; characterised through `ExtractData` |
| TableBuilder.BuildData | main.py:43-63 | there is one data row per municipality row, in listing order. Each row holds that row's code, name and three statistics, has no more party cells than there are names, holds in cell k that page's count for the k-th name, and has a cell for every party the page names other than `""` and `"-"` |
| TableBuilder.BuildWidths | main.py:57-63 | the column list is distinct and holds neither `""` nor `"-"`; rows never get shorter along `data`; the last row is exactly as wide as the column list |
| TableBuilder.BuildGrows | main.py:57-63 | `data` and `all_party_names` only ever grow at their ends |
| TableBuilder.BuildNames | main.py:43-59 | the final column list is the discovery loop run over the parties of all municipalities in listing order |
| TableBuilder.FirstSeenOrder | main.py:43-59 | the columns are exactly the parties seen that are neither `""` nor `"-"`, ordered by first appearance across the whole listing |
| TableBuilder.NoLinkRow | main.py:60-63 | a municipality row without a link appends `[code, name, 0, 0, 0, 0, …, 0]` and adds no party |
| TableBuilder.Header | main.py:130 | the definition of the CSV header row: the five fixed labels followed by the party names; characterised by `HeaderLabelsVotes` |
| TableBuilder.HeaderLabelsVotes | main.py:130 | no row is wider than the header, and every vote cell holds the municipality's count for the party named in the header above it |
| TableBuilder.RaggedRows | main.py:57-63 | for every listing prefix that has written a row, that row keeps in the final table exactly as many vote cells as there were columns when it was written, and it is shorter than the final header exactly when a later municipality added a party |
| TableBuilder.RaggedRowsExample | main.py:62-63 | one concrete table in which the first row, written before the second municipality introduces a party, is shorter than the header |
| TableBuilder.PaddedComplete | main.py:62-63 | padded with zeros to the header's width, every row holds in cell k its municipality's count for the k-th party, so each missing cell stands for a count of zero |
| TableBuilder.ExtractData | main.py:35-64 | the nested loops return `NoTables` for a page without tables and otherwise the table `Build` describes |
| TableBuilder.AddTable | main.py:44-63 | the row loop over one table extends the table by that table's rows after the first two |

## Left out

- `validate_arguments` (main.py:15-24) is not modelled: it is command-line handling and process exit.
- `get_soup` (main.py:27-32) is not modelled: the HTTP request, the status check and HTML parsing are replaced by pages given as values.
  - A listing row's results page comes from the map `pages`.
  - District pages are the children of a `Fetched` tree.
  - `Covered` and `Valid` require that every page the program would fetch is present. The exit on a non-200 response is outside the model.
- `save_to_csv` and `main` (main.py:127-146) are not modelled: they are file I/O. Only the header row, `Header`, is modelled.
- The printed error messages are left out. The exit when the listing page has no table is the outcome `NoTables`.
- BeautifulSoup internals are not modelled. A row is the list of its `td` cells, and a cell has its text, its `headers` tokens and the `href`s of its links.
  - `find_all("tr")` on a table is taken to yield that table's rows, so nested tables are not modelled.
  - An anchor without an `href`, which makes `link["href"]` raise at main.py:53, is not modelled.
- `headers` matching (main.py:76) is token membership, because BeautifulSoup splits `headers` into tokens. It is not substring search over the attribute text.
- `str.isdigit` is modelled for ASCII digits only. Python also accepts other Unicode digit characters.
- Fields.ExtractStatByLabel: requires that the matched cell holds a digit string, because `int()` would raise on anything else. Strings that `int()` accepts but that are not plain digit strings, such as `"+5"`, `"-5"` or `"1_000"`, are excluded rather than modelled.
- Fields.ExtractSafeStat: requires that whichever strategy applies finds a number, for the same reason.
- Aggregator.ScrapeSingleDistrict: requires `LeafParses`, meaning all three lookups find numbers, for the same reason.
- Aggregator.ScrapeDetailedData: requires `Valid`. The page tree must be finite and well formed, so neither a link cycle nor an exception is modelled.
- TableBuilder.ExtractData: requires `PagesValid`, meaning every linked results page was fetched from its own address and is well formed.
- Aggregator.AddDistrict: keeps the four running totals as one `Stats` value rather than four variables. It takes the district page fetched from the resolved URL from the tree instead of fetching it.
- The `base_url` argument of `extract_data` is unused in main.py. Municipality links are always prefixed with the fixed site address, with no check for `http` as the composite branch has. The model therefore has no such argument.
